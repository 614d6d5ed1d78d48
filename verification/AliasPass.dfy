/** The checks under which the alias pass is a capture-free renaming; each reads the tree as it was
    written, before the pass. */
module AliasChecks {
  import opened Wrappers
  import opened SqlValues
  import opened SqlAst
  import opened SqlEval
  import opened SqlVisit
  import opened SqlScope
  import opened SqlMentions
  import opened SqlBinders
  import opened AliasTables
  import opened AliasedFrom
  import Decimal

  /** A name of the form the pass generates. */
  predicate Generated(x: string) {
    && |x| > 6 && x[..4] == "subq" && x[|x| - 2..] == "_t"
    && forall i :: 4 <= i < |x| - 2 ==> x[i] in Decimal.DIGITS
  }

  lemma SubNameGenerated(k: nat)
    ensures Generated(SubName(k))
  {
    var x := SubName(k);
    assert x[4..|x| - 2] == Decimal.OfNat(k);
    forall i | 4 <= i < |x| - 2 ensures x[i] in Decimal.DIGITS {
      assert x[i] == Decimal.OfNat(k)[i - 4];
    }
  }

  function BareNames(from: seq<FromItem>): set<string> {
    set i | 0 <= i < |from| && Unaliased(from[i]) :: from[i].factor.name
  }

  /** An unqualified table is pg_catalog's, or no table at all. */
  predicate InCatalog(ts: Tables, t: Factor) {
    t.Table? && t.schema.None? ==> ("pg_catalog", t.name) in ts || ("public", t.name) !in ts
  }

  /** A reference that uses no generated name, none of the hidden names, and reads no renamed table
      as a value. */
  function Reaching(bare: set<string>, hidden: set<string>): RefTest {
    (r: Ref) => !Generated(r.qual) && r.qual !in hidden && (r.Whole? ==> r.qual !in bare)
  }

  /** A name that is neither generated nor one the enclosing FROM is about to give up. */
  function Open(bare: set<string>): NameTest {
    (x: string) => !Generated(x) && x !in bare
  }

  /** The names of a query that are still there after the pass. */
  predicate LastingB(test: NameTest, b: Body) {
    match b
    case Select(_, from, _, _, _, _) => LastingFrom(test, from)
    case _ => BoundB(test, b)
  }

  predicate LastingFrom(test: NameTest, from: seq<FromItem>) {
    from == []
    || (LastingFrom(test, from[..|from| - 1]) && (Unaliased(from[|from| - 1]) || BoundItem(test, from[|from| - 1])))
  }

  function Lasting(test: NameTest): Check {
    (e: Expr, p: Pos) => (e.Scalar? || e.Exists? || e.InQuery?) ==> LastingB(test, e.q.body)
  }

  predicate ItemAliasable(ts: Tables, from: seq<FromItem>, i: nat)
    requires i < |from|
  {
    var it, bare := from[i], BareNames(from);
    && InCatalog(ts, it.factor)
    && AllFactor(Saying(Reaching(bare, BareNames(from[SeesTo(it.factor, i)..]))), it.factor)
    && AllE(Saying(Reaching(bare, BareNames(from[i + 1..]))), it.on, Truth)
    && AllFactor(Lasting(Open(bare)), it.factor) && BoundFactor(Open(bare), it.factor)
    && AllE(Lasting(Open(bare)), it.on, Truth)
  }

  /** A condition on every expression of the clauses that see the whole FROM. */
  predicate AllClauses(ok: Check, b: Body)
    requires b.Select?
  {
    AllItems(ok, b.proj) && AllOpt(ok, b.selection) && AllEs(ok, b.groupBy) && AllOpt(ok, b.having)
  }

  predicate BodyAliasable(ts: Tables, b: Body) {
    b.Select? ==>
      && DistinctStrings(OwnNames(b.from))
      && (forall i :: 0 <= i < |b.from| ==> !Generated(OwnNames(b.from)[i]))
      && (forall i :: 0 <= i < |b.from| ==> ItemAliasable(ts, b.from, i))
      && AllClauses(Saying(Reaching(BareNames(b.from), {})), b)
      && AllClauses(Lasting(Open(BareNames(b.from))), b)
  }

  function Aliasable(ts: Tables): Check {
    (e: Expr, p: Pos) => (e.Scalar? || e.Exists? || e.InQuery?) ==> BodyAliasable(ts, e.q.body)
  }
}

/** What the pass leaves of references and names, whatever it has done inside. */
module AliasCarries {
  import opened Wrappers
  import opened SqlValues
  import opened SqlAst
  import opened SqlVisit
  import opened SqlCarry
  import opened SqlScope
  import opened SqlMentions
  import opened SqlBinders
  import opened AliasTables
  import opened AliasChecks

  lemma {:induction false} AliasGrows(from: seq<FromItem>, k: nat)
    ensures AliasFrom(from, k).1 >= k
  {
    if from != [] {
      AliasGrows(from[..|from| - 1], k);
    }
  }

  lemma StepGrows()
    ensures forall e, k :: AliasSubqueries(e, k).1 >= k
  {
    forall e: Expr, k: nat ensures AliasSubqueries(e, k).1 >= k {
      if (e.Scalar? || e.Exists? || e.InQuery?) && e.q.body.Select? {
        AliasGrows(e.q.body.from, k);
      }
    }
  }

  lemma {:induction false} PairsNumbers(from: seq<FromItem>, k: nat, x: string)
    requires x in Pairs(from, k)
    ensures exists n :: k <= n < AliasFrom(from, k).1 && Pairs(from, k)[x] == SubName(n)
  {
    var n := |from| - 1;
    AliasGrows(from[..n], k);
    if x in Pairs(from[..n], k) {
      PairsNumbers(from[..n], k, x);
      var i :| k <= i < AliasFrom(from[..n], k).1 && Pairs(from[..n], k)[x] == SubName(i);
    }
  }

  lemma RenamerCarriesSaying(m: Renaming, test: RefTest)
    requires forall x, c :: x in m ==> test(Ref(m[x], c))
    ensures StepCarries(Renamer(m), Saying(test), Saying(test))
  {
    var f, ok := Renamer(m), Saying(test);
    forall e: Expr, k: nat, p: Pos | AllE(ok, e, p) ensures CarriesAt(f, ok, e, k, p) {
      var kids := VisitKids(f, e, k).0;
      assert kids.Col? == e.Col? && kids.Bare? == e.Bare?;
    }
  }

  lemma RenamerCarriesBinding(m: Renaming, test: NameTest)
    ensures StepCarries(Renamer(m), Binding(test), Binding(test))
  {
    var f, ok := Renamer(m), Binding(test);
    forall e: Expr, k: nat, p: Pos | AllE(ok, e, p) ensures CarriesAt(f, ok, e, k, p) {
      VisitKeepsBinding(f, ok, test, e, k, p);
    }
  }

  lemma VisitKeepsBinding(f: Callback, ok: Check, test: NameTest, e: Expr, k: nat, p: Pos)
    requires ok == Binding(test) && ok(e, p)
    ensures ok(VisitKids(f, e, k).0, p)
  {
    match e
    case Scalar(q) => VisitBinds(f, test, q.body, k);
    case Exists(q, _) => VisitBinds(f, test, q.body, k);
    case InQuery(x, q, _) => VisitBinds(f, test, q.body, VisitE(f, x, k).1);
    case _ =>
  }

  lemma {:induction false} AliasedStill(ok: Check, from: seq<FromItem>, k: nat)
    requires AllFrom(ok, from)
    ensures AllFrom(ok, AliasFrom(from, k).0)
  {
    if from != [] {
      var n := |from| - 1;
      AliasedStill(ok, from[..n], k);
      assert AliasFrom(from, k).0[..n] == AliasFrom(from[..n], k).0;
    }
  }

  /** What the renaming leaves of a check, the whole treatment of a subquery leaves. */
  lemma QueryCarries(ok: Check, q: Query, k: nat)
    requires AllQ(ok, q)
    requires q.body.Select? ==> StepCarries(Renamer(Pairs(q.body.from, k)), ok, ok)
    ensures AllQ(ok, AliasQuery(q, k).0)
  {
    if q.body.Select? {
      var from := AliasFrom(q.body.from, k).0;
      var aliased := q.(body := q.body.(from := from));
      AliasedStill(ok, q.body.from, k);
      assert AllB(ok, aliased.body);
      CarryQ(Renamer(Pairs(q.body.from, k)), ok, ok, aliased, 0);
    }
  }

  lemma SayingQuery(test: RefTest, bound: nat, q: Query, k: nat)
    requires forall n: nat, c :: n < bound ==> test(Ref(SubName(n), c))
    requires AllQ(Saying(test), q) && AliasQuery(q, k).1 <= bound
    ensures AllQ(Saying(test), AliasQuery(q, k).0)
  {
    if q.body.Select? {
      var m := Pairs(q.body.from, k);
      forall x, c | x in m ensures test(Ref(m[x], c)) {
        PairsNumbers(q.body.from, k, x);
      }
      RenamerCarriesSaying(m, test);
    }
    QueryCarries(Saying(test), q, k);
  }

  /** Subqueries only ever lose references, except to the aliases they are given. */
  lemma CarriesSaying(before: RefTest, test: RefTest, bound: nat)
    requires forall r :: before(r) ==> test(r)
    requires forall n: nat, c :: n < bound ==> test(Ref(SubName(n), c))
    ensures StepCarriesTo(AliasSubqueries, Saying(before), Saying(test), bound)
  {
    StepGrows();
    forall e: Expr, k: nat, p: Pos | AllE(Saying(before), e, p)
      ensures CarriesAtTo(AliasSubqueries, Saying(test), bound, e, k, p)
    {
      var (kids, k1) := VisitKids(AliasSubqueries, e, k);
      if VisitE(AliasSubqueries, e, k).1 <= bound && AllKids(Saying(test), kids, p) {
        match kids
        case Scalar(q) => SayingQuery(test, bound, q, k1);
        case Exists(q, _) => SayingQuery(test, bound, q, k1);
        case InQuery(_, q, _) => SayingQuery(test, bound, q, k1);
        case _ => assert kids.Col? || kids.Bare? ==> kids == e;
      }
    }
  }

  // --- names ---------------------------------------------------------------------------------

  lemma {:induction false} AliasBinds(test: NameTest, from: seq<FromItem>, k: nat)
    requires LastingFrom(test, from) && forall n: nat :: n < AliasFrom(from, k).1 ==> test(SubName(n))
    ensures BoundFrom(test, AliasFrom(from, k).0)
  {
    if from != [] {
      var n := |from| - 1;
      var (front, k1) := AliasFrom(from[..n], k);
      var aliased := AliasFrom(from, k).0;
      AliasBinds(test, from[..n], k);
      assert aliased == front + [aliased[n]] && aliased[..n] == front;
      if Unaliased(from[n]) {
        assert FactorName(aliased[n].factor) == SubName(k1);
      } else {
        assert FactorName(aliased[n].factor) == FactorName(from[n].factor);
      }
      assert BoundItem(test, aliased[n]);
    }
  }

  lemma {:induction false} VisitLasts(f: Callback, test: NameTest, from: seq<FromItem>, k: nat)
    ensures LastingFrom(test, VisitFrom(f, from, k).0) == LastingFrom(test, from)
  {
    if from != [] {
      var n := |from| - 1;
      VisitLasts(f, test, from[..n], k);
      var k1 := VisitFrom(f, from[..n], k).1;
      VisitKeepsName(f, from[n].factor, k1);
      VisitBindsFactor(f, test, from[n], k1);
      var visited := VisitFrom(f, from, k).0;
      assert visited[..n] == VisitFrom(f, from[..n], k).0;
      assert visited[n] == VisitFromItem(f, from[n], k1).0;
    }
  }

  /** A query the pass has been through inside and now goes through itself. */
  lemma QueryBinds(before: NameTest, test: NameTest, bound: nat, q: Query, j: nat, k: nat)
    requires forall x :: before(x) ==> test(x)
    requires forall n: nat :: n < bound ==> test(SubName(n))
    requires LastingB(before, q.body)
    ensures var q1 := VisitQ(AliasSubqueries, q, j).0; AliasQuery(q1, k).1 <= bound ==> BoundB(test, AliasQuery(q1, k).0.body)
  {
    WeakerB(before, test, q.body);
    var q1 := VisitQ(AliasSubqueries, q, j).0;
    if q.body.Select? {
      VisitLasts(AliasSubqueries, test, q.body.from, VisitItems(AliasSubqueries, q.body.proj, j).1);
      if AliasQuery(q1, k).1 <= bound {
        AliasBinds(test, q1.body.from, k);
        var aliased := q1.body.(from := AliasFrom(q1.body.from, k).0);
        VisitBinds(Renamer(Pairs(q1.body.from, k)), test, aliased, 0);
      }
    } else {
      VisitBinds(AliasSubqueries, test, q.body, j);
    }
  }

  lemma {:induction false} WeakerB(before: NameTest, test: NameTest, b: Body)
    requires forall x :: before(x) ==> test(x)
    ensures LastingB(before, b) ==> LastingB(test, b)
    ensures BoundB(before, b) ==> BoundB(test, b)
    decreases b, 0
  {
    match b
    case Select(_, from, _, _, _, _) => WeakerFrom(before, test, from);
    case Union(l, r, _) => WeakerB(before, test, l); WeakerB(before, test, r);
    case Paren(q) => WeakerB(before, test, q.body);
  }

  lemma {:induction false} WeakerFrom(before: NameTest, test: NameTest, from: seq<FromItem>)
    requires forall x :: before(x) ==> test(x)
    ensures LastingFrom(before, from) ==> LastingFrom(test, from)
    ensures BoundFrom(before, from) ==> BoundFrom(test, from)
    decreases from, 0
  {
    if from != [] {
      WeakerFrom(before, test, from[..|from| - 1]);
      WeakerItem(before, test, from[|from| - 1]);
    }
  }

  lemma {:induction false} WeakerItem(before: NameTest, test: NameTest, it: FromItem)
    requires forall x :: before(x) ==> test(x)
    ensures BoundItem(before, it) ==> BoundItem(test, it)
    ensures BoundFactor(before, it.factor) ==> BoundFactor(test, it.factor)
    decreases it, 0
  {
    match it.factor
    case Table(_, _, _) =>
    case Derived(q, _, _) =>
      assert it.factor.q == q && BoundFactor(before, it.factor) == BoundB(before, q.body);
      assert BoundFactor(test, it.factor) == BoundB(test, q.body);
      WeakerB(before, test, q.body);
    case Series(_, _, _) =>
  }

  lemma BindingQuery(test: NameTest, q: Query, k: nat)
    requires AllQ(Binding(test), q)
    ensures AllQ(Binding(test), AliasQuery(q, k).0)
  {
    if q.body.Select? {
      RenamerCarriesBinding(Pairs(q.body.from, k), test);
    }
    QueryCarries(Binding(test), q, k);
  }

  /** After the pass the names bound in a subquery are those that last, and generated ones. */
  lemma CarriesBinding(before: NameTest, test: NameTest, bound: nat)
    requires forall x :: before(x) ==> test(x)
    requires forall n: nat :: n < bound ==> test(SubName(n))
    ensures StepCarriesTo(AliasSubqueries, Lasting(before), Binding(test), bound)
  {
    StepGrows();
    forall e: Expr, k: nat, p: Pos | AllE(Lasting(before), e, p)
      ensures CarriesAtTo(AliasSubqueries, Binding(test), bound, e, k, p)
    {
      var (kids, k1) := VisitKids(AliasSubqueries, e, k);
      if VisitE(AliasSubqueries, e, k).1 <= bound && AllKids(Binding(test), kids, p) {
        if e.Scalar? || e.Exists? || e.InQuery? {
          var j := if e.InQuery? then VisitE(AliasSubqueries, e.e, k).1 else k;
          HeldQuery(e, k, j);
          QueryBinds(before, test, bound, e.q, j, k1);
          BindingQuery(test, kids.q, k1);
          HeldDone(kids, k1, Binding(test), p);
        } else {
          HeadKept(e, k);
        }
      }
    }
  }

  lemma HeldQuery(e: Expr, k: nat, j: nat)
    requires (e.Scalar? || e.Exists? || e.InQuery?) && j == if e.InQuery? then VisitE(AliasSubqueries, e.e, k).1 else k
    ensures var kids := VisitKids(AliasSubqueries, e, k).0;
            (kids.Scalar? || kids.Exists? || kids.InQuery?) && kids.q == VisitQ(AliasSubqueries, e.q, j).0
  {
  }

  lemma HeldDone(kids: Expr, k: nat, ok: Check, p: Pos)
    requires kids.Scalar? || kids.Exists? || kids.InQuery?
    requires AllKids(ok, kids, p) && AllQ(ok, AliasQuery(kids.q, k).0)
    ensures var done := AliasSubqueries(kids, k).0;
      && (done.Scalar? || done.Exists? || done.InQuery?) && done.q == AliasQuery(kids.q, k).0 && AllKids(ok, done, p)
  {
  }

  lemma HeadKept(e: Expr, k: nat)
    requires !e.Scalar? && !e.Exists? && !e.InQuery?
    ensures var kids := VisitKids(AliasSubqueries, e, k).0;
      !kids.Scalar? && !kids.Exists? && !kids.InQuery?
  {
  }
}

/** The renaming the pass makes in one subquery. */
module AliasRenaming {
  import opened Wrappers
  import opened SqlValues
  import opened SqlAst
  import opened SqlVisit
  import opened SqlScope
  import opened AliasTables
  import opened AliasChecks
  import opened AliasCarries

  lemma {:induction false} AliasAt(from: seq<FromItem>, k: nat, i: nat)
    requires i < |from|
    ensures AliasFrom(from, k).0[i]
         == FromItem(from[i].kind, AliasFactor(from[i].factor, AliasFrom(from[..i], k).1).0, from[i].on)
    ensures AliasFrom(from[..i + 1], k).1 == AliasFactor(from[i].factor, AliasFrom(from[..i], k).1).1
    ensures AliasFrom(from[..i + 1], k).1 <= AliasFrom(from, k).1
    decreases |from|
  {
    var n := |from| - 1;
    assert from[..i + 1][..i] == from[..i];
    if i < n {
      AliasAt(from[..n], k, i);
      assert from[..n][..i] == from[..i] && from[..n][..i + 1] == from[..i + 1];
    } else {
      assert from[..i + 1] == from;
    }
  }

  /** The generated names grow along the FROM. */
  lemma NumbersGrow(from: seq<FromItem>, k: nat, i: nat, j: nat)
    requires i < j < |from| && Unaliased(from[i])
    ensures AliasFrom(from[..i], k).1 < AliasFrom(from[..j], k).1
  {
    AliasAt(from[..j], k, i);
    assert from[..j][..i] == from[..i] && from[..j][..i + 1] == from[..i + 1];
  }

  lemma NewNameAt(from: seq<FromItem>, k: nat, i: nat)
    requires i < |from|
    ensures NewNames(from, k)[i] == if Unaliased(from[i]) then SubName(AliasFrom(from[..i], k).1) else OwnNames(from)[i]
  {
    AliasAt(from, k, i);
  }

  lemma {:induction false} PairAt(from: seq<FromItem>, k: nat, i: nat)
    requires DistinctStrings(OwnNames(from)) && i < |from|
    ensures OwnNames(from)[i] in Pairs(from, k) <==> Unaliased(from[i])
    ensures Unaliased(from[i]) ==> Pairs(from, k)[OwnNames(from)[i]] == SubName(AliasFrom(from[..i], k).1)
    ensures forall x :: x in Pairs(from, k) ==> x in BareNames(from)
    decreases |from|
  {
    var n := |from| - 1;
    var own := OwnNames(from);
    assert OwnNames(from[..n]) == own[..n];
    if n > 0 {
      PairAt(from[..n], k, if i < n then i else 0);
      assert i < n ==> from[..n][..i] == from[..i];
    }
    BareFront(from);
    assert own[n] !in BareNames(from[..n]) by {
      forall j | 0 <= j < n && Unaliased(from[..n][j]) ensures from[..n][j].factor.name != own[n] {
        assert own[j] != own[n];
      }
    }
    assert own[n] !in Pairs(from[..n], k);
  }

  lemma BareFront(from: seq<FromItem>)
    requires from != []
    ensures var n := |from| - 1;
      BareNames(from) == BareNames(from[..n]) + if Unaliased(from[n]) then {from[n].factor.name} else {}
  {
    var n := |from| - 1;
    forall x | x in BareNames(from)
      ensures x in BareNames(from[..n]) + if Unaliased(from[n]) then {from[n].factor.name} else {}
    {
      var i :| 0 <= i < |from| && Unaliased(from[i]) && from[i].factor.name == x;
      assert i < n ==> from[..n][i] == from[i];
    }
    forall x | x in BareNames(from[..n]) ensures x in BareNames(from) {
      var i :| 0 <= i < n && Unaliased(from[..n][i]) && from[..n][i].factor.name == x;
      assert from[i] == from[..n][i];
    }
  }

  lemma PairsOnlyOwn(from: seq<FromItem>, k: nat)
    requires DistinctStrings(OwnNames(from))
    ensures forall x :: x in Pairs(from, k) ==> x in BareNames(from) && x in OwnNames(from)
  {
    forall x | x in Pairs(from, k) ensures x in BareNames(from) && x in OwnNames(from) {
      if from != [] {
        PairAt(from, k, 0);
      }
      var i :| 0 <= i < |from| && Unaliased(from[i]) && from[i].factor.name == x;
      assert OwnNames(from)[i] == x;
    }
  }

  /** In a FROM with distinct written names that are not of the generated form, the aliases rename
      exactly the unaliased tables, each to a name of its own. */
  lemma AliasesRename(from: seq<FromItem>, k: nat)
    requires DistinctStrings(OwnNames(from)) && forall i :: 0 <= i < |from| ==> !Generated(OwnNames(from)[i])
    ensures Renames(Pairs(from, k), OwnNames(from), NewNames(from, k))
  {
    var own, moved, m := OwnNames(from), NewNames(from, k), Pairs(from, k);
    PairsOnlyOwn(from, k);
    forall i | 0 <= i < |from|
      ensures (own[i] in m ==> moved[i] == m[own[i]]) && (own[i] !in m ==> moved[i] == own[i]) && own[i] !in m.Values
    {
      PairAt(from, k, i);
      NewNameAt(from, k, i);
      forall x | x in m ensures m[x] != own[i] {
        PairsNumbers(from, k, x);
        var n :| k <= n < AliasFrom(from, k).1 && m[x] == SubName(n);
        SubNameGenerated(n);
      }
    }
    forall i, j | 0 <= i < j < |from| ensures moved[i] != moved[j] {
      NewNamesDiffer(from, k, i, j);
    }
  }

  lemma NewNamesDiffer(from: seq<FromItem>, k: nat, i: nat, j: nat)
    requires DistinctStrings(OwnNames(from)) && forall i :: 0 <= i < |from| ==> !Generated(OwnNames(from)[i])
    requires i < j < |from|
    ensures NewNames(from, k)[i] != NewNames(from, k)[j]
  {
    NewNameAt(from, k, i);
    NewNameAt(from, k, j);
    var a, b := AliasFrom(from[..i], k).1, AliasFrom(from[..j], k).1;
    SubNameGenerated(a);
    SubNameGenerated(b);
    if Unaliased(from[i]) && Unaliased(from[j]) {
      NumbersGrow(from, k, i, j);
      if SubName(a) == SubName(b) {
        SubNameInjective(a, b);
      }
    }
  }
}

/** What the checks say once the pass has been through the inside of a subquery. */
module AliasSettles {
  import opened Wrappers
  import opened SqlValues
  import opened SqlAst
  import opened SqlEval
  import opened SqlVisit
  import opened SqlCarry
  import opened SqlScope
  import opened SqlMentions
  import opened SqlBinders
  import opened AliasTables
  import opened AliasedSelect
  import opened AliasedFrom
  import opened AliasChecks
  import opened AliasCarries
  import opened AliasRenaming

  function Settled(bare: set<string>, hidden: set<string>, values: set<string>): RefTest {
    (r: Ref) => r.qual !in values && r.qual !in hidden && (r.Whole? ==> r.qual !in bare)
  }

  function Vacant(bare: set<string>, values: set<string>): NameTest {
    (x: string) => x !in bare && x !in values
  }

  /** Generated names with numbers not yet used. */
  ghost predicate Ahead(values: set<string>, k: nat) {
    forall x :: x in values ==> exists n: nat :: n >= k && x == SubName(n)
  }

  predicate Written(names: set<string>) {
    forall x :: x in names ==> !Generated(x)
  }

  lemma MadeIsVacant(values: set<string>, names: set<string>, k: nat, n: nat)
    requires Ahead(values, k) && Written(names) && n < k
    ensures SubName(n) !in values && SubName(n) !in names
  {
    SubNameGenerated(n);
    if SubName(n) in values {
      var j: nat :| j >= k && SubName(n) == SubName(j);
      SubNameInjective(n, j);
    }
  }

  lemma WrittenIsNotAhead(values: set<string>, k: nat, x: string)
    requires Ahead(values, k) && !Generated(x)
    ensures x !in values
  {
    if x in values {
      var j: nat :| j >= k && x == SubName(j);
      SubNameGenerated(j);
    }
  }

  lemma ReferencesSettle(bare: set<string>, hidden: set<string>, values: set<string>, k: nat)
    requires Ahead(values, k) && Written(hidden)
    ensures StepCarriesTo(AliasSubqueries, Saying(Reaching(bare, hidden)), Saying(Settled(bare, hidden, values)), k)
  {
    forall r | Reaching(bare, hidden)(r) ensures Settled(bare, hidden, values)(r) {
      WrittenIsNotAhead(values, k, r.qual);
    }
    forall n: nat, c | n < k ensures Settled(bare, hidden, values)(Ref(SubName(n), c)) {
      MadeIsVacant(values, hidden, k, n);
    }
    CarriesSaying(Reaching(bare, hidden), Settled(bare, hidden, values), k);
  }

  lemma OpenIsVacant(bare: set<string>, values: set<string>, k: nat)
    requires Ahead(values, k)
    ensures forall x :: Open(bare)(x) ==> Vacant(bare, values)(x)
  {
    forall x | Open(bare)(x) ensures Vacant(bare, values)(x) {
      WrittenIsNotAhead(values, k, x);
    }
  }

  lemma NamesSettle(bare: set<string>, values: set<string>, k: nat)
    requires Ahead(values, k) && Written(bare)
    ensures StepCarriesTo(AliasSubqueries, Lasting(Open(bare)), Binding(Vacant(bare, values)), k)
  {
    OpenIsVacant(bare, values, k);
    forall n: nat | n < k ensures Vacant(bare, values)(SubName(n)) {
      MadeIsVacant(values, bare, k, n);
    }
    CarriesBinding(Open(bare), Vacant(bare, values), k);
  }

  /** An expression of the subquery, once visited. */
  lemma ExprSettles(bare: set<string>, hidden: set<string>, values: set<string>, e: Expr, p: Pos, j: nat, k: nat)
    requires Ahead(values, k) && Written(bare) && Written(hidden)
    requires AllE(Saying(Reaching(bare, hidden)), e, p) && AllE(Lasting(Open(bare)), e, p)
    requires VisitE(AliasSubqueries, e, j).1 <= k
    ensures Pass(FreeE(VisitE(AliasSubqueries, e, j).0), Settled(bare, hidden, values))
    ensures Marked(MarksE(VisitE(AliasSubqueries, e, j).0), Vacant(bare, values))
  {
    var visited := VisitE(AliasSubqueries, e, j).0;
    ReferencesSettle(bare, hidden, values, k);
    NamesSettle(bare, values, k);
    BoundedE(AliasSubqueries, Saying(Reaching(bare, hidden)), Saying(Settled(bare, hidden, values)), k, e, j, p);
    BoundedE(AliasSubqueries, Lasting(Open(bare)), Binding(Vacant(bare, values)), k, e, j, p);
    SaidE(Settled(bare, hidden, values), visited, p);
    BoundE(Vacant(bare, values), visited, p);
  }

  lemma FactorSettles(bare: set<string>, hidden: set<string>, values: set<string>, it: FromItem, j: nat, k: nat)
    requires Ahead(values, k) && Written(bare) && Written(hidden)
    requires AllFactor(Saying(Reaching(bare, hidden)), it.factor) && AllFactor(Lasting(Open(bare)), it.factor)
    requires BoundFactor(Open(bare), it.factor) && VisitFactor(AliasSubqueries, it.factor, j).1 <= k
    ensures Pass(FreeFactor(VisitFactor(AliasSubqueries, it.factor, j).0, {}), Settled(bare, hidden, values))
    ensures Marked(MarksFactor(VisitFactor(AliasSubqueries, it.factor, j).0), Vacant(bare, values))
  {
    var visited := VisitFactor(AliasSubqueries, it.factor, j).0;
    ReferencesSettle(bare, hidden, values, k);
    NamesSettle(bare, values, k);
    BoundedFactor(AliasSubqueries, Saying(Reaching(bare, hidden)), Saying(Settled(bare, hidden, values)), k, it.factor, j);
    BoundedFactor(AliasSubqueries, Lasting(Open(bare)), Binding(Vacant(bare, values)), k, it.factor, j);
    SaidFactor(Settled(bare, hidden, values), visited);
    OpenIsVacant(bare, values, k);
    WeakerItem(Open(bare), Vacant(bare, values), it);
    VisitBindsFactor(AliasSubqueries, Vacant(bare, values), it, j);
    BoundUnder(Vacant(bare, values), visited);
  }

  lemma ClausesSettle(bare: set<string>, values: set<string>, b: Body, j: nat, k: nat)
    requires b.Select? && Ahead(values, k) && Written(bare)
    requires AllClauses(Saying(Reaching(bare, {})), b) && AllClauses(Lasting(Open(bare)), b)
    requires VisitB(AliasSubqueries, b, j).1 <= k
    ensures Pass(FreeClauses(VisitB(AliasSubqueries, b, j).0), Settled(bare, {}, values))
    ensures ClausesMarked(VisitB(AliasSubqueries, b, j).0, Vacant(bare, values))
  {
    ReferencesSettle(bare, {}, values, k);
    NamesSettle(bare, values, k);
    ClausesCarry(Saying(Reaching(bare, {})), Saying(Settled(bare, {}, values)), b, j, k);
    ClausesCarry(Lasting(Open(bare)), Binding(Vacant(bare, values)), b, j, k);
    ClausesSaid(Settled(bare, {}, values), VisitB(AliasSubqueries, b, j).0);
    ClausesBound(Vacant(bare, values), VisitB(AliasSubqueries, b, j).0);
  }

  ghost predicate ClausesMarked(b: Body, test: NameTest)
    requires b.Select?
  {
    && Marked(MarksItems(b.proj), test) && Marked(MarksOpt(b.selection), test)
    && Marked(MarksEs(b.groupBy), test) && Marked(MarksOpt(b.having), test)
  }

  lemma ClausesSaid(test: RefTest, b: Body)
    requires b.Select? && AllClauses(Saying(test), b)
    ensures Pass(FreeClauses(b), test)
  {
    SaidItems(test, b.proj);
    SaidOpt(test, b.selection);
    SaidEs(test, b.groupBy);
    SaidOpt(test, b.having);
  }

  lemma ClausesBound(test: NameTest, b: Body)
    requires b.Select? && AllClauses(Binding(test), b)
    ensures ClausesMarked(b, test)
  {
    BoundItems(test, b.proj);
    BoundOpt(test, b.selection);
    BoundEs(test, b.groupBy);
    BoundOpt(test, b.having);
  }

  /** The counter only grows over a FROM. */
  lemma FromGrows(from: seq<FromItem>, j: nat)
    ensures VisitFrom(AliasSubqueries, from, j).1 >= j
  {
    StepGrows();
    AlwaysFrom(from);
    AlwaysGrows();
    BoundedFrom(AliasSubqueries, Always, Always, 0, from, j);
  }

  lemma ItemGrows(it: FromItem, j: nat)
    ensures VisitFromItem(AliasSubqueries, it, j).1 >= j
  {
    AlwaysFromItem(it);
    AlwaysGrows();
    BoundedFromItem(AliasSubqueries, Always, Always, 0, it, j);
  }

  lemma AlwaysGrows()
    ensures StepCarriesTo(AliasSubqueries, Always, Always, 0)
  {
    StepGrows();
    forall e: Expr, k: nat, p: Pos ensures CarriesAtTo(AliasSubqueries, Always, 0, e, k, p) {
      AlwaysE(VisitE(AliasSubqueries, e, k).0, p);
    }
  }

  lemma ClausesCarry(ok: Check, after: Check, b: Body, j: nat, k: nat)
    requires b.Select? && StepCarriesTo(AliasSubqueries, ok, after, k) && AllClauses(ok, b)
    requires VisitB(AliasSubqueries, b, j).1 <= k
    ensures AllClauses(after, VisitB(AliasSubqueries, b, j).0)
  {
    var f := AliasSubqueries;
    BoundedItems(f, ok, after, k, b.proj, j);
    var k1 := VisitItems(f, b.proj, j).1;
    FromGrows(b.from, k1);
    var k2 := VisitFrom(f, b.from, k1).1;
    BoundedOpt(f, ok, after, k, b.selection, k2);
    var k3 := VisitOpt(f, b.selection, k2).1;
    BoundedEs(f, ok, after, k, b.groupBy, k3);
    BoundedOpt(f, ok, after, k, b.having, VisitEs(f, b.groupBy, k3).1);
  }

  /** Each visited item is the written one, visited at some earlier counter. */
  lemma {:induction false} ItemAt(from: seq<FromItem>, j: nat, i: nat)
    requires i < |from|
    ensures exists k: nat :: VisitFrom(AliasSubqueries, from, j).0[i] == VisitFromItem(AliasSubqueries, from[i], k).0
                        && VisitFromItem(AliasSubqueries, from[i], k).1 <= VisitFrom(AliasSubqueries, from, j).1
    decreases |from|
  {
    var n := |from| - 1;
    var f := AliasSubqueries;
    var k1 := VisitFrom(f, from[..n], j).1;
    if i < n {
      ItemAt(from[..n], j, i);
      assert from[..n][i] == from[i];
      ItemGrows(from[n], k1);
      var k: nat :| VisitFrom(f, from[..n], j).0[i] == VisitFromItem(f, from[i], k).0 && VisitFromItem(f, from[i], k).1 <= k1;
      assert VisitFrom(f, from, j).0[i] == VisitFrom(f, from[..n], j).0[i];
    }
  }

  /** The counter of a body has passed the one of its FROM. */
  lemma FromWithin(b: Body, j: nat)
    requires b.Select?
    ensures VisitFrom(AliasSubqueries, b.from, VisitItems(AliasSubqueries, b.proj, j).1).1 <= VisitB(AliasSubqueries, b, j).1
  {
    var f := AliasSubqueries;
    AlwaysGrows();
    AlwaysB(b);
    var k2 := VisitFrom(f, b.from, VisitItems(f, b.proj, j).1).1;
    BoundedOpt(f, Always, Always, 0, b.selection, k2);
    var k3 := VisitOpt(f, b.selection, k2).1;
    BoundedEs(f, Always, Always, 0, b.groupBy, k3);
    BoundedOpt(f, Always, Always, 0, b.having, VisitEs(f, b.groupBy, k3).1);
  }
}

/** The alias pass keeps the meaning of every statement its checks admit. */
module AliasPass {
  import opened Wrappers
  import opened SqlValues
  import opened SqlAst
  import opened SqlEval
  import opened SqlVisit
  import opened SqlCarry
  import opened SqlCongruence
  import opened SqlScope
  import opened SqlMentions
  import opened SqlBinders
  import opened AliasTables
  import opened AliasedSelect
  import opened AliasedFrom
  import opened AliasChecks
  import opened AliasCarries
  import opened AliasRenaming
  import opened AliasSettles

  /** The whole pass over one statement. */
  function AliasPass(q: Query): Query {
    VisitQ(AliasSubqueries, q, 0).0
  }

  lemma SettledIsCarried(m: Renaming, from: seq<FromItem>, n: nat, refs: set<Ref>)
    requires DistinctStrings(OwnNames(from)) && n <= |from|
    requires forall x :: x in m ==> x in BareNames(from)
    requires Pass(refs, Settled(BareNames(from), BareNames(from[n..]), m.Values))
    ensures Carried(m, OwnNames(from), n, refs)
  {
    var own := OwnNames(from);
    forall r, i | r in refs && n <= i < |own| && own[i] in m ensures r.qual != own[i] {
      var j :| 0 <= j < |from| && Unaliased(from[j]) && from[j].factor.name == own[i];
      assert own[j] == own[i];
      assert from[n..][i - n] == from[i];
      assert own[i] in BareNames(from[n..]);
    }
  }

  lemma VacantIsClear(m: Renaming, bare: set<string>, marks: set<Mark>)
    requires (forall x :: x in m ==> x in bare) && Marked(marks, Vacant(bare, m.Values))
    ensures Clear(m, marks)
  {
  }

  /** The visited FROM binds and leaves unaliased what the written one does. */
  lemma VisitedNames(from: seq<FromItem>, j: nat)
    ensures OwnNames(VisitFrom(AliasSubqueries, from, j).0) == OwnNames(from)
    ensures BareNames(VisitFrom(AliasSubqueries, from, j).0) == BareNames(from)
  {
    var visited := VisitFrom(AliasSubqueries, from, j).0;
    VisitKeepsNames(AliasSubqueries, from, j);
    forall i | 0 <= i < |from| ensures Unaliased(visited[i]) == Unaliased(from[i])
    {
      ItemAt(from, j, i);
      var k: nat :| visited[i] == VisitFromItem(AliasSubqueries, from[i], k).0;
      SameTable(from[i], k);
    }
    forall i | 0 <= i < |from| ensures FactorName(visited[i].factor) == FactorName(from[i].factor) {
    }
    forall x ensures x in BareNames(visited) <==> x in BareNames(from) {
      if x in BareNames(visited) {
        var i :| 0 <= i < |from| && Unaliased(visited[i]) && visited[i].factor.name == x;
        assert Unaliased(from[i]) && FactorName(from[i].factor) == x;
      }
      if x in BareNames(from) {
        var i :| 0 <= i < |from| && Unaliased(from[i]) && from[i].factor.name == x;
        assert Unaliased(visited[i]) && FactorName(visited[i].factor) == x;
      }
    }
  }

  lemma SameTable(it: FromItem, k: nat)
    ensures var v := VisitFromItem(AliasSubqueries, it, k).0;
      && Unaliased(v) == Unaliased(it) && v.factor.Table? == it.factor.Table? && (it.factor.Table? ==> v.factor == it.factor)
      && v.factor.Derived? == it.factor.Derived? && (it.factor.Derived? ==> v.factor.lateral == it.factor.lateral)
      && v.factor == VisitFactor(AliasSubqueries, it.factor, k).0
      && v.on == VisitE(AliasSubqueries, it.on, VisitFactor(AliasSubqueries, it.factor, k).1).0
  {
    match it.factor
    case Table(_, _, _) =>
    case Derived(_, _, _) =>
    case Series(_, _, _) =>
  }

  lemma NamesWritten(from: seq<FromItem>, n: nat)
    requires (forall i :: 0 <= i < |from| ==> !Generated(OwnNames(from)[i])) && n <= |from|
    ensures Written(BareNames(from[n..]))
  {
    forall x | x in BareNames(from[n..]) ensures !Generated(x) {
      var i :| 0 <= i < |from| - n && Unaliased(from[n..][i]) && from[n..][i].factor.name == x;
      assert OwnNames(from)[n + i] == x;
    }
  }

  /** One visited FROM item meets what the renaming needs of it. */
  lemma ItemIsReady(ts: Tables, m: Renaming, from: seq<FromItem>, i: nat, j: nat, k: nat)
    requires DistinctStrings(OwnNames(from)) && (forall n :: 0 <= n < |from| ==> !Generated(OwnNames(from)[n]))
    requires i < |from| && ItemAliasable(ts, from, i)
    requires (forall x :: x in m ==> x in BareNames(from)) && Ahead(m.Values, k)
    requires VisitFromItem(AliasSubqueries, from[i], j).1 <= k
    ensures ItemReady(ts, m, OwnNames(from), i, VisitFromItem(AliasSubqueries, from[i], j).0)
  {
    var it, bare, values := from[i], BareNames(from), m.Values;
    var v := VisitFromItem(AliasSubqueries, it, j).0;
    var sees := SeesTo(it.factor, i);
    assert from[0..] == from;
    NamesWritten(from, 0);
    NamesWritten(from, sees);
    NamesWritten(from, i + 1);
    SameTable(it, j);
    var k1 := VisitFactor(AliasSubqueries, it.factor, j).1;
    ExprCounter(it.on, k1);
    FactorSettles(bare, BareNames(from[sees..]), values, it, j, k);
    ExprSettles(bare, BareNames(from[i + 1..]), values, it.on, Truth, k1, k);
    SettledIsCarried(m, from, sees, FreeFactor(v.factor, {}));
    SettledIsCarried(m, from, i + 1, FreeE(v.on));
    VacantIsClear(m, bare, MarksFactor(v.factor));
    VacantIsClear(m, bare, MarksE(v.on));
  }

  lemma ExprCounter(e: Expr, j: nat)
    ensures VisitE(AliasSubqueries, e, j).1 >= j
  {
    AlwaysE(e, Truth);
    AlwaysGrows();
    BoundedE(AliasSubqueries, Always, Always, 0, e, j, Truth);
  }

  lemma FromIsReady(ts: Tables, m: Renaming, b: Body, j: nat, k: nat)
    requires b.Select? && BodyAliasable(ts, b) && (forall x :: x in m ==> x in BareNames(b.from)) && Ahead(m.Values, k)
    requires VisitB(AliasSubqueries, b, j).1 <= k
    ensures FromReady(ts, m, VisitB(AliasSubqueries, b, j).0.from, OwnNames(b.from))
  {
    var k1 := VisitItems(AliasSubqueries, b.proj, j).1;
    var visited := VisitFrom(AliasSubqueries, b.from, k1).0;
    assert VisitB(AliasSubqueries, b, j).0.from == visited;
    VisitKeepsNames(AliasSubqueries, b.from, k1);
    FromWithin(b, j);
    forall i | 0 <= i < |visited|
      ensures OwnNames(b.from)[i] == FactorName(visited[i].factor) && ItemReady(ts, m, OwnNames(b.from), i, visited[i])
    {
      ItemAt(b.from, k1, i);
      var n: nat :| visited[i] == VisitFromItem(AliasSubqueries, b.from[i], n).0
               && VisitFromItem(AliasSubqueries, b.from[i], n).1 <= VisitFrom(AliasSubqueries, b.from, k1).1;
      ItemIsReady(ts, m, b.from, i, n, k);
    }
  }

  lemma ClausesAreReady(ts: Tables, m: Renaming, b: Body, j: nat, k: nat)
    requires b.Select? && BodyAliasable(ts, b) && (forall x :: x in m ==> x in BareNames(b.from)) && Ahead(m.Values, k)
    requires VisitB(AliasSubqueries, b, j).1 <= k
    ensures var b1 := VisitB(AliasSubqueries, b, j).0;
            ClausesClear(m, b1) && Carried(m, OwnNames(b.from), |b.from|, FreeClauses(b1))
  {
    var bare := BareNames(b.from);
    var b1 := VisitB(AliasSubqueries, b, j).0;
    assert b.from[0..] == b.from && b.from[|b.from|..] == [];
    NamesWritten(b.from, 0);
    assert BareNames([]) == {};
    ClausesSettle(bare, m.Values, b, j, k);
    SettledIsCarried(m, b.from, |b.from|, FreeClauses(b1));
    VacantIsClear(m, bare, MarksItems(b1.proj));
    VacantIsClear(m, bare, MarksOpt(b1.selection));
    VacantIsClear(m, bare, MarksEs(b1.groupBy));
    VacantIsClear(m, bare, MarksOpt(b1.having));
  }

  /** The renamed body beside the one the pass has been through inside. */
  lemma AliasedIsRenamed(m: Renaming, b: Body, from: seq<FromItem>)
    requires b.Select?
    ensures Renamed(m, b, VisitB(Renamer(m), b.(from := from), 0).0)
  {
    var aliased := b.(from := from);
    RenamerShape(m);
    AlwaysB(aliased);
    ShapeSelect(Renamer(m), Always, aliased, 0);
    RenamedClauses(m, aliased, b);
  }

  lemma RenamedClauses(m: Renaming, aliased: Body, b: Body)
    requires aliased.Select? && b.Select? && aliased == b.(from := aliased.from)
    requires Aggregated(VisitB(Renamer(m), aliased, 0).0) == Aggregated(aliased)
    ensures Renamed(m, b, VisitB(Renamer(m), aliased, 0).0)
  {
    var f := Renamer(m);
    var c := VisitB(f, aliased, 0).0;
    VisitKeepsClauses(f, aliased, 0);
    var k1 := VisitItems(f, aliased.proj, 0).1;
    var k2 := VisitFrom(f, aliased.from, k1).1;
    var (selection, k3) := VisitOpt(f, aliased.selection, k2);
    var (groupBy, k4) := VisitEs(f, aliased.groupBy, k3);
    var having := VisitOpt(f, aliased.having, k4).0;
    assert c.selection == selection && c.groupBy == groupBy && c.having == having;
    assert b.selection.Some? ==> c.selection.value == VisitE(f, b.selection.value, k2).0;
    assert b.having.Some? ==> c.having.value == VisitE(f, b.having.value, k4).0;
    assert c.proj == VisitItems(f, b.proj, 0).0;
    assert c.groupBy == VisitEs(f, b.groupBy, k3).0;
    assert Aggregated(aliased) == Aggregated(b);
  }

  /** What the written subquery's checks give: a renaming that fits the FROM as the pass meets it. */
  lemma RenamingFits(ts: Tables, b: Body, j: nat, k: nat)
    requires b.Select? && BodyAliasable(ts, b) && VisitB(AliasSubqueries, b, j).1 <= k
    ensures var b1 := VisitB(AliasSubqueries, b, j).0;
            var m := Pairs(b1.from, k);
      && OwnNames(b1.from) == OwnNames(b.from)
      && Fit(m, OwnNames(b1.from), NewNames(b1.from, k), FreeClauses(b1))
      && FromReady(ts, m, b1.from, OwnNames(b1.from)) && ClausesClear(m, b1)
  {
    var b1 := VisitB(AliasSubqueries, b, j).0;
    var m := Pairs(b1.from, k);
    VisitedNames(b.from, VisitItems(AliasSubqueries, b.proj, j).1);
    assert b1.from == VisitFrom(AliasSubqueries, b.from, VisitItems(AliasSubqueries, b.proj, j).1).0;
    AliasesRename(b1.from, k);
    PairsOnlyOwn(b1.from, k);
    forall x | x in m.Values ensures exists n: nat :: n >= k && x == SubName(n) {
      var y :| y in m && m[y] == x;
      PairsNumbers(b1.from, k, y);
    }
    FromIsReady(ts, m, b, j, k);
    ClausesAreReady(ts, m, b, j, k);
  }

  lemma FramesBound(w: World, from: seq<FromItem>, env: Env)
    requires EvalFrom(w, from, env).Ok?
    ensures Framed(EvalFrom(w, from, env).value, OwnNames(from))
  {
    FromBinds(w, from, env);
    var frames := EvalFrom(w, from, env).value;
    forall i | 0 <= i < |frames| ensures |frames[i]| == |OwnNames(from)| && Quals(frames[i], OwnNames(from)) {
      assert Binds(frames[i], from);
    }
  }

  /** Renaming a body that fits keeps its rows. */
  lemma BodyKeeps(w: World, b: Body, k: nat, env: Env)
    requires b.Select?
    requires var m := Pairs(b.from, k);
      && Fit(m, OwnNames(b.from), NewNames(b.from, k), FreeClauses(b))
      && FromReady(w.tables, m, b.from, OwnNames(b.from)) && ClausesClear(m, b)
    ensures var m := Pairs(b.from, k);
            EvalB(w, VisitB(Renamer(m), b.(from := AliasFrom(b.from, k).0), 0).0, env) == EvalB(w, b, env)
  {
    var m, own, moved := Pairs(b.from, k), OwnNames(b.from), NewNames(b.from, k);
    var aliased := AliasFrom(b.from, k).0;
    var c := VisitB(Renamer(m), b.(from := aliased), 0).0;
    AliasedIsRenamed(m, b, aliased);
    var k1 := VisitItems(Renamer(m), b.proj, 0).1;
    assert c.from == VisitFrom(Renamer(m), aliased, k1).0;
    VisitKeepsNames(Renamer(m), aliased, k1);
    assert OwnNames(c.from) == moved;
    FromMoves(w, m, own, moved, b.from, k, k1, env);
    var frames := EvalFrom(w, b.from, env);
    if frames.Ok? {
      FramesBound(w, b.from, env);
      SelectMoves(w, m, b, c, frames.value, env);
    } else {
      NoSource(w, b, env);
      NoSource(w, c, env);
    }
  }

  lemma NoSource(w: World, b: Body, env: Env)
    requires b.Select? && EvalFrom(w, b.from, env).Error?
    ensures EvalB(w, b, env) == Error
  {
  }

  /** A subquery keeps its rows when the pass reaches it, whatever number the counter has come to. */
  lemma SubqueryKeeps(w: World, q: Query, j: nat, k: nat, env: Env)
    requires BodyAliasable(w.tables, q.body) && VisitQ(AliasSubqueries, q, j).1 <= k
    ensures var q1 := VisitQ(AliasSubqueries, q, j).0;
            EvalQ(w, AliasQuery(q1, k).0, env) == EvalQ(w, q1, env)
  {
    if q.body.Select? {
      RenamingFits(w.tables, q.body, j, k);
      var b1 := VisitB(AliasSubqueries, q.body, j).0;
      BodyKeeps(w, b1, k, env);
      AliasedBody(q.(body := b1), k);
      SameWindow(w, q.(body := b1), AliasQuery(q.(body := b1), k).0, env);
    }
  }

  lemma AliasedBody(q: Query, k: nat)
    requires q.body.Select?
    ensures AliasQuery(q, k).0
         == q.(body := VisitB(Renamer(Pairs(q.body.from, k)), q.body.(from := AliasFrom(q.body.from, k).0), 0).0)
  {
  }

  lemma SameWindow(w: World, a: Query, b: Query, env: Env)
    requires b == a.(body := b.body) && EvalB(w, b.body, env) == EvalB(w, a.body, env)
    ensures EvalQ(w, b, env) == EvalQ(w, a, env)
  {
  }

  lemma HeldKeeps(w: World, e: Expr, k: nat, s: Scope)
    requires (e.Scalar? || e.Exists? || e.InQuery?) && BodyAliasable(w.tables, e.q.body)
    ensures EvalE(w, VisitE(AliasSubqueries, e, k).0, s) == EvalE(w, VisitKids(AliasSubqueries, e, k).0, s)
  {
    var (kids, k1) := VisitKids(AliasSubqueries, e, k);
    var j := if e.InQuery? then VisitE(AliasSubqueries, e.e, k).1 else k;
    HeldQuery(e, k, j);
    assert k1 == VisitQ(AliasSubqueries, e.q, j).1;
    SubqueryKeeps(w, e.q, j, k1, s.env);
  }

  /** Each single step of the pass keeps the value of the expression it is handed. */
  lemma StepKeeps(w: World)
    ensures StepSound(w, AliasSubqueries, Aliasable(w.tables))
  {
    var f, ok := AliasSubqueries, Aliasable(w.tables);
    forall e: Expr, k: nat, p: Pos | AllE(ok, e, p) ensures StepShapeAt(f, e, k, p) && StepSoundAt(w, f, e, k, p) {
      StepHead(e, k, p);
      forall s ensures RefinesAt(w, p, VisitKids(f, e, k).0, VisitE(f, e, k).0, s) {
        StepValue(w, e, k, p, s);
      }
    }
  }

  lemma StepHead(e: Expr, k: nat, p: Pos)
    ensures StepShapeAt(AliasSubqueries, e, k, p)
  {
  }

  lemma StepValue(w: World, e: Expr, k: nat, p: Pos, s: Scope)
    requires Aliasable(w.tables)(e, p)
    ensures RefinesAt(w, p, VisitKids(AliasSubqueries, e, k).0, VisitE(AliasSubqueries, e, k).0, s)
  {
    var kids, done := VisitKids(AliasSubqueries, e, k).0, VisitE(AliasSubqueries, e, k).0;
    if e.Scalar? || e.Exists? || e.InQuery? {
      HeldKeeps(w, e, k, s);
      PlainCond(w, kids, s);
      PlainCond(w, done, s);
    } else {
      HeadKept(e, k);
      assert done == kids;
    }
  }

  /** Main theorem: a statement whose subqueries meet the checks answers the same rows after the
      pass, at every nesting depth and with one counter over all of them. */
  lemma AliasPassKeepsMeaning(w: World, q: Query, env: Env)
    requires AllQ(Aliasable(w.tables), q) && EvalQ(w, q, env).Ok?
    ensures EvalQ(w, AliasPass(q), env) == EvalQ(w, q, env)
  {
    StepKeeps(w);
    VisitSoundQ(w, AliasSubqueries, Aliasable(w.tables), q, 0, env);
  }
}

/** Statements outside the checks, and what the pass makes of them. */
module AliasCaptures {
  import opened Wrappers
  import opened SqlValues
  import opened SqlAst
  import opened SqlEval
  import opened SqlVisit
  import opened SqlScope
  import opened AliasTables

  /** SELECT e FROM t */
  function Pick(e: Expr, t: Factor): Query {
    Query(Select([Item(e, None)], [FromItem(Comma, t, TrueLit)], None, [], None, false), None, 0, 0)
  }

  function One(n: int): Relation {
    Relation(["c"], [[Cell("c", Int(n))]])
  }

  lemma OneFrom(w: World, t: Factor, n: int, env: Env)
    requires t.Table? && TableOf(w.tables, t.schema, t.name) == Ok(One(n))
    ensures EvalFrom(w, [FromItem(Comma, t, TrueLit)], env) == Ok([[Bound(FactorName(t), [Cell("c", Int(n))])]])
  {
    var it, rec, name := FromItem(Comma, t, TrueLit), [Cell("c", Int(n))], FactorName(t);
    MatchingStep(w, TrueLit, name, [rec], [], env);
    assert [rec][1..] == [] && Matching(w, TrueLit, name, [], [], env) == Ok([]);
    assert [] + [Bound(name, rec)] == [Bound(name, rec)] && [[Bound(name, rec)]] + [] == [[Bound(name, rec)]];
    assert JoinOne(w, it, [], env) == Ok([[Bound(name, rec)]]);
    var none: seq<Frame> := [[]];
    assert none[1..] == [] && [it][..0] == [];
    assert EvalFrom(w, [], env) == Ok([[]]) && JoinAll(w, it, [], env) == Ok([]);
  }

  lemma PickOne(w: World, e: Expr, t: Factor, n: int, env: Env, v: Value)
    requires t.Table? && TableOf(w.tables, t.schema, t.name) == Ok(One(n)) && !HasAgg(e)
    requires EvalE(w, e, Scope(Push(env, [Bound(FactorName(t), [Cell("c", Int(n))])]), None)) == Ok(v)
    ensures EvalQ(w, Pick(e, t), env) == Ok([[Cell(OutName(e), v)]])
  {
    var q := Pick(e, t);
    var f := [Bound(FactorName(t), [Cell("c", Int(n))])];
    OneFrom(w, t, n, env);
    OneItem(w, q.body.proj, f, Scope(Push(env, f), None));
    var row := [Cell(OutName(e), v)];
    assert EvalItem(w, q.body.proj[0], f, Scope(Push(env, f), None)) == Ok(row);
    assert [f][1..] == [] && EvalRows(w, q.body.proj, [], env) == Ok([]) && [row] + [] == [row];
    assert EvalRows(w, q.body.proj, [f], env) == Ok([row]);
    SourceOf(w, q.body, [f], env);
    PlainSelect(w, q.body, env);
  }

  lemma ScalarPick(w: World, e: Expr, t: Factor, n: int, s: Scope, v: Value)
    requires t.Table? && TableOf(w.tables, t.schema, t.name) == Ok(One(n)) && !HasAgg(e)
    requires EvalE(w, e, Scope(Push(s.env, [Bound(FactorName(t), [Cell("c", Int(n))])]), None)) == Ok(v)
    ensures EvalE(w, Scalar(Pick(e, t)), s) == Ok(v)
  {
    PickOne(w, e, t, n, s.env, v);
    ScalarRow(w, Pick(e, t), s, Cell(OutName(e), v));
  }

  lemma ScalarRow(w: World, q: Query, s: Scope, cell: Cell)
    requires EvalQ(w, q, s.env) == Ok([[cell]])
    ensures EvalE(w, Scalar(q), s) == Ok(cell.v)
  {
    assert ScalarOf([[cell]]) == Ok(cell.v);
  }

  /** SELECT (SELECT t.c FROM u t) FROM t, a subquery of some statement. */
  function Shadowing(): Expr {
    Scalar(Pick(Scalar(Pick(Col("t", "c"), Table(Some("pg_catalog"), "u", Some("t")))), Table(Some("pg_catalog"), "t", None)))
  }

  function Captured(): Expr {
    var x := SubName(0);
    Scalar(Pick(Scalar(Pick(Col(x, "c"), Table(Some("pg_catalog"), "u", Some("t")))), Table(Some("pg_catalog"), "t", Some(x))))
  }

  lemma Sees(env: Env, x: string, n: int)
    ensures Look(Push(env, [Bound(x, [Cell("c", Int(n))])]), x, "c") == Ok(Int(n))
  {
    var b := Bound(x, [Cell("c", Int(n))]);
    assert [] + [b] == [b];
    PushOne(env, [], b);
  }

  /** An alias inside that reuses an enclosing table's name captures what the pass renames: here t
      has 1 and u has 2 as its only c. */
  lemma InnerAliasCaptures(w: World, s: Scope)
    requires TableOf(w.tables, Some("pg_catalog"), "t") == Ok(One(1)) && TableOf(w.tables, Some("pg_catalog"), "u") == Ok(One(2))
    ensures EvalE(w, Shadowing(), s) == Ok(Int(2)) && EvalE(w, Captured(), s) == Ok(Int(1))
    ensures VisitE(AliasSubqueries, Shadowing(), 0) == (Captured(), 1)
  {
    ShadowingReadsInner(w, s);
    CapturedReadsOuter(w, s);
    PassCaptures();
  }

  lemma ShadowingReadsInner(w: World, s: Scope)
    requires TableOf(w.tables, Some("pg_catalog"), "t") == Ok(One(1)) && TableOf(w.tables, Some("pg_catalog"), "u") == Ok(One(2))
    ensures EvalE(w, Shadowing(), s) == Ok(Int(2))
  {
    var u, t := Table(Some("pg_catalog"), "u", Some("t")), Table(Some("pg_catalog"), "t", None);
    var inner := Scope(Push(s.env, [Bound("t", [Cell("c", Int(1))])]), None);
    Sees(inner.env, "t", 2);
    ScalarPick(w, Col("t", "c"), u, 2, inner, Int(2));
    ScalarPick(w, Scalar(Pick(Col("t", "c"), u)), t, 1, s, Int(2));
  }

  lemma CapturedReadsOuter(w: World, s: Scope)
    requires TableOf(w.tables, Some("pg_catalog"), "t") == Ok(One(1)) && TableOf(w.tables, Some("pg_catalog"), "u") == Ok(One(2))
    ensures EvalE(w, Captured(), s) == Ok(Int(1))
  {
    var x := SubName(0);
    var u, t := Table(Some("pg_catalog"), "u", Some("t")), Table(Some("pg_catalog"), "t", Some(x));
    var inner := Scope(Push(s.env, [Bound(x, [Cell("c", Int(1))])]), None);
    Sees(s.env, x, 1);
    assert x[0] == 's' && "t"[0] == 't';
    SeesPast(inner.env, x, "t", 2);
    ScalarPick(w, Col(x, "c"), u, 2, inner, Int(1));
    ScalarPick(w, Scalar(Pick(Col(x, "c"), u)), t, 1, s, Int(1));
  }

  lemma SeesPast(env: Env, x: string, y: string, n: int)
    requires x != y
    ensures Look(Push(env, [Bound(y, [Cell("c", Int(n))])]), x, "c") == Look(env, x, "c")
  {
    var b := Bound(y, [Cell("c", Int(n))]);
    assert [] + [b] == [b];
    PushOne(env, [], b);
  }

  lemma VisitPick(f: Callback, e: Expr, t: Factor, k: nat)
    requires t.Table? && f(TrueLit, VisitE(f, e, k).1) == (TrueLit, VisitE(f, e, k).1)
    ensures VisitQ(f, Pick(e, t), k) == (Pick(VisitE(f, e, k).0, t), VisitE(f, e, k).1)
  {
    var b := Pick(e, t).body;
    var k1 := VisitE(f, e, k).1;
    assert b.proj[1..] == [] && [b.from[0]][..0] == [];
    assert VisitItems(f, b.proj, k) == ([Item(VisitE(f, e, k).0, None)] + [], k1);
    assert VisitE(f, TrueLit, k1) == (TrueLit, k1);
    assert VisitFromItem(f, b.from[0], k1) == (b.from[0], k1) && VisitFrom(f, [], k1) == ([], k1);
    assert b.from[..|b.from| - 1] == [] && VisitFrom(f, b.from, k1) == ([] + [b.from[0]], k1);
    assert [] + [b.from[0]] == b.from;
    assert VisitEs(f, [], k1) == ([], k1) && VisitOpt(f, None, k1) == (None, k1);
    assert VisitItems(f, b.proj, k).0 == [Item(VisitE(f, e, k).0, None)];
    assert VisitB(f, b, k) == (Pick(VisitE(f, e, k).0, t).body, k1);
  }

  lemma PassCaptures()
    ensures VisitE(AliasSubqueries, Shadowing(), 0) == (Captured(), 1)
  {
    var x := SubName(0);
    var u, t := Table(Some("pg_catalog"), "u", Some("t")), Table(Some("pg_catalog"), "t", None);
    var ref, inner := Col("t", "c"), Pick(Col("t", "c"), u);
    VisitPick(AliasSubqueries, ref, u, 0);
    AliasOne(u, 0);
    VisitPick(Renamer(map[]), ref, u, 0);
    assert VisitE(AliasSubqueries, Scalar(inner), 0) == (Scalar(inner), 0);
    VisitPick(AliasSubqueries, Scalar(inner), t, 0);
    AliasOne(t, 0);
    var m := map["t" := x];
    VisitPick(Renamer(m), ref, u, 0);
    VisitPick(Renamer(m), Scalar(inner), t.(alias := Some(x)), 0);
    var middle := Pick(Scalar(inner), t);
    assert middle.(body := middle.body.(from := [FromItem(Comma, t.(alias := Some(x)), TrueLit)])) == Pick(Scalar(inner), t.(alias := Some(x)));
    assert AliasQuery(middle, 0) == (Captured().q, 1);
  }

  lemma AliasOne(t: Factor, k: nat)
    requires t.Table? && t.schema == Some("pg_catalog")
    ensures var from := [FromItem(Comma, t, TrueLit)];
      && AliasFrom(from, k) == ([FromItem(Comma, if t.alias.Some? then t else t.(alias := Some(SubName(k))), TrueLit)], if t.alias.Some? then k else k + 1)
      && Pairs(from, k) == if t.alias.Some? then map[] else map[t.name := SubName(k)]
  {
    var from := [FromItem(Comma, t, TrueLit)];
    assert from[..|from| - 1] == [];
    assert AliasFrom([], k) == ([], k) && Pairs([], k) == map[];
    var factor := if t.alias.Some? then t else t.(alias := Some(SubName(k)));
    assert AliasFactor(t, k) == (factor, if t.alias.Some? then k else k + 1);
    assert [] + [FromItem(Comma, factor, TrueLit)] == [FromItem(Comma, factor, TrueLit)];
  }

  /** A table that only the public schema has is lost: the pass asks pg_catalog for it. */
  lemma OtherSchemaIsLost(w: World, name: string, s: Scope)
    requires ("pg_catalog", name) !in w.tables && ("public", name) in w.tables && w.tables[("public", name)] == One(1)
    ensures var e := Scalar(Pick(Lit(Int(7)), Table(None, name, None)));
      EvalE(w, e, s) == Ok(Int(7)) && EvalE(w, VisitE(AliasSubqueries, e, 0).0, s) == Error
  {
    var t := Table(None, name, None);
    var q := Pick(Lit(Int(7)), t);
    PickOne(w, Lit(Int(7)), t, 1, s.env, Int(7));
    VisitPick(AliasSubqueries, Lit(Int(7)), t, 0);
    var from := AliasFrom(q.body.from, 0).0;
    var m := Pairs(q.body.from, 0);
    assert q.body.from[..0] == [];
    var lost := Table(Some("pg_catalog"), name, Some(SubName(0)));
    assert from == [FromItem(Comma, lost, TrueLit)];
    VisitPick(Renamer(m), Lit(Int(7)), lost, 0);
    assert q.(body := q.body.(from := from)) == Pick(Lit(Int(7)), lost);
    NoTable(w, lost, s.env);
  }

  lemma NoTable(w: World, t: Factor, env: Env)
    requires t.Table? && TableOf(w.tables, t.schema, t.name).Error?
    ensures EvalQ(w, Pick(Lit(Int(7)), t), env) == Error
  {
    var it := FromItem(Comma, t, TrueLit);
    var start: seq<Frame> := [[]];
    assert [it][..0] == [] && EvalFrom(w, [], env) == Ok(start);
    assert start[0] == [] && EvalFactor(w, t, [], env) == Error;
    assert JoinOne(w, it, [], env) == Error && JoinAll(w, it, start, env) == Error;
    assert EvalFrom(w, [it], env) == Error;
    var b := Pick(Lit(Int(7)), t).body;
    assert b.Select? && Source(w, b, env) == Error && EvalB(w, b, env) == Error;
  }
}
