/** What the alias pass leaves in every subquery: qualified tables, each under an alias, and the
    aliases it gives, each once in the whole statement. */
module AliasShapes {
  import opened Wrappers
  import opened SqlValues
  import opened SqlAst
  import opened SqlVisit
  import opened SqlCarry
  import opened SqlScope
  import opened SqlTallies
  import opened AliasTables
  import opened AliasCarries
  import AliasPass

  // --- every table is qualified and aliased --------------------------------------------------

  /** In the FROM of a subquery that is a plain SELECT every table has a schema and an alias. */
  predicate Named(e: Expr, p: Pos) {
    (e.Scalar? || e.Exists? || e.InQuery?) && e.q.body.Select? ==>
      forall i :: 0 <= i < |e.q.body.from| && e.q.body.from[i].factor.Table? ==>
        e.q.body.from[i].factor.schema.Some? && e.q.body.from[i].factor.alias.Some?
  }

  lemma {:induction false} TablesStay(f: Callback, from: seq<FromItem>, k: nat)
    ensures forall i :: 0 <= i < |from| ==>
      var t, t' := from[i].factor, VisitFrom(f, from, k).0[i].factor; t'.Table? == t.Table? && (t.Table? ==> t' == t)
  {
    if from != [] {
      var n := |from| - 1;
      TablesStay(f, from[..n], k);
      var (front, k1) := VisitFrom(f, from[..n], k);
      var last := VisitFromItem(f, from[n], k1).0;
      assert VisitFrom(f, from, k).0 == front + [last];
      assert last.factor == VisitFactor(f, from[n].factor, k1).0;
      FactorStays(f, from[n].factor, k1);
      forall i | 0 <= i < n ensures from[..n][i] == from[i] && (front + [last])[i] == front[i] {
      }
    }
  }

  lemma FactorStays(f: Callback, t: Factor, k: nat)
    ensures VisitFactor(f, t, k).0.Table? == t.Table? && (t.Table? ==> VisitFactor(f, t, k).0 == t)
  {
    match t
    case Table(_, _, _) =>
    case Derived(_, _, _) =>
    case Series(_, _, _) =>
  }

  /** An expression that holds a subquery beside it, or is one. */
  predicate HoldsQuery(e: Expr) {
    e.Scalar? || e.Exists? || e.InQuery?
  }

  /** Where the counter is when the visit comes to the subquery. */
  function QueryAt(f: Callback, e: Expr, k: nat): nat {
    if e.InQuery? then VisitE(f, e.e, k).1 else k
  }

  lemma QueryVisited(f: Callback, e: Expr, k: nat)
    ensures HoldsQuery(VisitKids(f, e, k).0) == HoldsQuery(e)
    ensures HoldsQuery(e) ==> VisitKids(f, e, k).0.q.body == VisitB(f, e.q.body, QueryAt(f, e, k)).0
  {
    match e
    case Scalar(q) =>
    case Exists(q, _) =>
    case InQuery(x, q, _) =>
    case _ =>
  }

  lemma {:induction false} AliasedAre(from: seq<FromItem>, k: nat)
    ensures forall i :: 0 <= i < |from| && AliasFrom(from, k).0[i].factor.Table? ==>
      AliasFrom(from, k).0[i].factor.schema.Some? && AliasFrom(from, k).0[i].factor.alias.Some?
  {
    if from != [] {
      AliasedAre(from[..|from| - 1], k);
    }
  }

  lemma RenamerLeaves(m: Renaming)
    ensures StepCarries(Renamer(m), Named, Named)
  {
    forall e: Expr, k: nat, p: Pos | AllE(Named, e, p) ensures CarriesAt(Renamer(m), Named, e, k, p) {
      QueryVisited(Renamer(m), e, k);
      if HoldsQuery(e) && e.q.body.Select? {
        TablesStay(Renamer(m), e.q.body.from, VisitItems(Renamer(m), e.q.body.proj, QueryAt(Renamer(m), e, k)).1);
      }
      assert HoldsQuery(VisitE(Renamer(m), e, k).0) ==> VisitE(Renamer(m), e, k).0 == VisitKids(Renamer(m), e, k).0;
    }
  }

  lemma QueryNamed(q: Query, k: nat)
    requires AllQ(Named, q)
    ensures AllQ(Named, AliasQuery(q, k).0)
    ensures q.body.Select? ==> AliasQuery(q, k).0.body.Select?
    ensures q.body.Select? ==> forall i :: 0 <= i < |AliasQuery(q, k).0.body.from| && AliasQuery(q, k).0.body.from[i].factor.Table? ==>
      AliasQuery(q, k).0.body.from[i].factor.schema.Some? && AliasQuery(q, k).0.body.from[i].factor.alias.Some?
  {
    if q.body.Select? {
      var m, from := Pairs(q.body.from, k), AliasFrom(q.body.from, k).0;
      RenamerLeaves(m);
      AliasedAre(q.body.from, k);
      TablesStay(Renamer(m), from, VisitItems(Renamer(m), q.body.proj, 0).1);
      assert AliasQuery(q, k).0.body == VisitB(Renamer(m), q.body.(from := from), 0).0;
    }
    QueryCarries(Named, q, k);
  }

  lemma SubqueriesNamed()
    ensures StepCarries(AliasSubqueries, Always, Named)
  {
    forall e: Expr, k: nat, p: Pos | AllE(Always, e, p) ensures CarriesAt(AliasSubqueries, Named, e, k, p) {
      var (kids, k1) := VisitKids(AliasSubqueries, e, k);
      if AllKids(Named, kids, p) && (kids.Scalar? || kids.Exists? || kids.InQuery?) {
        QueryNamed(kids.q, k1);
      }
    }
  }

  lemma CountsUp(e: Expr, k: nat)
    ensures AliasSubqueries(e, k).1 >= k
  {
    StepGrows();
  }

  /** At every depth of the statement the pass returns. */
  lemma EveryTableIsNamed(q: Query)
    ensures AllQ(Named, AliasPass.AliasPass(q))
  {
    SubqueriesNamed();
    forall x: Expr, j: nat ensures AliasSubqueries(x, j).1 >= j {
      CountsUp(x, j);
    }
    AlwaysB(q.body);
    CarryQ(AliasSubqueries, Always, Named, q, 0);
  }

  // --- every alias is given once -------------------------------------------------------------

  /** The aliases of the tables of a FROM clause, None where a table has none. */
  function Aliases(from: seq<FromItem>): multiset<Option<string>> {
    if from == [] then multiset{}
    else
      var t := from[|from| - 1].factor;
      Aliases(from[..|from| - 1]) + if t.Table? then multiset{t.alias} else multiset{}
  }

  /** Those of one subquery; `BagB` adds them up over all subqueries of a tree. */
  function SubqueryAliases(): Expr -> multiset<Option<string>> {
    (e: Expr) => if (e.Scalar? || e.Exists? || e.InQuery?) && e.q.body.Select? then Aliases(e.q.body.from) else multiset{}
  }

  /** How often the pass gives an alias while its counter goes from `i` to `j`. */
  ghost function Gives(i: nat, j: nat, s: string): nat {
    if exists n :: i <= n < j && s == SubName(n) then 1 else 0
  }

  ghost function Given(): Change<Option<string>> {
    (a': multiset<Option<string>>, a: multiset<Option<string>>, i: nat, j: nat) =>
      && i <= j && a'[None] == 0 && a[None] == j - i
      && forall s :: a'[Some(s)] == a[Some(s)] + Gives(i, j, s)
  }

  lemma GivesAdds(i: nat, j: nat, k: nat, s: string)
    requires i <= j <= k
    ensures Gives(i, k, s) == Gives(i, j, s) + Gives(j, k, s)
  {
    if Gives(i, j, s) == 1 && Gives(j, k, s) == 1 {
      var m :| i <= m < j && s == SubName(m);
      var n :| j <= n < k && s == SubName(n);
      SubNameInjective(m, n);
    }
  }

  lemma GivenAdds()
    ensures Adds(Given())
  {
    forall a', a, b', b, i: nat, j: nat, k: nat | Given()(a', a, i, j) && Given()(b', b, j, k)
      ensures Given()(a' + b', a + b, i, k)
    {
      forall s ensures (a' + b')[Some(s)] == (a + b)[Some(s)] + Gives(i, k, s) {
        GivesAdds(i, j, k, s);
      }
    }
  }

  lemma {:induction false} FromGiven(from: seq<FromItem>, k: nat)
    ensures Given()(Aliases(AliasFrom(from, k).0), Aliases(from), k, AliasFrom(from, k).1)
  {
    if from != [] {
      var n := |from| - 1;
      FromGiven(from[..n], k);
      GivenAdds();
      var (front, k1) := AliasFrom(from[..n], k);
      var (t, k2) := AliasFactor(from[n].factor, k1);
      var here := if t.Table? then multiset{t.alias} else multiset{};
      var was := if from[n].factor.Table? then multiset{from[n].factor.alias} else multiset{};
      FactorGiven(from[n].factor, k1, here, was);
      Join(Given(), Aliases(front), Aliases(from[..n]), here, was, k, k1, k2);
      assert (front + [FromItem(from[n].kind, t, from[n].on)])[..n] == front;
    }
  }

  lemma FactorGiven(t: Factor, k: nat, here: multiset<Option<string>>, was: multiset<Option<string>>)
    requires var t' := AliasFactor(t, k).0; here == if t'.Table? then multiset{t'.alias} else multiset{}
    requires was == if t.Table? then multiset{t.alias} else multiset{}
    ensures Given()(here, was, k, AliasFactor(t, k).1)
  {
    forall s ensures here[Some(s)] == was[Some(s)] + Gives(k, AliasFactor(t, k).1, s) {
      if t.Table? && t.alias.None? {
        assert s == SubName(k) ==> Gives(k, k + 1, s) == 1;
      }
    }
  }

  lemma {:induction false} VisitKeepsAliases(f: Callback, from: seq<FromItem>, k: nat)
    ensures Aliases(VisitFrom(f, from, k).0) == Aliases(from)
  {
    if from != [] {
      var n := |from| - 1;
      VisitKeepsAliases(f, from[..n], k);
      var (front, k1) := VisitFrom(f, from[..n], k);
      assert VisitFrom(f, from, k).0[..n] == front;
      assert VisitFactor(f, from[n].factor, k1).0.Table? == from[n].factor.Table?;
    }
  }

  /** The visit to an expression's parts leaves its own FROM's aliases. */
  lemma KidsKeepAliases(f: Callback, e: Expr, k: nat)
    ensures SubqueryAliases()(VisitKids(f, e, k).0) == SubqueryAliases()(e)
  {
    QueryVisited(f, e, k);
    if HoldsQuery(e) && e.q.body.Select? {
      VisitKeepsAliases(f, e.q.body.from, VisitItems(f, e.q.body.proj, QueryAt(f, e, k)).1);
    }
  }

  ghost function Unchanged(): Change<Option<string>> {
    (a': multiset<Option<string>>, a: multiset<Option<string>>, i: nat, j: nat) => a' == a
  }

  lemma RenamerSteps(m: Renaming)
    ensures Steps(Renamer(m), SubqueryAliases(), Unchanged())
  {
    forall e: Expr, k: nat ensures StepsAt(Renamer(m), SubqueryAliases(), Unchanged(), e, k) {
      KidsKeepAliases(Renamer(m), e, k);
      var kids := VisitKids(Renamer(m), e, k).0;
      assert kids.Col? ==> e.Col?;
    }
  }

  lemma {:induction false} AliasedHolds(g: Expr -> multiset<Option<string>>, from: seq<FromItem>, k: nat)
    ensures BagFrom(g, AliasFrom(from, k).0) == BagFrom(g, from)
  {
    if from != [] {
      var n := |from| - 1;
      AliasedHolds(g, from[..n], k);
      var (front, k1) := AliasFrom(from[..n], k);
      var last := FromItem(from[n].kind, AliasFactor(from[n].factor, k1).0, from[n].on);
      assert AliasFrom(from, k).0 == front + [last] && (front + [last])[..n] == front;
      assert BagFactor(g, last.factor) == BagFactor(g, from[n].factor);
    }
  }

  /** Inside a subquery the pass changes nothing of the aliases already there. */
  lemma QueryHolds(q: Query, k: nat)
    ensures BagB(SubqueryAliases(), AliasQuery(q, k).0.body) == BagB(SubqueryAliases(), q.body)
    ensures AliasQuery(q, k).0.body.Select? == q.body.Select?
    ensures q.body.Select? ==> Given()(Aliases(AliasQuery(q, k).0.body.from), Aliases(q.body.from), k, AliasQuery(q, k).1)
    ensures !q.body.Select? ==> AliasQuery(q, k).1 == k
  {
    if q.body.Select? {
      var m, from := Pairs(q.body.from, k), AliasFrom(q.body.from, k).0;
      var aliased := q.body.(from := from);
      AliasedHolds(SubqueryAliases(), q.body.from, k);
      RenamerSteps(m);
      ChangeB(Renamer(m), SubqueryAliases(), Unchanged(), aliased, 0);
      FromGiven(q.body.from, k);
      VisitKeepsAliases(Renamer(m), from, VisitItems(Renamer(m), q.body.proj, 0).1);
      assert AliasQuery(q, k).0.body == VisitB(Renamer(m), aliased, 0).0;
    }
  }

  /** The same expression around another subquery. */
  function With(e: Expr, q: Query): Expr
    requires HoldsQuery(e)
  {
    match e
    case Scalar(_) => Scalar(q)
    case Exists(_, negated) => Exists(q, negated)
    case InQuery(x, _, negated) => InQuery(x, q, negated)
  }

  lemma Answered(e: Expr, q: Query)
    requires HoldsQuery(e) && BagB(SubqueryAliases(), q.body) == BagB(SubqueryAliases(), e.q.body)
    ensures BagKids(SubqueryAliases(), With(e, q)) == BagKids(SubqueryAliases(), e)
  {
  }

  lemma QueryAliased(e: Expr, k: nat)
    requires HoldsQuery(e)
    ensures AliasSubqueries(e, k) == (With(e, AliasQuery(e.q, k).0), AliasQuery(e.q, k).1)
  {
  }

  lemma NodeGiven(e: Expr, k: nat)
    ensures BagKids(SubqueryAliases(), AliasSubqueries(e, k).0) == BagKids(SubqueryAliases(), e)
    ensures Given()(SubqueryAliases()(AliasSubqueries(e, k).0), SubqueryAliases()(e), k, AliasSubqueries(e, k).1)
  {
    if HoldsQuery(e) {
      QueryHolds(e.q, k);
      Answered(e, AliasQuery(e.q, k).0);
      QueryAliased(e, k);
    } else {
      assert AliasSubqueries(e, k) == (e, k) && SubqueryAliases()(e) == multiset{};
    }
  }

  lemma PassSteps()
    ensures Steps(AliasSubqueries, SubqueryAliases(), Given())
  {
    GivenAdds();
    forall e: Expr, k: nat ensures StepsAt(AliasSubqueries, SubqueryAliases(), Given(), e, k) {
      var g := SubqueryAliases();
      var (kids, k1) := VisitKids(AliasSubqueries, e, k);
      var (done, k2) := AliasSubqueries(kids, k1);
      KidsKeepAliases(AliasSubqueries, e, k);
      NodeGiven(kids, k1);
      if Given()(BagKids(g, kids), BagKids(g, e), k, k1) {
        Join(Given(), BagKids(g, kids), BagKids(g, e), g(done), g(e), k, k1, k2);
      }
    }
  }

  /** Over the whole statement, at any depth: no table of a subquery is left without an alias, the
      written aliases stay, and the tables that had none, n of them, get `subq0_t` to the n-th,
      each once. */
  lemma AliasesAreGivenOnce(q: Query)
    ensures var before, after := BagB(SubqueryAliases(), q.body), BagB(SubqueryAliases(), AliasPass.AliasPass(q).body);
      && after[None] == 0
      && forall s :: after[Some(s)] == before[Some(s)] + if exists n :: 0 <= n < before[None] && s == SubName(n) then 1 else 0
  {
    PassSteps();
    ChangeB(AliasSubqueries, SubqueryAliases(), Given(), q.body, 0);
    var n := VisitB(AliasSubqueries, q.body, 0).1;
    assert AliasPass.AliasPass(q).body == VisitB(AliasSubqueries, q.body, 0).0;
    var before := BagB(SubqueryAliases(), q.body);
    assert before[None] == n;
    forall s ensures Gives(0, n, s) == if exists i :: 0 <= i < before[None] && s == SubName(i) then 1 else 0 {
    }
  }
}
