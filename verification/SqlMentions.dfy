/** What a walk over every expression of a tree tells about scope: which references it makes, and
    which names its queries bind. */
module SqlMentions {
  import opened Wrappers
  import opened SqlValues
  import opened SqlAst
  import opened SqlVisit
  import opened SqlScope
  import opened FrameViews

  type RefTest = Ref -> bool

  /** Every reference an expression makes itself passes the test. */
  function Saying(test: RefTest): Check {
    (e: Expr, p: Pos) => (e.Col? ==> test(Ref(e.qual, e.name))) && (e.Bare? ==> test(Whole(e.name)))
  }

  predicate Pass(refs: set<Ref>, test: RefTest) {
    forall r :: r in refs ==> test(r)
  }

  function Outside(names: set<string>): RefTest {
    (r: Ref) => r.qual !in names
  }

  /** No expression names one of these as a qualifier or as a value. */
  function Silent(names: set<string>): Check {
    Saying(Outside(names))
  }

  predicate Avoid(refs: set<Ref>, names: set<string>) {
    Pass(refs, Outside(names))
  }

  lemma {:induction false} SaidE(test: RefTest, e: Expr, p: Pos)
    requires AllE(Saying(test), e, p)
    ensures Pass(FreeE(e), test)
    decreases e, 1
  {
    match e
    case Cmp(_, l, r) => SaidE(test, l, Exact); SaidE(test, r, Exact);
    case And(l, r) => SaidE(test, l, p); SaidE(test, r, p);
    case Or(l, r) => SaidE(test, l, p); SaidE(test, r, p);
    case AnyOf(x, a) => SaidE(test, x, Exact); SaidE(test, a, Exact);
    case Index(a, i) => SaidE(test, a, Exact); SaidE(test, i, Exact);
    case _ => SaidKids(test, e, p);
  }

  lemma {:induction false} SaidKids(test: RefTest, e: Expr, p: Pos)
    requires AllE(Saying(test), e, p) && !e.Cmp? && !e.And? && !e.Or? && !e.AnyOf? && !e.Index?
    ensures Pass(FreeE(e), test)
    decreases e, 0
  {
    match e
    case Not(x) => SaidE(test, x, Exact);
    case Nested(x) => SaidE(test, x, p);
    case Case(c, t, g) => SaidE(test, c, Truth); SaidE(test, t, p); SaidE(test, g, p);
    case Call(_, args) => SaidEs(test, args);
    case Agg(_, arg) => SaidE(test, arg, Exact);
    case Tuple(es) => SaidEs(test, es);
    case Scalar(q) => SaidQ(test, q);
    case Exists(q, _) => SaidQ(test, q);
    case InQuery(x, q, _) => SaidE(test, x, Exact); SaidQ(test, q);
    case _ =>
  }

  lemma {:induction false} SaidQ(test: RefTest, q: Query)
    requires AllQ(Saying(test), q)
    ensures Pass(FreeB(q.body), test)
    decreases q, 0
  {
    SaidB(test, q.body);
  }

  lemma {:induction false} SaidEs(test: RefTest, es: seq<Expr>)
    requires AllEs(Saying(test), es)
    ensures Pass(FreeEs(es), test)
    decreases es, 0
  {
    if es != [] {
      SaidE(test, es[0], Exact);
      SaidEs(test, es[1..]);
    }
  }

  lemma {:induction false} SaidOpt(test: RefTest, o: Option<Expr>)
    requires AllOpt(Saying(test), o)
    ensures Pass(FreeOpt(o), test)
    decreases o, 0
  {
    match o
    case None =>
    case Some(e) => SaidE(test, e, Truth);
  }

  lemma {:induction false} SaidB(test: RefTest, b: Body)
    requires AllB(Saying(test), b)
    ensures Pass(FreeB(b), test)
    decreases b, 1
  {
    match b
    case Select(_, from, _, _, _, _) =>
      SaidFrom(test, from);
      SaidClauses(test, b);
    case Union(l, r, _) => SaidB(test, l); SaidB(test, r);
    case Paren(q) => SaidQ(test, q);
  }

  lemma {:induction false} SaidClauses(test: RefTest, b: Body)
    requires b.Select? && AllB(Saying(test), b)
    ensures Pass(FreeClauses(b), test)
    decreases b, 0
  {
    match b
    case Select(proj, _, selection, groupBy, having, _) =>
      SaidItems(test, proj);
      SaidOpt(test, selection);
      SaidEs(test, groupBy);
      SaidOpt(test, having);
  }

  lemma {:induction false} SaidItems(test: RefTest, items: seq<Item>)
    requires AllItems(Saying(test), items)
    ensures Pass(FreeItems(items), test)
    decreases items, 0
  {
    if items != [] {
      SaidItem(test, items[0]);
      SaidItems(test, items[1..]);
    }
  }

  lemma {:induction false} SaidItem(test: RefTest, it: Item)
    requires AllItem(Saying(test), it)
    ensures Pass(FreeItem(it), test)
    decreases it, 0
  {
    if it.Item? {
      SaidE(test, it.e, Exact);
    }
  }

  lemma {:induction false} SaidFrom(test: RefTest, from: seq<FromItem>)
    requires AllFrom(Saying(test), from)
    ensures Pass(FreeFrom(from), test)
    decreases from, 0
  {
    if from != [] {
      SaidFrom(test, from[..|from| - 1]);
      SaidFromItem(test, from[|from| - 1]);
    }
  }

  lemma {:induction false} SaidFromItem(test: RefTest, it: FromItem)
    requires AllFromItem(Saying(test), it)
    ensures forall before :: Pass(FreeJoined(it, before), test)
    ensures Pass(Uses(it), test)
    decreases it, 0
  {
    SaidFactor(test, it.factor);
    SaidE(test, it.on, Truth);
  }

  lemma {:induction false} SaidFactor(test: RefTest, t: Factor)
    requires AllFactor(Saying(test), t)
    ensures forall before :: Pass(FreeFactor(t, before), test)
    decreases t, 0
  {
    match t
    case Table(_, _, _) =>
    case Derived(q, _, _) => SaidQ(test, q);
    case Series(lo, hi, _) => SaidE(test, lo, Exact); SaidE(test, hi, Exact);
  }

  lemma {:induction false} SilentUses(names: set<string>, from: seq<FromItem>)
    requires forall i :: 0 <= i < |from| ==> AllFromItem(Silent(names), from[i])
    ensures Avoid(AllUses(from), names)
  {
    if from != [] {
      SaidFromItem(Outside(names), from[0]);
      SilentUses(names, from[1..]);
    }
  }

  lemma {:induction false} EachItem(ok: Check, from: seq<FromItem>)
    ensures AllFrom(ok, from) <==> forall i :: 0 <= i < |from| ==> AllFromItem(ok, from[i])
  {
    if from != [] {
      var n := |from| - 1;
      EachItem(ok, from[..n]);
      assert forall i :: 0 <= i < n ==> from[..n][i] == from[i];
    }
  }
}
