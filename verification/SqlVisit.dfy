/** `sqlparser::ast::visit_expressions_mut`: every expression of a tree is handed to a callback
    child-first, in the order of the tree's fields, and the callback carries a counter along. */
module SqlVisit {
  import opened Wrappers
  import opened SqlValues
  import opened SqlAst

  type Callback = (Expr, nat) -> (Expr, nat)

  function VisitE(f: Callback, e: Expr, k: nat): (Expr, nat)
    decreases e, 1
  {
    var (kids, k1) := VisitKids(f, e, k);
    f(kids, k1)
  }

  function VisitKids(f: Callback, e: Expr, k: nat): (Expr, nat)
    decreases e, 0
  {
    match e
    case Lit(_) => (e, k)
    case Col(_, _) => (e, k)
    case Bare(_) => (e, k)
    case Cmp(op, l, r) =>
      var (l1, k1) := VisitE(f, l, k);
      var (r1, k2) := VisitE(f, r, k1);
      (Cmp(op, l1, r1), k2)
    case And(l, r) =>
      var (l1, k1) := VisitE(f, l, k);
      var (r1, k2) := VisitE(f, r, k1);
      (And(l1, r1), k2)
    case Or(l, r) =>
      var (l1, k1) := VisitE(f, l, k);
      var (r1, k2) := VisitE(f, r, k1);
      (Or(l1, r1), k2)
    case Not(x) =>
      var (x1, k1) := VisitE(f, x, k);
      (Not(x1), k1)
    case Nested(x) =>
      var (x1, k1) := VisitE(f, x, k);
      (Nested(x1), k1)
    case Case(c, t, g) =>
      var (c1, k1) := VisitE(f, c, k);
      var (t1, k2) := VisitE(f, t, k1);
      var (g1, k3) := VisitE(f, g, k2);
      (Case(c1, t1, g1), k3)
    case Call(fn, args) =>
      var (args1, k1) := VisitEs(f, args, k);
      (Call(fn, args1), k1)
    case CountStar => (e, k)
    case Agg(fn, arg) =>
      var (arg1, k1) := VisitE(f, arg, k);
      (Agg(fn, arg1), k1)
    case Tuple(es) =>
      var (es1, k1) := VisitEs(f, es, k);
      (Tuple(es1), k1)
    case Scalar(q) =>
      var (q1, k1) := VisitQ(f, q, k);
      (Scalar(q1), k1)
    case Exists(q, negated) =>
      var (q1, k1) := VisitQ(f, q, k);
      (Exists(q1, negated), k1)
    case InQuery(x, q, negated) =>
      var (x1, k1) := VisitE(f, x, k);
      var (q1, k2) := VisitQ(f, q, k1);
      (InQuery(x1, q1, negated), k2)
    case AnyOf(x, a) =>
      var (x1, k1) := VisitE(f, x, k);
      var (a1, k2) := VisitE(f, a, k1);
      (AnyOf(x1, a1), k2)
    case Index(a, i) =>
      var (a1, k1) := VisitE(f, a, k);
      var (i1, k2) := VisitE(f, i, k1);
      (Index(a1, i1), k2)
  }

  function VisitEs(f: Callback, es: seq<Expr>, k: nat): (r: (seq<Expr>, nat))
    ensures |r.0| == |es|
    decreases es, 0
  {
    if es == [] then ([], k)
    else
      var (e1, k1) := VisitE(f, es[0], k);
      var (rest, k2) := VisitEs(f, es[1..], k1);
      ([e1] + rest, k2)
  }

  function VisitOpt(f: Callback, o: Option<Expr>, k: nat): (Option<Expr>, nat)
    decreases o, 0
  {
    match o
    case None => (None, k)
    case Some(e) =>
      var (e1, k1) := VisitE(f, e, k);
      (Some(e1), k1)
  }

  function VisitQ(f: Callback, q: Query, k: nat): (Query, nat)
    decreases q, 0
  {
    var (b, k1) := VisitB(f, q.body, k);
    (q.(body := b), k1)
  }

  function VisitB(f: Callback, b: Body, k: nat): (Body, nat)
    decreases b, 0
  {
    match b
    case Select(proj, from, selection, groupBy, having, distinct) =>
      var (proj1, k1) := VisitItems(f, proj, k);
      var (from1, k2) := VisitFrom(f, from, k1);
      var (selection1, k3) := VisitOpt(f, selection, k2);
      var (groupBy1, k4) := VisitEs(f, groupBy, k3);
      var (having1, k5) := VisitOpt(f, having, k4);
      (Select(proj1, from1, selection1, groupBy1, having1, distinct), k5)
    case Union(l, r, all) =>
      var (l1, k1) := VisitB(f, l, k);
      var (r1, k2) := VisitB(f, r, k1);
      (Union(l1, r1, all), k2)
    case Paren(q) =>
      var (q1, k1) := VisitQ(f, q, k);
      (Paren(q1), k1)
  }

  function VisitItems(f: Callback, items: seq<Item>, k: nat): (r: (seq<Item>, nat))
    ensures |r.0| == |items|
    decreases items, 0
  {
    if items == [] then ([], k)
    else
      var (i1, k1) := VisitItem(f, items[0], k);
      var (rest, k2) := VisitItems(f, items[1..], k1);
      ([i1] + rest, k2)
  }

  function VisitItem(f: Callback, it: Item, k: nat): (Item, nat)
    decreases it, 0
  {
    match it
    case Wildcard => (it, k)
    case Item(e, alias) =>
      var (e1, k1) := VisitE(f, e, k);
      (Item(e1, alias), k1)
  }

  function VisitFrom(f: Callback, from: seq<FromItem>, k: nat): (r: (seq<FromItem>, nat))
    ensures |r.0| == |from|
    decreases from, 0
  {
    if from == [] then ([], k)
    else
      var (before, k1) := VisitFrom(f, from[..|from| - 1], k);
      var (last, k2) := VisitFromItem(f, from[|from| - 1], k1);
      (before + [last], k2)
  }

  function VisitFromItem(f: Callback, it: FromItem, k: nat): (FromItem, nat)
    decreases it, 0
  {
    var (factor, k1) := VisitFactor(f, it.factor, k);
    var (on, k2) := VisitE(f, it.on, k1);
    (FromItem(it.kind, factor, on), k2)
  }

  function VisitFactor(f: Callback, t: Factor, k: nat): (Factor, nat)
    decreases t, 0
  {
    match t
    case Table(_, _, _) => (t, k)
    case Derived(q, given, lateral) =>
      var (q1, k1) := VisitQ(f, q, k);
      (Derived(q1, given, lateral), k1)
    case Series(lo, hi, given) =>
      var (lo1, k1) := VisitE(f, lo, k);
      var (hi1, k2) := VisitE(f, hi, k1);
      (Series(lo1, hi1, given), k2)
  }

  /** Visiting a body's expressions leaves its clauses in place. */
  lemma VisitKeepsClauses(f: Callback, b: Body, k: nat)
    ensures var v := VisitB(f, b, k).0;
      && v.Select? == b.Select?
      && (b.Select? ==>
        && v.proj == VisitItems(f, b.proj, k).0
        && |v.proj| == |b.proj| && |v.from| == |b.from| && |v.groupBy| == |b.groupBy|
        && v.having.None? == b.having.None? && v.selection.None? == b.selection.None?
        && v.distinct == b.distinct)
  {
    if b.Select? {
      var k2 := VisitFrom(f, b.from, VisitItems(f, b.proj, k).1).1;
      var k3 := VisitOpt(f, b.selection, k2).1;
      var k4 := VisitEs(f, b.groupBy, k3).1;
      assert VisitOpt(f, b.selection, k2).0.None? == b.selection.None?;
      assert VisitOpt(f, b.having, k4).0.None? == b.having.None?;
    }
  }

  lemma VisitKeepsName(f: Callback, t: Factor, k: nat)
    ensures FactorName(VisitFactor(f, t, k).0) == FactorName(t)
  {
    match t
    case Table(_, _, _) =>
    case Derived(_, _, _) =>
    case Series(_, _, _) =>
  }

  /** Visiting leaves the names FROM binds. */
  lemma {:induction false} VisitKeepsNames(f: Callback, from: seq<FromItem>, k: nat)
    ensures forall i :: 0 <= i < |from| ==>
              FactorName(VisitFrom(f, from, k).0[i].factor) == FactorName(from[i].factor)
    ensures Names(VisitFrom(f, from, k).0) == Names(from)
  {
    if from != [] {
      var n := |from| - 1;
      VisitKeepsNames(f, from[..n], k);
      var before := VisitFrom(f, from[..n], k);
      var last := VisitFromItem(f, from[n], before.1).0;
      VisitKeepsName(f, from[n].factor, before.1);
      assert VisitFrom(f, from, k).0 == before.0 + [last];
    }
    var v := VisitFrom(f, from, k).0;
    assert forall i :: 0 <= i < |from| ==> FactorName(v[i].factor) == FactorName(from[i].factor);
  }

  // --- where an expression stands -----------------------------------------------------------

  /** `Truth`: only whether the value is true matters, as for a WHERE condition and the AND/OR
      operands under it. `Exact`: the value itself matters. */
  datatype Pos = Truth | Exact

  /** A condition on one expression in one kind of place. */
  type Check = (Expr, Pos) -> bool

  /** The check holds of every expression of the tree, in the place it stands. */
  predicate AllE(ok: Check, e: Expr, p: Pos)
    decreases e, 1
  {
    ok(e, p) && AllKids(ok, e, p)
  }

  predicate AllKids(ok: Check, e: Expr, p: Pos)
    decreases e, 0
  {
    match e
    case Lit(_) => true
    case Col(_, _) => true
    case Bare(_) => true
    case Cmp(_, l, r) => AllE(ok, l, Exact) && AllE(ok, r, Exact)
    case And(l, r) => AllE(ok, l, p) && AllE(ok, r, p)
    case Or(l, r) => AllE(ok, l, p) && AllE(ok, r, p)
    case Not(x) => AllE(ok, x, Exact)
    case Nested(x) => AllE(ok, x, p)
    case Case(c, t, g) => AllE(ok, c, Truth) && AllE(ok, t, p) && AllE(ok, g, p)
    case Call(_, args) => AllEs(ok, args)
    case CountStar => true
    case Agg(_, arg) => AllE(ok, arg, Exact)
    case Tuple(es) => AllEs(ok, es)
    case Scalar(q) => AllQ(ok, q)
    case Exists(q, _) => AllQ(ok, q)
    case InQuery(x, q, _) => AllE(ok, x, Exact) && AllQ(ok, q)
    case AnyOf(x, a) => AllE(ok, x, Exact) && AllE(ok, a, Exact)
    case Index(a, i) => AllE(ok, a, Exact) && AllE(ok, i, Exact)
  }

  predicate AllEs(ok: Check, es: seq<Expr>)
    decreases es, 0
  {
    es == [] || (AllE(ok, es[0], Exact) && AllEs(ok, es[1..]))
  }

  predicate AllOpt(ok: Check, o: Option<Expr>)
    decreases o, 0
  {
    match o
    case None => true
    case Some(e) => AllE(ok, e, Truth)
  }

  predicate AllQ(ok: Check, q: Query)
    decreases q, 0
  {
    AllB(ok, q.body)
  }

  predicate AllB(ok: Check, b: Body)
    decreases b, 0
  {
    match b
    case Select(proj, from, selection, groupBy, having, _) =>
      && AllItems(ok, proj) && AllFrom(ok, from) && AllOpt(ok, selection)
      && AllEs(ok, groupBy) && AllOpt(ok, having)
    case Union(l, r, _) => AllB(ok, l) && AllB(ok, r)
    case Paren(q) => AllQ(ok, q)
  }

  predicate AllItems(ok: Check, items: seq<Item>)
    decreases items, 0
  {
    items == [] || (AllItem(ok, items[0]) && AllItems(ok, items[1..]))
  }

  predicate AllItem(ok: Check, it: Item)
    decreases it, 0
  {
    match it
    case Wildcard => true
    case Item(e, _) => AllE(ok, e, Exact)
  }

  predicate AllFrom(ok: Check, from: seq<FromItem>)
    decreases from, 0
  {
    from == [] || (AllFrom(ok, from[..|from| - 1]) && AllFromItem(ok, from[|from| - 1]))
  }

  predicate AllFromItem(ok: Check, it: FromItem)
    decreases it, 0
  {
    AllFactor(ok, it.factor) && AllE(ok, it.on, Truth)
  }

  predicate AllFactor(ok: Check, t: Factor)
    decreases t, 0
  {
    match t
    case Table(_, _, _) => true
    case Derived(q, _, _) => AllQ(ok, q)
    case Series(lo, hi, _) => AllE(ok, lo, Exact) && AllE(ok, hi, Exact)
  }
}
