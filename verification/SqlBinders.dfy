/** Which names the queries of a tree bind, read off the walk over every expression. */
module SqlBinders {
  import opened Wrappers
  import opened SqlValues
  import opened SqlAst
  import opened SqlVisit
  import opened SqlScope

  type NameTest = string -> bool

  // --- the names a query binds outside its expressions ---------------------------------------

  predicate BoundB(test: NameTest, b: Body)
    decreases b, 0
  {
    match b
    case Select(_, from, _, _, _, _) => BoundFrom(test, from)
    case Union(l, r, _) => BoundB(test, l) && BoundB(test, r)
    case Paren(q) => BoundB(test, q.body)
  }

  predicate BoundFrom(test: NameTest, from: seq<FromItem>)
    decreases from, 0
  {
    from == [] || (BoundFrom(test, from[..|from| - 1]) && BoundItem(test, from[|from| - 1]))
  }

  predicate BoundItem(test: NameTest, it: FromItem)
    decreases it, 0
  {
    test(FactorName(it.factor)) && BoundFactor(test, it.factor)
  }

  predicate BoundFactor(test: NameTest, t: Factor)
    decreases t, 0
  {
    t.Derived? ==> BoundB(test, t.q.body)
  }

  /** Every name bound by the queries an expression holds passes the test. */
  function Binding(test: NameTest): Check {
    (e: Expr, p: Pos) => (e.Scalar? || e.Exists? || e.InQuery?) ==> BoundB(test, e.q.body)
  }

  ghost predicate Marked(marks: set<Mark>, test: NameTest) {
    forall x :: Binder(x) in marks ==> test(x)
  }

  lemma {:induction false} BoundE(test: NameTest, e: Expr, p: Pos)
    requires AllE(Binding(test), e, p)
    ensures Marked(MarksE(e), test)
    decreases e, 1
  {
    match e
    case Cmp(_, l, r) => BoundE(test, l, Exact); BoundE(test, r, Exact);
    case And(l, r) => BoundE(test, l, p); BoundE(test, r, p);
    case Or(l, r) => BoundE(test, l, p); BoundE(test, r, p);
    case AnyOf(x, a) => BoundE(test, x, Exact); BoundE(test, a, Exact);
    case Index(a, i) => BoundE(test, a, Exact); BoundE(test, i, Exact);
    case _ => BoundKids(test, e, p);
  }

  lemma {:induction false} BoundKids(test: NameTest, e: Expr, p: Pos)
    requires AllE(Binding(test), e, p) && !e.Cmp? && !e.And? && !e.Or? && !e.AnyOf? && !e.Index?
    ensures Marked(MarksE(e), test)
    decreases e, 0
  {
    match e
    case Not(x) => BoundE(test, x, Exact);
    case Nested(x) => BoundE(test, x, p);
    case Case(c, t, g) => BoundE(test, c, Truth); BoundE(test, t, p); BoundE(test, g, p);
    case Call(_, args) => BoundEs(test, args);
    case Agg(_, arg) => BoundE(test, arg, Exact);
    case Tuple(es) => BoundEs(test, es);
    case Scalar(q) => BoundQ(test, q);
    case Exists(q, _) => BoundQ(test, q);
    case InQuery(x, q, _) => BoundE(test, x, Exact); BoundQ(test, q);
    case _ =>
  }

  lemma {:induction false} BoundQ(test: NameTest, q: Query)
    requires AllQ(Binding(test), q) && BoundB(test, q.body)
    ensures Marked(MarksQ(q), test)
    decreases q, 0
  {
    BoundBody(test, q.body);
  }

  lemma {:induction false} BoundEs(test: NameTest, es: seq<Expr>)
    requires AllEs(Binding(test), es)
    ensures Marked(MarksEs(es), test)
    decreases es, 0
  {
    if es != [] {
      BoundE(test, es[0], Exact);
      BoundEs(test, es[1..]);
    }
  }

  lemma {:induction false} BoundOpt(test: NameTest, o: Option<Expr>)
    requires AllOpt(Binding(test), o)
    ensures Marked(MarksOpt(o), test)
    decreases o, 0
  {
    match o
    case None =>
    case Some(e) => BoundE(test, e, Truth);
  }

  lemma {:induction false} BoundBody(test: NameTest, b: Body)
    requires AllB(Binding(test), b) && BoundB(test, b)
    ensures Marked(MarksB(b), test)
    decreases b, 0
  {
    match b
    case Select(proj, from, selection, groupBy, having, _) =>
      BoundItems(test, proj);
      BoundOver(test, from);
      BoundOpt(test, selection);
      BoundEs(test, groupBy);
      BoundOpt(test, having);
    case Union(l, r, _) => BoundBody(test, l); BoundBody(test, r);
    case Paren(q) => BoundQ(test, q);
  }

  lemma {:induction false} BoundItems(test: NameTest, items: seq<Item>)
    requires AllItems(Binding(test), items)
    ensures Marked(MarksItems(items), test)
    decreases items, 0
  {
    if items != [] {
      BoundColumn(test, items[0]);
      BoundItems(test, items[1..]);
    }
  }

  lemma {:induction false} BoundColumn(test: NameTest, it: Item)
    requires AllItem(Binding(test), it)
    ensures Marked(MarksItem(it), test)
    decreases it, 0
  {
    if it.Item? {
      BoundE(test, it.e, Exact);
    }
  }

  lemma {:induction false} BoundOver(test: NameTest, from: seq<FromItem>)
    requires AllFrom(Binding(test), from) && BoundFrom(test, from)
    ensures Marked(MarksFrom(from), test)
    decreases from, 0
  {
    if from != [] {
      BoundOver(test, from[..|from| - 1]);
      BoundJoined(test, from[|from| - 1]);
    }
  }

  lemma {:induction false} BoundJoined(test: NameTest, it: FromItem)
    requires AllFromItem(Binding(test), it) && BoundItem(test, it)
    ensures Marked(MarksFromItem(it), test)
    decreases it, 0
  {
    BoundUnder(test, it.factor);
    BoundE(test, it.on, Truth);
  }

  lemma {:induction false} BoundUnder(test: NameTest, t: Factor)
    requires AllFactor(Binding(test), t) && BoundFactor(test, t)
    ensures Marked(MarksFactor(t), test)
    decreases t, 0
  {
    match t
    case Table(_, _, _) =>
    case Derived(q, _, _) => BoundQ(test, q);
    case Series(lo, hi, _) => BoundE(test, lo, Exact); BoundE(test, hi, Exact);
  }

  // --- visiting expressions binds nothing ----------------------------------------------------

  lemma {:induction false} VisitBinds(f: Callback, test: NameTest, b: Body, k: nat)
    ensures BoundB(test, VisitB(f, b, k).0) == BoundB(test, b)
    decreases b, 0
  {
    match b
    case Select(proj, from, _, _, _, _) => VisitBindsFrom(f, test, from, VisitItems(f, proj, k).1);
    case Union(l, r, _) => VisitBinds(f, test, l, k); VisitBinds(f, test, r, VisitB(f, l, k).1);
    case Paren(q) => VisitBinds(f, test, q.body, k);
  }

  lemma {:induction false} VisitBindsFrom(f: Callback, test: NameTest, from: seq<FromItem>, k: nat)
    ensures BoundFrom(test, VisitFrom(f, from, k).0) == BoundFrom(test, from)
    decreases from, 0
  {
    if from != [] {
      var n := |from| - 1;
      VisitBindsFrom(f, test, from[..n], k);
      VisitBindsFactor(f, test, from[n], VisitFrom(f, from[..n], k).1);
      VisitKeepsName(f, from[n].factor, VisitFrom(f, from[..n], k).1);
      var visited := VisitFrom(f, from, k).0;
      assert visited[..|visited| - 1] == VisitFrom(f, from[..n], k).0;
    }
  }

  lemma {:induction false} VisitBindsFactor(f: Callback, test: NameTest, it: FromItem, k: nat)
    ensures BoundFactor(test, VisitFactor(f, it.factor, k).0) == BoundFactor(test, it.factor)
    decreases it, 0
  {
    match it.factor
    case Table(_, _, _) =>
    case Derived(q, _, _) => VisitBinds(f, test, q.body, k);
    case Series(_, _, _) =>
  }
}
