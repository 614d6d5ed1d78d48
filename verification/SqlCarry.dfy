/** Passes run one after the other: what one pass needs of its input holds of the previous pass's
    output, as soon as each single replacement leaves it so. */
module SqlCarry {
  import opened Wrappers
  import opened SqlValues
  import opened SqlAst
  import opened SqlVisit

  /** Rewriting an expression that meets `ok` leaves one that meets `after`. */
  ghost predicate StepCarries(f: Callback, ok: Check, after: Check) {
    forall e, k, p :: AllE(ok, e, p) ==> CarriesAt(f, after, e, k, p)
  }

  ghost predicate CarriesAt(f: Callback, after: Check, e: Expr, k: nat, p: Pos) {
    AllKids(after, VisitKids(f, e, k).0, p) ==> AllE(after, VisitE(f, e, k).0, p)
  }

  /** The counter only moves forward; rewriting an expression that meets `ok` leaves one that meets
      `after`, as long as the counter stays within the bound. */
  ghost predicate StepCarriesTo(f: Callback, ok: Check, after: Check, bound: nat) {
    && (forall e, k :: f(e, k).1 >= k)
    && forall e, k, p :: AllE(ok, e, p) ==> CarriesAtTo(f, after, bound, e, k, p)
  }

  ghost predicate CarriesAtTo(f: Callback, after: Check, bound: nat, e: Expr, k: nat, p: Pos) {
    VisitE(f, e, k).1 <= bound ==> CarriesAt(f, after, e, k, p)
  }

  lemma {:induction false} BoundedE(f: Callback, ok: Check, after: Check, bound: nat, e: Expr, k: nat, p: Pos)
    requires StepCarriesTo(f, ok, after, bound) && AllE(ok, e, p)
    ensures VisitE(f, e, k).1 >= k && (VisitE(f, e, k).1 <= bound ==> AllE(after, VisitE(f, e, k).0, p))
    decreases e, 1
  {
    if e.Cmp? || e.And? || e.Or? {
      BoundedConnective(f, ok, after, bound, e, k, p);
    } else {
      BoundedKids(f, ok, after, bound, e, k, p);
    }
    assert CarriesAtTo(f, after, bound, e, k, p);
  }

  lemma {:induction false} BoundedConnective(f: Callback, ok: Check, after: Check, bound: nat, e: Expr, k: nat, p: Pos)
    requires StepCarriesTo(f, ok, after, bound) && AllKids(ok, e, p)
    requires e.Cmp? || e.And? || e.Or?
    ensures VisitKids(f, e, k).1 >= k && (VisitKids(f, e, k).1 <= bound ==> AllKids(after, VisitKids(f, e, k).0, p))
    decreases e, 0
  {
    var q := if e.Cmp? then Exact else p;
    BoundedE(f, ok, after, bound, e.left, k, q);
    BoundedE(f, ok, after, bound, e.right, VisitE(f, e.left, k).1, q);
  }

  lemma {:induction false} BoundedKids(f: Callback, ok: Check, after: Check, bound: nat, e: Expr, k: nat, p: Pos)
    requires StepCarriesTo(f, ok, after, bound) && AllKids(ok, e, p)
    requires !e.Cmp? && !e.And? && !e.Or?
    ensures VisitKids(f, e, k).1 >= k && (VisitKids(f, e, k).1 <= bound ==> AllKids(after, VisitKids(f, e, k).0, p))
    decreases e, 0
  {
    match e
    case Not(x) => BoundedE(f, ok, after, bound, x, k, Exact);
    case Nested(x) => BoundedE(f, ok, after, bound, x, k, p);
    case Case(c, t, g) =>
      BoundedE(f, ok, after, bound, c, k, Truth);
      var k1 := VisitE(f, c, k).1;
      BoundedE(f, ok, after, bound, t, k1, p);
      BoundedE(f, ok, after, bound, g, VisitE(f, t, k1).1, p);
    case Call(_, args) => BoundedEs(f, ok, after, bound, args, k);
    case Agg(_, arg) => BoundedE(f, ok, after, bound, arg, k, Exact);
    case Tuple(es) => BoundedEs(f, ok, after, bound, es, k);
    case Scalar(q) => BoundedQ(f, ok, after, bound, q, k);
    case Exists(q, _) => BoundedQ(f, ok, after, bound, q, k);
    case InQuery(x, q, _) =>
      BoundedE(f, ok, after, bound, x, k, Exact);
      BoundedQ(f, ok, after, bound, q, VisitE(f, x, k).1);
    case AnyOf(x, a) =>
      BoundedE(f, ok, after, bound, x, k, Exact);
      BoundedE(f, ok, after, bound, a, VisitE(f, x, k).1, Exact);
    case Index(a, i) =>
      BoundedE(f, ok, after, bound, a, k, Exact);
      BoundedE(f, ok, after, bound, i, VisitE(f, a, k).1, Exact);
    case _ =>
  }

  lemma {:induction false} BoundedEs(f: Callback, ok: Check, after: Check, bound: nat, es: seq<Expr>, k: nat)
    requires StepCarriesTo(f, ok, after, bound) && AllEs(ok, es)
    ensures VisitEs(f, es, k).1 >= k && (VisitEs(f, es, k).1 <= bound ==> AllEs(after, VisitEs(f, es, k).0))
    decreases es, 0
  {
    if es != [] {
      BoundedE(f, ok, after, bound, es[0], k, Exact);
      BoundedEs(f, ok, after, bound, es[1..], VisitE(f, es[0], k).1);
      assert VisitEs(f, es, k).0[1..] == VisitEs(f, es[1..], VisitE(f, es[0], k).1).0;
    }
  }

  lemma {:induction false} BoundedOpt(f: Callback, ok: Check, after: Check, bound: nat, o: Option<Expr>, k: nat)
    requires StepCarriesTo(f, ok, after, bound) && AllOpt(ok, o)
    ensures VisitOpt(f, o, k).1 >= k && (VisitOpt(f, o, k).1 <= bound ==> AllOpt(after, VisitOpt(f, o, k).0))
    decreases o, 0
  {
    match o
    case None =>
    case Some(e) => BoundedE(f, ok, after, bound, e, k, Truth);
  }

  lemma {:induction false} BoundedQ(f: Callback, ok: Check, after: Check, bound: nat, q: Query, k: nat)
    requires StepCarriesTo(f, ok, after, bound) && AllQ(ok, q)
    ensures VisitQ(f, q, k).1 >= k && (VisitQ(f, q, k).1 <= bound ==> AllQ(after, VisitQ(f, q, k).0))
    decreases q, 0
  {
    BoundedB(f, ok, after, bound, q.body, k);
  }

  lemma {:induction false} BoundedB(f: Callback, ok: Check, after: Check, bound: nat, b: Body, k: nat)
    requires StepCarriesTo(f, ok, after, bound) && AllB(ok, b)
    ensures VisitB(f, b, k).1 >= k && (VisitB(f, b, k).1 <= bound ==> AllB(after, VisitB(f, b, k).0))
    decreases b, 0
  {
    match b
    case Select(proj, from, selection, groupBy, having, _) =>
      BoundedItems(f, ok, after, bound, proj, k);
      var k1 := VisitItems(f, proj, k).1;
      BoundedFrom(f, ok, after, bound, from, k1);
      var k2 := VisitFrom(f, from, k1).1;
      BoundedOpt(f, ok, after, bound, selection, k2);
      var k3 := VisitOpt(f, selection, k2).1;
      BoundedEs(f, ok, after, bound, groupBy, k3);
      BoundedOpt(f, ok, after, bound, having, VisitEs(f, groupBy, k3).1);
    case Union(l, r, _) =>
      BoundedB(f, ok, after, bound, l, k);
      BoundedB(f, ok, after, bound, r, VisitB(f, l, k).1);
    case Paren(q) => BoundedQ(f, ok, after, bound, q, k);
  }

  lemma {:induction false} BoundedItems(f: Callback, ok: Check, after: Check, bound: nat, items: seq<Item>, k: nat)
    requires StepCarriesTo(f, ok, after, bound) && AllItems(ok, items)
    ensures VisitItems(f, items, k).1 >= k && (VisitItems(f, items, k).1 <= bound ==> AllItems(after, VisitItems(f, items, k).0))
    decreases items, 0
  {
    if items != [] {
      BoundedItem(f, ok, after, bound, items[0], k);
      BoundedItems(f, ok, after, bound, items[1..], VisitItem(f, items[0], k).1);
      assert VisitItems(f, items, k).0[1..] == VisitItems(f, items[1..], VisitItem(f, items[0], k).1).0;
    }
  }

  lemma {:induction false} BoundedItem(f: Callback, ok: Check, after: Check, bound: nat, it: Item, k: nat)
    requires StepCarriesTo(f, ok, after, bound) && AllItem(ok, it)
    ensures VisitItem(f, it, k).1 >= k && (VisitItem(f, it, k).1 <= bound ==> AllItem(after, VisitItem(f, it, k).0))
    decreases it, 0
  {
    if it.Item? {
      BoundedE(f, ok, after, bound, it.e, k, Exact);
    }
  }

  lemma {:induction false} BoundedFrom(f: Callback, ok: Check, after: Check, bound: nat, from: seq<FromItem>, k: nat)
    requires StepCarriesTo(f, ok, after, bound) && AllFrom(ok, from)
    ensures VisitFrom(f, from, k).1 >= k && (VisitFrom(f, from, k).1 <= bound ==> AllFrom(after, VisitFrom(f, from, k).0))
    decreases from, 0
  {
    if from != [] {
      var n := |from| - 1;
      BoundedFrom(f, ok, after, bound, from[..n], k);
      BoundedFromItem(f, ok, after, bound, from[n], VisitFrom(f, from[..n], k).1);
      var visited := VisitFrom(f, from, k).0;
      assert visited[..|visited| - 1] == VisitFrom(f, from[..n], k).0;
    }
  }

  lemma {:induction false} BoundedFromItem(f: Callback, ok: Check, after: Check, bound: nat, it: FromItem, k: nat)
    requires StepCarriesTo(f, ok, after, bound) && AllFromItem(ok, it)
    ensures VisitFromItem(f, it, k).1 >= k && (VisitFromItem(f, it, k).1 <= bound ==> AllFromItem(after, VisitFromItem(f, it, k).0))
    decreases it, 0
  {
    BoundedFactor(f, ok, after, bound, it.factor, k);
    BoundedE(f, ok, after, bound, it.on, VisitFactor(f, it.factor, k).1, Truth);
  }

  lemma {:induction false} BoundedFactor(f: Callback, ok: Check, after: Check, bound: nat, t: Factor, k: nat)
    requires StepCarriesTo(f, ok, after, bound) && AllFactor(ok, t)
    ensures VisitFactor(f, t, k).1 >= k && (VisitFactor(f, t, k).1 <= bound ==> AllFactor(after, VisitFactor(f, t, k).0))
    decreases t, 0
  {
    match t
    case Table(_, _, _) =>
    case Derived(q, _, _) => BoundedQ(f, ok, after, bound, q, k);
    case Series(lo, hi, _) =>
      BoundedE(f, ok, after, bound, lo, k, Exact);
      BoundedE(f, ok, after, bound, hi, VisitE(f, lo, k).1, Exact);
  }

  /** Without a bound. */
  lemma CarryE(f: Callback, ok: Check, after: Check, e: Expr, k: nat, p: Pos)
    requires StepCarries(f, ok, after) && (forall x, j :: f(x, j).1 >= j) && AllE(ok, e, p)
    ensures AllE(after, VisitE(f, e, k).0, p)
  {
    Unbounded(f, ok, after, VisitE(f, e, k).1);
    BoundedE(f, ok, after, VisitE(f, e, k).1, e, k, p);
  }

  /** The whole-query form. */
  lemma CarryQ(f: Callback, ok: Check, after: Check, q: Query, k: nat)
    requires StepCarries(f, ok, after) && (forall x, j :: f(x, j).1 >= j) && AllQ(ok, q)
    ensures AllQ(after, VisitQ(f, q, k).0)
  {
    Unbounded(f, ok, after, VisitQ(f, q, k).1);
    BoundedQ(f, ok, after, VisitQ(f, q, k).1, q, k);
  }

  lemma CarryB(f: Callback, ok: Check, after: Check, b: Body, k: nat)
    requires StepCarries(f, ok, after) && (forall x, j :: f(x, j).1 >= j) && AllB(ok, b)
    ensures AllB(after, VisitB(f, b, k).0)
  {
    Unbounded(f, ok, after, VisitB(f, b, k).1);
    BoundedB(f, ok, after, VisitB(f, b, k).1, b, k);
  }

  lemma Unbounded(f: Callback, ok: Check, after: Check, bound: nat)
    requires StepCarries(f, ok, after) && forall x, j :: f(x, j).1 >= j
    ensures StepCarriesTo(f, ok, after, bound)
  {
    forall e, k, p | AllE(ok, e, p) ensures CarriesAtTo(f, after, bound, e, k, p) {
      assert CarriesAt(f, after, e, k, p);
    }
  }

  // --- a callback that changes nothing ------------------------------------------------------

  /** The callback passes over every expression that meets the check. */
  ghost predicate InertOn(f: Callback, ok: Check) {
    forall e: Expr, k: nat, p: Pos :: ok(e, p) ==> f(e, k) == (e, k)
  }

  function Same(e: Expr, k: nat): (Expr, nat) {
    (e, k)
  }

  lemma {:induction false} KeptE(f: Callback, ok: Check, e: Expr, p: Pos, k: nat)
    requires InertOn(f, ok) && AllE(ok, e, p)
    ensures VisitE(f, e, k) == (e, k)
    decreases e, 1
  {
    match e
    case Cmp(_, l, r) => KeptE(f, ok, l, Exact, k); KeptE(f, ok, r, Exact, k);
    case And(l, r) => KeptE(f, ok, l, p, k); KeptE(f, ok, r, p, k);
    case Or(l, r) => KeptE(f, ok, l, p, k); KeptE(f, ok, r, p, k);
    case _ => KeptKids(f, ok, e, p, k);
  }

  lemma {:induction false} KeptKids(f: Callback, ok: Check, e: Expr, p: Pos, k: nat)
    requires !e.Cmp? && !e.And? && !e.Or?
    requires InertOn(f, ok) && AllKids(ok, e, p)
    ensures VisitKids(f, e, k) == (e, k)
    decreases e, 0
  {
    match e
    case Not(x) => KeptE(f, ok, x, Exact, k);
    case Nested(x) => KeptE(f, ok, x, p, k);
    case Case(c, t, g) => KeptE(f, ok, c, Truth, k); KeptE(f, ok, t, p, k); KeptE(f, ok, g, p, k);
    case Call(_, args) => KeptEs(f, ok, args, k);
    case Agg(_, arg) => KeptE(f, ok, arg, Exact, k);
    case Tuple(es) => KeptEs(f, ok, es, k);
    case Scalar(q) => KeptQ(f, ok, q, k);
    case Exists(q, _) => KeptQ(f, ok, q, k);
    case InQuery(x, q, _) => KeptE(f, ok, x, Exact, k); KeptQ(f, ok, q, k);
    case AnyOf(x, a) => KeptE(f, ok, x, Exact, k); KeptE(f, ok, a, Exact, k);
    case Index(a, i) => KeptE(f, ok, a, Exact, k); KeptE(f, ok, i, Exact, k);
    case _ =>
  }

  lemma {:induction false} KeptEs(f: Callback, ok: Check, es: seq<Expr>, k: nat)
    requires InertOn(f, ok) && AllEs(ok, es)
    ensures VisitEs(f, es, k) == (es, k)
    decreases es, 0
  {
    if es != [] {
      KeptE(f, ok, es[0], Exact, k);
      KeptEs(f, ok, es[1..], k);
      assert [es[0]] + es[1..] == es;
    }
  }

  lemma {:induction false} KeptQ(f: Callback, ok: Check, q: Query, k: nat)
    requires InertOn(f, ok) && AllQ(ok, q)
    ensures VisitQ(f, q, k) == (q, k)
    decreases q, 0
  {
    KeptB(f, ok, q.body, k);
  }

  lemma {:induction false} KeptB(f: Callback, ok: Check, b: Body, k: nat)
    requires InertOn(f, ok) && AllB(ok, b)
    ensures VisitB(f, b, k) == (b, k)
    decreases b, 0
  {
    match b
    case Select(proj, from, selection, groupBy, having, _) =>
      KeptItems(f, ok, proj, k);
      KeptFrom(f, ok, from, k);
      KeptOpt(f, ok, selection, k);
      KeptEs(f, ok, groupBy, k);
      KeptOpt(f, ok, having, k);
    case Union(l, r, _) => KeptB(f, ok, l, k); KeptB(f, ok, r, k);
    case Paren(q) => KeptQ(f, ok, q, k);
  }

  lemma {:induction false} KeptOpt(f: Callback, ok: Check, o: Option<Expr>, k: nat)
    requires InertOn(f, ok) && AllOpt(ok, o)
    ensures VisitOpt(f, o, k) == (o, k)
    decreases o, 0
  {
    match o
    case None =>
    case Some(e) => KeptE(f, ok, e, Truth, k);
  }

  lemma {:induction false} KeptItems(f: Callback, ok: Check, items: seq<Item>, k: nat)
    requires InertOn(f, ok) && AllItems(ok, items)
    ensures VisitItems(f, items, k) == (items, k)
    decreases items, 0
  {
    if items != [] {
      KeptItem(f, ok, items[0], k);
      KeptItems(f, ok, items[1..], k);
      assert [items[0]] + items[1..] == items;
    }
  }

  lemma {:induction false} KeptItem(f: Callback, ok: Check, it: Item, k: nat)
    requires InertOn(f, ok) && AllItem(ok, it)
    ensures VisitItem(f, it, k) == (it, k)
    decreases it, 0
  {
    if it.Item? {
      KeptE(f, ok, it.e, Exact, k);
    }
  }

  lemma {:induction false} KeptFrom(f: Callback, ok: Check, from: seq<FromItem>, k: nat)
    requires InertOn(f, ok) && AllFrom(ok, from)
    ensures VisitFrom(f, from, k) == (from, k)
    decreases from, 0
  {
    if from != [] {
      KeptFrom(f, ok, from[..|from| - 1], k);
      KeptFromItem(f, ok, from[|from| - 1], k);
      assert from[..|from| - 1] + [from[|from| - 1]] == from;
    }
  }

  lemma {:induction false} KeptFromItem(f: Callback, ok: Check, it: FromItem, k: nat)
    requires InertOn(f, ok) && AllFromItem(ok, it)
    ensures VisitFromItem(f, it, k) == (it, k)
    decreases it, 0
  {
    KeptFactor(f, ok, it.factor, k);
    KeptE(f, ok, it.on, Truth, k);
  }

  lemma {:induction false} KeptFactor(f: Callback, ok: Check, t: Factor, k: nat)
    requires InertOn(f, ok) && AllFactor(ok, t)
    ensures VisitFactor(f, t, k) == (t, k)
    decreases t, 0
  {
    match t
    case Table(_, _, _) =>
    case Derived(q, _, _) => KeptQ(f, ok, q, k);
    case Series(lo, hi, _) => KeptE(f, ok, lo, Exact, k); KeptE(f, ok, hi, Exact, k);
  }

  ghost predicate Inert(f: Callback) {
    InertOn(f, Always)
  }

  lemma SameE(f: Callback, e: Expr, k: nat)
    requires Inert(f)
    ensures VisitE(f, e, k) == (e, k)
  {
    AlwaysE(e, Exact);
    KeptE(f, Always, e, Exact, k);
  }

  lemma SameQ(f: Callback, q: Query, k: nat)
    requires Inert(f)
    ensures VisitQ(f, q, k) == (q, k)
  {
    SameB(f, q.body, k);
  }

  lemma SameB(f: Callback, b: Body, k: nat)
    requires Inert(f)
    ensures VisitB(f, b, k) == (b, k)
  {
    AlwaysB(b);
    KeptB(f, Always, b, k);
  }

  /** A tree that meets a check meets every weaker one. */
  lemma Weaken(ok: Check, after: Check)
    requires forall e, p :: ok(e, p) ==> after(e, p)
    ensures forall e, p :: AllE(ok, e, p) ==> AllE(after, e, p)
    ensures forall q :: AllQ(ok, q) ==> AllQ(after, q)
    ensures forall b :: AllB(ok, b) ==> AllB(after, b)
  {
    forall e: Expr, k: nat, p: Pos | AllE(ok, e, p) ensures CarriesAt(Same, after, e, k, p) {
      SameE(Same, e, k);
      assert VisitE(Same, e, k) == VisitKids(Same, e, k);
    }
    forall e, p | AllE(ok, e, p) ensures AllE(after, e, p) {
      CarryE(Same, ok, after, e, 0, p);
      SameE(Same, e, 0);
    }
    forall q | AllQ(ok, q) ensures AllQ(after, q) {
      CarryQ(Same, ok, after, q, 0);
      SameQ(Same, q, 0);
    }
    forall b | AllB(ok, b) ensures AllB(after, b) {
      CarryB(Same, ok, after, b, 0);
      SameB(Same, b, 0);
    }
  }

  // --- a check that excludes nothing ---------------------------------------------------------

  predicate Always(e: Expr, p: Pos) {
    true
  }

  lemma {:induction false} AlwaysE(e: Expr, p: Pos)
    ensures AllE(Always, e, p)
    decreases e, 1
  {
    match e
    case Cmp(_, l, r) => AlwaysE(l, Exact); AlwaysE(r, Exact);
    case And(l, r) => AlwaysE(l, p); AlwaysE(r, p);
    case Or(l, r) => AlwaysE(l, p); AlwaysE(r, p);
    case _ => AlwaysKids(e, p);
  }

  lemma {:induction false} AlwaysKids(e: Expr, p: Pos)
    requires !e.Cmp? && !e.And? && !e.Or?
    ensures AllKids(Always, e, p)
    decreases e, 0
  {
    match e
    case Not(x) => AlwaysE(x, Exact);
    case Nested(x) => AlwaysE(x, p);
    case Case(c, t, g) => AlwaysE(c, Truth); AlwaysE(t, p); AlwaysE(g, p);
    case Call(_, args) => AlwaysEs(args);
    case Agg(_, arg) => AlwaysE(arg, Exact);
    case Tuple(es) => AlwaysEs(es);
    case Scalar(q) => AlwaysB(q.body);
    case Exists(q, _) => AlwaysB(q.body);
    case InQuery(x, q, _) => AlwaysE(x, Exact); AlwaysB(q.body);
    case AnyOf(x, a) => AlwaysE(x, Exact); AlwaysE(a, Exact);
    case Index(a, i) => AlwaysE(a, Exact); AlwaysE(i, Exact);
    case _ =>
  }

  lemma {:induction false} AlwaysEs(es: seq<Expr>)
    ensures AllEs(Always, es)
    decreases es, 0
  {
    if es != [] {
      AlwaysE(es[0], Exact);
      AlwaysEs(es[1..]);
    }
  }

  lemma {:induction false} AlwaysB(b: Body)
    ensures AllB(Always, b)
    decreases b, 0
  {
    match b
    case Select(proj, from, selection, groupBy, having, _) =>
      AlwaysItems(proj);
      AlwaysFrom(from);
      AlwaysOpt(selection);
      AlwaysEs(groupBy);
      AlwaysOpt(having);
    case Union(l, r, _) => AlwaysB(l); AlwaysB(r);
    case Paren(q) => AlwaysB(q.body);
  }

  lemma {:induction false} AlwaysOpt(o: Option<Expr>)
    ensures AllOpt(Always, o)
    decreases o, 0
  {
    match o
    case None =>
    case Some(e) => AlwaysE(e, Truth);
  }

  lemma {:induction false} AlwaysItems(items: seq<Item>)
    ensures AllItems(Always, items)
    decreases items, 0
  {
    if items != [] {
      AlwaysItem(items[0]);
      AlwaysItems(items[1..]);
    }
  }

  lemma {:induction false} AlwaysItem(it: Item)
    ensures AllItem(Always, it)
    decreases it, 0
  {
    if it.Item? {
      AlwaysE(it.e, Exact);
    }
  }

  lemma {:induction false} AlwaysFrom(from: seq<FromItem>)
    ensures AllFrom(Always, from)
    decreases from, 0
  {
    if from != [] {
      AlwaysFrom(from[..|from| - 1]);
      AlwaysFromItem(from[|from| - 1]);
    }
  }

  lemma {:induction false} AlwaysFromItem(it: FromItem)
    ensures AllFromItem(Always, it)
    decreases it, 0
  {
    AlwaysFactor(it.factor);
    AlwaysE(it.on, Truth);
  }

  lemma {:induction false} AlwaysFactor(t: Factor)
    ensures AllFactor(Always, t)
    decreases t, 0
  {
    match t
    case Table(_, _, _) =>
    case Derived(q, _, _) => AlwaysB(q.body);
    case Series(lo, hi, _) => AlwaysE(lo, Exact); AlwaysE(hi, Exact);
  }
}
