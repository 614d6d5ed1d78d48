/** What every expression of a tree contributes, counted over the whole tree, and how a visit
    changes the count. */
module SqlTallies {
  import opened Wrappers
  import opened SqlAst
  import opened SqlVisit

  function BagE<T>(g: Expr -> multiset<T>, e: Expr): multiset<T>
    decreases e, 1
  {
    BagKids(g, e) + g(e)
  }

  function BagKids<T>(g: Expr -> multiset<T>, e: Expr): multiset<T>
    decreases e, 0
  {
    match e
    case Lit(_) => multiset{}
    case Col(_, _) => multiset{}
    case Bare(_) => multiset{}
    case Cmp(_, l, r) => BagE(g, l) + BagE(g, r)
    case And(l, r) => BagE(g, l) + BagE(g, r)
    case Or(l, r) => BagE(g, l) + BagE(g, r)
    case Not(x) => BagE(g, x)
    case Nested(x) => BagE(g, x)
    case Case(c, t, f) => BagE(g, c) + BagE(g, t) + BagE(g, f)
    case Call(_, args) => BagEs(g, args)
    case CountStar => multiset{}
    case Agg(_, arg) => BagE(g, arg)
    case Tuple(es) => BagEs(g, es)
    case Scalar(q) => BagB(g, q.body)
    case Exists(q, _) => BagB(g, q.body)
    case InQuery(x, q, _) => BagE(g, x) + BagB(g, q.body)
    case AnyOf(x, a) => BagE(g, x) + BagE(g, a)
    case Index(a, i) => BagE(g, a) + BagE(g, i)
  }

  function BagEs<T>(g: Expr -> multiset<T>, es: seq<Expr>): multiset<T>
    decreases es, 0
  {
    if es == [] then multiset{} else BagE(g, es[0]) + BagEs(g, es[1..])
  }

  function BagOpt<T>(g: Expr -> multiset<T>, o: Option<Expr>): multiset<T>
    decreases o, 0
  {
    match o
    case None => multiset{}
    case Some(e) => BagE(g, e)
  }

  function BagB<T>(g: Expr -> multiset<T>, b: Body): multiset<T>
    decreases b, 1
  {
    match b
    case Select(_, _, _, _, _, _) => BagSelect(g, b)
    case Union(l, r, _) => BagB(g, l) + BagB(g, r)
    case Paren(q) => BagB(g, q.body)
  }

  function BagSelect<T>(g: Expr -> multiset<T>, b: Body): multiset<T>
    requires b.Select?
    decreases b, 0
  {
    match b
    case Select(proj, from, selection, groupBy, having, _) =>
      BagItems(g, proj) + BagFrom(g, from) + BagOpt(g, selection) + BagEs(g, groupBy) + BagOpt(g, having)
  }

  function BagItems<T>(g: Expr -> multiset<T>, items: seq<Item>): multiset<T>
    decreases items, 0
  {
    if items == [] then multiset{} else BagItem(g, items[0]) + BagItems(g, items[1..])
  }

  function BagItem<T>(g: Expr -> multiset<T>, it: Item): multiset<T>
    decreases it, 0
  {
    match it
    case Wildcard => multiset{}
    case Item(e, _) => BagE(g, e)
  }

  function BagFrom<T>(g: Expr -> multiset<T>, from: seq<FromItem>): multiset<T>
    decreases from, 0
  {
    if from == [] then multiset{} else BagFrom(g, from[..|from| - 1]) + BagFromItem(g, from[|from| - 1])
  }

  function BagFromItem<T>(g: Expr -> multiset<T>, it: FromItem): multiset<T>
    decreases it, 0
  {
    BagFactor(g, it.factor) + BagE(g, it.on)
  }

  function BagFactor<T>(g: Expr -> multiset<T>, t: Factor): multiset<T>
    decreases t, 0
  {
    match t
    case Table(_, _, _) => multiset{}
    case Derived(q, _, _) => BagB(g, q.body)
    case Series(lo, hi, _) => BagE(g, lo) + BagE(g, hi)
  }

  // --- visits --------------------------------------------------------------------------------

  /** How a count after a visit stands to the one before it, while the counter moves. */
  type Change<!T> = (multiset<T>, multiset<T>, nat, nat) -> bool

  /** The change over two neighbouring parts is that over both. */
  ghost predicate Adds<T(!new)>(r: Change<T>) {
    && (forall k: nat :: r(multiset{}, multiset{}, k, k))
    && forall a', a, b', b, i: nat, j: nat, k: nat :: r(a', a, i, j) && r(b', b, j, k) ==> r(a' + b', a + b, i, k)
  }

  /** The callback makes the change at one expression, when its parts have made it. */
  ghost predicate Steps<T(!new)>(f: Callback, g: Expr -> multiset<T>, r: Change<T>) {
    Adds(r) && forall e, k :: StepsAt(f, g, r, e, k)
  }

  ghost predicate StepsAt<T>(f: Callback, g: Expr -> multiset<T>, r: Change<T>, e: Expr, k: nat) {
    var kids := VisitKids(f, e, k);
    r(BagKids(g, kids.0), BagKids(g, e), k, kids.1) ==> r(BagE(g, VisitE(f, e, k).0), BagE(g, e), k, VisitE(f, e, k).1)
  }

  lemma Join<T(!new)>(r: Change<T>, a': multiset<T>, a: multiset<T>, b': multiset<T>, b: multiset<T>, i: nat, j: nat, k: nat)
    requires Adds(r) && r(a', a, i, j) && r(b', b, j, k)
    ensures r(a' + b', a + b, i, k)
  {
  }

  lemma {:induction false} ChangeE<T(!new)>(f: Callback, g: Expr -> multiset<T>, r: Change<T>, e: Expr, k: nat)
    requires Steps(f, g, r)
    ensures r(BagE(g, VisitE(f, e, k).0), BagE(g, e), k, VisitE(f, e, k).1)
    decreases e, 1
  {
    if e.Cmp? || e.And? || e.Or? {
      ChangePair(f, g, r, e, k);
    } else if e.Case? || e.InQuery? {
      ChangeMixed(f, g, r, e, k);
    } else if e.AnyOf? || e.Index? {
      ChangeArray(f, g, r, e, k);
    } else if e.Scalar? || e.Exists? || e.Call? || e.Tuple? {
      ChangeNested(f, g, r, e, k);
    } else {
      ChangeKids(f, g, r, e, k);
    }
    assert StepsAt(f, g, r, e, k);
  }

  lemma {:induction false} ChangePair<T(!new)>(f: Callback, g: Expr -> multiset<T>, r: Change<T>, e: Expr, k: nat)
    requires Steps(f, g, r) && (e.Cmp? || e.And? || e.Or?)
    ensures r(BagKids(g, VisitKids(f, e, k).0), BagKids(g, e), k, VisitKids(f, e, k).1)
    decreases e, 0
  {
    var (l, k1) := VisitE(f, e.left, k);
    var (x, k2) := VisitE(f, e.right, k1);
    ChangeE(f, g, r, e.left, k);
    ChangeE(f, g, r, e.right, k1);
    Join(r, BagE(g, l), BagE(g, e.left), BagE(g, x), BagE(g, e.right), k, k1, k2);
  }

  lemma {:induction false} ChangeTwo<T(!new)>(f: Callback, g: Expr -> multiset<T>, r: Change<T>, a: Expr, b: Expr, k: nat)
    requires Adds(r)
    requires r(BagE(g, VisitE(f, a, k).0), BagE(g, a), k, VisitE(f, a, k).1)
    requires var k1 := VisitE(f, a, k).1; r(BagE(g, VisitE(f, b, k1).0), BagE(g, b), k1, VisitE(f, b, k1).1)
    ensures var (x, k1) := VisitE(f, a, k);
            var (y, k2) := VisitE(f, b, k1);
            r(BagE(g, x) + BagE(g, y), BagE(g, a) + BagE(g, b), k, k2)
  {
  }

  lemma {:induction false} ChangeKids<T(!new)>(f: Callback, g: Expr -> multiset<T>, r: Change<T>, e: Expr, k: nat)
    requires Steps(f, g, r) && (e.Not? || e.Nested? || e.Agg? || e.Lit? || e.Col? || e.Bare? || e.CountStar?)
    ensures r(BagKids(g, VisitKids(f, e, k).0), BagKids(g, e), k, VisitKids(f, e, k).1)
    decreases e, 0
  {
    match e
    case Not(x) => ChangeE(f, g, r, x, k);
    case Nested(x) => ChangeE(f, g, r, x, k);
    case Agg(_, arg) => ChangeE(f, g, r, arg, k);
    case _ =>
  }

  lemma {:induction false} ChangeNested<T(!new)>(f: Callback, g: Expr -> multiset<T>, r: Change<T>, e: Expr, k: nat)
    requires Steps(f, g, r) && (e.Scalar? || e.Exists? || e.Call? || e.Tuple?)
    ensures r(BagKids(g, VisitKids(f, e, k).0), BagKids(g, e), k, VisitKids(f, e, k).1)
    decreases e, 0
  {
    match e
    case Call(_, args) => ChangeEs(f, g, r, args, k);
    case Tuple(es) => ChangeEs(f, g, r, es, k);
    case Scalar(q) => ChangeB(f, g, r, q.body, k);
    case Exists(q, _) => ChangeB(f, g, r, q.body, k);
  }

  lemma {:induction false} ChangeArray<T(!new)>(f: Callback, g: Expr -> multiset<T>, r: Change<T>, e: Expr, k: nat)
    requires Steps(f, g, r) && (e.AnyOf? || e.Index?)
    ensures r(BagKids(g, VisitKids(f, e, k).0), BagKids(g, e), k, VisitKids(f, e, k).1)
    decreases e, 0
  {
    match e
    case AnyOf(x, a) =>
      ChangeE(f, g, r, x, k);
      ChangeE(f, g, r, a, VisitE(f, x, k).1);
      ChangeTwo(f, g, r, x, a, k);
    case Index(a, i) =>
      ChangeE(f, g, r, a, k);
      ChangeE(f, g, r, i, VisitE(f, a, k).1);
      ChangeTwo(f, g, r, a, i, k);
  }

  lemma {:induction false} ChangeMixed<T(!new)>(f: Callback, g: Expr -> multiset<T>, r: Change<T>, e: Expr, k: nat)
    requires Steps(f, g, r) && (e.Case? || e.InQuery?)
    ensures r(BagKids(g, VisitKids(f, e, k).0), BagKids(g, e), k, VisitKids(f, e, k).1)
    decreases e, 0
  {
    match e
    case InQuery(x, q, _) =>
      ChangeE(f, g, r, x, k);
      ChangeB(f, g, r, q.body, VisitE(f, x, k).1);
      MembershipParts(f, g, r, x, q.body, k);
    case Case(c, t, s) =>
      var k1 := VisitE(f, c, k).1;
      ChangeE(f, g, r, c, k);
      ChangeE(f, g, r, t, k1);
      ChangeE(f, g, r, s, VisitE(f, t, k1).1);
      CaseParts(f, g, r, c, t, s, k);
  }

  lemma {:induction false} MembershipParts<T(!new)>(f: Callback, g: Expr -> multiset<T>, r: Change<T>, x: Expr, b: Body, k: nat)
    requires Adds(r) && r(BagE(g, VisitE(f, x, k).0), BagE(g, x), k, VisitE(f, x, k).1)
    requires var k1 := VisitE(f, x, k).1; r(BagB(g, VisitB(f, b, k1).0), BagB(g, b), k1, VisitB(f, b, k1).1)
    ensures var (x1, k1) := VisitE(f, x, k);
            var (b1, k2) := VisitB(f, b, k1);
            r(BagE(g, x1) + BagB(g, b1), BagE(g, x) + BagB(g, b), k, k2)
  {
  }

  lemma {:induction false} CaseParts<T(!new)>(f: Callback, g: Expr -> multiset<T>, r: Change<T>, c: Expr, t: Expr, s: Expr, k: nat)
    requires Adds(r) && r(BagE(g, VisitE(f, c, k).0), BagE(g, c), k, VisitE(f, c, k).1)
    requires var k1 := VisitE(f, c, k).1; r(BagE(g, VisitE(f, t, k1).0), BagE(g, t), k1, VisitE(f, t, k1).1)
    requires var k2 := VisitE(f, t, VisitE(f, c, k).1).1; r(BagE(g, VisitE(f, s, k2).0), BagE(g, s), k2, VisitE(f, s, k2).1)
    ensures var (c1, k1) := VisitE(f, c, k);
            var (t1, k2) := VisitE(f, t, k1);
            var (s1, k3) := VisitE(f, s, k2);
            r(BagE(g, c1) + BagE(g, t1) + BagE(g, s1), BagE(g, c) + BagE(g, t) + BagE(g, s), k, k3)
  {
    ChangeTwo(f, g, r, c, t, k);
    var (c1, k1) := VisitE(f, c, k);
    var (t1, k2) := VisitE(f, t, k1);
    var (s1, k3) := VisitE(f, s, k2);
    Join(r, BagE(g, c1) + BagE(g, t1), BagE(g, c) + BagE(g, t), BagE(g, s1), BagE(g, s), k, k2, k3);
  }

  lemma {:induction false} ChangeEs<T(!new)>(f: Callback, g: Expr -> multiset<T>, r: Change<T>, es: seq<Expr>, k: nat)
    requires Steps(f, g, r)
    ensures r(BagEs(g, VisitEs(f, es, k).0), BagEs(g, es), k, VisitEs(f, es, k).1)
    decreases es, 0
  {
    if es != [] {
      var (x, k1) := VisitE(f, es[0], k);
      var (rest, k2) := VisitEs(f, es[1..], k1);
      ChangeE(f, g, r, es[0], k);
      ChangeEs(f, g, r, es[1..], k1);
      Join(r, BagE(g, x), BagE(g, es[0]), BagEs(g, rest), BagEs(g, es[1..]), k, k1, k2);
      assert ([x] + rest)[1..] == rest;
    }
  }

  lemma {:induction false} ChangeOpt<T(!new)>(f: Callback, g: Expr -> multiset<T>, r: Change<T>, o: Option<Expr>, k: nat)
    requires Steps(f, g, r)
    ensures r(BagOpt(g, VisitOpt(f, o, k).0), BagOpt(g, o), k, VisitOpt(f, o, k).1)
    decreases o, 0
  {
    match o
    case None =>
    case Some(e) => ChangeE(f, g, r, e, k);
  }

  lemma {:induction false} ChangeB<T(!new)>(f: Callback, g: Expr -> multiset<T>, r: Change<T>, b: Body, k: nat)
    requires Steps(f, g, r)
    ensures r(BagB(g, VisitB(f, b, k).0), BagB(g, b), k, VisitB(f, b, k).1)
    decreases b, 1
  {
    match b
    case Select(_, _, _, _, _, _) => ChangeSelect(f, g, r, b, k);
    case Union(x, y, _) =>
      var (x1, k1) := VisitB(f, x, k);
      ChangeB(f, g, r, x, k);
      ChangeB(f, g, r, y, k1);
      Join(r, BagB(g, x1), BagB(g, x), BagB(g, VisitB(f, y, k1).0), BagB(g, y), k, k1, VisitB(f, y, k1).1);
    case Paren(q) => ChangeB(f, g, r, q.body, k);
  }

  lemma {:induction false} ChangeSelect<T(!new)>(f: Callback, g: Expr -> multiset<T>, r: Change<T>, b: Body, k: nat)
    requires Steps(f, g, r) && b.Select?
    ensures r(BagB(g, VisitB(f, b, k).0), BagB(g, b), k, VisitB(f, b, k).1)
    decreases b, 0
  {
    match b
    case Select(proj, from, selection, groupBy, having, _) =>
      var (p, k1) := VisitItems(f, proj, k);
      var (t, k2) := VisitFrom(f, from, k1);
      var (s, k3) := VisitOpt(f, selection, k2);
      var (y, k4) := VisitEs(f, groupBy, k3);
      var (h, k5) := VisitOpt(f, having, k4);
      ChangeItems(f, g, r, proj, k);
      ChangeFrom(f, g, r, from, k1);
      ChangeOpt(f, g, r, selection, k2);
      ChangeEs(f, g, r, groupBy, k3);
      ChangeOpt(f, g, r, having, k4);
      var a, a' := BagItems(g, proj), BagItems(g, p);
      var c, c' := BagFrom(g, from), BagFrom(g, t);
      var d, d' := BagOpt(g, selection), BagOpt(g, s);
      var e, e' := BagEs(g, groupBy), BagEs(g, y);
      Join(r, a', a, c', c, k, k1, k2);
      Join(r, a' + c', a + c, d', d, k, k2, k3);
      Join(r, a' + c' + d', a + c + d, e', e, k, k3, k4);
      Join(r, a' + c' + d' + e', a + c + d + e, BagOpt(g, h), BagOpt(g, having), k, k4, k5);
  }

  lemma {:induction false} ChangeItems<T(!new)>(f: Callback, g: Expr -> multiset<T>, r: Change<T>, items: seq<Item>, k: nat)
    requires Steps(f, g, r)
    ensures r(BagItems(g, VisitItems(f, items, k).0), BagItems(g, items), k, VisitItems(f, items, k).1)
    decreases items, 0
  {
    if items != [] {
      var (x, k1) := VisitItem(f, items[0], k);
      var (rest, k2) := VisitItems(f, items[1..], k1);
      ChangeItem(f, g, r, items[0], k);
      ChangeItems(f, g, r, items[1..], k1);
      Join(r, BagItem(g, x), BagItem(g, items[0]), BagItems(g, rest), BagItems(g, items[1..]), k, k1, k2);
      assert ([x] + rest)[1..] == rest;
    }
  }

  lemma {:induction false} ChangeItem<T(!new)>(f: Callback, g: Expr -> multiset<T>, r: Change<T>, it: Item, k: nat)
    requires Steps(f, g, r)
    ensures r(BagItem(g, VisitItem(f, it, k).0), BagItem(g, it), k, VisitItem(f, it, k).1)
    decreases it, 0
  {
    if it.Item? {
      ChangeE(f, g, r, it.e, k);
    }
  }

  lemma {:induction false} ChangeFrom<T(!new)>(f: Callback, g: Expr -> multiset<T>, r: Change<T>, from: seq<FromItem>, k: nat)
    requires Steps(f, g, r)
    ensures r(BagFrom(g, VisitFrom(f, from, k).0), BagFrom(g, from), k, VisitFrom(f, from, k).1)
    decreases from, 0
  {
    if from != [] {
      var n := |from| - 1;
      var (front, k1) := VisitFrom(f, from[..n], k);
      var (last, k2) := VisitFromItem(f, from[n], k1);
      ChangeFrom(f, g, r, from[..n], k);
      ChangeFromItem(f, g, r, from[n], k1);
      Join(r, BagFrom(g, front), BagFrom(g, from[..n]), BagFromItem(g, last), BagFromItem(g, from[n]), k, k1, k2);
      assert (front + [last])[..n] == front;
    }
  }

  lemma {:induction false} ChangeFromItem<T(!new)>(f: Callback, g: Expr -> multiset<T>, r: Change<T>, it: FromItem, k: nat)
    requires Steps(f, g, r)
    ensures r(BagFromItem(g, VisitFromItem(f, it, k).0), BagFromItem(g, it), k, VisitFromItem(f, it, k).1)
    decreases it, 0
  {
    var (t, k1) := VisitFactor(f, it.factor, k);
    ChangeFactor(f, g, r, it.factor, k);
    ChangeE(f, g, r, it.on, k1);
    Join(r, BagFactor(g, t), BagFactor(g, it.factor), BagE(g, VisitE(f, it.on, k1).0), BagE(g, it.on), k, k1, VisitE(f, it.on, k1).1);
  }

  lemma {:induction false} ChangeFactor<T(!new)>(f: Callback, g: Expr -> multiset<T>, r: Change<T>, t: Factor, k: nat)
    requires Steps(f, g, r)
    ensures r(BagFactor(g, VisitFactor(f, t, k).0), BagFactor(g, t), k, VisitFactor(f, t, k).1)
    decreases t, 0
  {
    match t
    case Table(_, _, _) =>
    case Derived(q, _, _) => ChangeB(f, g, r, q.body, k);
    case Series(lo, hi, _) =>
      ChangeE(f, g, r, lo, k);
      ChangeE(f, g, r, hi, VisitE(f, lo, k).1);
      ChangeTwo(f, g, r, lo, hi, k);
  }
}
