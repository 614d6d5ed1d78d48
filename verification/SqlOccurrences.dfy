/** Where a tree makes its references, and which names stand between each and the tree's top. */
module SqlOccurrences {
  import opened Wrappers
  import opened SqlAst
  import opened SqlScope

  datatype Occurrence = Occurrence(between: set<string>, ref: Ref)

  function SeenE(e: Expr, above: set<string>): set<Occurrence>
    decreases e, 0
  {
    match e
    case Lit(_) => {}
    case Col(q, c) => {Occurrence(above, Ref(q, c))}
    case Bare(x) => {Occurrence(above, Whole(x))}
    case Cmp(_, l, r) => SeenE(l, above) + SeenE(r, above)
    case And(l, r) => SeenE(l, above) + SeenE(r, above)
    case Or(l, r) => SeenE(l, above) + SeenE(r, above)
    case Not(x) => SeenE(x, above)
    case Nested(x) => SeenE(x, above)
    case Case(c, t, f) => SeenE(c, above) + SeenE(t, above) + SeenE(f, above)
    case Call(_, args) => SeenEs(args, above)
    case CountStar => {}
    case Agg(_, arg) => SeenE(arg, above)
    case Tuple(es) => SeenEs(es, above)
    case Scalar(q) => SeenB(q.body, above)
    case Exists(q, _) => SeenB(q.body, above)
    case InQuery(x, q, _) => SeenE(x, above) + SeenB(q.body, above)
    case AnyOf(x, a) => SeenE(x, above) + SeenE(a, above)
    case Index(a, i) => SeenE(a, above) + SeenE(i, above)
  }

  function SeenEs(es: seq<Expr>, above: set<string>): set<Occurrence>
    decreases es, 0
  {
    if es == [] then {} else SeenE(es[0], above) + SeenEs(es[1..], above)
  }

  function SeenOpt(o: Option<Expr>, above: set<string>): set<Occurrence>
    decreases o, 0
  {
    match o
    case None => {}
    case Some(e) => SeenE(e, above)
  }

  function SeenB(b: Body, above: set<string>): set<Occurrence>
    decreases b, 1
  {
    match b
    case Select(_, from, _, _, _, _) => SeenFrom(from, above) + SeenClauses(b, above + Names(from))
    case Union(l, r, _) => SeenB(l, above) + SeenB(r, above)
    case Paren(q) => SeenB(q.body, above)
  }

  /** The clauses that see the whole FROM. */
  function SeenClauses(b: Body, above: set<string>): set<Occurrence>
    requires b.Select?
    decreases b, 0
  {
    match b
    case Select(proj, _, selection, groupBy, having, _) =>
      SeenItems(proj, above) + SeenOpt(selection, above) + SeenEs(groupBy, above) + SeenOpt(having, above)
  }

  function SeenItems(items: seq<Item>, above: set<string>): set<Occurrence>
    decreases items, 0
  {
    if items == [] then {} else SeenItem(items[0], above) + SeenItems(items[1..], above)
  }

  function SeenItem(it: Item, above: set<string>): set<Occurrence>
    decreases it, 0
  {
    match it
    case Wildcard => {}
    case Item(e, _) => SeenE(e, above)
  }

  function SeenFrom(from: seq<FromItem>, above: set<string>): set<Occurrence>
    decreases from, 0
  {
    if from == [] then {}
    else SeenFrom(from[..|from| - 1], above) + SeenJoined(from[|from| - 1], Names(from[..|from| - 1]), above)
  }

  function SeenJoined(it: FromItem, before: set<string>, above: set<string>): set<Occurrence>
    decreases it, 0
  {
    SeenFactor(it.factor, before, above) + SeenE(it.on, above + before + {FactorName(it.factor)})
  }

  function SeenFactor(t: Factor, before: set<string>, above: set<string>): set<Occurrence>
    decreases t, 0
  {
    match t
    case Table(_, _, _) => {}
    case Derived(q, _, lateral) => SeenB(q.body, if lateral then above + before else above)
    case Series(lo, hi, _) => SeenE(lo, above + before) + SeenE(hi, above + before)
  }

  // --- those that nothing hides are the free ones --------------------------------------------

  function Visible(seen: set<Occurrence>): set<Ref> {
    set o | o in seen && o.ref.qual !in o.between :: o.ref
  }

  lemma VisibleBoth(a: set<Occurrence>, b: set<Occurrence>)
    ensures Visible(a + b) == Visible(a) + Visible(b)
  {
  }

  lemma WithoutBoth(a: set<Ref>, b: set<Ref>, names: set<string>)
    ensures Without(a + b, names) == Without(a, names) + Without(b, names)
  {
  }

  lemma WithoutTwice(refs: set<Ref>, names: set<string>, more: set<string>)
    ensures Without(Without(refs, more), names) == Without(refs, names + more)
  {
  }

  /** Two parts of a tree, each with its visible references. */
  lemma BothVisible(a: set<Occurrence>, b: set<Occurrence>, ra: set<Ref>, rb: set<Ref>, above: set<string>)
    requires Visible(a) == Without(ra, above) && Visible(b) == Without(rb, above)
    ensures Visible(a + b) == Without(ra + rb, above)
  {
    VisibleBoth(a, b);
    WithoutBoth(ra, rb, above);
  }

  lemma {:induction false} VisibleE(e: Expr, above: set<string>)
    ensures Visible(SeenE(e, above)) == Without(FreeE(e), above)
    decreases e, 1
  {
    if e.Cmp? || e.And? || e.Or? {
      VisibleE(e.left, above);
      VisibleE(e.right, above);
      BothVisible(SeenE(e.left, above), SeenE(e.right, above), FreeE(e.left), FreeE(e.right), above);
    } else {
      VisibleKids(e, above);
    }
  }

  lemma {:induction false} VisibleKids(e: Expr, above: set<string>)
    requires !e.Cmp? && !e.And? && !e.Or?
    ensures Visible(SeenE(e, above)) == Without(FreeE(e), above)
    decreases e, 0
  {
    match e
    case Not(x) => VisibleE(x, above);
    case Nested(x) => VisibleE(x, above);
    case Case(c, t, f) =>
      VisibleE(c, above);
      VisibleE(t, above);
      VisibleE(f, above);
      BothVisible(SeenE(c, above), SeenE(t, above), FreeE(c), FreeE(t), above);
      BothVisible(SeenE(c, above) + SeenE(t, above), SeenE(f, above), FreeE(c) + FreeE(t), FreeE(f), above);
    case Call(_, args) => VisibleEs(args, above);
    case Agg(_, arg) => VisibleE(arg, above);
    case Tuple(es) => VisibleEs(es, above);
    case Scalar(q) => VisibleB(q.body, above);
    case Exists(q, _) => VisibleB(q.body, above);
    case InQuery(x, q, _) =>
      VisibleE(x, above);
      VisibleB(q.body, above);
      BothVisible(SeenE(x, above), SeenB(q.body, above), FreeE(x), FreeB(q.body), above);
    case AnyOf(x, a) =>
      VisibleE(x, above);
      VisibleE(a, above);
      BothVisible(SeenE(x, above), SeenE(a, above), FreeE(x), FreeE(a), above);
    case Index(a, i) =>
      VisibleE(a, above);
      VisibleE(i, above);
      BothVisible(SeenE(a, above), SeenE(i, above), FreeE(a), FreeE(i), above);
    case _ =>
  }

  lemma {:induction false} VisibleEs(es: seq<Expr>, above: set<string>)
    ensures Visible(SeenEs(es, above)) == Without(FreeEs(es), above)
    decreases es, 0
  {
    if es != [] {
      VisibleE(es[0], above);
      VisibleEs(es[1..], above);
      BothVisible(SeenE(es[0], above), SeenEs(es[1..], above), FreeE(es[0]), FreeEs(es[1..]), above);
    }
  }

  lemma {:induction false} VisibleOpt(o: Option<Expr>, above: set<string>)
    ensures Visible(SeenOpt(o, above)) == Without(FreeOpt(o), above)
    decreases o, 0
  {
    match o
    case None =>
    case Some(e) => VisibleE(e, above);
  }

  lemma {:induction false} VisibleB(b: Body, above: set<string>)
    ensures Visible(SeenB(b, above)) == Without(FreeB(b), above)
    decreases b, 1
  {
    match b
    case Select(_, from, _, _, _, _) =>
      VisibleFrom(from, above);
      VisibleClauses(b, above + Names(from));
      WithoutTwice(FreeClauses(b), above, Names(from));
      BothVisible(SeenFrom(from, above), SeenClauses(b, above + Names(from)), FreeFrom(from), Without(FreeClauses(b), Names(from)), above);
    case Union(l, r, _) =>
      VisibleB(l, above);
      VisibleB(r, above);
      BothVisible(SeenB(l, above), SeenB(r, above), FreeB(l), FreeB(r), above);
    case Paren(q) => VisibleB(q.body, above);
  }

  lemma {:induction false} VisibleClauses(b: Body, above: set<string>)
    requires b.Select?
    ensures Visible(SeenClauses(b, above)) == Without(FreeClauses(b), above)
    decreases b, 0
  {
    match b
    case Select(proj, _, selection, groupBy, having, _) =>
      VisibleItems(proj, above);
      VisibleOpt(selection, above);
      VisibleEs(groupBy, above);
      VisibleOpt(having, above);
      var i, s, g, h := SeenItems(proj, above), SeenOpt(selection, above), SeenEs(groupBy, above), SeenOpt(having, above);
      var fi, fs, fg, fh := FreeItems(proj), FreeOpt(selection), FreeEs(groupBy), FreeOpt(having);
      BothVisible(i, s, fi, fs, above);
      BothVisible(i + s, g, fi + fs, fg, above);
      BothVisible(i + s + g, h, fi + fs + fg, fh, above);
  }

  lemma {:induction false} VisibleItems(items: seq<Item>, above: set<string>)
    ensures Visible(SeenItems(items, above)) == Without(FreeItems(items), above)
    decreases items, 0
  {
    if items != [] {
      VisibleItem(items[0], above);
      VisibleItems(items[1..], above);
      BothVisible(SeenItem(items[0], above), SeenItems(items[1..], above), FreeItem(items[0]), FreeItems(items[1..]), above);
    }
  }

  lemma {:induction false} VisibleItem(it: Item, above: set<string>)
    ensures Visible(SeenItem(it, above)) == Without(FreeItem(it), above)
    decreases it, 0
  {
    if it.Item? {
      VisibleE(it.e, above);
    }
  }

  lemma {:induction false} VisibleFrom(from: seq<FromItem>, above: set<string>)
    ensures Visible(SeenFrom(from, above)) == Without(FreeFrom(from), above)
    decreases from, 0
  {
    if from != [] {
      var n := |from| - 1;
      VisibleFrom(from[..n], above);
      VisibleJoined(from[n], Names(from[..n]), above);
      BothVisible(SeenFrom(from[..n], above), SeenJoined(from[n], Names(from[..n]), above),
                  FreeFrom(from[..n]), FreeJoined(from[n], Names(from[..n])), above);
    }
  }

  lemma {:induction false} VisibleJoined(it: FromItem, before: set<string>, above: set<string>)
    ensures Visible(SeenJoined(it, before, above)) == Without(FreeJoined(it, before), above)
    decreases it, 0
  {
    var bound := before + {FactorName(it.factor)};
    VisibleFactor(it.factor, before, above);
    VisibleE(it.on, above + before + {FactorName(it.factor)});
    WithoutTwice(FreeE(it.on), above, bound);
    assert above + before + {FactorName(it.factor)} == above + bound;
    BothVisible(SeenFactor(it.factor, before, above), SeenE(it.on, above + bound), FreeFactor(it.factor, before), Without(FreeE(it.on), bound), above);
  }

  lemma {:induction false} VisibleFactor(t: Factor, before: set<string>, above: set<string>)
    ensures Visible(SeenFactor(t, before, above)) == Without(FreeFactor(t, before), above)
    decreases t, 0
  {
    match t
    case Table(_, _, _) =>
    case Derived(q, _, lateral) =>
      VisibleB(q.body, if lateral then above + before else above);
      WithoutTwice(FreeB(q.body), above, before);
    case Series(lo, hi, _) =>
      VisibleE(lo, above + before);
      VisibleE(hi, above + before);
      BothVisible(SeenE(lo, above + before), SeenE(hi, above + before), FreeE(lo), FreeE(hi), above + before);
      WithoutTwice(FreeE(lo) + FreeE(hi), above, before);
  }
}

/** A check on references, told by the occurrences: at any depth, hidden or not. */
module SqlSayings {
  import opened Wrappers
  import opened SqlAst
  import opened SqlVisit
  import opened SqlScope
  import opened SqlMentions
  import opened SqlOccurrences

  predicate Meets(seen: set<Occurrence>, test: RefTest) {
    forall o :: o in seen ==> test(o.ref)
  }

  lemma {:induction false} SayE(test: RefTest, e: Expr, p: Pos, above: set<string>)
    ensures AllE(Saying(test), e, p) <==> Meets(SeenE(e, above), test)
    decreases e, 1
  {
    if e.Cmp? || e.And? || e.Or? {
      var q := if e.Cmp? then Exact else p;
      SayE(test, e.left, q, above);
      SayE(test, e.right, q, above);
    } else {
      SayKids(test, e, p, above);
    }
  }

  lemma {:induction false} SayKids(test: RefTest, e: Expr, p: Pos, above: set<string>)
    requires !e.Cmp? && !e.And? && !e.Or?
    ensures AllE(Saying(test), e, p) <==> Meets(SeenE(e, above), test)
    decreases e, 0
  {
    match e
    case Col(q, c) => assert Occurrence(above, Ref(q, c)) in SeenE(e, above);
    case Bare(x) => assert Occurrence(above, Whole(x)) in SeenE(e, above);
    case Not(x) => SayE(test, x, Exact, above);
    case Nested(x) => SayE(test, x, p, above);
    case Case(c, t, g) => SayE(test, c, Truth, above); SayE(test, t, p, above); SayE(test, g, p, above);
    case Call(_, args) => SayEs(test, args, above);
    case Agg(_, arg) => SayE(test, arg, Exact, above);
    case Tuple(es) => SayEs(test, es, above);
    case Scalar(q) => SayQ(test, q, above);
    case Exists(q, _) => SayQ(test, q, above);
    case InQuery(x, q, _) => SayE(test, x, Exact, above); SayQ(test, q, above);
    case AnyOf(x, a) => SayE(test, x, Exact, above); SayE(test, a, Exact, above);
    case Index(a, i) => SayE(test, a, Exact, above); SayE(test, i, Exact, above);
    case _ =>
  }

  lemma {:induction false} SayQ(test: RefTest, q: Query, above: set<string>)
    ensures AllQ(Saying(test), q) <==> Meets(SeenB(q.body, above), test)
    decreases q, 0
  {
    SayB(test, q.body, above);
  }

  lemma {:induction false} SayEs(test: RefTest, es: seq<Expr>, above: set<string>)
    ensures AllEs(Saying(test), es) <==> Meets(SeenEs(es, above), test)
    decreases es, 0
  {
    if es != [] {
      SayE(test, es[0], Exact, above);
      SayEs(test, es[1..], above);
    }
  }

  lemma {:induction false} SayOpt(test: RefTest, o: Option<Expr>, above: set<string>)
    ensures AllOpt(Saying(test), o) <==> Meets(SeenOpt(o, above), test)
    decreases o, 0
  {
    match o
    case None =>
    case Some(e) => SayE(test, e, Truth, above);
  }

  lemma {:induction false} SayB(test: RefTest, b: Body, above: set<string>)
    ensures AllB(Saying(test), b) <==> Meets(SeenB(b, above), test)
    decreases b, 1
  {
    match b
    case Select(proj, from, selection, groupBy, having, _) =>
      var inside := above + Names(from);
      SayFrom(test, from, above);
      SayItems(test, proj, inside);
      SayOpt(test, selection, inside);
      SayEs(test, groupBy, inside);
      SayOpt(test, having, inside);
      assert SeenClauses(b, inside)
          == SeenItems(proj, inside) + SeenOpt(selection, inside) + SeenEs(groupBy, inside) + SeenOpt(having, inside);
    case Union(l, r, _) => SayB(test, l, above); SayB(test, r, above);
    case Paren(q) => SayQ(test, q, above);
  }

  lemma {:induction false} SayItems(test: RefTest, items: seq<Item>, above: set<string>)
    ensures AllItems(Saying(test), items) <==> Meets(SeenItems(items, above), test)
    decreases items, 0
  {
    if items != [] {
      SayItem(test, items[0], above);
      SayItems(test, items[1..], above);
    }
  }

  lemma {:induction false} SayItem(test: RefTest, it: Item, above: set<string>)
    ensures AllItem(Saying(test), it) <==> Meets(SeenItem(it, above), test)
    decreases it, 0
  {
    if it.Item? {
      SayE(test, it.e, Exact, above);
    }
  }

  lemma {:induction false} SayFrom(test: RefTest, from: seq<FromItem>, above: set<string>)
    ensures AllFrom(Saying(test), from) <==> Meets(SeenFrom(from, above), test)
    decreases from, 0
  {
    if from != [] {
      SayFrom(test, from[..|from| - 1], above);
      SayJoined(test, from[|from| - 1], Names(from[..|from| - 1]), above);
    }
  }

  lemma {:induction false} SayJoined(test: RefTest, it: FromItem, before: set<string>, above: set<string>)
    ensures AllFromItem(Saying(test), it) <==> Meets(SeenJoined(it, before, above), test)
    decreases it, 0
  {
    SayFactor(test, it.factor, before, above);
    SayE(test, it.on, Truth, above + before + {FactorName(it.factor)});
  }

  lemma {:induction false} SayFactor(test: RefTest, t: Factor, before: set<string>, above: set<string>)
    ensures AllFactor(Saying(test), t) <==> Meets(SeenFactor(t, before, above), test)
    decreases t, 0
  {
    match t
    case Table(_, _, _) =>
    case Derived(q, _, lateral) => SayQ(test, q, if lateral then above + before else above);
    case Series(lo, hi, _) => SayE(test, lo, Exact, above + before); SayE(test, hi, Exact, above + before);
  }
}
