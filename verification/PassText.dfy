/** Which passes leave statements that read back: where each writes its result without parentheses
    of its own, what must already be so. */
module PassText {
  import opened Wrappers
  import opened SqlValues
  import opened SqlAst
  import opened SqlEval
  import opened SqlVisit
  import opened SqlCarry
  import opened ExistsRewrites
  import opened BooleanSubquery
  import opened TupleRewrites
  import opened Precedence

  /** The check that a whole statement reads back: every operand of every expression fits. */
  predicate ReadsBack(e: Expr, p: Pos) {
    OperandsFit(e)
  }

  lemma {:induction false} ReadsBackIsWrapped(e: Expr, p: Pos)
    requires AllE(ReadsBack, e, p)
    ensures Wrapped(e)
    decreases e
  {
    match e
    case Or(l, r) => ReadsBackIsWrapped(l, p); ReadsBackIsWrapped(r, p);
    case And(l, r) => ReadsBackIsWrapped(l, p); ReadsBackIsWrapped(r, p);
    case Not(x) => ReadsBackIsWrapped(x, Exact);
    case Cmp(_, l, r) => ReadsBackIsWrapped(l, Exact); ReadsBackIsWrapped(r, Exact);
    case AnyOf(x, _) => ReadsBackIsWrapped(x, Exact);
    case InQuery(x, _, _) => ReadsBackIsWrapped(x, Exact);
    case Nested(x) => ReadsBackIsWrapped(x, p);
    case _ =>
  }

  /** How loosely a pass may leave an expression. */
  ghost predicate Keeps(f: Callback, low: Expr -> nat) {
    forall x, k :: KeepsAt(f, low, x, k)
  }

  ghost predicate KeepsAt(f: Callback, low: Expr -> nat, x: Expr, k: nat) {
    Level(VisitE(f, x, k).0) >= low(x)
  }

  lemma KidsFit(f: Callback, low: Expr -> nat, e: Expr, k: nat)
    requires Keeps(f, low) && Fits(low, e)
    ensures OperandsFit(VisitKids(f, e, k).0)
  {
    match e
    case And(l, r) => assert KeepsAt(f, low, l, k) && KeepsAt(f, low, r, VisitE(f, l, k).1);
    case Not(x) => assert KeepsAt(f, low, x, k);
    case Cmp(_, l, r) => assert KeepsAt(f, low, l, k) && KeepsAt(f, low, r, VisitE(f, l, k).1);
    case AnyOf(x, _) => assert KeepsAt(f, low, x, k);
    case InQuery(x, _, _) => assert KeepsAt(f, low, x, k);
    case _ =>
  }

  lemma SameLevel(f: Callback, x: Expr, k: nat)
    ensures Level(VisitKids(f, x, k).0) == Level(x)
    ensures VisitKids(f, x, k).0.Exists? == x.Exists? && VisitKids(f, x, k).0.Cmp? == x.Cmp?
  {
  }

  // --- boolean scalar subquery to EXISTS -----------------------------------------------------

  lemma BooleanKeeps()
    ensures Keeps(BooleanToExists, Level)
  {
    forall x: Expr, k: nat ensures KeepsAt(BooleanToExists, Level, x, k) {
      SameLevel(BooleanToExists, x, k);
    }
  }

  /** Both joined conditions are parenthesised, so nothing is asked of them. */
  lemma FoldedReadsBack(q: Query, p: Pos)
    requires PredicateBody(q.body) && AllQ(ReadsBack, q)
    ensures AllE(ReadsBack, PredicateExists(q), p)
  {
    var b := q.body;
    var pred := b.proj[0].e;
    assert AllB(ReadsBack, b);
    assert AllItems(ReadsBack, b.proj) && AllOpt(ReadsBack, b.selection);
    assert AllItem(ReadsBack, b.proj[0]);
    assert AllE(ReadsBack, pred, Exact);
    assert AllKids(ReadsBack, pred, Truth) == AllKids(ReadsBack, pred, Exact);
    OneReadsBack();
    assert AllE(ReadsBack, FoldedWhere(b), Truth) by {
      if b.selection.Some? {
        assert AllE(ReadsBack, b.selection.value, Truth);
        assert AllE(ReadsBack, Nested(b.selection.value), Truth);
        assert AllE(ReadsBack, Nested(pred), Truth);
      }
    }
    assert AllB(ReadsBack, PredicateExists(q).q.body);
  }

  lemma OneReadsBack()
    ensures AllItems(ReadsBack, [Item(Lit(Int(1)), None)])
  {
    var one := [Item(Lit(Int(1)), None)];
    assert one[1..] == [] && AllE(ReadsBack, Lit(Int(1)), Exact);
  }

  lemma BooleanReadsBack(q: Query)
    requires AllQ(ReadsBack, q)
    ensures AllQ(ReadsBack, VisitQ(BooleanToExists, q, 0).0)
  {
    BooleanKeeps();
    forall e: Expr, k: nat, p: Pos | AllE(ReadsBack, e, p)
      ensures CarriesAt(BooleanToExists, ReadsBack, e, k, p)
    {
      var kids := VisitKids(BooleanToExists, e, k).0;
      KidsFit(BooleanToExists, Level, e, k);
      if kids.Scalar? && PredicateBody(kids.q.body) && AllKids(ReadsBack, kids, p) {
        FoldedReadsBack(kids.q, p);
      }
    }
    CarryQ(BooleanToExists, ReadsBack, ReadsBack, q, 0);
  }

  // --- EXISTS to count -----------------------------------------------------------------------

  /** EXISTS reads as one piece; the comparison it becomes does not. */
  function CountLevel(x: Expr): nat {
    if x.Exists? then 3 else Level(x)
  }

  /** No EXISTS is itself compared, or tested for membership. */
  predicate CountReadsBackHere(e: Expr, p: Pos) {
    Fits(CountLevel, e)
  }

  lemma CountKeeps()
    ensures Keeps(ExistsToCount, CountLevel)
  {
    forall x: Expr, k: nat ensures KeepsAt(ExistsToCount, CountLevel, x, k) {
      SameLevel(ExistsToCount, x, k);
    }
  }

  lemma CountTestReadsBack(q: Query, negated: bool, p: Pos)
    requires Simple(q.body) && AllQ(ReadsBack, q)
    ensures AllE(ReadsBack, CountTest(q, negated), p)
  {
    var items := [Item(CountStar, None)];
    assert items[1..] == [] && AllE(ReadsBack, CountStar, Exact);
    assert AllB(ReadsBack, q.body);
    assert AllB(ReadsBack, CountBody(q.body));
    assert AllE(ReadsBack, Scalar(q.(body := CountBody(q.body))), Exact);
    assert AllE(ReadsBack, Lit(Int(0)), Exact);
  }

  lemma CountReadsBack(q: Query)
    requires AllQ(CountReadsBackHere, q)
    ensures AllQ(ReadsBack, VisitQ(ExistsToCount, q, 0).0)
  {
    CountKeeps();
    forall e: Expr, k: nat, p: Pos | AllE(CountReadsBackHere, e, p)
      ensures CarriesAt(ExistsToCount, ReadsBack, e, k, p)
    {
      var kids := VisitKids(ExistsToCount, e, k).0;
      KidsFit(ExistsToCount, CountLevel, e, k);
      if kids.Exists? && Simple(kids.q.body) && AllKids(ReadsBack, kids, p) {
        CountTestReadsBack(kids.q, kids.negated, p);
      }
    }
    CarryQ(ExistsToCount, CountReadsBackHere, ReadsBack, q, 0);
  }

  // --- row equality --------------------------------------------------------------------------

  predicate Tight(es: seq<Expr>) {
    forall i :: 0 <= i < |es| ==> Level(es[i]) >= 4
  }

  /** A row equality becomes a bare conjunction, or one comparison. */
  function TupleLevel(x: Expr): nat {
    if RowEquality(x) && |x.left.elems| > 1 then 1 else Level(x)
  }

  /** No row equality of several columns stands directly under NOT, and no element of one holds a
      looser operator. */
  predicate TupleReadsBackHere(e: Expr, p: Pos) {
    && Fits(TupleLevel, e)
    && (RowEquality(e) ==> Tight(e.left.elems) && Tight(e.right.elems))
  }

  lemma TupleStays(x: Expr, k: nat)
    ensures VisitE(TupleEquality, x, k).0.Tuple? == x.Tuple?
    ensures x.Tuple? ==> VisitE(TupleEquality, x, k).0.elems == VisitEs(TupleEquality, x.elems, k).0
  {
    var kids := VisitKids(TupleEquality, x, k).0;
    assert kids.Tuple? == x.Tuple? && kids.Cmp? == x.Cmp?;
    if RowEquality(kids) {
      ConjoinedIsPlain(kids);
    }
  }

  lemma ConjoinedIsPlain(e: Expr)
    requires RowEquality(e)
    ensures var r := TupleEquality(e, 0).0;
      !r.Tuple? && (if |e.left.elems| > 1 then r.And? else r == Cmp(Eq, e.left.elems[0], e.right.elems[0]))
  {
    ConjoinedLevel(Cmp(Eq, e.left.elems[0], e.right.elems[0]), e.left.elems[1..], e.right.elems[1..]);
  }

  lemma {:induction false} ConjoinedLevel(acc: Expr, ls: seq<Expr>, rs: seq<Expr>)
    requires |ls| == |rs|
    ensures ls != [] ==> Conjoined(acc, ls, rs).And?
    decreases |ls|
  {
    if ls != [] {
      ConjoinedLevel(And(acc, Cmp(Eq, ls[0], rs[0])), ls[1..], rs[1..]);
    }
  }

  lemma RowStays(x: Expr, k: nat)
    ensures RowEquality(VisitKids(TupleEquality, x, k).0) <==> RowEquality(x)
    ensures RowEquality(x) ==> |VisitKids(TupleEquality, x, k).0.left.elems| == |x.left.elems|
  {
    if x.Cmp? {
      TupleStays(x.left, k);
      TupleStays(x.right, VisitE(TupleEquality, x.left, k).1);
    }
  }

  lemma TupleKeeps()
    ensures Keeps(TupleEquality, TupleLevel)
  {
    forall x: Expr, k: nat ensures KeepsAt(TupleEquality, TupleLevel, x, k) {
      SameLevel(TupleEquality, x, k);
      RowStays(x, k);
      var kids := VisitKids(TupleEquality, x, k).0;
      if RowEquality(kids) {
        ConjoinedIsPlain(kids);
      }
    }
  }

  lemma {:induction false} ElementsTight(f: Callback, low: Expr -> nat, es: seq<Expr>, k: nat)
    requires Keeps(f, low) && forall i :: 0 <= i < |es| ==> low(es[i]) >= 4
    ensures Tight(VisitEs(f, es, k).0)
    decreases |es|
  {
    if es != [] {
      assert KeepsAt(f, low, es[0], k);
      ElementsTight(f, low, es[1..], VisitE(f, es[0], k).1);
    }
  }

  lemma {:induction false} ConjoinedReadsBack(acc: Expr, ls: seq<Expr>, rs: seq<Expr>, p: Pos)
    requires |ls| == |rs| && Tight(ls) && Tight(rs) && AllEs(ReadsBack, ls) && AllEs(ReadsBack, rs)
    requires AllE(ReadsBack, acc, p) && Level(acc) >= 1
    ensures AllE(ReadsBack, Conjoined(acc, ls, rs), p)
    decreases |ls|
  {
    if ls != [] {
      EqualityReadsBack(ls[0], rs[0], p);
      assert AllE(ReadsBack, And(acc, Cmp(Eq, ls[0], rs[0])), p);
      ConjoinedReadsBack(And(acc, Cmp(Eq, ls[0], rs[0])), ls[1..], rs[1..], p);
    }
  }

  lemma EqualityReadsBack(l: Expr, r: Expr, p: Pos)
    requires Level(l) >= 4 && Level(r) >= 4 && AllE(ReadsBack, l, Exact) && AllE(ReadsBack, r, Exact)
    ensures AllE(ReadsBack, Cmp(Eq, l, r), p)
  {
  }

  lemma RowReadsBack(e: Expr, p: Pos)
    requires RowEquality(e) && Tight(e.left.elems) && Tight(e.right.elems) && AllKids(ReadsBack, e, p)
    ensures AllE(ReadsBack, TupleEquality(e, 0).0, p)
  {
    var ls, rs := e.left.elems, e.right.elems;
    assert AllE(ReadsBack, e.left, Exact) && AllE(ReadsBack, e.right, Exact);
    assert AllKids(ReadsBack, e.left, Exact) && AllKids(ReadsBack, e.right, Exact);
    assert AllEs(ReadsBack, ls) && AllEs(ReadsBack, rs);
    EqualityReadsBack(ls[0], rs[0], p);
    ConjoinedReadsBack(Cmp(Eq, ls[0], rs[0]), ls[1..], rs[1..], p);
  }

  lemma TupleStepReadsBack(e: Expr, k: nat, p: Pos)
    requires AllE(TupleReadsBackHere, e, p) && Keeps(TupleEquality, TupleLevel)
    ensures CarriesAt(TupleEquality, ReadsBack, e, k, p)
  {
    var kids := VisitKids(TupleEquality, e, k).0;
    KidsFit(TupleEquality, TupleLevel, e, k);
    RowStays(e, k);
    if RowEquality(kids) && AllKids(ReadsBack, kids, p) {
      var k1 := VisitE(TupleEquality, e.left, k).1;
      TupleStays(e.left, k);
      TupleStays(e.right, k1);
      ElementsTight(TupleEquality, TupleLevel, e.left.elems, k);
      ElementsTight(TupleEquality, TupleLevel, e.right.elems, k1);
      RowReadsBack(kids, p);
    }
  }

  // --- one replacement, exactly --------------------------------------------------------------

  /** Elements that bind tightly and read back themselves. */
  predicate Sound(es: seq<Expr>) {
    forall i :: 0 <= i < |es| ==> Level(es[i]) >= 4 && Wrapped(es[i])
  }

  lemma SoundStep(es: seq<Expr>)
    requires es != []
    ensures Sound(es) <==> Level(es[0]) >= 4 && Wrapped(es[0]) && Sound(es[1..])
  {
    assert es == [es[0]] + es[1..];
  }

  lemma {:induction false} ConjoinedWrapped(acc: Expr, ls: seq<Expr>, rs: seq<Expr>)
    requires |ls| == |rs| && Level(acc) >= 1
    ensures Wrapped(Conjoined(acc, ls, rs)) <==> Wrapped(acc) && Sound(ls) && Sound(rs)
    decreases |ls|
  {
    if ls != [] {
      var more := And(acc, Cmp(Eq, ls[0], rs[0]));
      assert Wrapped(more) <==> Wrapped(acc) && Wrapped(Cmp(Eq, ls[0], rs[0]));
      ConjoinedWrapped(more, ls[1..], rs[1..]);
      SoundStep(ls);
      SoundStep(rs);
    }
  }

  lemma RowWrapped(e: Expr)
    requires RowEquality(e)
    ensures Wrapped(TupleEquality(e, 0).0) <==> Sound(e.left.elems) && Sound(e.right.elems)
  {
    var ls, rs := e.left.elems, e.right.elems;
    ConjoinedWrapped(Cmp(Eq, ls[0], rs[0]), ls[1..], rs[1..]);
    SoundStep(ls);
    SoundStep(rs);
  }

  /** The conjunction written for one row equality is read again as that conjunction exactly when
      every element as written binds tightly and reads back. */
  lemma RowReadsBackExactly(e: Expr)
    requires RowEquality(e)
    ensures var r := TupleEquality(e, 0).0;
      Parse(Render(r)) == Some(Leftward(r)) <==> Sound(e.left.elems) && Sound(e.right.elems)
  {
    RowWrapped(e);
    RoundTrip(TupleEquality(e, 0).0);
  }

  /** And directly under NOT exactly when there is a single column besides. */
  lemma NotRowReadsBackExactly(e: Expr)
    requires RowEquality(e)
    ensures var r := Not(TupleEquality(e, 0).0);
      Parse(Render(r)) == Some(Leftward(r)) <==> Sound(e.left.elems) && Sound(e.right.elems) && |e.left.elems| == 1
  {
    RowWrapped(e);
    ConjoinedIsPlain(e);
    RoundTrip(Not(TupleEquality(e, 0).0));
  }

  lemma TupleEqualityReadsBack(q: Query)
    requires AllQ(TupleReadsBackHere, q)
    ensures AllQ(ReadsBack, VisitQ(TupleEquality, q, 0).0)
  {
    TupleKeeps();
    forall e: Expr, k: nat, p: Pos | AllE(TupleReadsBackHere, e, p)
      ensures CarriesAt(TupleEquality, ReadsBack, e, k, p)
    {
      TupleStepReadsBack(e, k, p);
    }
    CarryQ(TupleEquality, TupleReadsBackHere, ReadsBack, q, 0);
  }

  // --- multi-column IN -----------------------------------------------------------------------

  /** The kept WHERE is joined bare, so it must not be an OR; neither side's columns hold a looser
      operator. */
  predicate InReadsBackHere(e: Expr, p: Pos) {
    && OperandsFit(e)
    && (TupleMembership(e) ==>
          && Tight(e.e.elems) && Tight(Projected(e.q.body.proj))
          && (e.q.body.selection.Some? ==> !e.q.body.selection.value.Or?))
  }

  lemma InKeeps()
    ensures Keeps(TupleInToExists, Level)
  {
    forall x: Expr, k: nat ensures KeepsAt(TupleInToExists, Level, x, k) {
      SameLevel(TupleInToExists, x, k);
    }
  }

  lemma {:induction false} ItemsReadBack(items: seq<Item>)
    requires (forall i :: 0 <= i < |items| ==> items[i].Item?) && AllItems(ReadsBack, items)
    ensures AllEs(ReadsBack, Projected(items))
  {
    if items != [] {
      assert AllItem(ReadsBack, items[0]);
      ItemsReadBack(items[1..]);
      assert Projected(items)[1..] == Projected(items[1..]);
    }
  }

  lemma MatchReadsBack(e: Expr, p: Pos)
    requires TupleMembership(e) && Tight(e.e.elems) && Tight(Projected(e.q.body.proj)) && AllKids(ReadsBack, e, p)
    requires e.q.body.selection.Some? ==> !e.q.body.selection.value.Or?
    ensures AllE(ReadsBack, TupleInToExists(e, 0).0, p)
  {
    var b := e.q.body;
    var ls, rs := Projected(b.proj), e.e.elems;
    assert AllE(ReadsBack, e.e, Exact) && AllKids(ReadsBack, e.e, Exact) && AllEs(ReadsBack, rs);
    assert AllQ(ReadsBack, e.q) && AllB(ReadsBack, b);
    assert AllItems(ReadsBack, b.proj) && AllOpt(ReadsBack, b.selection);
    ItemsReadBack(b.proj);
    OneReadsBack();
    var cond := WithEqualities(b.selection, ls, rs);
    assert AllE(ReadsBack, cond.value, Truth) by {
      if b.selection.Some? {
        assert AllE(ReadsBack, b.selection.value, Truth);
        ConjoinedReadsBack(b.selection.value, ls, rs, Truth);
      } else {
        EqualityReadsBack(ls[0], rs[0], Truth);
        ConjoinedReadsBack(Cmp(Eq, ls[0], rs[0]), ls[1..], rs[1..], Truth);
      }
    }
    assert AllOpt(ReadsBack, cond) && AllB(ReadsBack, MatchBody(b, rs));
  }

  /** The pass neither makes nor unmakes a row constructor or a projected expression's place. */
  lemma MembershipStays(e: Expr, k: nat)
    requires e.InQuery?
    ensures var kids := VisitKids(TupleInToExists, e, k).0;
      && (TupleMembership(kids) <==> TupleMembership(e))
      && kids.q.body == VisitB(TupleInToExists, e.q.body, VisitE(TupleInToExists, e.e, k).1).0
      && (e.e.Tuple? ==> kids.e == Tuple(VisitEs(TupleInToExists, e.e.elems, k).0))
  {
    var f, k1 := TupleInToExists, VisitE(TupleInToExists, e.e, k).1;
    var kids := VisitKids(f, e, k).0;
    assert VisitQ(f, e.q, k1).0.body == VisitB(f, e.q.body, k1).0;
    assert kids == InQuery(VisitE(f, e.e, k).0, VisitQ(f, e.q, k1).0, e.negated);
    TupleKept(e.e, k);
    VisitKeepsClauses(f, e.q.body, k1);
    if e.q.body.Select? {
      ItemsStay(f, e.q.body.proj, k1);
      assert forall i :: 0 <= i < |e.q.body.proj| ==> (kids.q.body.proj[i].Item? <==> e.q.body.proj[i].Item?);
    }
  }

  lemma TupleKept(x: Expr, k: nat)
    ensures VisitE(TupleInToExists, x, k).0.Tuple? == x.Tuple?
    ensures x.Tuple? ==> VisitE(TupleInToExists, x, k).0 == Tuple(VisitEs(TupleInToExists, x.elems, k).0)
  {
    assert VisitKids(TupleInToExists, x, k).0.Tuple? == x.Tuple?;
  }

  lemma {:induction false} ItemsStay(f: Callback, items: seq<Item>, k: nat)
    ensures forall i :: 0 <= i < |items| ==> VisitItems(f, items, k).0[i].Item? == items[i].Item?
    decreases |items|
  {
    if items != [] {
      ItemsStay(f, items[1..], VisitItem(f, items[0], k).1);
    }
  }

  lemma {:induction false} ProjectedTight(f: Callback, items: seq<Item>, k: nat)
    requires Keeps(f, Level) && (forall i :: 0 <= i < |items| ==> items[i].Item?) && Tight(Projected(items))
    ensures forall i :: 0 <= i < |items| ==> VisitItems(f, items, k).0[i].Item?
    ensures Tight(Projected(VisitItems(f, items, k).0))
    decreases |items|
  {
    ItemsStay(f, items, k);
    if items != [] {
      assert Projected(items)[0] == items[0].e && Projected(items)[1..] == Projected(items[1..]);
      assert KeepsAt(f, Level, items[0].e, k);
      ProjectedTight(f, items[1..], VisitItem(f, items[0], k).1);
      var out := VisitItems(f, items, k).0;
      assert Projected(out) == [out[0].e] + Projected(VisitItems(f, items[1..], VisitItem(f, items[0], k).1).0);
    }
  }

  lemma InStepReadsBack(e: Expr, k: nat, p: Pos)
    requires AllE(InReadsBackHere, e, p) && Keeps(TupleInToExists, Level)
    ensures CarriesAt(TupleInToExists, ReadsBack, e, k, p)
  {
    var kids := VisitKids(TupleInToExists, e, k).0;
    KidsFit(TupleInToExists, Level, e, k);
    if e.InQuery? {
      MembershipStays(e, k);
      if TupleMembership(kids) && AllKids(ReadsBack, kids, p) {
        MembershipTight(e, k);
        MatchReadsBack(kids, p);
      }
    }
  }

  lemma MembershipTight(e: Expr, k: nat)
    requires TupleMembership(e) && InReadsBackHere(e, Exact) && Keeps(TupleInToExists, Level)
    ensures var kids := VisitKids(TupleInToExists, e, k).0;
      && TupleMembership(kids) && Tight(kids.e.elems) && Tight(Projected(kids.q.body.proj))
      && (kids.q.body.selection.Some? ==> !kids.q.body.selection.value.Or?)
  {
    var f, b, k1 := TupleInToExists, e.q.body, VisitE(TupleInToExists, e.e, k).1;
    MembershipStays(e, k);
    ElementsTight(f, Level, e.e.elems, k);
    ProjectedTight(f, b.proj, k1);
    VisitKeepsClauses(f, b, k1);
    if b.selection.Some? {
      var k2 := VisitFrom(f, b.from, VisitItems(f, b.proj, k1).1).1;
      assert KeepsAt(f, Level, b.selection.value, k2);
      assert VisitB(f, b, k1).0.selection == Some(VisitE(f, b.selection.value, k2).0);
    }
  }

  lemma TupleInReadsBack(q: Query)
    requires AllQ(InReadsBackHere, q)
    ensures AllQ(ReadsBack, VisitQ(TupleInToExists, q, 0).0)
  {
    InKeeps();
    forall e: Expr, k: nat, p: Pos | AllE(InReadsBackHere, e, p)
      ensures CarriesAt(TupleInToExists, ReadsBack, e, k, p)
    {
      InStepReadsBack(e, k, p);
    }
    CarryQ(TupleInToExists, InReadsBackHere, ReadsBack, q, 0);
  }

  // --- why the conditions are there ----------------------------------------------------------

  /** `NOT (a, b) = (c, d)`: written out bare, the NOT takes only the first equality. */
  lemma UnderNotItReadsOtherwise(a: Expr, b: Expr, c: Expr, d: Expr)
    requires Level(a) == 5 && Level(b) == 5 && Level(c) == 5 && Level(d) == 5
    requires !a.Nested? && !b.Nested? && !c.Nested? && !d.Nested?
    ensures var e := Not(TupleEquality(Cmp(Eq, Tuple([a, b]), Tuple([c, d])), 0).0);
      Parse(Render(e)) == Some(And(Not(Cmp(Eq, a, c)), Cmp(Eq, b, d)))
  {
    var first, second := Cmp(Eq, a, c), Cmp(Eq, b, d);
    var e := Not(TupleEquality(Cmp(Eq, Tuple([a, b]), Tuple([c, d])), 0).0);
    assert [a, b][1..] == [b] && [c, d][1..] == [d] && [b][1..] == [] && [d][1..] == [];
    assert Conjoined(And(first, second), [], []) == And(first, second);
    assert e == Not(And(first, second));
    var meant := And(Not(first), second);
    assert Render(e) == [TNot] + (Render(first) + [TAnd] + Render(second));
    assert Render(meant) == ([TNot] + Render(first)) + [TAnd] + Render(second);
    assert Render(e) == Render(meant);
    assert Leftward(a) == a && Leftward(b) == b && Leftward(c) == c && Leftward(d) == d;
    assert Leftward(first) == first && Leftward(second) == second && Leftward(Not(first)) == Not(first);
    assert Wrapped(a) && Wrapped(b) && Wrapped(c) && Wrapped(d);
    assert Wrapped(first) && Wrapped(second) && Wrapped(Not(first));
    assert Leftward(meant) == meant && Wrapped(meant);
    RoundTrip(meant);
  }
}
