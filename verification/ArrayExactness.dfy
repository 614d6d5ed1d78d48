/** When exactly the array pass keeps the rows, and statements on which it does not. */
module ArrayExactness {
  import opened Wrappers
  import opened SqlValues
  import opened SqlAst
  import opened SqlEval
  import opened SqlVisit
  import opened SqlScope
  import opened SqlMentions
  import opened FrameViews
  import opened LateralAggregate
  import opened ArrayIteration
  import opened ArrayRows
  import opened Bags
  import opened GroupedSelect

  // --- one outer row, any bounds -------------------------------------------------------------

  /** Some index in the range holds the value. */
  predicate HeldIn(v: Result<Value>, a: Value, lo: int, hi: int) {
    exists i :: lo <= i <= hi && Hit(v, a, i)
  }

  /** Exactly one does. */
  predicate HeldOnce(v: Result<Value>, a: Value, lo: int, hi: int) {
    exists i :: lo <= i <= hi && OnlyAt(v, a, lo, hi, i)
  }

  predicate OnlyAt(v: Result<Value>, a: Value, lo: int, hi: int, i: int) {
    lo <= i <= hi && Hit(v, a, i) && forall j :: lo <= j <= hi && j != i ==> !Hit(v, a, j)
  }

  lemma {:induction false} HitsCounted(v: Result<Value>, a: Value, lo: int, hi: int)
    ensures CountHits(v, a, lo, hi) >= 1 <==> HeldIn(v, a, lo, hi)
    ensures CountHits(v, a, lo, hi) == 1 <==> HeldOnce(v, a, lo, hi)
    decreases hi - lo
  {
    if lo <= hi {
      HitsCounted(v, a, lo + 1, hi);
      if Hit(v, a, lo) {
        HeldNow(v, a, lo, hi);
      } else {
        HeldLater(v, a, lo, hi);
      }
    }
  }

  lemma HeldNow(v: Result<Value>, a: Value, lo: int, hi: int)
    requires lo <= hi && Hit(v, a, lo)
    ensures HeldIn(v, a, lo, hi) && (HeldOnce(v, a, lo, hi) <==> !HeldIn(v, a, lo + 1, hi))
  {
    if HeldIn(v, a, lo + 1, hi) {
      var i :| lo + 1 <= i <= hi && Hit(v, a, i);
      forall j ensures !OnlyAt(v, a, lo, hi, j) {
      }
    } else {
      assert OnlyAt(v, a, lo, hi, lo);
    }
  }

  lemma HeldLater(v: Result<Value>, a: Value, lo: int, hi: int)
    requires lo <= hi && !Hit(v, a, lo)
    ensures HeldIn(v, a, lo, hi) <==> HeldIn(v, a, lo + 1, hi)
    ensures HeldOnce(v, a, lo, hi) <==> HeldOnce(v, a, lo + 1, hi)
  {
    forall i ensures OnlyAt(v, a, lo, hi, i) <==> OnlyAt(v, a, lo + 1, hi, i) {
    }
    if HeldIn(v, a, lo, hi) {
      var i :| lo <= i <= hi && Hit(v, a, i);
      assert lo + 1 <= i;
    }
    if HeldOnce(v, a, lo, hi) {
      var i :| lo <= i <= hi && OnlyAt(v, a, lo, hi, i);
      assert lo + 1 <= i && OnlyAt(v, a, lo + 1, hi, i);
    }
    if HeldOnce(v, a, lo + 1, hi) {
      var i :| lo + 1 <= i <= hi && OnlyAt(v, a, lo + 1, hi, i);
      assert OnlyAt(v, a, lo, hi, i);
    }
  }

  /** What different rows with these counts come to. */
  lemma {:induction false} WeightedOf(rows: seq<Rec>, counts: seq<nat>, j: nat)
    requires |counts| == |rows| && Single(rows) && j < |rows|
    ensures Weighted(rows, counts)[rows[j]] == counts[j]
  {
    CopiesOf(rows[0], counts[0]);
    if j == 0 {
      if rows[0] in Weighted(rows[1..], counts[1..]) {
        WeightedOnly(rows[1..], counts[1..], rows[0]);
      }
    } else {
      WeightedOf(rows[1..], counts[1..], j - 1);
    }
  }

  predicate Comes(rows: seq<Rec>, counts: seq<nat>, x: Rec)
    requires |counts| == |rows|
  {
    exists j :: 0 <= j < |rows| && rows[j] == x && counts[j] >= 1
  }

  lemma {:induction false} WeightedHas(rows: seq<Rec>, counts: seq<nat>, x: Rec)
    requires |counts| == |rows|
    ensures x in Weighted(rows, counts) <==> Comes(rows, counts, x)
  {
    if rows != [] {
      WeightedHas(rows[1..], counts[1..], x);
      CopiesOf(rows[0], counts[0]);
      ComesLater(rows, counts, x);
    }
  }

  lemma ComesLater(rows: seq<Rec>, counts: seq<nat>, x: Rec)
    requires |counts| == |rows| && rows != []
    ensures Comes(rows, counts, x) <==> (rows[0] == x && counts[0] >= 1) || Comes(rows[1..], counts[1..], x)
  {
    if Comes(rows[1..], counts[1..], x) {
      var j :| 0 <= j < |rows[1..]| && rows[1..][j] == x && counts[1..][j] >= 1;
      assert rows[j + 1] == x && counts[j + 1] >= 1;
    }
    if Comes(rows, counts, x) {
      var j :| 0 <= j < |rows| && rows[j] == x && counts[j] >= 1;
      assert j > 0 ==> rows[1..][j - 1] == x && counts[1..][j - 1] >= 1;
    }
  }

  lemma WeightedSet(before: seq<Rec>, rows: seq<Rec>, counts: seq<nat>)
    requires |counts| == |rows| && multiset(before) == Weighted(rows, counts)
    ensures (forall x :: x in before <==> x in rows) <==> forall n :: 0 <= n < |rows| ==> Comes(rows, counts, rows[n])
  {
    forall x ensures x in before <==> Comes(rows, counts, x) {
      WeightedHas(rows, counts, x);
      assert x in before <==> x in multiset(before);
    }
    if forall x :: x in before <==> x in rows {
      forall n | 0 <= n < |rows| ensures Comes(rows, counts, rows[n]) {
        assert rows[n] in rows;
      }
    }
  }

  lemma WeightedBag(before: seq<Rec>, rows: seq<Rec>, counts: seq<nat>)
    requires |counts| == |rows| && multiset(before) == Weighted(rows, counts) && Single(rows)
    ensures multiset(before) == multiset(rows) <==> forall j :: 0 <= j < |rows| ==> counts[j] == 1
  {
    SingleCounts(rows);
    if multiset(before) == multiset(rows) {
      forall j | 0 <= j < |rows| ensures counts[j] == 1 {
        WeightedOf(rows, counts, j);
        assert rows[j] in rows;
      }
    }
    if forall j :: 0 <= j < |rows| ==> counts[j] == 1 {
      WeightedOnce(rows, counts);
    }
  }

  /** Each row of the membership test comes from one whose value some index of the series holds. */
  predicate AllHeld(rows: seq<Rec>, vs: seq<Result<Value>>, a: Value, lo: int, hi: int)
    requires |vs| == |rows|
  {
    forall n :: 0 <= n < |rows| ==> SomeHeld(rows, vs, rows[n], a, lo, hi)
  }

  predicate SomeHeld(rows: seq<Rec>, vs: seq<Result<Value>>, x: Rec, a: Value, lo: int, hi: int)
    requires |vs| == |rows|
  {
    exists j :: 0 <= j < |rows| && rows[j] == x && HeldIn(vs[j], a, lo, hi)
  }

  /** One index holds each. */
  predicate EachHeldOnce(vs: seq<Result<Value>>, a: Value, lo: int, hi: int) {
    forall j :: 0 <= j < |vs| ==> HeldOnce(vs[j], a, lo, hi)
  }

  function ValuesSought(w: World, v: Expr, kept: seq<Frame>, env: Env): seq<Result<Value>> {
    seq(|kept|, j requires 0 <= j < |kept| => ValueAt(w, v, kept[j], env))
  }

  /** For one outer row and a series with any bounds: the set of rows is kept exactly when each row
      of the membership test comes from one whose value some index of the series holds, and the bag
      of different rows exactly when one index holds each. */
  lemma IndexedExactly(w: World, k: Walk, f: Frame, env: Env, a: Value, lo: int, hi: int)
    requires Separate(k) && ValueAt(w, Arr(k), f, env) == Ok(a) && (a.Array? || a.Null?)
    requires JoinRest(w, k.rest, Indexed(f, k.it.factor.given, lo, hi), env).Ok? && JoinRest(w, k.rest, [f], env).Ok?
    requires RowsOf(w, k.cond, k.items, JoinRest(w, k.rest, Indexed(f, k.it.factor.given, lo, hi), env).value, env).Ok?
    requires RowsOf(w, Test(k), k.items, JoinRest(w, k.rest, [f], env).value, env).Ok?
    ensures var ys := JoinRest(w, k.rest, [f], env).value;
      var kept, rows := Filter(w, Test(k), ys, env), RowsOf(w, Test(k), k.items, ys, env).value;
      var before := RowsOf(w, k.cond, k.items, JoinRest(w, k.rest, Indexed(f, k.it.factor.given, lo, hi), env).value, env).value;
      && kept.Ok? && |rows| == |kept.value|
      && ((forall x :: x in before <==> x in rows) <==> AllHeld(rows, ValuesSought(w, SoughtIn(k), kept.value, env), a, lo, hi))
      && (Single(rows) ==>
            (multiset(before) == multiset(rows) <==> EachHeldOnce(ValuesSought(w, SoughtIn(k), kept.value, env), a, lo, hi)))
  {
    var ys := JoinRest(w, k.rest, [f], env).value;
    var before := RowsOf(w, k.cond, k.items, JoinRest(w, k.rest, Indexed(f, k.it.factor.given, lo, hi), env).value, env).value;
    IndexRows(w, k, f, env, a, lo, hi);
    var kept, rows := Filter(w, Test(k), ys, env).value, RowsOf(w, Test(k), k.items, ys, env).value;
    CountsExactly(before, rows, Counts(w, SoughtIn(k), a, kept, env, lo, hi), ValuesSought(w, SoughtIn(k), kept, env), a, lo, hi);
  }

  lemma CountsExactly(before: seq<Rec>, rows: seq<Rec>, counts: seq<nat>, vs: seq<Result<Value>>, a: Value, lo: int, hi: int)
    requires |counts| == |rows| == |vs| && multiset(before) == Weighted(rows, counts)
    requires forall j :: 0 <= j < |rows| ==> counts[j] == CountHits(vs[j], a, lo, hi)
    ensures (forall x :: x in before <==> x in rows) <==> AllHeld(rows, vs, a, lo, hi)
    ensures Single(rows) ==> (multiset(before) == multiset(rows) <==> EachHeldOnce(vs, a, lo, hi))
  {
    forall j | 0 <= j < |rows|
      ensures (counts[j] >= 1 <==> HeldIn(vs[j], a, lo, hi)) && (counts[j] == 1 <==> HeldOnce(vs[j], a, lo, hi))
    {
      HitsCounted(vs[j], a, lo, hi);
    }
    forall x ensures Comes(rows, counts, x) <==> SomeHeld(rows, vs, x, a, lo, hi) {
      ComesHeld(rows, counts, vs, x, a, lo, hi);
    }
    WeightedSet(before, rows, counts);
    if Single(rows) {
      WeightedBag(before, rows, counts);
    }
  }

  lemma ComesHeld(rows: seq<Rec>, counts: seq<nat>, vs: seq<Result<Value>>, x: Rec, a: Value, lo: int, hi: int)
    requires |counts| == |rows| == |vs| && forall j :: 0 <= j < |rows| ==> (counts[j] >= 1 <==> HeldIn(vs[j], a, lo, hi))
    ensures Comes(rows, counts, x) <==> SomeHeld(rows, vs, x, a, lo, hi)
  {
  }
}

/** `SELECT ... FROM generate_series(lo, array_upper(bound, 1)) s, generate_series(1, 1) t
    WHERE 5 = walked[s]`, evaluated for every bound and every pair of arrays. */
module ArrayStatements {
  import opened Wrappers
  import opened SqlValues
  import opened SqlAst
  import opened SqlEval
  import opened SqlVisit
  import opened SqlScope
  import opened SqlMentions
  import opened FrameViews
  import opened LateralAggregate
  import opened ArrayIteration
  import opened ArrayRows
  import opened GroupedSelect
  import opened ArrayExactness

  const Ones := [Item(Lit(Int(1)), None)]
  const Counted := [Item(CountStar, None)]
  const Starred := [Wildcard]

  function Once(): FromItem {
    FromItem(Comma, Series(Lit(Int(1)), Lit(Int(1)), "t"), TrueLit)
  }

  function Small(items: seq<Item>, lo: int, bound: Value, walked: Value): Body {
    Select(items, [FromItem(Comma, Series(Lit(Int(lo)), Call("array_upper", [Lit(bound), Lit(Int(1))]), "s"), TrueLit), Once()],
           Some(Cmp(Eq, Lit(Int(5)), Index(Lit(walked), Bare("s")))), [], None, false)
  }

  function Tested(items: seq<Item>, bound: Value): Body {
    Select(items, [Once()], Some(AnyOf(Lit(Int(5)), Lit(bound))), [], None, false)
  }

  lemma NotACast()
    ensures !IsCast("array_upper")
  {
    assert "array_upper"[..2][0] == 'a' && "::"[0] == ':';
  }

  lemma SmallRewritten(items: seq<Item>, lo: int, bound: Value, walked: Value)
    requires bound.Array? && walked.Array? && (items == Ones || items == Counted || items == Starred)
    ensures IndexToAny(Small(items, lo, bound, walked)) == Tested(items, bound)
  {
    var b := Small(items, lo, bound, walked);
    NotACast();
    assert Uncast(b.from[0].factor.hi) == b.from[0].factor.hi && IndexedArray(b.from[0].factor) == Some(Lit(bound));
    assert FirstSeries(b.from, 0) == Some(0);
    CondRewritten(bound, walked);
    assert b.from[..0] == [] && b.from[1..] == [b.from[1]] && [] + [b.from[1]] == [b.from[1]];
    TestedSilent(items, bound);
  }

  lemma {:induction false} CondRewritten(bound: Value, walked: Value)
    ensures VisitE(ToAny("s", Lit(bound)), Cmp(Eq, Lit(Int(5)), Index(Lit(walked), Bare("s"))), 0) == (AnyOf(Lit(Int(5)), Lit(bound)), 1)
  {
    var f, cond := ToAny("s", Lit(bound)), Cmp(Eq, Lit(Int(5)), Index(Lit(walked), Bare("s")));
    assert VisitE(f, Lit(Int(5)), 0) == (Lit(Int(5)), 0) && VisitE(f, Lit(walked), 0) == (Lit(walked), 0);
    assert VisitE(f, Bare("s"), 0) == (Bare("s"), 0);
    assert VisitE(f, cond.right, 0) == (cond.right, 0);
  }

  lemma TestedSilent(items: seq<Item>, bound: Value)
    requires items == Ones || items == Counted || items == Starred
    ensures AllB(Silent({"s"}), Tested(items, bound))
  {
    var ok, c := Silent({"s"}), Tested(items, bound);
    assert AllE(ok, Lit(Int(1)), Exact) && AllE(ok, TrueLit, Truth) && AllE(ok, CountStar, Exact);
    assert c.proj[1..] == [] && AllItem(ok, c.proj[0]) && AllItems(ok, c.proj);
    assert c.from[..0] == [] && AllFactor(ok, c.from[0].factor) && AllFromItem(ok, c.from[0]) && AllFrom(ok, c.from);
    assert AllE(ok, c.selection.value.e, Exact) && AllE(ok, c.selection.value.arr, Exact);
    assert AllE(ok, c.selection.value, Truth);
  }

  // --- the rows before -----------------------------------------------------------------------

  function T(): Bound {
    Bound("t", [Cell("t", Int(1))])
  }

  function S(i: int): Bound {
    Bound("s", [Cell("s", Int(i))])
  }

  /** The rows of both series. */
  function Steps(lo: int, hi: int): seq<Frame>
    decreases hi - lo
  {
    if lo > hi then [] else [[S(lo), T()]] + Steps(lo + 1, hi)
  }

  /** The indexes at which the walked array holds 5. */
  function Hits(walked: Value, lo: int, hi: int): seq<Frame>
    decreases hi - lo
  {
    if lo > hi then [] else (if Hit(Ok(Int(5)), walked, lo) then [[S(lo), T()]] else []) + Hits(walked, lo + 1, hi)
  }

  lemma {:induction false} HitsLength(walked: Value, lo: int, hi: int)
    ensures |Hits(walked, lo, hi)| == CountHits(Ok(Int(5)), walked, lo, hi)
    ensures hi <= 0 ==> Hits(walked, lo, hi) == []
    decreases hi - lo
  {
    if lo <= hi {
      HitsLength(walked, lo + 1, hi);
    }
  }

  lemma OnceRow(w: World, f: Frame)
    ensures JoinOne(w, Once(), f, map[]) == Ok([f + [T()]])
  {
    var sc := Scope(Push(map[], f), None);
    MatchSeries(w, f, "t", 1, 1, map[]);
    assert EvalE(w, Lit(Int(1)), sc) == Ok(Int(1));
    assert EvalFactor(w, Once().factor, f, map[]) == Ok(SeriesRecs(1, 1, "t"));
    assert Indexed(f, "t", 2, 1) == [] && [f + [T()]] + [] == [f + [T()]];
  }

  lemma {:induction false} OnceRows(w: World, lo: int, hi: int)
    ensures JoinAll(w, Once(), Indexed([], "s", lo, hi), map[]) == Ok(Steps(lo, hi))
    decreases hi - lo
  {
    if lo <= hi {
      OnceRows(w, lo + 1, hi);
      OnceRow(w, [] + [S(lo)]);
      assert ([] + [S(lo)]) + [T()] == [S(lo), T()];
      var all := Indexed([], "s", lo, hi);
      assert all[0] == [] + [S(lo)] && all[1..] == Indexed([], "s", lo + 1, hi);
    }
  }

  lemma SmallFrom(w: World, items: seq<Item>, lo: int, bound: Value, walked: Value)
    requires BoundFunctions(w) && bound.Array?
    ensures EvalFrom(w, Small(items, lo, bound, walked).from, map[]) == Ok(if bound.elems == [] then [] else Steps(lo, |bound.elems|))
  {
    var from := Small(items, lo, bound, walked).from;
    var it, sc := from[0], Scope(Push(map[], []), None);
    assert from == [it] + [Once()] && [it][..0] == [] && [Once()][1..] == [];
    BoundIs(w, it, bound, sc);
    SeriesStart(w, it, lo, bound);
    FromSplits(w, [it], [Once()], map[]);
    if bound.elems != [] {
      OnceRows(w, lo, |bound.elems|);
    }
  }

  lemma BoundIs(w: World, it: FromItem, bound: Value, sc: Scope)
    requires BoundFunctions(w) && bound.Array? && it.factor.Series? && it.factor.hi == Call("array_upper", [Lit(bound), Lit(Int(1))])
    ensures EvalE(w, it.factor.hi, sc) == Ok(UpperBound(bound))
  {
    TwoArguments(w, it.factor.hi.args, sc);
    assert EvalE(w, it.factor.hi.args[0], sc) == Ok(bound) && EvalE(w, it.factor.hi.args[1], sc) == Ok(Int(1));
  }

  lemma SeriesStart(w: World, it: FromItem, lo: int, bound: Value)
    requires bound.Array? && it.kind.Comma? && it.on == TrueLit && it.factor.Series? && it.factor.lo == Lit(Int(lo)) && it.factor.given == "s"
    requires EvalE(w, it.factor.hi, Scope(Push(map[], []), None)) == Ok(UpperBound(bound))
    ensures EvalFrom(w, [it], map[]) == Ok(if bound.elems == [] then [] else Indexed([], "s", lo, |bound.elems|))
  {
    var sc := Scope(Push(map[], []), None);
    assert EvalE(w, it.factor.lo, sc) == Ok(Int(lo));
    OneStart(w, it, [], map[]);
    assert [it][..0] == [] && EvalFrom(w, [], map[]) == Ok([[]]);
    if bound.elems == [] {
      assert EvalFactor(w, it.factor, [], map[]) == Ok([]);
    } else {
      assert EvalFactor(w, it.factor, [], map[]) == Ok(SeriesRecs(lo, |bound.elems|, "s"));
      MatchSeries(w, [], "s", lo, |bound.elems|, map[]);
    }
  }

  lemma StepCond(w: World, walked: Value, i: int)
    ensures EvalCond(w, Cmp(Eq, Lit(Int(5)), Index(Lit(walked), Bare("s"))), Scope(Push(map[], [S(i), T()]), None))
         == Ok(Hit(Ok(Int(5)), walked, i))
  {
    var sc := Scope(Push(map[], [S(i), T()]), None);
    SeesIndex(i);
    assert EvalE(w, Bare("s"), sc) == Ok(Int(i)) && EvalE(w, Lit(walked), sc) == Ok(walked) && EvalE(w, Lit(Int(5)), sc) == Ok(Int(5));
    assert EvalE(w, Index(Lit(walked), Bare("s")), sc) == Ok(Subscripted(walked, Int(i)));
    EqualityCond(w, Lit(Int(5)), Index(Lit(walked), Bare("s")), Int(5), Subscripted(walked, Int(i)), sc);
  }

  lemma SeesIndex(i: int)
    ensures Look(Push(map[], [S(i), T()]), "s", "s") == Ok(Int(i))
  {
    assert [S(i), T()] == [S(i)] + [T()] && [S(i)] == [] + [S(i)];
    PushOne(map[], [S(i)], T());
    PushOne(map[], [], S(i));
  }

  lemma {:induction false} StepsKept(w: World, walked: Value, lo: int, hi: int)
    ensures Filter(w, Cmp(Eq, Lit(Int(5)), Index(Lit(walked), Bare("s"))), Steps(lo, hi), map[]) == Ok(Hits(walked, lo, hi))
    decreases hi - lo
  {
    if lo <= hi {
      var cond := Cmp(Eq, Lit(Int(5)), Index(Lit(walked), Bare("s")));
      StepsKept(w, walked, lo + 1, hi);
      StepCond(w, walked, lo);
      FilterStep(w, cond, Steps(lo, hi), map[]);
      assert Steps(lo, hi)[1..] == Steps(lo + 1, hi) && Steps(lo, hi)[0] == [S(lo), T()];
      assert [] + Hits(walked, lo + 1, hi) == Hits(walked, lo + 1, hi);
    } else {
      assert Steps(lo, hi) == [];
    }
  }

  lemma SmallSource(w: World, items: seq<Item>, lo: int, bound: Value, walked: Value)
    requires BoundFunctions(w) && bound.Array?
    ensures Source(w, Small(items, lo, bound, walked), map[]) == Ok(Hits(walked, lo, |bound.elems|))
  {
    var b := Small(items, lo, bound, walked);
    SmallFrom(w, items, lo, bound, walked);
    SourceOf(w, b, if bound.elems == [] then [] else Steps(lo, |bound.elems|), map[]);
    StepsKept(w, walked, lo, |bound.elems|);
    HitsLength(walked, lo, |bound.elems|);
  }

  // --- the row after -------------------------------------------------------------------------

  /** Whether the bounding array holds 5. */
  predicate Member(bound: Value)
    requires bound.Array?
  {
    Int(5) in bound.elems
  }

  lemma FiveIn(w: World, bound: Value, sc: Scope)
    requires bound.Array?
    ensures EvalCond(w, AnyOf(Lit(Int(5)), Lit(bound)), sc) == Ok(Member(bound))
    ensures Member(bound) <==> HeldIn(Ok(Int(5)), bound, 1, |bound.elems|)
  {
    var e := AnyOf(Lit(Int(5)), Lit(bound));
    AnyEqualIsTrue(Int(5), bound.elems);
    assert EvalE(w, e.e, sc) == Ok(Int(5)) && EvalE(w, e.arr, sc) == Ok(bound);
    PlainCond(w, e, sc);
    if Member(bound) {
      var k :| 0 <= k < |bound.elems| && bound.elems[k] == Int(5);
      assert Hit(Ok(Int(5)), bound, k + 1);
    }
  }

  lemma TestedSource(w: World, items: seq<Item>, bound: Value)
    requires bound.Array?
    ensures Source(w, Tested(items, bound), map[]) == Ok(if Member(bound) then [[T()]] else [])
  {
    var c, start := Tested(items, bound), [T()];
    OnceRow(w, []);
    OneStart(w, Once(), [], map[]);
    assert [Once()][..0] == [] && EvalFrom(w, [], map[]) == Ok([[]]) && [] + [T()] == start;
    SourceOf(w, c, [start], map[]);
    FiveIn(w, bound, Scope(Push(map[], start), None));
    FilterStep(w, c.selection.value, [start], map[]);
    assert [start][1..] == [] && Filter(w, c.selection.value, [], map[]) == Ok([]) && [start] + [] == [start];
  }

  // --- the two answers -----------------------------------------------------------------------

  function Row1(): Rec {
    [Cell("?column?", Int(1))]
  }

  function Repeated(n: nat): seq<Rec> {
    if n == 0 then [] else [Row1()] + Repeated(n - 1)
  }

  lemma {:induction false} RepeatedHas(n: nat)
    ensures forall x :: x in Repeated(n) <==> n > 0 && x == Row1()
    ensures multiset(Repeated(n))[Row1()] == n
  {
    if n > 0 {
      RepeatedHas(n - 1);
    }
  }

  lemma {:induction false} OnesRepeated(w: World, frames: seq<Frame>)
    ensures EvalRows(w, Ones, frames, map[]) == Ok(Repeated(|frames|))
  {
    if frames != [] {
      var s := Scope(Push(map[], frames[0]), None);
      OnesRepeated(w, frames[1..]);
      OneItem(w, Ones, frames[0], s);
      assert EvalE(w, Lit(Int(1)), s) == Ok(Int(1)) && EvalItem(w, Ones[0], frames[0], s) == Ok(Row1());
    }
  }

  lemma PlainAnswer(w: World, b: Body, frames: seq<Frame>)
    requires b.Select? && b.proj == Ones && b.groupBy == [] && b.having.None? && !b.distinct && Source(w, b, map[]) == Ok(frames)
    ensures EvalB(w, b, map[]) == Ok(Repeated(|frames|))
  {
    OneItem(w, Ones, [], Scope(map[], None));
    PlainSelect(w, b, map[]);
    OnesRepeated(w, frames);
  }

  /** One row for every index that holds 5, before; one row if 5 is an element, after. */
  lemma SmallAnswers(w: World, lo: int, bound: Value, walked: Value)
    requires BoundFunctions(w) && bound.Array? && walked.Array?
    ensures EvalB(w, Small(Ones, lo, bound, walked), map[]) == Ok(Repeated(CountHits(Ok(Int(5)), walked, lo, |bound.elems|)))
    ensures EvalB(w, IndexToAny(Small(Ones, lo, bound, walked)), map[]) == Ok(Repeated(if Member(bound) then 1 else 0))
  {
    SmallRewritten(Ones, lo, bound, walked);
    SmallSource(w, Ones, lo, bound, walked);
    HitsLength(walked, lo, |bound.elems|);
    PlainAnswer(w, Small(Ones, lo, bound, walked), Hits(walked, lo, |bound.elems|));
    TestedSource(w, Ones, bound);
    PlainAnswer(w, Tested(Ones, bound), if Member(bound) then [[T()]] else []);
  }

  lemma CountAnswer(w: World, b: Body, frames: seq<Frame>)
    requires b.Select? && b.proj == Counted && b.groupBy == [] && b.having.None? && !b.distinct && Source(w, b, map[]) == Ok(frames)
    ensures EvalB(w, b, map[]) == Ok([[Cell("?column?", Int(|frames|))]])
  {
    var s, f := GroupScope(b.from, map[], frames), GroupFrame(b.from, frames);
    OneItem(w, Counted, f, s);
    OneGroupAlone(w, b, frames, map[]);
    assert EvalE(w, CountStar, s) == Ok(Int(|frames|));
    assert EvalGroup(w, b, frames, map[]) == Ok([[Cell("?column?", Int(|frames|))]]);
  }

  /** `count(*)` counts the indexes before and the row after. */
  lemma SmallCounts(w: World, lo: int, bound: Value, walked: Value)
    requires BoundFunctions(w) && bound.Array? && walked.Array?
    ensures EvalB(w, Small(Counted, lo, bound, walked), map[])
         == Ok([[Cell("?column?", Int(CountHits(Ok(Int(5)), walked, lo, |bound.elems|)))]])
    ensures EvalB(w, IndexToAny(Small(Counted, lo, bound, walked)), map[])
         == Ok([[Cell("?column?", Int(if Member(bound) then 1 else 0))]])
  {
    SmallRewritten(Counted, lo, bound, walked);
    SmallSource(w, Counted, lo, bound, walked);
    HitsLength(walked, lo, |bound.elems|);
    CountAnswer(w, Small(Counted, lo, bound, walked), Hits(walked, lo, |bound.elems|));
    TestedSource(w, Counted, bound);
    CountAnswer(w, Tested(Counted, bound), if Member(bound) then [[T()]] else []);
  }

  // --- exactly when --------------------------------------------------------------------------

  ghost predicate SameSet(before: Result<seq<Rec>>, after: Result<seq<Rec>>) {
    before.Ok? && after.Ok? && forall x :: x in before.value <==> x in after.value
  }

  ghost predicate SameBag(before: Result<seq<Rec>>, after: Result<seq<Rec>>) {
    before.Ok? && after.Ok? && multiset(before.value) == multiset(after.value)
  }

  /** 5 is held by an index of the series just if it is an element of the bounding array. */
  predicate HitsAreMembers(lo: int, bound: Value, walked: Value)
    requires bound.Array?
  {
    HeldIn(Ok(Int(5)), walked, lo, |bound.elems|) <==> Member(bound)
  }

  /** And then by one only. */
  predicate OneHitEach(lo: int, bound: Value, walked: Value)
    requires bound.Array?
  {
    if Member(bound) then HeldOnce(Ok(Int(5)), walked, lo, |bound.elems|) else !HeldIn(Ok(Int(5)), walked, lo, |bound.elems|)
  }

  lemma RepeatedCompare(n: nat, m: nat)
    requires m <= 1
    ensures SameSet(Ok(Repeated(n)), Ok(Repeated(m))) <==> (n >= 1 <==> m == 1)
    ensures SameBag(Ok(Repeated(n)), Ok(Repeated(m))) <==> n == m
  {
    RepeatedHas(n);
    RepeatedHas(m);
    assert Row1() in Repeated(n) <==> n > 0;
    assert Row1() in Repeated(m) <==> m > 0;
  }

  /** For every bound and every pair of arrays: the rows are the same exactly when 5 is held by an
      index of the series just if it is an element of the bounding array; the bag, and `count(*)`,
      exactly when it is then held by one index only. */
  lemma SmallExactly(w: World, lo: int, bound: Value, walked: Value)
    requires BoundFunctions(w) && bound.Array? && walked.Array?
    ensures var b := Small(Ones, lo, bound, walked);
      && (SameSet(EvalB(w, b, map[]), EvalB(w, IndexToAny(b), map[])) <==> HitsAreMembers(lo, bound, walked))
      && (SameBag(EvalB(w, b, map[]), EvalB(w, IndexToAny(b), map[])) <==> OneHitEach(lo, bound, walked))
  {
    SmallAnswers(w, lo, bound, walked);
    HitsCounted(Ok(Int(5)), walked, lo, |bound.elems|);
    RepeatedCompare(CountHits(Ok(Int(5)), walked, lo, |bound.elems|), if Member(bound) then 1 else 0);
  }

  lemma CountExactly(w: World, lo: int, bound: Value, walked: Value)
    requires BoundFunctions(w) && bound.Array? && walked.Array?
    ensures var c := Small(Counted, lo, bound, walked);
      EvalB(w, IndexToAny(c), map[]) == EvalB(w, c, map[]) <==> OneHitEach(lo, bound, walked)
  {
    SmallCounts(w, lo, bound, walked);
    HitsCounted(Ok(Int(5)), walked, lo, |bound.elems|);
    CountRowsDiffer(CountHits(Ok(Int(5)), walked, lo, |bound.elems|), if Member(bound) then 1 else 0);
  }

  lemma CountRowsDiffer(n: int, m: int)
    ensures [[Cell("?column?", Int(n))]] == [[Cell("?column?", Int(m))]] <==> n == m
  {
    assert [[Cell("?column?", Int(n))]][0][0].v == Int(n) && [[Cell("?column?", Int(m))]][0][0].v == Int(m);
  }

  /** Without a look at the data, a lower bound keeps the rows exactly when it is at most 1. */
  lemma LowerBoundExactly(w: World, lo: int)
    requires BoundFunctions(w)
    ensures (forall a: Value :: a.Array? ==>
               SameSet(EvalB(w, Small(Ones, lo, a, a), map[]), EvalB(w, IndexToAny(Small(Ones, lo, a, a)), map[])))
       <==> lo <= 1
  {
    if lo <= 1 {
      forall a: Value | a.Array?
        ensures SameSet(EvalB(w, Small(Ones, lo, a, a), map[]), EvalB(w, IndexToAny(Small(Ones, lo, a, a)), map[]))
      {
        SmallExactly(w, lo, a, a);
        FiveIn(w, a, Scope(map[], None));
        OnlyInside(a, lo);
      }
    } else {
      var a := Array([Int(5)]);
      SmallExactly(w, lo, a, a);
      assert a.elems[0] == Int(5) && Member(a) && !HeldIn(Ok(Int(5)), a, lo, 1);
      assert !SameSet(EvalB(w, Small(Ones, lo, a, a), map[]), EvalB(w, IndexToAny(Small(Ones, lo, a, a)), map[]));
    }
  }

  lemma OnlyInside(a: Value, lo: int)
    requires a.Array? && lo <= 1
    ensures HeldIn(Ok(Int(5)), a, lo, |a.elems|) <==> HeldIn(Ok(Int(5)), a, 1, |a.elems|)
  {
    if HeldIn(Ok(Int(5)), a, lo, |a.elems|) {
      var i :| lo <= i <= |a.elems| && Hit(Ok(Int(5)), a, i);
      assert 1 <= i;
    }
  }

  /** A walk over one array bounded by another: `5 = array[7][s]` finds nothing, the test finds 5. */
  lemma OtherArrayMatters(w: World)
    requires BoundFunctions(w)
    ensures var b := Small(Ones, 1, Array([Int(5)]), Array([Int(7)]));
      !SameSet(EvalB(w, b, map[]), EvalB(w, IndexToAny(b), map[]))
  {
    var a := Array([Int(5)]);
    SmallExactly(w, 1, a, Array([Int(7)]));
    assert a.elems[0] == Int(5) && Member(a);
    assert !Hit(Ok(Int(5)), Array([Int(7)]), 1) && !HeldIn(Ok(Int(5)), Array([Int(7)]), 1, 1);
  }

  /** `count(*)` over an array that repeats the value: 2 before, 1 after. */
  lemma RepeatedElementIsCountedOnce(w: World)
    requires BoundFunctions(w)
    ensures var a := Array([Int(5), Int(5)]);
            var b := Small(Counted, 1, a, a);
      && EvalB(w, b, map[]) == Ok([[Cell("?column?", Int(2))]])
      && EvalB(w, IndexToAny(b), map[]) == Ok([[Cell("?column?", Int(1))]])
  {
    var a := Array([Int(5), Int(5)]);
    SmallCounts(w, 1, a, a);
    TwoHits(a);
  }

  lemma TwoHits(a: Value)
    requires a == Array([Int(5), Int(5)])
    ensures Member(a) && CountHits(Ok(Int(5)), a, 1, 2) == 2
  {
    assert a.elems[0] == Int(5) && Hit(Ok(Int(5)), a, 1) && Hit(Ok(Int(5)), a, 2);
    assert CountHits(Ok(Int(5)), a, 3, 2) == 0 && CountHits(Ok(Int(5)), a, 2, 2) == 1;
  }

  /** `*` loses the column of the series. */
  lemma WildcardLosesColumn(w: World)
    requires BoundFunctions(w)
    ensures var a := Array([Int(5)]);
            var b := Small(Starred, 1, a, a);
      && EvalB(w, b, map[]) == Ok([[Cell("s", Int(1)), Cell("t", Int(1))]])
      && EvalB(w, IndexToAny(b), map[]) == Ok([[Cell("t", Int(1))]])
  {
    var a := Array([Int(5)]);
    SmallRewritten(Starred, 1, a, a);
    SmallSource(w, Starred, 1, a, a);
    OnlyHit(a);
    StarAnswer(w, Small(Starred, 1, a, a), [S(1), T()]);
    TestedSource(w, Starred, a);
    StarAnswer(w, Tested(Starred, a), [T()]);
    CellsOfTwo();
  }

  lemma OnlyHit(a: Value)
    requires a == Array([Int(5)])
    ensures Member(a) && Hits(a, 1, 1) == [[S(1), T()]]
  {
    assert a.elems[0] == Int(5) && Hit(Ok(Int(5)), a, 1) && Hits(a, 2, 1) == [];
  }

  lemma CellsOfTwo()
    ensures FrameCells([S(1), T()]) == [Cell("s", Int(1)), Cell("t", Int(1))] && FrameCells([T()]) == [Cell("t", Int(1))]
  {
    assert [S(1), T()][1..] == [T()] && [T()][1..] == [];
  }

  lemma StarAnswer(w: World, b: Body, f: Frame)
    requires b.Select? && b.proj == Starred && b.groupBy == [] && b.having.None? && !b.distinct && Source(w, b, map[]) == Ok([f])
    ensures EvalB(w, b, map[]) == Ok([FrameCells(f)])
  {
    OneItem(w, Starred, f, Scope(Push(map[], f), None));
    PlainSelect(w, b, map[]);
    assert [f][1..] == [] && EvalRows(w, Starred, [], map[]) == Ok([]) && [FrameCells(f)] + [] == [FrameCells(f)];
    assert EvalItem(w, Wildcard, f, Scope(Push(map[], f), None)) == Ok(FrameCells(f));
    assert EvalRows(w, Starred, [f], map[]) == Ok([FrameCells(f)]);
  }
}
