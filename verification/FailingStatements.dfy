/** EXISTS statements the count pass accepts and answers differently. */
module ExistsStatements {
  import opened Wrappers
  import opened SqlValues
  import opened SqlAst
  import opened SqlEval
  import opened ExistsRewrites

  /** `SELECT 1 LIMIT n OFFSET m`. */
  function Windowed(limit: Option<nat>, offset: nat): Query {
    Just(Lit(Int(1))).(limit := limit, offset := offset)
  }

  lemma OneRowSource(w: World, e: Expr, env: Env)
    ensures Source(w, Just(e).body, env) == Ok([[]])
  {
  }

  /** `NOT EXISTS (SELECT 1 LIMIT 0)` and `NOT EXISTS (SELECT 1 OFFSET 1)` hold; the count test takes
      the count itself away and is NULL. */
  lemma WindowDropsTheCount(w: World, s: Scope)
    requires FairPick(w)
    ensures forall q :: q in [Windowed(Some(0), 0), Windowed(None, 1)] ==>
      && EvalE(w, Exists(q, true), s) == Ok(TRUE)
      && EvalE(w, ExistsToCount(Exists(q, true), 0).0, s) == Ok(Null)
  {
    WindowCase(w, Windowed(Some(0), 0), s);
    WindowCase(w, Windowed(None, 1), s);
  }

  lemma WindowCase(w: World, q: Query, s: Scope)
    requires FairPick(w) && q in [Windowed(Some(0), 0), Windowed(None, 1)]
    ensures EvalE(w, Exists(q, true), s) == Ok(TRUE) && EvalE(w, ExistsToCount(Exists(q, true), 0).0, s) == Ok(Null)
  {
    OneRowSource(w, Lit(Int(1)), s.env);
    CountTestValue(w, q, true, s);
    NothingLeft(w, q, s.env);
  }

  lemma NothingLeft(w: World, q: Query, env: Env)
    requires FairPick(w) && q in [Windowed(Some(0), 0), Windowed(None, 1)]
    ensures EvalQ(w, q, env) == Ok([])
  {
    JustRow(w, Lit(Int(1)), env);
    var row := [[Cell("?column?", Int(1))]];
    assert EvalB(w, q.body, env) == EvalQ(w, Just(Lit(Int(1))), env);
    WindowOfOne(w, q, row);
  }

  /** `SELECT max(1) WHERE false`: one row, of no rows. */
  function MaxOfNothing(): Query {
    Query(Select([Item(Agg(Max, Lit(Int(1))), None)], [], Some(Lit(FALSE)), [], None, false), None, 0, 0)
  }

  /** An aggregate always has a row, but nothing to count. */
  lemma AggregateExistsOverNothing(w: World, s: Scope)
    requires FairPick(w)
    ensures EvalE(w, Exists(MaxOfNothing(), false), s) == Ok(TRUE)
    ensures EvalE(w, ExistsToCount(Exists(MaxOfNothing(), false), 0).0, s) == Ok(FALSE)
  {
    var q := MaxOfNothing();
    NothingSelected(w, s.env);
    MaxRow(w, s.env);
    OneItem(w, q.body.proj, [], s);
    SimpleRows(w, q.body, s.env);
    CountTestValue(w, q, false, s);
  }

  lemma NothingSelected(w: World, env: Env)
    ensures Source(w, MaxOfNothing().body, env) == Ok([])
  {
    var b := MaxOfNothing().body;
    var start: seq<Frame> := [[]];
    SourceOf(w, b, start, env);
    FilterStep(w, b.selection.value, start, env);
    PlainCond(w, Lit(FALSE), Scope(Push(env, start[0]), None));
    assert start[1..] == [] && Filter(w, b.selection.value, [], env) == Ok([]);
  }

  lemma MaxRow(w: World, env: Env)
    ensures EvalB(w, MaxOfNothing().body, env).Ok?
  {
    var b := MaxOfNothing().body;
    var g: seq<Frame> := [];
    NothingSelected(w, env);
    var s := GroupScope(b.from, env, g);
    OneItem(w, b.proj, GroupFrame(b.from, g), s);
    assert Envs(env, g) == [] && EvalOver(w, Lit(Int(1)), []) == Ok([]);
    assert EvalE(w, Agg(Max, Lit(Int(1))), s) == Ok(Null);
    OneGroup(w, b, g, env);
  }
}

/** Tuple memberships the pass accepts and answers differently: under a name the inner FROM hides,
    under LIMIT, and over aggregates. */
module TupleStatements {
  import opened Wrappers
  import opened SqlValues
  import opened SqlAst
  import opened SqlEval
  import opened LateralAggregate
  import opened TupleRewrites
  import opened ExistsRewrites
  import BooleanSubquery
  import ExistsPipeline

  const Five := [Cell("x", Int(5)), Cell("y", Int(6)), Cell("a", Int(5)), Cell("b", Int(6))]
  const Outer := [Cell("a", Int(1)), Cell("b", Int(2))]

  /** `(o.a, o.b) IN (SELECT o.x, o.y FROM u o)`. */
  function Hidden(): Expr {
    InQuery(Tuple([Col("o", "a"), Col("o", "b")]), Inner(), false)
  }

  function Inner(): Query {
    Query(Select([Item(Col("o", "x"), None), Item(Col("o", "y"), None)],
                 [FromItem(Comma, Table(Some("pg_catalog"), "u", Some("o")), TrueLit)], None, [], None, false), None, 0, 0)
  }

  ghost predicate HoldsFive(w: World) {
    TableOf(w.tables, Some("pg_catalog"), "u") == Ok(Relation(["x", "y", "a", "b"], [Five]))
  }

  function InnerRow(): Frame {
    [Bound("o", Five)]
  }

  lemma InnerFrom(w: World, env: Env)
    requires HoldsFive(w)
    ensures EvalFrom(w, Inner().body.from, env) == Ok([InnerRow()])
  {
    var it := Inner().body.from[0];
    OneTable(w, it, env);
    MatchingStep(w, TrueLit, "o", [Five], [], env);
    assert [Five][1..] == [] && Matching(w, TrueLit, "o", [], [], env) == Ok([]);
    assert [] + [Bound("o", Five)] == InnerRow() && [InnerRow()] + [] == [InnerRow()];
  }

  lemma InnerSees(env: Env)
    ensures Look(Push(env, InnerRow()), "o", "x") == Ok(Int(5)) && Look(Push(env, InnerRow()), "o", "a") == Ok(Int(5))
    ensures Look(Push(env, InnerRow()), "o", "y") == Ok(Int(6)) && Look(Push(env, InnerRow()), "o", "b") == Ok(Int(6))
  {
    assert [] + [Bound("o", Five)] == InnerRow();
    PushOne(env, [], Bound("o", Five));
    assert Five[0].name == "x" && Five[1].name == "y" && Five[2].name == "a" && Five[3].name == "b";
    assert Five[1..][0] == Five[1] && Five[1..][1..][0] == Five[2] && Five[1..][1..][1..][0] == Five[3];
  }

  /** (1, 2) is not among the rows, (5, 6) is: once moved inside, `o` is the inner table. */
  lemma HiddenNameIsCaptured(w: World, env: Env)
    requires HoldsFive(w) && "o" in env && env["o"] == Outer
    ensures EvalE(w, Hidden(), Scope(env, None)) == Ok(FALSE)
    ensures EvalE(w, TupleInToExists(Hidden(), 0).0, Scope(env, None)) == Ok(TRUE)
  {
    NotAMember(w, env);
    MovedHolds(w, env);
  }

  lemma TwoValues(w: World, l: Expr, r: Expr, a: Value, b: Value, s: Scope)
    requires EvalE(w, l, s) == Ok(a) && EvalE(w, r, s) == Ok(b)
    ensures EvalEs(w, [l, r], s) == Ok([a, b])
  {
    assert [l, r][1..] == [r] && [r][1..] == [];
    assert EvalEs(w, [r], s) == Ok([b] + []) && [b] + [] == [b] && [a] + [b] == [a, b];
  }

  lemma InnerRows(w: World, env: Env)
    requires HoldsFive(w)
    ensures EvalQ(w, Inner(), env) == Ok([[Cell("x", Int(5)), Cell("y", Int(6))]])
  {
    var b, f := Inner().body, InnerRow();
    var s := Scope(Push(env, f), None);
    InnerFrom(w, env);
    InnerSees(env);
    SourceOf(w, b, [f], env);
    TwoItems(w, b.proj, f, s, Cell("x", Int(5)), Cell("y", Int(6)));
    OneRow(w, b.proj, f, env);
    PlainSelect(w, b, env);
  }

  lemma TwoItems(w: World, items: seq<Item>, f: Frame, s: Scope, a: Cell, b: Cell)
    requires |items| == 2 && EvalItem(w, items[0], f, s) == Ok([a]) && EvalItem(w, items[1], f, s) == Ok([b])
    ensures EvalItems(w, items, f, s) == Ok([a, b])
  {
    var last := items[1..];
    assert last == [items[1]] && last[1..] == [];
    assert EvalItems(w, last, f, s) == Ok([b] + []) && [b] + [] == [b] && [a] + [b] == [a, b];
  }

  lemma NotAMember(w: World, env: Env)
    requires HoldsFive(w) && "o" in env && env["o"] == Outer
    ensures EvalE(w, Hidden(), Scope(env, None)) == Ok(FALSE)
  {
    OuterPair(w, env);
    InnerRows(w, env);
    MembershipOf(w, Hidden(), Scope(env, None), [Int(1), Int(2)], [[Cell("x", Int(5)), Cell("y", Int(6))]]);
    OneMember([Cell("x", Int(5)), Cell("y", Int(6))], Composite([Int(1), Int(2)]));
    PairDiffers();
  }

  lemma OuterPair(w: World, env: Env)
    requires "o" in env && env["o"] == Outer
    ensures EvalEs(w, Hidden().e.elems, Scope(env, None)) == Ok([Int(1), Int(2)])
  {
    var s := Scope(env, None);
    assert Outer[0].name == "a" && Outer[1..][0] == Outer[1];
    assert EvalE(w, Col("o", "a"), s) == Ok(Int(1)) && EvalE(w, Col("o", "b"), s) == Ok(Int(2));
    TwoValues(w, Col("o", "a"), Col("o", "b"), Int(1), Int(2), s);
  }

  lemma OneMember(row: Rec, v: Value)
    requires |row| == 2
    ensures AnyEqual(v, RecValues([row])) == OrV(EqV(v, Composite([row[0].v, row[1].v])), FALSE)
  {
    assert Vals(row) == [row[0].v, row[1].v];
    assert RecValues([row]) == [Composite([row[0].v, row[1].v])] && RecValues([row])[1..] == [];
  }

  lemma PairDiffers()
    ensures EqV(Composite([Int(1), Int(2)]), Composite([Int(5), Int(6)])) == FALSE
  {
    assert [Int(1), Int(2)][0] == Int(1) && [Int(5), Int(6)][0] == Int(5);
    assert EqV(Int(1), Int(5)) == FALSE;
  }

  lemma MovedHolds(w: World, env: Env)
    requires HoldsFive(w)
    ensures EvalE(w, TupleInToExists(Hidden(), 0).0, Scope(env, None)) == Ok(TRUE)
  {
    var f := InnerRow();
    var moved := TupleInToExists(Hidden(), 0).0;
    var cond := And(Cmp(Eq, Col("o", "x"), Col("o", "a")), Cmp(Eq, Col("o", "y"), Col("o", "b")));
    var s := Scope(Push(env, f), None);
    MovedShape();
    InnerFrom(w, env);
    InnerSees(env);
    EqualityCond(w, Col("o", "x"), Col("o", "a"), Int(5), Int(5), s);
    EqualityCond(w, Col("o", "y"), Col("o", "b"), Int(6), Int(6), s);
    assert EvalCond(w, cond, s) == Ok(true);
    SourceOf(w, moved.q.body, [f], env);
    FilterStep(w, cond, [f], env);
    assert [f][1..] == [] && Filter(w, cond, [], env) == Ok([]) && [f] + [] == [f];
    ExistsOfOnes(w, moved.q, false, Scope(env, None));
  }

  lemma MovedShape()
    ensures TupleInToExists(Hidden(), 0).0
         == Exists(Inner().(body := Inner().body.(proj := [Item(Lit(Int(1)), None)], selection :=
              Some(And(Cmp(Eq, Col("o", "x"), Col("o", "a")), Cmp(Eq, Col("o", "y"), Col("o", "b")))))), false)
  {
    var ls, rs := Projected(Inner().body.proj), [Col("o", "a"), Col("o", "b")];
    assert ls == [Col("o", "x"), Col("o", "y")] && ls[1..] == [Col("o", "y")] && rs[1..] == [Col("o", "b")];
    assert ls[1..][1..] == [] && rs[1..][1..] == [];
  }

  // --- LIMIT ---------------------------------------------------------------------------------

  const TC := Col("t", "c")

  /** `(2, 2) IN (SELECT t.c, t.c FROM t LIMIT 1)`. */
  function LimitedPair(): Expr {
    InQuery(Tuple([Lit(Int(2)), Lit(Int(2))]),
            Query(Select([Item(TC, None), Item(TC, None)],
                         [FromItem(Comma, Table(None, "t", None), TrueLit)], None, [], None, false), Some(1), 0, 0),
            false)
  }

  function Conjunction(): Expr {
    And(Cmp(Eq, TC, Lit(Int(2))), Cmp(Eq, TC, Lit(Int(2))))
  }

  function Holding12(): World {
    ExistsPipeline.Holding([1, 2])
  }

  function RowAt(x: int): Frame {
    [Bound("t", [Cell("c", Int(x))])]
  }

  lemma {:induction false} LimitedFrom()
    ensures EvalFrom(Holding12(), LimitedPair().q.body.from, map[]) == Ok([RowAt(1), RowAt(2)])
  {
    ExistsPipeline.TestFrom([1, 2]);
    assert ExistsPipeline.RowsOf([1, 2]) == [RowAt(1), RowAt(2)];
  }

  lemma {:induction false} ReadsC(w: World, x: int)
    ensures EvalE(w, TC, Scope(Push(map[], RowAt(x)), None)) == Ok(Int(x))
  {
    PushOne(map[], [], RowAt(x)[0]);
    assert [] + [RowAt(x)[0]] == RowAt(x);
  }

  lemma {:induction false} PairRow(x: int)
    ensures EvalItems(Holding12(), LimitedPair().q.body.proj, RowAt(x), Scope(Push(map[], RowAt(x)), None))
         == Ok([Cell("c", Int(x)), Cell("c", Int(x))])
  {
    ReadsC(Holding12(), x);
    TwoItems(Holding12(), LimitedPair().q.body.proj, RowAt(x), Scope(Push(map[], RowAt(x)), None), Cell("c", Int(x)), Cell("c", Int(x)));
  }

  lemma {:induction false} TwoRows(w: World, items: seq<Item>, f: Frame, g: Frame, a: Rec, b: Rec, env: Env)
    requires EvalItems(w, items, f, Scope(Push(env, f), None)) == Ok(a) && EvalItems(w, items, g, Scope(Push(env, g), None)) == Ok(b)
    ensures EvalRows(w, items, [f, g], env) == Ok([a, b])
  {
    OneRow(w, items, g, env);
    assert [f, g][1..] == [g] && [a] + [b] == [a, b];
  }

  lemma {:induction false} PairRows()
    ensures EvalQ(Holding12(), LimitedPair().q, map[]) == Ok([[Cell("c", Int(1)), Cell("c", Int(1))]])
  {
    var w, q := Holding12(), LimitedPair().q;
    var one, two := [Cell("c", Int(1)), Cell("c", Int(1))], [Cell("c", Int(2)), Cell("c", Int(2))];
    LimitedFrom();
    PairRow(1);
    PairRow(2);
    TwoRows(w, q.body.proj, RowAt(1), RowAt(2), one, two, map[]);
    PairBody(w, q.body, [RowAt(1), RowAt(2)], [one, two]);
    FirstOfTwo(w, q, one, two);
  }

  lemma {:induction false} PairBody(w: World, b: Body, kept: seq<Frame>, rows: seq<Rec>)
    requires b == LimitedPair().q.body && EvalFrom(w, b.from, map[]) == Ok(kept) && EvalRows(w, b.proj, kept, map[]) == Ok(rows)
    ensures EvalB(w, b, map[]) == Ok(rows)
  {
    PlainPair();
    SourceOf(w, b, kept, map[]);
    PlainSelect(w, b, map[]);
  }

  lemma {:induction false} FirstOfTwo(w: World, q: Query, one: Rec, two: Rec)
    requires EvalB(w, q.body, map[]) == Ok([one, two]) && w.pick(q.site, [one, two]) == [one, two] && q.limit == Some(1) && q.offset == 0
    ensures EvalQ(w, q, map[]) == Ok([one])
  {
    assert [one, two][0..][..1] == [one];
  }

  lemma {:induction false} PlainPair()
    ensures !Aggregated(LimitedPair().q.body)
  {
    var items := LimitedPair().q.body.proj;
    assert items[1..] == [items[1]] && items[1..][1..] == [];
  }

  lemma {:induction false} LimitedMoved()
    ensures TupleInToExists(LimitedPair(), 0).0
         == Exists(LimitedPair().q.(body := LimitedPair().q.body.(proj := [Item(Lit(Int(1)), None)], selection := Some(Conjunction()))), false)
  {
    var ls, rs := Projected(LimitedPair().q.body.proj), [Lit(Int(2)), Lit(Int(2))];
    assert ls == [TC, TC] && ls[1..] == [TC] && rs[1..] == [Lit(Int(2))] && ls[1..][1..] == [] && rs[1..][1..] == [];
  }

  lemma {:induction false} ConjunctionCond(x: int)
    ensures EvalCond(Holding12(), Conjunction(), Scope(Push(map[], RowAt(x)), None)) == Ok(x == 2)
  {
    var w, s := Holding12(), Scope(Push(map[], RowAt(x)), None);
    ReadsC(w, x);
    assert EvalE(w, Lit(Int(2)), s) == Ok(Int(2));
    EqualityCond(w, TC, Lit(Int(2)), Int(x), Int(2), s);
    AndStep(w, Cmp(Eq, TC, Lit(Int(2))), Cmp(Eq, TC, Lit(Int(2))), s);
  }

  lemma {:induction false} PairFilter()
    ensures Filter(Holding12(), Conjunction(), [RowAt(1), RowAt(2)], map[]) == Ok([RowAt(2)])
  {
    var w, frames := Holding12(), [RowAt(1), RowAt(2)];
    ConjunctionCond(1);
    ConjunctionCond(2);
    FilterStep(w, Conjunction(), frames, map[]);
    assert frames[1..] == [RowAt(2)] && [RowAt(2)][1..] == [] && Filter(w, Conjunction(), [], map[]) == Ok([]);
    FilterStep(w, Conjunction(), [RowAt(2)], map[]);
    assert [RowAt(2)] + [] == [RowAt(2)];
  }

  /** Over rows 1 and 2: the first row alone is tested as written, all of them once the test stands
      in the WHERE. */
  lemma {:induction false} LimitComesLater()
    ensures TupleMembership(LimitedPair()) && FairPick(Holding12())
    ensures EvalE(Holding12(), LimitedPair(), Scope(map[], None)) == Ok(FALSE)
    ensures EvalE(Holding12(), TupleInToExists(LimitedPair(), 0).0, Scope(map[], None)) == Ok(TRUE)
  {
    LimitedAsWritten();
    LimitedAsMoved();
  }

  lemma {:induction false} LimitedAsWritten()
    ensures EvalE(Holding12(), LimitedPair(), Scope(map[], None)) == Ok(FALSE)
  {
    var w, s := Holding12(), Scope(map[], None);
    var one := [Cell("c", Int(1)), Cell("c", Int(1))];
    TwoValues(w, Lit(Int(2)), Lit(Int(2)), Int(2), Int(2), s);
    PairRows();
    MembershipOf(w, LimitedPair(), s, [Int(2), Int(2)], [one]);
    OneMember(one, Composite([Int(2), Int(2)]));
    TwoIsNotOne();
  }

  lemma {:induction false} LimitedAsMoved()
    ensures EvalE(Holding12(), TupleInToExists(LimitedPair(), 0).0, Scope(map[], None)) == Ok(TRUE)
  {
    var w, moved := Holding12(), TupleInToExists(LimitedPair(), 0).0;
    LimitedMoved();
    LimitedFrom();
    PairFilter();
    assert Source(w, moved.q.body, map[]) == Ok([RowAt(2)]);
    BooleanSubquery.ExistsOfWindow(w, moved.q, Scope(map[], None));
  }

  lemma {:induction false} TwoIsNotOne()
    ensures EqV(Composite([Int(2), Int(2)]), Composite([Int(1), Int(1)])) == FALSE
  {
    assert [Int(2), Int(2)][0] == Int(2) && [Int(1), Int(1)][0] == Int(1);
    assert EqV(Int(2), Int(1)) == FALSE;
  }

  // --- aggregates ----------------------------------------------------------------------------

  /** `(1, 2) IN (SELECT count(*), 2)`. */
  function CountedPair(): Expr {
    InQuery(Tuple([Lit(Int(1)), Lit(Int(2))]),
            Query(Select([Item(CountStar, None), Item(Lit(Int(2)), None)], [], None, [], None, false), None, 0, 0), false)
  }

  /** The count is 1 as written; in the WHERE it cannot be taken. */
  lemma {:induction false} AggregateIsRefused(w: World, s: Scope)
    ensures TupleMembership(CountedPair()) && EvalE(w, CountedPair(), s) == Ok(TRUE)
    ensures EvalE(w, TupleInToExists(CountedPair(), 0).0, s) == Error
  {
    var row := [Cell("?column?", Int(1)), Cell("?column?", Int(2))];
    TwoValues(w, Lit(Int(1)), Lit(Int(2)), Int(1), Int(2), s);
    CountedRow(w, s.env);
    MembershipOf(w, CountedPair(), s, [Int(1), Int(2)], [row]);
    OneMember(row, Composite([Int(1), Int(2)]));
    PairIsItself();
    CountedMoved(w, s);
  }

  lemma {:induction false} PairIsItself()
    ensures EqV(Composite([Int(1), Int(2)]), Composite([Int(1), Int(2)])) == TRUE
  {
    var p := [Int(1), Int(2)];
    assert p[1..] == [Int(2)] && p[1..][1..] == [];
    assert EqV(Int(1), Int(1)) == TRUE && EqV(Int(2), Int(2)) == TRUE;
    assert EqAll([], []) == TRUE && EqAll(p[1..], p[1..]) == AndV(TRUE, TRUE);
  }

  lemma {:induction false} CountedRow(w: World, env: Env)
    ensures EvalQ(w, CountedPair().q, env) == Ok([[Cell("?column?", Int(1)), Cell("?column?", Int(2))]])
  {
    var b, none: Frame := CountedPair().q.body, [];
    var g := GroupScope(b.from, env, [none]);
    assert Source(w, b, env) == Ok([none]);
    assert b.proj[0] == Item(CountStar, None) && ItemsHaveAgg(b.proj);
    assert EvalE(w, CountStar, g) == Ok(Int(1)) && EvalE(w, Lit(Int(2)), g) == Ok(Int(2));
    TwoItems(w, b.proj, GroupFrame(b.from, [none]), g, Cell("?column?", Int(1)), Cell("?column?", Int(2)));
    OneGroup(w, b, [none], env);
    assert EvalB(w, b, env) == Ok([[Cell("?column?", Int(1)), Cell("?column?", Int(2))]]);
  }

  lemma {:induction false} CountedMoved(w: World, s: Scope)
    ensures EvalE(w, TupleInToExists(CountedPair(), 0).0, s) == Error
  {
    CountedShape();
    CountedSource(w, CountedTest().body, Cmp(Eq, CountStar, Lit(Int(1))), Cmp(Eq, Lit(Int(2)), Lit(Int(2))), s.env);
    BooleanSubquery.SourceNeeded(w, CountedTest().body, s.env);
  }

  /** `SELECT 1 WHERE count(*) = 1 AND 2 = 2`. */
  function CountedTest(): Query {
    Query(Select([Item(Lit(Int(1)), None)], [], Some(And(Cmp(Eq, CountStar, Lit(Int(1))), Cmp(Eq, Lit(Int(2)), Lit(Int(2))))),
                 [], None, false), None, 0, 0)
  }

  lemma {:induction false} CountedShape()
    ensures TupleInToExists(CountedPair(), 0).0 == Exists(CountedTest(), false)
  {
    var ls, rs := Projected(CountedPair().q.body.proj), [Lit(Int(1)), Lit(Int(2))];
    assert ls == [CountStar, Lit(Int(2))] && ls[1..] == [Lit(Int(2))] && rs[1..] == [Lit(Int(2))] && ls[1..][1..] == [] && rs[1..][1..] == [];
  }

  lemma {:induction false} CountedSource(w: World, b: Body, test: Expr, rest: Expr, env: Env)
    requires b.Select? && b.from == [] && b.selection == Some(And(test, rest)) && test == Cmp(Eq, CountStar, Lit(Int(1)))
    ensures Source(w, b, env) == Error
  {
    var none: Frame := [];
    var s := Scope(Push(env, none), None);
    assert EvalFrom(w, b.from, env) == Ok([none]);
    assert EvalE(w, CountStar, s) == Error && EvalE(w, test, s) == Error;
    PlainCond(w, test, s);
    AndStep(w, test, rest, s);
    FilterStep(w, And(test, rest), [none], env);
    assert [none][0] == none;
  }
}

/** Lateral joins the pass accepts and answers differently, over an empty inner table. */
module LateralStatements {
  import opened Wrappers
  import opened SqlValues
  import opened SqlAst
  import opened SqlEval
  import opened ExistsRewrites
  import opened LateralAggregate

  /** `[LEFT] JOIN LATERAL (SELECT fn(t.v) AS n FROM t WHERE t.k = o.k) d ON true`. */
  function Join(kind: JoinKind, fn: AggFn): FromItem {
    FromItem(kind, Derived(Query(Sub(fn), None, 0, 0), "d", true), TrueLit)
  }

  function FromT(): FromItem {
    FromItem(Comma, Table(Some("pg_catalog"), "t", None), TrueLit)
  }

  function Sub(fn: AggFn): Body {
    Select([Item(Agg(fn, Col("t", "v")), Some("n"))], [FromT()], Some(Cmp(Eq, Col("t", "k"), Col("o", "k"))), [], None, false)
  }

  ghost predicate InnerIsEmpty(w: World) {
    TableOf(w.tables, Some("pg_catalog"), "t") == Ok(Relation(["k", "v"], []))
  }

  function OuterRow(): Frame {
    [Bound("o", [Cell("k", Int(1))])]
  }

  lemma JoinAccepted(kind: JoinKind, fn: AggFn)
    requires kind != Comma
    ensures LateralShape(Join(kind, fn))
    ensures GroupedQuery(Join(kind, fn), "key")
         == Query(Sub(fn).(proj := [Item(Col("t", "k"), Some("key"))] + Sub(fn).proj, groupBy := [Col("t", "k")], selection := None), None, 0, 0)
  {
    assert Triggers(Sub(fn).proj[0].e) && "t"[0] != "o"[0];
  }

  lemma NoInnerRows(w: World, env: Env)
    requires InnerIsEmpty(w)
    ensures EvalFrom(w, [FromT()], env) == Ok([])
  {
    OneTable(w, FromT(), env);
    assert Matching(w, TrueLit, "t", [], [], env) == Ok([]);
  }

  /** What the aggregate answers over nothing. */
  lemma OverNothing(w: World, fn: AggFn, env: Env)
    requires InnerIsEmpty(w)
    ensures EvalQ(w, Query(Sub(fn), None, 0, 0), env) == Ok([[Cell("n", if fn == Count then Int(0) else Null)]])
  {
    var b := Sub(fn);
    var g: seq<Frame> := [];
    NoInnerRows(w, env);
    SourceOf(w, b, g, env);
    assert Filter(w, b.selection.value, g, env) == Ok(g);
    NothingAggregated(w, fn, env);
    OneItem(w, b.proj, GroupFrame(b.from, g), GroupScope(b.from, env, g));
    OneGroup(w, b, g, env);
  }

  lemma NothingAggregated(w: World, fn: AggFn, env: Env)
    ensures EvalE(w, Agg(fn, Col("t", "v")), GroupScope([FromT()], env, [])) == Ok(if fn == Count then Int(0) else Null)
  {
    assert Envs(env, []) == [] && EvalOver(w, Col("t", "v"), []) == Ok([]);
  }

  /** No group, no row. */
  lemma NoGroups(w: World, fn: AggFn, env: Env)
    requires InnerIsEmpty(w)
    ensures LateralShape(Join(Left, fn)) && LateralShape(Join(JoinKind.Inner, fn))
    ensures EvalQ(w, GroupedQuery(Join(Left, fn), "key"), env) == Ok([])
    ensures GroupedQuery(Join(JoinKind.Inner, fn), "key") == GroupedQuery(Join(Left, fn), "key")
  {
    JoinAccepted(Left, fn);
    JoinAccepted(JoinKind.Inner, fn);
    var b := GroupedQuery(Join(Left, fn), "key").body;
    NoInnerRows(w, env);
    SourceOf(w, b, [], env);
    assert EvalKeys(w, b.groupBy, [], env) == Ok([]) && GroupsOf(b.groupBy, [], []) == [];
    assert Output(w, b, [], env) == Ok([]);
  }

  lemma JoinsOnce(w: World, it: FromItem, recs: seq<Rec>, f: Frame)
    requires EvalFactor(w, it.factor, f, map[]) == Ok(recs) && |recs| == 1 && it.on == TrueLit
    ensures JoinOne(w, it, f, map[]) == Ok([f + [Bound(FactorName(it.factor), recs[0])]])
  {
    var name := FactorName(it.factor);
    MatchingStep(w, TrueLit, name, recs, f, map[]);
    assert recs[1..] == [] && Matching(w, TrueLit, name, [], f, map[]) == Ok([]);
    assert [f + [Bound(name, recs[0])]] + [] == [f + [Bound(name, recs[0])]];
  }

  lemma JoinsNothing(w: World, it: FromItem, f: Frame)
    requires EvalFactor(w, it.factor, f, map[]) == Ok([])
    ensures JoinOne(w, it, f, map[])
         == Ok(if it.kind.Left? then [f + [Bound(FactorName(it.factor), NullRec(FactorCols(w.tables, it.factor)))]] else [])
  {
    assert Matching(w, it.on, FactorName(it.factor), [], f, map[]) == Ok([]);
  }

  /** INNER: the outer row had one row, of NULL, and has none. */
  lemma InnerJoinLosesTheRow(w: World)
    requires InnerIsEmpty(w)
    ensures LateralShape(Join(JoinKind.Inner, Max))
    ensures JoinOne(w, Join(JoinKind.Inner, Max), OuterRow(), map[]) == Ok([OuterRow() + [Bound("d", [Cell("n", Null)])]])
    ensures JoinOne(w, GroupedJoin(Join(JoinKind.Inner, Max), "key"), OuterRow(), map[]) == Ok([])
  {
    var it := Join(JoinKind.Inner, Max);
    JoinAccepted(JoinKind.Inner, Max);
    OverNothing(w, Max, Push(map[], OuterRow()));
    JoinsOnce(w, it, [[Cell("n", Null)]], OuterRow());
    NoGroups(w, Max, map[]);
    JoinsNothing(w, GroupedJoin(it, "key"), OuterRow());
  }

  /** LEFT with `count`: the count was 0 and is NULL. */
  lemma LeftCountBecomesNull(w: World)
    requires InnerIsEmpty(w)
    ensures LateralShape(Join(Left, Count))
    ensures JoinOne(w, Join(Left, Count), OuterRow(), map[]) == Ok([OuterRow() + [Bound("d", [Cell("n", Int(0))])]])
    ensures JoinOne(w, GroupedJoin(Join(Left, Count), "key"), OuterRow(), map[])
         == Ok([OuterRow() + [Bound("d", [Cell("key", Null), Cell("n", Null)])]])
  {
    var it := Join(Left, Count);
    JoinAccepted(Left, Count);
    OverNothing(w, Count, Push(map[], OuterRow()));
    JoinsOnce(w, it, [[Cell("n", Int(0))]], OuterRow());
    NoGroups(w, Count, map[]);
    JoinsNothing(w, GroupedJoin(it, "key"), OuterRow());
    PaddedColumns(w, Count);
  }

  lemma PaddedColumns(w: World, fn: AggFn)
    ensures LateralShape(Join(Left, fn))
    ensures NullRec(FactorCols(w.tables, GroupedJoin(Join(Left, fn), "key").factor)) == [Cell("key", Null), Cell("n", Null)]
  {
    JoinAccepted(Left, fn);
    var items := GroupedQuery(Join(Left, fn), "key").body.proj;
    assert items[1..] == Sub(fn).proj && Sub(fn).proj[1..] == [];
    var all := FromCols(w.tables, [FromT()]);
    assert ItemCols(w.tables, Sub(fn).proj, all) == ["n"] + [] && ["n"] + [] == ["n"];
    assert ItemCols(w.tables, items, all) == ["key"] + ["n"] && ["key"] + ["n"] == ["key", "n"];
  }
}
