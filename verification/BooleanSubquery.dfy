/** The first of the two EXISTS passes: a scalar subquery projecting one comparison is read as a
    predicate, and the comparison is folded into the subquery's WHERE. */
module BooleanSubquery {
  import opened Wrappers
  import opened SqlValues
  import opened SqlAst
  import opened SqlEval
  import opened SqlVisit
  import opened SqlCongruence
  import opened ExistsRewrites

  /** The shape the pass accepts. LIMIT, OFFSET and aggregates are not looked at. */
  predicate PredicateBody(b: Body) {
    && b.Select? && |b.proj| == 1 && b.having.None? && !b.distinct && b.groupBy == []
    && b.proj[0].Item? && b.proj[0].e.Cmp?
  }

  /** The kept WHERE and the comparison are both parenthesised when they are joined. */
  function FoldedWhere(b: Body): Expr
    requires PredicateBody(b)
  {
    match b.selection
    case Some(existing) => And(Nested(existing), Nested(b.proj[0].e))
    case None => b.proj[0].e
  }

  function PredicateExists(q: Query): Expr
    requires PredicateBody(q.body)
  {
    var b := q.body.(proj := [Item(Lit(Int(1)), None)], selection := Some(FoldedWhere(q.body)));
    Exists(q.(body := b), false)
  }

  function BooleanToExists(e: Expr, k: nat): (Expr, nat) {
    if e.Scalar? && PredicateBody(e.q.body) then (PredicateExists(e.q), k) else (e, k)
  }

  /** Filtering by both conditions is filtering by the second what the first keeps. */
  lemma {:induction false} FilterBoth(w: World, a: Expr, b: Expr, frames: seq<Frame>, env: Env)
    requires Filter(w, a, frames, env).Ok?
    requires Filter(w, b, Filter(w, a, frames, env).value, env).Ok?
    ensures Filter(w, And(a, b), frames, env) == Filter(w, b, Filter(w, a, frames, env).value, env)
  {
    if frames != [] {
      var rest := Filter(w, a, frames[1..], env).value;
      if Filter(w, a, frames, env).value != rest {
        assert Filter(w, a, frames, env).value == [frames[0]] + rest;
      }
      FilterBoth(w, a, b, frames[1..], env);
    }
  }

  lemma {:induction false} FilterNested(w: World, a: Expr, frames: seq<Frame>, env: Env)
    ensures Filter(w, Nested(a), frames, env) == Filter(w, a, frames, env)
  {
    if frames != [] {
      FilterNested(w, a, frames[1..], env);
    }
  }

  /** The FROM rows the rewritten subquery keeps. */
  lemma FoldedSource(w: World, b: Body, env: Env)
    requires PredicateBody(b) && Source(w, b, env).Ok?
    requires Filter(w, b.proj[0].e, Source(w, b, env).value, env).Ok?
    ensures Source(w, b.(proj := [Item(Lit(Int(1)), None)], selection := Some(FoldedWhere(b))), env)
         == Filter(w, b.proj[0].e, Source(w, b, env).value, env)
  {
    var frames := EvalFrom(w, b.from, env).value;
    if b.selection.Some? {
      FilterNested(w, b.selection.value, frames, env);
      FilterNested(w, b.proj[0].e, Source(w, b, env).value, env);
      FilterBoth(w, Nested(b.selection.value), Nested(b.proj[0].e), frames, env);
    }
  }

  // --- what LIMIT and OFFSET do --------------------------------------------------------------

  /** The one column of a row holds true. */
  predicate Holds(row: Rec) {
    |row| == 1 && IsTrue(row[0].v)
  }

  function CountTrue(rows: seq<Rec>): nat {
    if rows == [] then 0 else (if Holds(rows[0]) then 1 else 0) + CountTrue(rows[1..])
  }

  /** The rows the folded WHERE keeps are those on which the comparison is true. */
  lemma {:induction false} TrueRows(w: World, b: Body, kept: seq<Frame>, env: Env)
    requires PredicateBody(b) && EvalRows(w, b.proj, kept, env).Ok?
    ensures Filter(w, b.proj[0].e, kept, env).Ok?
    ensures |Filter(w, b.proj[0].e, kept, env).value| == CountTrue(EvalRows(w, b.proj, kept, env).value)
    decreases |kept|
  {
    if kept != [] {
      var s, rest := Scope(Push(env, kept[0]), None), EvalRows(w, b.proj, kept[1..], env);
      TrueRows(w, b, kept[1..], env);
      FilterStep(w, b.proj[0].e, kept, env);
      OneItem(w, b.proj, kept[0], s);
      PlainCond(w, b.proj[0].e, s);
      var row := EvalItems(w, b.proj, kept[0], s).value;
      assert ([row] + rest.value)[1..] == rest.value;
    }
  }

  /** EXISTS over constant 1s: whether LIMIT and OFFSET leave one of the rows kept. */
  lemma ExistsOfWindow(w: World, q: Query, s: Scope)
    requires FairPick(w) || (q.limit.None? && q.offset == 0)
    requires q.body.Select? && q.body.proj == [Item(Lit(Int(1)), None)] && !q.body.distinct
    requires q.body.groupBy == [] && q.body.having.None? && Source(w, q.body, s.env).Ok?
    ensures EvalE(w, Exists(q, false), s) == Ok(Bool(q.limit != Some(0) && |Source(w, q.body, s.env).value| > q.offset))
  {
    var kept := Source(w, q.body, s.env).value;
    OneItem(w, q.body.proj, [], s);
    OnesRows(w, kept, s.env);
    PlainSelect(w, q.body, s.env);
    WindowLength(w, q, EvalRows(w, q.body.proj, kept, s.env).value);
  }

  lemma WindowLength(w: World, q: Query, rows: seq<Rec>)
    requires FairPick(w) || (q.limit.None? && q.offset == 0)
    ensures Window(w, q, rows) != [] <==> q.limit != Some(0) && |rows| > q.offset
  {
    if q.limit.Some? || q.offset != 0 {
      PickLength(w, q.site, rows);
    }
  }

  /** The EXISTS of one replaced subquery, whatever its LIMIT and OFFSET: they now count only the
      rows on which the comparison is true. */
  lemma FoldedTruth(w: World, q: Query, s: Scope)
    requires FairPick(w) || (q.limit.None? && q.offset == 0)
    requires PredicateBody(q.body) && !HasAgg(q.body.proj[0].e) && EvalB(w, q.body, s.env).Ok?
    ensures EvalE(w, PredicateExists(q), s)
         == Ok(Bool(q.limit != Some(0) && CountTrue(EvalB(w, q.body, s.env).value) > q.offset))
  {
    var b := q.body;
    ComparisonRows(w, b, s.env);
    TrueRows(w, b, Source(w, b, s.env).value, s.env);
    FoldedSource(w, b, s.env);
    ExistsOfWindow(w, PredicateExists(q).q, s);
  }

  /** What keeps the truth of every predicate subquery, whatever the data. */
  predicate Harmless(q: Query) {
    q.limit == Some(0) || (q.offset == 0 && q.limit != Some(1))
  }

  /** A subquery that answers under a harmless LIMIT has one row at most before it, or none left. */
  lemma HarmlessWindow(w: World, q: Query, rows: seq<Rec>)
    requires FairPick(w) || (q.limit.None? && q.offset == 0)
    requires Harmless(q) && |Window(w, q, rows)| <= 1
    ensures q.limit == Some(0) ==> Window(w, q, rows) == []
    ensures q.limit != Some(0) ==> Window(w, q, rows) == rows && |rows| <= 1
  {
    if q.limit.Some? {
      PickLength(w, q.site, rows);
    }
  }

  lemma OneIsTrue(rows: seq<Rec>)
    requires |rows| <= 1 && ScalarOf(rows).Ok?
    ensures IsTrue(ScalarOf(rows).value) <==> CountTrue(rows) > 0
  {
    if rows != [] {
      assert rows[1..] == [] && CountTrue(rows[1..]) == 0;
    }
  }

  /** Replacing one predicate subquery: the EXISTS is true when the subquery's answer is true,
      and false otherwise - also where that answer is NULL. */
  lemma BooleanToExistsValue(w: World, q: Query, s: Scope)
    requires FairPick(w) || (q.limit.None? && q.offset == 0)
    requires PredicateBody(q.body) && Harmless(q) && !HasAgg(q.body.proj[0].e)
    requires EvalE(w, Scalar(q), s).Ok?
    ensures EvalE(w, PredicateExists(q), s) == Ok(Bool(IsTrue(EvalE(w, Scalar(q), s).value)))
  {
    var rows := EvalB(w, q.body, s.env).value;
    FoldedTruth(w, q, s);
    HarmlessWindow(w, q, rows);
    if q.limit != Some(0) {
      OneIsTrue(rows);
    }
  }

  lemma ComparisonRows(w: World, b: Body, env: Env)
    requires PredicateBody(b) && !HasAgg(b.proj[0].e) && EvalB(w, b, env).Ok?
    ensures Source(w, b, env).Ok?
    ensures EvalB(w, b, env) == EvalRows(w, b.proj, Source(w, b, env).value, env)
  {
    OneItem(w, b.proj, [], Scope(env, None));
    PlainSelect(w, b, env);
  }

  /** Read as a value rather than a condition, the replacement is exact unless the answer is NULL. */
  lemma BooleanToExistsExact(w: World, q: Query, s: Scope)
    requires FairPick(w) || (q.limit.None? && q.offset == 0)
    requires PredicateBody(q.body) && Harmless(q) && !HasAgg(q.body.proj[0].e)
    requires EvalE(w, Scalar(q), s).Ok?
    ensures EvalE(w, PredicateExists(q), s) == EvalE(w, Scalar(q), s)
       <==> EvalE(w, Scalar(q), s).value != Null
  {
    BooleanToExistsValue(w, q, s);
    ComparisonRows(w, q.body, s.env);
    var rows := EvalB(w, q.body, s.env).value;
    HarmlessWindow(w, q, rows);
    if q.limit != Some(0) {
      var kept := Source(w, q.body, s.env).value;
      ScalarRow(w, q.body.proj, kept, s.env);
      if kept != [] {
        ComparisonValue(w, q.body.proj[0].e, Scope(Push(s.env, kept[0]), None));
      }
    }
  }

  lemma ComparisonValue(w: World, e: Expr, s: Scope)
    requires e.Cmp? && EvalE(w, e, s).Ok?
    ensures EvalE(w, e, s).value in {TRUE, FALSE, Null}
  {
    EqValue(EvalE(w, e.left, s).value, EvalE(w, e.right, s).value);
  }

  lemma {:induction false} EqValue(a: Value, b: Value)
    ensures EqV(a, b) in {TRUE, FALSE, Null}
  {
    if a.Composite? && b.Composite? && |a.cells| == |b.cells| && |a.cells| > 0 {
      assert EqV(a, b) == AndV(EqV(a.cells[0], b.cells[0]), EqAll(a.cells[1..], b.cells[1..]));
    }
  }

  // --- aggregates in the comparison ----------------------------------------------------------

  /** An aggregate is evaluated whatever the data; inside CASE it may not be. */
  predicate Aggregates(e: Expr) {
    match e
    case CountStar => true
    case Agg(_, _) => true
    case Cmp(_, l, r) => Aggregates(l) || Aggregates(r)
    case And(l, r) => Aggregates(l) || Aggregates(r)
    case Or(l, r) => Aggregates(l) || Aggregates(r)
    case Not(x) => Aggregates(x)
    case Nested(x) => Aggregates(x)
    case Call(_, args) => AnyAggregates(args)
    case Tuple(es) => AnyAggregates(es)
    case InQuery(x, _, _) => Aggregates(x)
    case AnyOf(x, a) => Aggregates(x) || Aggregates(a)
    case Index(a, i) => Aggregates(a) || Aggregates(i)
    case _ => false
  }

  predicate AnyAggregates(es: seq<Expr>) {
    es != [] && (Aggregates(es[0]) || AnyAggregates(es[1..]))
  }

  /** Outside a group there is nothing to aggregate. */
  lemma {:induction false} NeedsGroup(w: World, e: Expr, s: Scope)
    requires Aggregates(e) && s.group.None?
    ensures EvalE(w, e, s) == Error && HasAgg(e)
    decreases e, 1
  {
    if e.Cmp? || e.And? || e.Or? {
      if Aggregates(e.left) { NeedsGroup(w, e.left, s); } else { NeedsGroup(w, e.right, s); }
    } else {
      NeedsGroupKids(w, e, s);
    }
  }

  lemma {:induction false} NeedsGroupKids(w: World, e: Expr, s: Scope)
    requires Aggregates(e) && s.group.None? && !e.Cmp? && !e.And? && !e.Or?
    ensures EvalE(w, e, s) == Error && HasAgg(e)
    decreases e, 0
  {
    match e
    case Not(x) => NeedsGroup(w, x, s);
    case Nested(x) => NeedsGroup(w, x, s);
    case Call(_, args) => NeedsGroupEs(w, args, s);
    case Tuple(es) => NeedsGroupEs(w, es, s);
    case InQuery(x, _, _) => NeedsGroup(w, x, s);
    case AnyOf(x, a) => if Aggregates(x) { NeedsGroup(w, x, s); } else { NeedsGroup(w, a, s); }
    case Index(a, i) => if Aggregates(a) { NeedsGroup(w, a, s); } else { NeedsGroup(w, i, s); }
    case _ =>
  }

  lemma {:induction false} NeedsGroupEs(w: World, es: seq<Expr>, s: Scope)
    requires AnyAggregates(es) && s.group.None?
    ensures EvalEs(w, es, s) == Error && AnyHasAgg(es)
    decreases es, 0
  {
    if Aggregates(es[0]) {
      NeedsGroup(w, es[0], s);
    } else {
      NeedsGroupEs(w, es[1..], s);
    }
  }

  /** Folded into the WHERE the aggregate is met by the first row the rest of it keeps. */
  lemma {:induction false} FoldedFilter(w: World, a: Expr, e: Expr, frames: seq<Frame>, env: Env)
    requires Aggregates(e) && e.Cmp? && Filter(w, a, frames, env).Ok?
    ensures Filter(w, And(a, Nested(e)), frames, env) == if Filter(w, a, frames, env).value == [] then Ok([]) else Error
    decreases |frames|
  {
    if frames != [] {
      var s := Scope(Push(env, frames[0]), None);
      FoldedFilter(w, a, e, frames[1..], env);
      FilterStep(w, a, frames, env);
      FilterStep(w, And(a, Nested(e)), frames, env);
      AndStep(w, a, Nested(e), s);
      AggregateCond(w, e, s);
    }
  }

  lemma AggregateCond(w: World, e: Expr, s: Scope)
    requires Aggregates(e) && s.group.None? && e.Cmp?
    ensures EvalCond(w, Nested(e), s) == Error && EvalCond(w, e, s) == Error
  {
    NeedsGroup(w, e, s);
    PlainCond(w, e, s);
  }

  lemma AggregateSource(w: World, b: Body, env: Env)
    requires PredicateBody(b) && Aggregates(b.proj[0].e) && Source(w, b, env).Ok?
    ensures Source(w, b.(proj := [Item(Lit(Int(1)), None)], selection := Some(FoldedWhere(b))), env)
         == if Source(w, b, env).value == [] then Ok([]) else Error
  {
    var frames := EvalFrom(w, b.from, env).value;
    if b.selection.Some? {
      FilterNested(w, b.selection.value, frames, env);
      FoldedFilter(w, Nested(b.selection.value), b.proj[0].e, frames, env);
    } else if frames != [] {
      FilterStep(w, b.proj[0].e, frames, env);
      AggregateCond(w, b.proj[0].e, Scope(Push(env, frames[0]), None));
    } else {
      assert Filter(w, b.proj[0].e, frames, env) == Ok([]);
    }
  }

  /** An aggregate comparison: the EXISTS answers exactly when the subquery's FROM and WHERE keep no
      row, it is false then, and keeps the truth exactly when the comparison over no rows was not
      true either. */
  lemma AggregateExactly(w: World, q: Query, s: Scope)
    requires FairPick(w) || (q.limit.None? && q.offset == 0)
    requires PredicateBody(q.body) && Aggregates(q.body.proj[0].e) && EvalE(w, Scalar(q), s).Ok?
    ensures Source(w, q.body, s.env).Ok?
    ensures EvalE(w, PredicateExists(q), s) == if Source(w, q.body, s.env).value == [] then Ok(FALSE) else Error
    ensures EvalCond(w, PredicateExists(q), s) == EvalCond(w, Scalar(q), s)
       <==> Source(w, q.body, s.env).value == [] && !IsTrue(EvalE(w, Scalar(q), s).value)
  {
    var test := PredicateExists(q);
    SourceNeeded(w, q.body, s.env);
    AggregateSource(w, q.body, s.env);
    if Source(w, q.body, s.env).value == [] {
      ExistsOfWindow(w, test.q, s);
    } else {
      SourceNeeded(w, test.q.body, s.env);
    }
    PlainCond(w, test, s);
    PlainCond(w, Scalar(q), s);
  }

  lemma SourceNeeded(w: World, b: Body, env: Env)
    requires b.Select?
    ensures EvalB(w, b, env).Ok? ==> Source(w, b, env).Ok?
  {
  }

  // --- the pass ------------------------------------------------------------------------------

  /** What a caller checks: the pass's subqueries stand where only their truth matters, under no
      LIMIT or OFFSET that changes it, and compare plain values. */
  predicate PredicatePlace(e: Expr, p: Pos) {
    e.Scalar? && PredicateBody(e.q.body) ==> p == Truth && Harmless(e.q) && !HasAgg(e.q.body.proj[0].e)
  }

  lemma BooleanToExistsShape()
    ensures StepShape(BooleanToExists, PredicatePlace)
  {
    forall e: Expr, k: nat, p: Pos ensures StepShapeAt(BooleanToExists, e, k, p) {
    }
  }

  lemma StaysComparison(e: Expr, k: nat)
    ensures VisitE(BooleanToExists, e, k).0.Cmp? == e.Cmp?
  {
    var kids := VisitKids(BooleanToExists, e, k).0;
    assert kids.Cmp? == e.Cmp? && kids.Scalar? == e.Scalar?;
    assert VisitE(BooleanToExists, e, k) == BooleanToExists(kids, VisitKids(BooleanToExists, e, k).1);
  }

  /** The pass neither makes nor unmakes a comparison, so it fires on a subquery whose own
      expressions it has already rewritten exactly when it fires on the subquery as written. */
  lemma FiresAsWritten(b: Body, k: nat)
    requires AllB(PredicatePlace, b)
    ensures PredicateBody(VisitB(BooleanToExists, b, k).0) <==> PredicateBody(b)
    ensures PredicateBody(b) ==>
              HasAgg(VisitB(BooleanToExists, b, k).0.proj[0].e) == HasAgg(b.proj[0].e)
  {
    VisitKeepsClauses(BooleanToExists, b, k);
    if b.Select? && |b.proj| == 1 {
      var it := VisitItem(BooleanToExists, b.proj[0], k).0;
      assert VisitItems(BooleanToExists, b.proj, k).0[0] == it;
      if b.proj[0].Item? {
        assert AllItem(PredicatePlace, b.proj[0]);
        assert it.e == VisitE(BooleanToExists, b.proj[0].e, k).0;
        StaysComparison(b.proj[0].e, k);
        BooleanToExistsShape();
        ShapeE(BooleanToExists, PredicatePlace, b.proj[0].e, k, Exact);
      }
    }
  }

  lemma PredicateNode(w: World, e: Expr, k: nat, p: Pos)
    requires FairPick(w) && AllE(PredicatePlace, e, p) && e.Scalar?
    ensures StepSoundAt(w, BooleanToExists, e, k, p)
  {
    var kids := VisitKids(BooleanToExists, e, k).0;
    var done := VisitE(BooleanToExists, e, k).0;
    assert AllQ(PredicatePlace, e.q) && AllB(PredicatePlace, e.q.body);
    assert kids == Scalar(VisitQ(BooleanToExists, e.q, k).0);
    assert kids.q.body == VisitB(BooleanToExists, e.q.body, k).0;
    FiresAsWritten(e.q.body, k);
    if PredicateBody(kids.q.body) {
      assert PredicatePlace(e, p);
      assert done == PredicateExists(kids.q);
      forall s: Scope ensures RefinesAt(w, p, kids, done, s) {
        if EvalE(w, kids, s).Ok? {
          BooleanToExistsValue(w, kids.q, s);
        }
      }
    } else {
      assert done == kids;
    }
  }

  lemma BooleanToExistsStep(w: World)
    requires FairPick(w)
    ensures StepSound(w, BooleanToExists, PredicatePlace)
  {
    BooleanToExistsShape();
    forall e: Expr, k: nat, p: Pos | AllE(PredicatePlace, e, p)
      ensures StepSoundAt(w, BooleanToExists, e, k, p)
    {
      if e.Scalar? {
        PredicateNode(w, e, k, p);
      }
    }
  }

  /** The whole pass: at every depth, conditions hold for the same rows and the statement returns
      the same result. */
  lemma BooleanToExistsKeepsRows(w: World, q: Query, env: Env)
    requires FairPick(w) && AllQ(PredicatePlace, q)
    ensures Refines(EvalQ(w, q, env), EvalQ(w, VisitQ(BooleanToExists, q, 0).0, env))
  {
    BooleanToExistsStep(w);
    VisitSoundQ(w, BooleanToExists, PredicatePlace, q, 0, env);
  }
}

/** The two passes in the order the pipeline runs them. */
module ExistsPipeline {
  import opened Wrappers
  import opened SqlValues
  import opened SqlAst
  import opened SqlEval
  import opened SqlVisit
  import opened SqlCongruence
  import opened SqlCarry
  import opened ExistsRewrites
  import opened BooleanSubquery

  /** What a caller checks of the statement as written, for both passes at once. */
  predicate PipelineOk(e: Expr, p: Pos) {
    PredicatePlace(e, p) && CountableExists(e, p) && (e.Scalar? && PredicateBody(e.q.body) ==> e.q.limit != Some(0))
  }

  lemma CarriesExists(e: Expr, k: nat, p: Pos)
    requires AllE(PipelineOk, e, p) && e.Exists?
    ensures CarriesAt(BooleanToExists, CountableExists, e, k, p)
  {
    var kids := VisitKids(BooleanToExists, e, k).0;
    assert kids == Exists(VisitQ(BooleanToExists, e.q, k).0, e.negated);
    assert kids.q.body == VisitB(BooleanToExists, e.q.body, k).0;
    assert AllQ(PipelineOk, e.q) && AllB(PipelineOk, e.q.body);
    VisitKeepsClauses(BooleanToExists, e.q.body, k);
    if e.q.body.Select? {
      Weaken(PipelineOk, PredicatePlace);
      BooleanToExistsShape();
      assert AllB(PredicatePlace, e.q.body);
      ShapeAggs(BooleanToExists, PredicatePlace, e.q.body.proj, k);
    }
  }

  lemma CarriesScalar(e: Expr, k: nat, p: Pos)
    requires AllE(PipelineOk, e, p) && e.Scalar?
    ensures CarriesAt(BooleanToExists, CountableExists, e, k, p)
  {
    var kids := VisitKids(BooleanToExists, e, k).0;
    assert kids == Scalar(VisitQ(BooleanToExists, e.q, k).0);
    Weaken(PipelineOk, PredicatePlace);
    assert AllE(PredicatePlace, e, p);
    assert AllQ(PredicatePlace, e.q) && AllB(PredicatePlace, e.q.body);
    FiresAsWritten(e.q.body, k);
    if PredicateBody(kids.q.body) && AllKids(CountableExists, kids, p) {
      FoldedIsChecked(kids.q, p);
    }
  }

  /** The EXISTS the first pass builds is countable, and its parts are those checked before. */
  lemma FoldedIsChecked(q: Query, p: Pos)
    requires PredicateBody(q.body) && q.limit != Some(0) && q.offset == 0 && AllQ(CountableExists, q)
    ensures AllE(CountableExists, PredicateExists(q), p)
  {
    var b := q.body;
    var pred := b.proj[0].e;
    assert AllB(CountableExists, b);
    assert AllItems(CountableExists, b.proj) && AllOpt(CountableExists, b.selection);
    assert AllItem(CountableExists, b.proj[0]);
    assert AllE(CountableExists, pred, Exact);
    assert AllKids(CountableExists, pred, Truth) == AllKids(CountableExists, pred, Exact);
    var one := [Item(Lit(Int(1)), None)];
    assert one[1..] == [];
    assert AllE(CountableExists, Lit(Int(1)), Exact);
    assert AllItems(CountableExists, one) && !ItemsHaveAgg(one);
    assert AllE(CountableExists, FoldedWhere(b), Truth) by {
      if b.selection.Some? {
        assert AllE(CountableExists, Nested(b.selection.value), Truth);
        assert AllE(CountableExists, Nested(pred), Truth);
      }
    }
    assert AllB(CountableExists, PredicateExists(q).q.body);
  }

  /** Every EXISTS of the first pass's output is one the second pass counts correctly. */
  lemma BooleanCarries()
    ensures StepCarries(BooleanToExists, PipelineOk, CountableExists)
  {
    forall e: Expr, k: nat, p: Pos | AllE(PipelineOk, e, p)
      ensures CarriesAt(BooleanToExists, CountableExists, e, k, p)
    {
      if e.Scalar? {
        CarriesScalar(e, k, p);
      } else if e.Exists? {
        CarriesExists(e, k, p);
      }
    }
  }

  function Pipeline(q: Query): Query {
    VisitQ(ExistsToCount, VisitQ(BooleanToExists, q, 0).0, 0).0
  }

  /** Both passes together, over subqueries nested to any depth: the statement returns what it
      returned as written. */
  lemma PipelineKeepsRows(w: World, q: Query, env: Env)
    requires FairPick(w) && AllQ(PipelineOk, q)
    ensures Refines(EvalQ(w, q, env), EvalQ(w, Pipeline(q), env))
  {
    Weaken(PipelineOk, PredicatePlace);
    BooleanToExistsKeepsRows(w, q, env);
    BooleanCarries();
    CarryQ(BooleanToExists, PipelineOk, CountableExists, q, 0);
    ExistsToCountStep(w);
    VisitSoundQ(w, ExistsToCount, CountableExists, VisitQ(BooleanToExists, q, 0).0, 0, env);
  }

  // --- why each part of the check is there ---------------------------------------------------

  /** Under NOT an unknown comparison is not true either way round, but EXISTS makes it false. */
  lemma UnderNotARowIsGained(w: World, s: Scope)
    ensures var sub := Scalar(Just(Cmp(Eq, Lit(Null), Lit(Int(1)))));
      && EvalCond(w, Not(sub), s) == Ok(false)
      && EvalCond(w, VisitE(BooleanToExists, Not(sub), 0).0, s) == Ok(true)
  {
    var cmp := Cmp(Eq, Lit(Null), Lit(Int(1)));
    NullComparison(w, cmp, s);
    BooleanToExistsValue(w, Just(cmp), s);
    NotVisited(cmp);
    assert EvalE(w, Not(PredicateExists(Just(cmp))), s) == Ok(TRUE);
  }

  lemma {:induction false} NullComparison(w: World, cmp: Expr, s: Scope)
    requires cmp == Cmp(Eq, Lit(Null), Lit(Int(1)))
    ensures EvalE(w, Scalar(Just(cmp)), s) == Ok(Null)
  {
    NullIsUnknown(w, Scope(s.env, None));
    JustScalar(w, cmp, s, Null);
  }

  lemma {:induction false} NullIsUnknown(w: World, s: Scope)
    ensures EvalE(w, Cmp(Eq, Lit(Null), Lit(Int(1))), s) == Ok(Null)
  {
    assert EvalE(w, Lit(Null), s) == Ok(Null) && EvalE(w, Lit(Int(1)), s) == Ok(Int(1));
  }

  lemma {:induction false} JustScalar(w: World, e: Expr, s: Scope, v: Value)
    requires !HasAgg(e) && EvalE(w, e, Scope(s.env, None)) == Ok(v)
    ensures EvalE(w, Scalar(Just(e)), s) == Ok(v)
  {
    JustRow(w, e, s.env);
    assert ScalarOf([[Cell(OutName(e), v)]]) == Ok(v);
  }

  lemma {:induction false} NotVisited(cmp: Expr)
    requires cmp == Cmp(Eq, Lit(Null), Lit(Int(1)))
    ensures VisitE(BooleanToExists, Not(Scalar(Just(cmp))), 0).0 == Not(PredicateExists(Just(cmp)))
  {
    assert VisitE(BooleanToExists, cmp, 0).0 == cmp;
    JustVisited(BooleanToExists, cmp, 0);
    var q := Just(cmp);
    ScalarVisited(BooleanToExists, q, 0);
    NotVisitedAlone(BooleanToExists, Scalar(q), 0);
    assert VisitQ(BooleanToExists, q, 0).0 == q && PredicateBody(q.body);
  }

  lemma ScalarVisited(f: Callback, q: Query, k: nat)
    ensures VisitE(f, Scalar(q), k) == f(Scalar(VisitQ(f, q, k).0), VisitQ(f, q, k).1)
  {
  }

  lemma NotVisitedAlone(f: Callback, x: Expr, k: nat)
    ensures VisitE(f, Not(x), k) == f(Not(VisitE(f, x, k).0), VisitE(f, x, k).1)
  {
  }

  /** `SELECT t.c = 2 FROM t LIMIT l OFFSET o`. */
  function TwoTest(limit: Option<nat>, offset: nat): Query {
    Query(Select([Item(Cmp(Eq, Col("t", "c"), Lit(Int(2))), None)],
                 [FromItem(Comma, Table(None, "t", None), TrueLit)], None, [], None, false),
          limit, offset, 0)
  }

  function RecsOf(xs: seq<int>): seq<Rec> {
    seq(|xs|, i requires 0 <= i < |xs| => [Cell("c", Int(xs[i]))])
  }

  function RowsOf(xs: seq<int>): seq<Frame> {
    seq(|xs|, i requires 0 <= i < |xs| => [Bound("t", [Cell("c", Int(xs[i]))])])
  }

  function AnswersOf(xs: seq<int>): seq<Rec> {
    seq(|xs|, i requires 0 <= i < |xs| => [Cell("?column?", Bool(xs[i] == 2))])
  }

  /** A world whose `t` has these rows, and where LIMIT takes rows in their order. */
  function Holding(xs: seq<int>): World {
    World(map[("pg_catalog", "t") := Relation(["c"], RecsOf(xs))],
          (fn: string, vs: seq<Value>) => Error, (n: nat, rows: seq<Rec>) => rows)
  }

  lemma {:induction false} OneMatch(w: World, r: Rec, recs: seq<Rec>, rest: seq<Frame>)
    requires recs != [] && recs[0] == r && Matching(w, TrueLit, "t", recs[1..], [], map[]) == Ok(rest)
    ensures Matching(w, TrueLit, "t", recs, [], map[]) == Ok([[Bound("t", r)]] + rest)
  {
    MatchingStep(w, TrueLit, "t", recs, [], map[]);
    assert [] + [Bound("t", r)] == [Bound("t", r)];
    assert EvalCond(w, TrueLit, Scope(Push(map[], [Bound("t", r)]), None)) == Ok(true);
  }

  lemma {:induction false} AllMatch(w: World, xs: seq<int>)
    ensures Matching(w, TrueLit, "t", RecsOf(xs), [], map[]) == Ok(RowsOf(xs))
  {
    if xs != [] {
      AllMatch(w, xs[1..]);
      assert RecsOf(xs)[1..] == RecsOf(xs[1..]);
      OneMatch(w, [Cell("c", Int(xs[0]))], RecsOf(xs), RowsOf(xs[1..]));
      assert RowsOf(xs) == [[Bound("t", [Cell("c", Int(xs[0]))])]] + RowsOf(xs[1..]);
    } else {
      assert RecsOf(xs) == [] && RowsOf(xs) == [];
    }
  }

  lemma {:induction false} TestOfRow(w: World, x: int)
    ensures EvalE(w, Cmp(Eq, Col("t", "c"), Lit(Int(2))), Scope(Push(map[], [Bound("t", [Cell("c", Int(x))])]), None))
         == Ok(Bool(x == 2))
  {
    var b := Bound("t", [Cell("c", Int(x))]);
    PushOne(map[], [], b);
    assert [] + [b] == [b];
    var s := Scope(Push(map[], [b]), None);
    assert EvalE(w, Col("t", "c"), s) == Ok(Int(x)) && EvalE(w, Lit(Int(2)), s) == Ok(Int(2));
  }

  lemma {:induction false} AllAnswers(w: World, xs: seq<int>)
    ensures EvalRows(w, TwoTest(None, 0).body.proj, RowsOf(xs), map[]) == Ok(AnswersOf(xs))
  {
    if xs != [] {
      var items, f := TwoTest(None, 0).body.proj, RowsOf(xs)[0];
      AllAnswers(w, xs[1..]);
      TestOfRow(w, xs[0]);
      OneItem(w, items, f, Scope(Push(map[], f), None));
      assert RowsOf(xs)[1..] == RowsOf(xs[1..]);
      assert AnswersOf(xs) == [[Cell("?column?", Bool(xs[0] == 2))]] + AnswersOf(xs[1..]);
    }
  }

  /** FROM t. */
  lemma {:induction false} TestFrom(xs: seq<int>)
    ensures EvalFrom(Holding(xs), [FromItem(Comma, Table(None, "t", None), TrueLit)], map[]) == Ok(RowsOf(xs))
  {
    var w, it := Holding(xs), FromItem(Comma, Table(None, "t", None), TrueLit);
    OneTable(w, it, map[]);
    AllMatch(w, xs);
    assert EvalFactor(w, it.factor, [], map[]) == Ok(RecsOf(xs));
  }

  lemma {:induction false} TestAnswers(xs: seq<int>, limit: Option<nat>, offset: nat)
    ensures EvalB(Holding(xs), TwoTest(limit, offset).body, map[]) == Ok(AnswersOf(xs))
  {
    var w, b := Holding(xs), TwoTest(limit, offset).body;
    TestFrom(xs);
    AllAnswers(w, xs);
    OneItem(w, b.proj, [], Scope(map[], None));
    PlainSelect(w, b, map[]);
  }

  /** Ones, and a two at the end. */
  function LastTwo(n: nat): seq<int> {
    if n == 0 then [2] else [1] + LastTwo(n - 1)
  }

  lemma {:induction false} LastIsTrue(n: nat)
    ensures |LastTwo(n)| == n + 1 && LastTwo(n)[n] == 2 && (n > 0 ==> LastTwo(n)[0] == 1)
    ensures CountTrue(AnswersOf(LastTwo(n))) == 1
  {
    var answers := AnswersOf(LastTwo(n));
    if n > 0 {
      LastIsTrue(n - 1);
      assert answers[1..] == AnswersOf(LastTwo(n - 1));
    } else {
      assert answers[1..] == [] && CountTrue([]) == 0;
    }
  }

  /** For every LIMIT and OFFSET that is not harmless, a statement whose truth changes: under LIMIT 1
      the subquery tests the first row and the EXISTS all of them; under OFFSET the subquery leaves
      out untested rows and the EXISTS rows that hold. */
  lemma WindowChangesTruth(limit: Option<nat>, offset: nat)
    requires !Harmless(TwoTest(limit, offset))
    ensures var w, q := Holding(LastTwo(if offset == 0 then 1 else offset)), TwoTest(limit, offset);
      && FairPick(w) && PredicateBody(q.body)
      && EvalE(w, Scalar(q), Scope(map[], None)) == Ok(Bool(offset != 0))
      && EvalE(w, PredicateExists(q), Scope(map[], None)) == Ok(Bool(offset == 0))
  {
    var n := if offset == 0 then 1 else offset;
    var w, q, answers := Holding(LastTwo(n)), TwoTest(limit, offset), AnswersOf(LastTwo(n));
    TestAnswers(LastTwo(n), limit, offset);
    LastIsTrue(n);
    FoldedTruth(w, q, Scope(map[], None));
    if offset == 0 {
      assert Window(w, q, answers) == [answers[0]];
    } else {
      assert Window(w, q, answers) == [answers[n]];
    }
    assert EvalQ(w, q, map[]) == Ok(Window(w, q, answers));
  }

  /** Where a subquery of this body, LIMIT and OFFSET answers, its EXISTS has the same truth. */
  ghost predicate TruthKeptAt(w: World, q: Query, s: Scope) {
    FairPick(w) && PredicateBody(q.body) && !HasAgg(q.body.proj[0].e) && EvalE(w, Scalar(q), s).Ok? ==>
      EvalCond(w, PredicateExists(q), s) == EvalCond(w, Scalar(q), s)
  }

  ghost predicate TruthKept(limit: Option<nat>, offset: nat) {
    forall w: World, b: Body, s: Scope :: TruthKeptAt(w, Query(b, limit, offset, 0), s)
  }

  lemma HarmlessKeeps(w: World, q: Query, s: Scope)
    requires Harmless(q)
    ensures TruthKeptAt(w, q, s)
  {
    if FairPick(w) && PredicateBody(q.body) && !HasAgg(q.body.proj[0].e) && EvalE(w, Scalar(q), s).Ok? {
      BooleanToExistsValue(w, q, s);
      PlainCond(w, PredicateExists(q), s);
      PlainCond(w, Scalar(q), s);
    }
  }

  lemma TruthDiffers(w: World, q: Query, s: Scope, holds: bool)
    requires FairPick(w) && PredicateBody(q.body) && !HasAgg(q.body.proj[0].e)
    requires EvalE(w, Scalar(q), s) == Ok(Bool(holds)) && EvalE(w, PredicateExists(q), s) == Ok(Bool(!holds))
    ensures !TruthKeptAt(w, q, s)
  {
    PlainCond(w, PredicateExists(q), s);
    PlainCond(w, Scalar(q), s);
  }

  lemma {:induction false} NotAlways(w: World, q: Query, s: Scope)
    requires q.site == 0 && !TruthKeptAt(w, q, s)
    ensures !TruthKept(q.limit, q.offset)
  {
    assert q == Query(q.body, q.limit, q.offset, 0);
  }

  lemma {:induction false} HarmfulLoses(limit: Option<nat>, offset: nat)
    requires !Harmless(TwoTest(limit, offset))
    ensures !TruthKept(limit, offset)
  {
    var w, s := Holding(LastTwo(if offset == 0 then 1 else offset)), Scope(map[], None);
    WindowChangesTruth(limit, offset);
    TruthDiffers(w, TwoTest(limit, offset), s, offset != 0);
    NotAlways(w, TwoTest(limit, offset), s);
  }

  /** Without a look at the data, the truth is kept exactly under LIMIT 0, or under no OFFSET and no
      LIMIT 1. */
  lemma {:induction false} WindowExactly(limit: Option<nat>, offset: nat)
    ensures TruthKept(limit, offset) <==> limit == Some(0) || (offset == 0 && limit != Some(1))
  {
    if limit == Some(0) || (offset == 0 && limit != Some(1)) {
      forall w: World, b: Body, s: Scope ensures TruthKeptAt(w, Query(b, limit, offset, 0), s) {
        HarmlessKeeps(w, Query(b, limit, offset, 0), s);
      }
    } else {
      HarmfulLoses(limit, offset);
    }
  }

  /** `(SELECT count(*) > 0)`, which the recogniser takes for a comparison of columns: true as
      written, and an error once the count stands in the WHERE. */
  lemma AggregateIsRefused(w: World, s: Scope)
    ensures var q := Just(Cmp(Gt, CountStar, Lit(Int(0))));
      && PredicateBody(q.body)
      && EvalE(w, Scalar(q), s) == Ok(TRUE) && EvalE(w, PredicateExists(q), s) == Error
  {
    var q := Just(Cmp(Gt, CountStar, Lit(Int(0))));
    var b, none: Frame := q.body, [];
    assert Source(w, b, s.env) == Ok([none]);
    OneItem(w, b.proj, GroupFrame(b.from, [none]), GroupScope(b.from, s.env, [none]));
    OneGroup(w, b, [none], s.env);
    CountOfOne(w, GroupScope(b.from, s.env, [none]));
    assert EvalB(w, b, s.env) == Ok([[Cell("?column?", TRUE)]]);
    assert EvalQ(w, q, s.env) == Ok([[Cell("?column?", TRUE)]]);
    AggregateExactly(w, q, s);
  }

  lemma CountOfOne(w: World, s: Scope)
    requires s.group.Some? && |s.group.value| == 1
    ensures EvalE(w, Cmp(Gt, CountStar, Lit(Int(0))), s) == Ok(TRUE)
  {
    assert EvalE(w, CountStar, s) == Ok(Int(1)) && EvalE(w, Lit(Int(0)), s) == Ok(Int(0));
  }
}
