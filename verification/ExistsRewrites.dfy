/** The two passes that lead a predicate subquery to a form DataFusion plans:
    a scalar subquery over a comparison becomes EXISTS, and EXISTS becomes a row count. */
module ExistsRewrites {
  import opened Wrappers
  import opened SqlValues
  import opened SqlAst
  import opened SqlEval
  import opened SqlVisit
  import opened SqlCongruence

  /** An unordered LIMIT or OFFSET only chooses among the rows it is given. */
  ghost predicate FairPick(w: World) {
    forall site, rows :: multiset(w.pick(site, rows)) == multiset(rows)
  }

  lemma PickLength(w: World, site: nat, rows: seq<Rec>)
    requires FairPick(w)
    ensures |w.pick(site, rows)| == |rows|
    ensures |rows| == 1 ==> w.pick(site, rows) == rows
  {
    var picked := w.pick(site, rows);
    assert |multiset(picked)| == |multiset(rows)|;
    if |rows| == 1 {
      assert picked[0] in multiset(picked);
      assert picked == rows;
    }
  }

  // --- EXISTS to count(*) --------------------------------------------------------------------

  /** The shape the pass accepts. LIMIT, OFFSET and the projection are not looked at. */
  predicate Simple(b: Body) {
    b.Select? && b.having.None? && b.groupBy == []
  }

  function CountBody(b: Body): Body
    requires b.Select?
  {
    b.(proj := [Item(CountStar, None)], distinct := false)
  }

  function CountTest(q: Query, negated: bool): Expr
    requires Simple(q.body)
  {
    Cmp(if negated then Eq else Gt, Scalar(q.(body := CountBody(q.body))), Lit(Int(0)))
  }

  function ExistsToCount(e: Expr, k: nat): (Expr, nat) {
    if e.Exists? && Simple(e.q.body) then (CountTest(e.q, e.negated), k) else (e, k)
  }

  /** The number the rewritten subquery compares with zero. */
  lemma CountRows(w: World, q: Query, env: Env)
    requires Simple(q.body) && Source(w, q.body, env).Ok?
    ensures EvalB(w, CountBody(q.body), env)
         == Ok([[Cell("?column?", Int(|Source(w, q.body, env).value|))]])
  {
    var b := CountBody(q.body);
    var kept := Source(w, q.body, env).value;
    assert Source(w, b, env) == Ok(kept);
    assert ItemsHaveAgg(b.proj) by {
      assert b.proj[0] == Item(CountStar, None);
    }
    CountItem(w, b.from, kept, env);
    OneGroup(w, b, kept, env);
  }

  lemma CountItem(w: World, from: seq<FromItem>, kept: seq<Frame>, env: Env)
    ensures EvalItems(w, [Item(CountStar, None)], GroupFrame(from, kept), GroupScope(from, env, kept))
         == Ok([Cell("?column?", Int(|kept|))])
  {
    var items := [Item(CountStar, None)];
    var f := GroupFrame(from, kept);
    var s := GroupScope(from, env, kept);
    assert EvalE(w, CountStar, s) == Ok(Int(|kept|));
    assert EvalItem(w, items[0], f, s) == Ok([Cell("?column?", Int(|kept|))]);
    assert EvalItems(w, items[1..], f, s) == Ok([]);
    assert [Cell("?column?", Int(|kept|))] + [] == [Cell("?column?", Int(|kept|))];
  }

  /** Without GROUP BY and HAVING an aggregating SELECT returns its one group's row. */
  lemma OneGroup(w: World, b: Body, kept: seq<Frame>, env: Env)
    requires Simple(b) && ItemsHaveAgg(b.proj)
    ensures var row := EvalItems(w, b.proj, GroupFrame(b.from, kept), GroupScope(b.from, env, kept));
            Output(w, b, kept, env) == if row.Ok? then Ok([row.value]) else Error
  {
    KeysOfNone(w, kept, env);
    var groups := GroupsOf(b.groupBy, EvalKeys(w, b.groupBy, kept, env).value, kept);
    assert groups == [kept];
    assert Output(w, b, kept, env) == EvalGroups(w, b, groups, env);
    var row := EvalItems(w, b.proj, GroupFrame(b.from, groups[0]), GroupScope(b.from, env, groups[0]));
    assert EvalGroups(w, b, groups[1..], env) == Ok([]);
    assert EvalGroup(w, b, groups[0], env) == if row.Ok? then Ok([row.value]) else Error;
    if row.Ok? {
      assert [row.value] + [] == [row.value];
    }
  }

  lemma {:induction false} KeysOfNone(w: World, frames: seq<Frame>, env: Env)
    ensures EvalKeys(w, [], frames, env).Ok?
  {
    if frames != [] {
      KeysOfNone(w, frames[1..], env);
    }
  }

  /** How many rows a simple subquery has before LIMIT, as far as EXISTS can tell. */
  lemma SimpleRows(w: World, b: Body, env: Env)
    requires Simple(b) && EvalB(w, b, env).Ok?
    ensures Source(w, b, env).Ok?
    ensures EvalB(w, b, env).value == [] <==> !ItemsHaveAgg(b.proj) && Source(w, b, env).value == []
  {
    var kept := Source(w, b, env).value;
    var rows := Output(w, b, kept, env).value;
    DistinctKeeps(rows);
    if ItemsHaveAgg(b.proj) {
      OneGroup(w, b, kept, env);
    } else {
      RowsLength(w, b.proj, kept, env);
    }
  }

  /** Exactly when one replacement keeps the value: the subquery takes its first row, and it
      either does not aggregate or has a row to aggregate. */
  lemma ExistsToCountExact(w: World, q: Query, negated: bool, s: Scope)
    requires FairPick(w) && Simple(q.body) && EvalE(w, Exists(q, negated), s).Ok?
    ensures Source(w, q.body, s.env).Ok?
    ensures EvalE(w, CountTest(q, negated), s) == EvalE(w, Exists(q, negated), s)
       <==> (&& q.offset == 0 && q.limit != Some(0)
             && (ItemsHaveAgg(q.body.proj) ==> Source(w, q.body, s.env).value != []))
  {
    SimpleRows(w, q.body, s.env);
    CountRows(w, q, s.env);
    CountTestValue(w, q, negated, s);
    WindowOfRows(w, q, EvalB(w, q.body, s.env).value);
  }

  lemma CountScalar(w: World, q: Query, s: Scope)
    requires FairPick(w) && Simple(q.body) && Source(w, q.body, s.env).Ok?
    ensures EvalE(w, Scalar(q.(body := CountBody(q.body))), s)
         == Ok(if q.offset == 0 && q.limit != Some(0) then Int(|Source(w, q.body, s.env).value|) else Null)
  {
    CountRows(w, q, s.env);
    var q' := q.(body := CountBody(q.body));
    var counted := [[Cell("?column?", Int(|Source(w, q.body, s.env).value|))]];
    WindowOfOne(w, q', counted);
    assert EvalQ(w, q', s.env) == Ok(Window(w, q', counted));
  }

  /** The rewritten test: whether a row is left to count, unless LIMIT or OFFSET drops the count. */
  lemma CountTestValue(w: World, q: Query, negated: bool, s: Scope)
    requires FairPick(w) && Simple(q.body) && Source(w, q.body, s.env).Ok?
    ensures EvalE(w, CountTest(q, negated), s)
         == Ok(if q.offset == 0 && q.limit != Some(0)
               then Bool((Source(w, q.body, s.env).value != []) != negated) else Null)
  {
    CountScalar(w, q, s);
    var counted := Scalar(q.(body := CountBody(q.body)));
    assert EvalE(w, Lit(Int(0)), s) == Ok(Int(0));
    var op := if negated then Eq else Gt;
    assert EvalE(w, CountTest(q, negated), s) == Ok(Compare(op, EvalE(w, counted, s).value, Int(0)));
  }

  lemma WindowOfRows(w: World, q: Query, rows: seq<Rec>)
    requires FairPick(w)
    ensures q.offset == 0 && q.limit != Some(0) ==> (Window(w, q, rows) == [] <==> rows == [])
  {
    PickLength(w, q.site, rows);
  }

  lemma WindowOfOne(w: World, q: Query, rows: seq<Rec>)
    requires FairPick(w) && |rows| == 1
    ensures Window(w, q, rows) == if q.offset == 0 && q.limit != Some(0) then rows else []
  {
    PickLength(w, q.site, rows);
  }

  /** What a caller checks: an EXISTS the pass accepts has no OFFSET, no LIMIT 0, no aggregate. */
  predicate CountableExists(e: Expr, p: Pos) {
    e.Exists? && Simple(e.q.body) ==>
      e.q.offset == 0 && e.q.limit != Some(0) && !ItemsHaveAgg(e.q.body.proj)
  }

  lemma ExistsToCountShape()
    ensures StepShape(ExistsToCount, CountableExists)
  {
    forall e: Expr, k: nat, p: Pos ensures StepShapeAt(ExistsToCount, e, k, p) {
    }
  }

  lemma ExistsToCountStep(w: World)
    requires FairPick(w)
    ensures StepSound(w, ExistsToCount, CountableExists)
  {
    ExistsToCountShape();
    forall e: Expr, k: nat, p: Pos | AllE(CountableExists, e, p)
      ensures StepSoundAt(w, ExistsToCount, e, k, p)
    {
      if e.Exists? {
        ExistsNode(w, e, k, p);
      }
    }
  }

  /** A checked EXISTS stays countable while its own expressions are rewritten. */
  lemma StaysCountable(e: Expr, k: nat, p: Pos)
    requires AllE(CountableExists, e, p) && e.Exists?
    ensures CountableExists(VisitKids(ExistsToCount, e, k).0, p)
  {
    var q := e.q;
    assert VisitQ(ExistsToCount, q, k).0 == q.(body := VisitB(ExistsToCount, q.body, k).0);
    VisitKeepsClauses(ExistsToCount, q.body, k);
    if q.body.Select? {
      assert AllQ(CountableExists, q) && AllB(CountableExists, q.body);
      ExistsToCountShape();
      ShapeAggs(ExistsToCount, CountableExists, q.body.proj, k);
    }
  }

  lemma ExistsNode(w: World, e: Expr, k: nat, p: Pos)
    requires FairPick(w) && AllE(CountableExists, e, p) && e.Exists?
    ensures StepSoundAt(w, ExistsToCount, e, k, p)
  {
    var kids := VisitKids(ExistsToCount, e, k).0;
    StaysCountable(e, k, p);
    if Simple(kids.q.body) {
      forall s: Scope ensures RefinesAt(w, p, kids, CountTest(kids.q, kids.negated), s) {
        if EvalE(w, kids, s).Ok? {
          ExistsToCountExact(w, kids.q, kids.negated, s);
        }
      }
    }
  }

  /** The whole pass: every expression of every statement keeps its exact value. */
  lemma ExistsToCountKeepsValues(w: World, e: Expr, p: Pos, s: Scope)
    requires FairPick(w) && AllE(CountableExists, e, p)
    ensures RefinesAt(w, p, e, VisitE(ExistsToCount, e, 0).0, s)
  {
    ExistsToCountStep(w);
    VisitSoundE(w, ExistsToCount, CountableExists, e, 0, p, s);
  }
}
