/** A correlated `(SELECT c ... LIMIT 1)` becomes `(SELECT max(c) ...)`. LIMIT 1 without ORDER BY
    may return any row; the rewrite is one way of choosing. */
module LimitToMax {
  import opened Wrappers
  import opened SqlValues
  import opened SqlAst
  import opened SqlEval
  import opened SqlVisit
  import opened SqlCarry
  import opened SqlCongruence
  import opened SqlScope
  import opened ExistsRewrites

  // --- the recogniser ------------------------------------------------------------------------

  function LowerChar(c: char): char {
    if 'A' <= c <= 'Z' then (c as int + 32) as char else c
  }

  function Lower(s: string): string {
    seq(|s|, i requires 0 <= i < |s| => LowerChar(s[i]))
  }

  /** The names a FROM clause defines, without regard to case. */
  function LocalNames(from: seq<FromItem>): set<string> {
    set k | 0 <= k < |from| :: Lower(FactorName(from[k].factor))
  }

  predicate NotAggregate(e: Expr, p: Pos) {
    !e.CountStar? && !e.Agg?
  }

  function LocalColumn(names: set<string>): Check {
    (e: Expr, p: Pos) => e.Col? ==> Lower(e.qual) in names
  }

  /** A WHERE or projection column, at any depth, qualified by a name FROM does not define. */
  predicate ReferencesOuter(b: Body)
    requires b.Select?
  {
    var local := LocalColumn(LocalNames(b.from));
    !AllOpt(local, b.selection) || !AllItems(local, b.proj)
  }

  predicate CorrelatedLimitOne(q: Query) {
    && q.limit == Some(1) && q.offset == 0
    && q.body.Select? && q.body.having.None? && !q.body.distinct && q.body.groupBy == []
    && |q.body.proj| == 1 && q.body.proj[0].Item?
    && AllE(NotAggregate, q.body.proj[0].e, Exact)
    && ReferencesOuter(q.body)
  }

  function MaxOf(q: Query): Query
    requires q.body.Select? && |q.body.proj| == 1 && q.body.proj[0].Item?
  {
    q.(body := q.body.(proj := [Item(Agg(Max, q.body.proj[0].e), None)]), limit := None)
  }

  function LimitOneToMax(e: Expr, k: nat): (Expr, nat) {
    if e.Scalar? && CorrelatedLimitOne(e.q) then (Scalar(MaxOf(e.q)), k) else (e, k)
  }

  // --- max picks one of the values -----------------------------------------------------------

  lemma {:induction false} NonNullMembers(vs: seq<Value>)
    ensures forall v :: v in NonNull(vs) <==> v in vs && !v.Null?
  {
    if vs != [] {
      NonNullMembers(vs[1..]);
      assert vs == [vs[0]] + vs[1..];
    }
  }

  /** The maximum is the value of some row, NULL only when every value is. */
  lemma MaxIsAValue(vs: seq<Value>)
    requires vs != []
    ensures Aggregate(Max, vs) in vs
    ensures Aggregate(Max, vs) == Null <==> forall v :: v in vs ==> v.Null?
    ensures forall v :: v in vs && !v.Null? ==> !Less(Aggregate(Max, vs), v)
  {
    NonNullMembers(vs);
    var known := NonNull(vs);
    if known == [] {
      assert vs[0] in vs;
    } else {
      assert known[MaxAt(known)] in known;
      MaxAtIsLargest(known);
    }
  }

  lemma {:induction false} MaxAtIsLargest(vs: seq<Value>)
    requires vs != []
    ensures forall i :: 0 <= i < |vs| ==> !Less(vs[MaxAt(vs)], vs[i])
  {
    if |vs| > 1 {
      MaxAtIsLargest(vs[1..]);
      var rest := 1 + MaxAt(vs[1..]);
      forall i | 0 <= i < |vs| ensures !Less(vs[MaxAt(vs)], vs[i]) {
        assert i > 0 ==> vs[1..][i - 1] == vs[i] && !Less(vs[rest], vs[i]);
        assert MaxAt(vs) == if Less(vs[0], vs[rest]) then rest else 0;
        if Less(vs[0], vs[rest]) {
          LessIsOneWay(vs[0], vs[rest]);
        } else if i > 0 {
          LessCarries(vs[0], vs[rest], vs[i]);
        } else if Less(vs[0], vs[0]) {
          LessIsOneWay(vs[0], vs[0]);
        }
      }
    } else if Less(vs[0], vs[0]) {
      LessIsOneWay(vs[0], vs[0]);
    }
  }

  predicate SingleColumn(rows: seq<Rec>) {
    forall i :: 0 <= i < |rows| ==> |rows[i]| == 1
  }

  function Column(rows: seq<Rec>): seq<Value>
    requires SingleColumn(rows)
  {
    seq(|rows|, i requires 0 <= i < |rows| => rows[i][0].v)
  }

  ghost function BestAt(rows: seq<Rec>): (k: nat)
    requires rows != [] && SingleColumn(rows)
    ensures k < |rows| && rows[k][0].v == Aggregate(Max, Column(rows))
  {
    var vs := Column(rows);
    MaxIsAValue(vs);
    assert exists k :: 0 <= k < |vs| && vs[k] == Aggregate(Max, vs);
    var k: nat :| k < |vs| && vs[k] == Aggregate(Max, vs);
    k
  }

  /** The same rows with the one at position `k` in front. */
  function MoveFirst(rows: seq<Rec>, k: nat): (r: seq<Rec>)
    requires k < |rows|
    ensures multiset(r) == multiset(rows)
  {
    assert rows == rows[..k] + [rows[k]] + rows[k + 1..];
    [rows[k]] + rows[..k] + rows[k + 1..]
  }

  /** The rows with a largest one first: an order an unordered LIMIT may take them in. */
  ghost function MaxFirst(rows: seq<Rec>): (r: seq<Rec>)
    ensures multiset(r) == multiset(rows)
  {
    if rows == [] || !SingleColumn(rows) then rows else MoveFirst(rows, BestAt(rows))
  }

  /** The world in which the LIMITs at the sites of `s` take the largest row first. */
  ghost function Choosing(w: World, s: set<nat>): World {
    w.(pick := (site: nat, rows: seq<Rec>) => if site in s then MaxFirst(rows) else w.pick(site, rows))
  }

  lemma ChoosingIsFair(w: World, s: set<nat>)
    requires FairPick(w)
    ensures FairPick(Choosing(w, s))
  {
  }

  // --- one replacement -----------------------------------------------------------------------

  lemma ColumnCons(row: Rec, rest: seq<Rec>)
    requires |row| == 1 && SingleColumn(rest)
    ensures SingleColumn([row] + rest) && Column([row] + rest) == [row[0].v] + Column(rest)
  {
  }

  /** The values of the projected column over the rows WHERE keeps. */
  lemma {:induction false} ColumnValues(w: World, items: seq<Item>, kept: seq<Frame>, env: Env)
    requires |items| == 1 && items[0].Item? && EvalRows(w, items, kept, env).Ok?
    ensures SingleColumn(EvalRows(w, items, kept, env).value)
    ensures EvalOver(w, items[0].e, Envs(env, kept)) == Ok(Column(EvalRows(w, items, kept, env).value))
    decreases |kept|
  {
    if kept != [] {
      ColumnValues(w, items, kept[1..], env);
      OneItem(w, items, kept[0], Scope(Push(env, kept[0]), None));
      assert Envs(env, kept)[0] == Push(env, kept[0]) && Envs(env, kept)[1..] == Envs(env, kept[1..]);
      var row, rest := EvalItems(w, items, kept[0], Scope(Push(env, kept[0]), None)).value, EvalRows(w, items, kept[1..], env).value;
      assert EvalRows(w, items, kept, env).value == [row] + rest;
      ColumnCons(row, rest);
    } else {
      assert Envs(env, kept) == [] && Column([]) == [];
    }
  }

  /** The shape both queries share, and that the projection does not aggregate. */
  predicate OneColumn(q: Query) {
    && q.body.Select? && q.body.having.None? && !q.body.distinct && q.body.groupBy == []
    && |q.body.proj| == 1 && q.body.proj[0].Item? && !HasAgg(q.body.proj[0].e)
  }

  /** What `max` answers. */
  lemma {:induction false} MaxAnswer(w: World, q: Query, s: Scope)
    requires OneColumn(q) && q.offset == 0 && EvalB(w, q.body, s.env).Ok?
    ensures SingleColumn(EvalB(w, q.body, s.env).value)
    ensures EvalE(w, Scalar(MaxOf(q)), s) == Ok(Aggregate(Max, Column(EvalB(w, q.body, s.env).value)))
  {
    var b := q.body;
    OneItem(w, b.proj, [], s);
    PlainSelect(w, b, s.env);
    var kept := Source(w, b, s.env).value;
    ColumnValues(w, b.proj, kept, s.env);
    var best := Aggregate(Max, Column(EvalB(w, b, s.env).value));
    MaxRow(w, q, kept, best, s.env);
    MaxScalar(w, q, s, best);
  }

  lemma {:induction false} MaxScalar(w: World, q: Query, s: Scope, best: Value)
    requires OneColumn(q) && EvalQ(w, MaxOf(q), s.env) == Ok([[Cell("?column?", best)]])
    ensures EvalE(w, Scalar(MaxOf(q)), s) == Ok(best)
  {
    assert ScalarOf([[Cell("?column?", best)]]) == Ok(best);
  }

  lemma MaxRow(w: World, q: Query, kept: seq<Frame>, best: Value, env: Env)
    requires OneColumn(q) && q.offset == 0 && Source(w, q.body, env) == Ok(kept)
    requires EvalE(w, MaxOf(q).body.proj[0].e, GroupScope(q.body.from, env, kept)) == Ok(best)
    ensures EvalQ(w, MaxOf(q), env) == Ok([[Cell("?column?", best)]])
  {
    var m := MaxOf(q).body;
    OneItem(w, m.proj, GroupFrame(m.from, kept), GroupScope(m.from, env, kept));
    OneGroup(w, m, kept, env);
    assert Source(w, m, env) == Ok(kept);
  }

  /** What LIMIT 1 answers: the value of the row the world takes first. */
  lemma LimitAnswer(w: World, q: Query, s: Scope)
    requires FairPick(w) && OneColumn(q) && q.limit == Some(1) && q.offset == 0
    requires EvalB(w, q.body, s.env).Ok?
    ensures var rows := EvalB(w, q.body, s.env).value;
      && SingleColumn(rows)
      && |w.pick(q.site, rows)| == |rows|
      && (if rows == [] then EvalE(w, Scalar(q), s) == Ok(Null)
          else w.pick(q.site, rows)[0] in rows && EvalE(w, Scalar(q), s) == Ok(w.pick(q.site, rows)[0][0].v))
  {
    MaxAnswer(w, q, s);
    var rows := EvalB(w, q.body, s.env).value;
    var picked := w.pick(q.site, rows);
    PickLength(w, q.site, rows);
    if rows != [] {
      assert picked[0] in multiset(picked);
      assert picked[0] in multiset(rows);
      assert picked[0..] == picked;
    }
  }

  /** `max` gives an answer LIMIT 1 could have given: NULL without rows, else some row's value -
      NULL again only when every row's is. */
  lemma MaxIsAllowed(w: World, q: Query, s: Scope)
    requires OneColumn(q) && q.offset == 0 && EvalB(w, q.body, s.env).Ok?
    ensures var rows := EvalB(w, q.body, s.env).value;
            var answer := EvalE(w, Scalar(MaxOf(q)), s);
            answer.Ok? && SingleColumn(rows)
            && (if rows == [] then answer.value == Null else answer.value in Column(rows))
            && (answer.value == Null <==> forall v :: v in Column(rows) ==> v.Null?)
  {
    MaxAnswer(w, q, s);
    var rows := EvalB(w, q.body, s.env).value;
    if rows != [] {
      MaxIsAValue(Column(rows));
    }
  }

  /** All rows, none included, have the same first cell. */
  predicate OneValue(rows: seq<Rec>) {
    forall i, j :: 0 <= i < |rows| && 0 <= j < |rows| ==>
      |rows[i]| > 0 && |rows[j]| > 0 && rows[i][0].v == rows[j][0].v
  }

  /** With at most one row, or rows of one value, the two agree however LIMIT 1 chooses. */
  lemma MaxAgrees(w: World, q: Query, s: Scope)
    requires FairPick(w) && OneColumn(q) && q.limit == Some(1) && q.offset == 0
    requires EvalB(w, q.body, s.env).Ok?
    ensures OneValue(EvalB(w, q.body, s.env).value) ==>
              EvalE(w, Scalar(MaxOf(q)), s) == EvalE(w, Scalar(q), s)
  {
    LimitAnswer(w, q, s);
    MaxAnswer(w, q, s);
    var rows := EvalB(w, q.body, s.env).value;
    if rows != [] {
      MaxIsAValue(Column(rows));
      var picked := w.pick(q.site, rows)[0];
      var i :| 0 <= i < |rows| && rows[i] == picked;
      var j :| 0 <= j < |rows| && Column(rows)[j] == Aggregate(Max, Column(rows));
    }
  }

  /** The world in which one site takes the row at position `j` first. */
  function Taking(w: World, site: nat, j: nat): World {
    w.(pick := (n: nat, rows: seq<Rec>) =>
      if n == site && j < |rows| then MoveFirst(rows, j) else w.pick(n, rows))
  }

  lemma TakingIsFair(w: World, site: nat, j: nat)
    requires FairPick(w)
    ensures FairPick(Taking(w, site, j))
  {
    var w' := Taking(w, site, j);
    forall n, rows ensures multiset(w'.pick(n, rows)) == multiset(rows) {
      assert w'.pick(n, rows) == if n == site && j < |rows| then MoveFirst(rows, j) else w.pick(n, rows);
    }
  }

  /** What LIMIT 1 answers in that world. */
  lemma TakingAnswer(w: World, q: Query, s: Scope, j: nat)
    requires FairPick(w) && OneColumn(q) && q.limit == Some(1) && q.offset == 0
    requires Site(q.site) !in MarksB(q.body) && EvalB(w, q.body, s.env).Ok?
    requires j < |EvalB(w, q.body, s.env).value|
    ensures EvalB(Taking(w, q.site, j), q.body, s.env) == EvalB(w, q.body, s.env)
    ensures SingleColumn(EvalB(w, q.body, s.env).value)
    ensures EvalE(Taking(w, q.site, j), Scalar(q), s) == Ok(EvalB(w, q.body, s.env).value[j][0].v)
  {
    var w' := Taking(w, q.site, j);
    TakingIsFair(w, q.site, j);
    var unlimited := Query(q.body, None, 0, 0);
    CoincideQ(w', w, unlimited, s.env, s.env);
    assert EvalQ(w, unlimited, s.env) == EvalB(w, q.body, s.env);
    LimitAnswer(w', q, s);
    var rows := EvalB(w, q.body, s.env).value;
    assert w'.pick(q.site, rows) == MoveFirst(rows, j);
  }

  /** Otherwise some fair choice answers differently from `max`. */
  lemma MaxCanDiffer(w: World, q: Query, s: Scope) returns (j: nat)
    requires FairPick(w) && OneColumn(q) && q.limit == Some(1) && q.offset == 0
    requires Site(q.site) !in MarksB(q.body)
    requires EvalB(w, q.body, s.env).Ok? && !OneValue(EvalB(w, q.body, s.env).value)
    ensures var w' := Taking(w, q.site, j);
      FairPick(w') && EvalE(w', Scalar(q), s).Ok? && EvalE(w', Scalar(MaxOf(q)), s) != EvalE(w', Scalar(q), s)
  {
    MaxAnswer(w, q, s);
    var rows := EvalB(w, q.body, s.env).value;
    var best := Aggregate(Max, Column(rows));
    assert exists i: nat :: i < |rows| && rows[i][0].v != best;
    j :| j < |rows| && rows[j][0].v != best;
    TakingIsFair(w, q.site, j);
    TakingAnswer(w, q, s, j);
    MaxAnswer(Taking(w, q.site, j), q, s);
  }

  /** In the world that takes the largest row first the replacement is exact. */
  lemma MaxIsChosen(w: World, q: Query, s: Scope)
    requires FairPick(w) && OneColumn(q) && q.limit == Some(1) && q.offset == 0
    requires forall rows :: w.pick(q.site, rows) == MaxFirst(rows)
    requires EvalE(w, Scalar(q), s).Ok?
    ensures EvalE(w, Scalar(MaxOf(q)), s) == EvalE(w, Scalar(q), s)
  {
    assert EvalB(w, q.body, s.env).Ok?;
    LimitAnswer(w, q, s);
    MaxAnswer(w, q, s);
    var rows := EvalB(w, q.body, s.env).value;
    if rows != [] {
      assert MaxFirst(rows)[0] == rows[BestAt(rows)];
    }
  }

  // --- the pass as a whole -------------------------------------------------------------------

  /** `s` holds the site of every LIMIT the pass replaces. */
  ghost function ReplacedAt(s: set<nat>): Check {
    (e: Expr, p: Pos) =>
      e.Scalar? && (exists k: nat :: CorrelatedLimitOne(VisitQ(LimitOneToMax, e.q, k).0)) ==> e.q.site in s
  }

  lemma {:induction false} NoAggregateInside(e: Expr, p: Pos)
    requires AllE(NotAggregate, e, p)
    ensures !HasAgg(e)
    decreases e, 0
  {
    match e
    case Cmp(_, l, r) => NoAggregateInside(l, Exact); NoAggregateInside(r, Exact);
    case And(l, r) => NoAggregateInside(l, p); NoAggregateInside(r, p);
    case Or(l, r) => NoAggregateInside(l, p); NoAggregateInside(r, p);
    case Not(x) => NoAggregateInside(x, Exact);
    case Nested(x) => NoAggregateInside(x, p);
    case Case(c, t, f) => NoAggregateInside(c, Truth); NoAggregateInside(t, p); NoAggregateInside(f, p);
    case Call(_, args) => NoneAggregates(args);
    case Tuple(es) => NoneAggregates(es);
    case InQuery(x, _, _) => NoAggregateInside(x, Exact);
    case AnyOf(x, a) => NoAggregateInside(x, Exact); NoAggregateInside(a, Exact);
    case Index(a, i) => NoAggregateInside(a, Exact); NoAggregateInside(i, Exact);
    case _ =>
  }

  lemma {:induction false} NoneAggregates(es: seq<Expr>)
    requires AllEs(NotAggregate, es)
    ensures !AnyHasAgg(es)
    decreases es, 0
  {
    if es != [] {
      NoAggregateInside(es[0], Exact);
      NoneAggregates(es[1..]);
    }
  }

  lemma LimitShape(s: set<nat>)
    ensures StepShape(LimitOneToMax, ReplacedAt(s))
  {
    forall e: Expr, k: nat, p: Pos ensures StepShapeAt(LimitOneToMax, e, k, p) {
    }
  }

  lemma LimitStep(w: World, s: set<nat>)
    requires FairPick(w)
    ensures StepSound(Choosing(w, s), LimitOneToMax, ReplacedAt(s))
  {
    LimitShape(s);
    forall e: Expr, k: nat, p: Pos | AllE(ReplacedAt(s), e, p)
      ensures StepSoundAt(Choosing(w, s), LimitOneToMax, e, k, p)
    {
      if e.Scalar? {
        LimitNode(w, s, e, k, p);
      }
    }
  }

  lemma LimitNode(w: World, s: set<nat>, e: Expr, k: nat, p: Pos)
    requires FairPick(w) && e.Scalar? && ReplacedAt(s)(e, p)
    ensures StepSoundAt(Choosing(w, s), LimitOneToMax, e, k, p)
  {
    var w' := Choosing(w, s);
    ChoosingIsFair(w, s);
    var q := VisitQ(LimitOneToMax, e.q, k).0;
    assert VisitKids(LimitOneToMax, e, k).0 == Scalar(q);
    if CorrelatedLimitOne(q) {
      assert q.site in s;
      NoAggregateInside(q.body.proj[0].e, Exact);
      forall sc: Scope ensures RefinesAt(w', p, Scalar(q), Scalar(MaxOf(q)), sc) {
        if EvalE(w', Scalar(q), sc).Ok? {
          MaxIsChosen(w', q, sc);
        }
      }
    }
  }

  /** The whole pass: however the remaining LIMITs choose, what the rewritten statement returns is
      what the written one returns for a fair way of choosing at the replaced sites. */
  lemma LimitOneToMaxRefines(w: World, q: Query, env: Env, s: set<nat>)
    requires FairPick(w) && AllQ(ReplacedAt(s), q)
    requires forall n :: n in s ==> Site(n) !in MarksQ(VisitQ(LimitOneToMax, q, 0).0)
    ensures FairPick(Choosing(w, s))
    ensures Refines(EvalQ(Choosing(w, s), q, env), EvalQ(w, VisitQ(LimitOneToMax, q, 0).0, env))
  {
    var w' := Choosing(w, s);
    ChoosingIsFair(w, s);
    LimitStep(w, s);
    VisitSoundQ(w', LimitOneToMax, ReplacedAt(s), q, 0, env);
    CoincideQ(w', w, VisitQ(LimitOneToMax, q, 0).0, env, env);
  }
}
