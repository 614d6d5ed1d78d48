/** A bag-semantics evaluator for the fragment. Rows are kept in sequences, so equal results
    are in particular equal bags. */
module SqlEval {
  import opened Wrappers
  import opened SqlValues
  import opened SqlAst

  datatype Cell = Cell(name: string, v: Value)

  /** One row, its cells in column order. */
  type Rec = seq<Cell>

  /** A row of a FROM clause: one record for each item, in order. */
  datatype Bound = Bound(qual: string, rec: Rec)
  type Frame = seq<Bound>

  /** What each name in scope is bound to, inner scopes hiding outer ones. */
  type Env = map<string, Rec>

  datatype Relation = Relation(cols: seq<string>, recs: seq<Rec>)

  /** The stored tables, by schema and name. */
  type Tables = map<(string, string), Relation>

  /** Everything outside the statement: the stored tables, the scalar functions, and the choice
      an unordered LIMIT or OFFSET makes. `pick` returns the candidate rows of a site in the
      order it takes them in. */
  datatype World = World(
    tables: Tables,
    call: (string, seq<Value>) -> Result<Value>,
    pick: (nat, seq<Rec>) -> seq<Rec>)

  /** `group` holds the environments of the current group's rows inside an aggregating SELECT. */
  datatype Scope = Scope(env: Env, group: Option<seq<Env>>)

  function FrameEnv(f: Frame): Env {
    if f == [] then map[] else FrameEnv(f[..|f| - 1])[f[|f| - 1].qual := f[|f| - 1].rec]
  }

  function Push(env: Env, f: Frame): Env {
    env + FrameEnv(f)
  }

  function FieldOf(rec: Rec, name: string): Result<Value> {
    if rec == [] then Error
    else if rec[0].name == name then Ok(rec[0].v)
    else FieldOf(rec[1..], name)
  }

  function Look(env: Env, qual: string, name: string): Result<Value> {
    if qual in env then FieldOf(env[qual], name) else Error
  }

  function FrameCells(f: Frame): Rec {
    if f == [] then [] else f[0].rec + FrameCells(f[1..])
  }

  function Vals(rec: Rec): seq<Value> {
    seq(|rec|, i requires 0 <= i < |rec| => rec[i].v)
  }

  /** A row read as one value: a scalar when it has one column. */
  function RecValue(rec: Rec): Value {
    if |rec| == 1 then rec[0].v else Composite(Vals(rec))
  }

  function RecValues(rows: seq<Rec>): seq<Value> {
    seq(|rows|, i requires 0 <= i < |rows| => RecValue(rows[i]))
  }

  /** A scalar subquery: NULL without a row, an error with more than one. */
  function ScalarOf(rows: seq<Rec>): Result<Value> {
    if rows == [] then Ok(Null)
    else if |rows| == 1 && |rows[0]| == 1 then Ok(rows[0][0].v)
    else Error
  }

  function Distinct<T(==)>(xs: seq<T>): seq<T> {
    if xs == [] then []
    else
      var front := Distinct(xs[..|xs| - 1]);
      if xs[|xs| - 1] in front then front else front + [xs[|xs| - 1]]
  }

  /** LIMIT and OFFSET over the rows in the order `pick` gives them. */
  function Window(w: World, q: Query, rows: seq<Rec>): seq<Rec> {
    if q.limit.None? && q.offset == 0 then rows
    else
      var ordered := w.pick(q.site, rows);
      var rest := if q.offset <= |ordered| then ordered[q.offset..] else [];
      if q.limit.Some? && q.limit.value <= |rest| then rest[..q.limit.value] else rest
  }

  function NullRec(cols: seq<string>): Rec {
    seq(|cols|, i requires 0 <= i < |cols| => Cell(cols[i], Null))
  }

  /** An unqualified name is looked for in pg_catalog first. */
  function TableOf(ts: Tables, schema: Option<string>, name: string): Result<Relation> {
    if schema.Some? then
      if (schema.value, name) in ts then Ok(ts[(schema.value, name)]) else Error
    else if ("pg_catalog", name) in ts then Ok(ts[("pg_catalog", name)])
    else if ("public", name) in ts then Ok(ts[("public", name)])
    else Error
  }

  // --- the columns a FROM item offers, whether or not it has rows ----------------------------

  function FactorCols(ts: Tables, f: Factor): seq<string>
    decreases f, 0
  {
    match f
    case Table(schema, name, _) => var t := TableOf(ts, schema, name); if t.Ok? then t.value.cols else []
    case Derived(q, _, _) => BodyCols(ts, q.body)
    case Series(_, _, given) => [given]
  }

  function BodyCols(ts: Tables, b: Body): seq<string>
    decreases b, 0
  {
    match b
    case Select(proj, from, _, _, _, _) => ItemCols(ts, proj, FromCols(ts, from))
    case Union(l, _, _) => BodyCols(ts, l)
    case Paren(q) => BodyCols(ts, q.body)
  }

  function FromCols(ts: Tables, from: seq<FromItem>): seq<string>
    decreases from, 0
  {
    if from == [] then []
    else
      FromCols(ts, from[..|from| - 1]) + JoinedCols(ts, from[|from| - 1])
  }

  function JoinedCols(ts: Tables, it: FromItem): seq<string>
    decreases it, 0
  {
    FactorCols(ts, it.factor)
  }

  function ItemCols(ts: Tables, items: seq<Item>, all: seq<string>): seq<string>
    decreases items, 0
  {
    if items == [] then []
    else (if items[0].Item? then [ItemName(items[0])] else all) + ItemCols(ts, items[1..], all)
  }

  /** A set operation names its columns after its left side. */
  function Relabel(rows: seq<Rec>, cols: seq<string>): seq<Rec> {
    seq(|rows|, i requires 0 <= i < |rows| =>
      seq(|rows[i]|, j requires 0 <= j < |rows[i]| =>
        Cell(if j < |cols| then cols[j] else rows[i][j].name, rows[i][j].v)))
  }

  // --- expressions ---------------------------------------------------------------------------

  function EvalE(w: World, e: Expr, s: Scope): Result<Value>
    decreases e, 0
  {
    match e
    case Lit(v) => Ok(v)
    case Col(q, c) => Look(s.env, q, c)
    case Bare(x) => Look(s.env, x, x)
    case Cmp(op, l, r) =>
      var a :- EvalE(w, l, s);
      var b :- EvalE(w, r, s);
      Ok(Compare(op, a, b))
    case And(l, r) =>
      var a :- EvalE(w, l, s);
      var b :- EvalE(w, r, s);
      Ok(AndV(a, b))
    case Or(l, r) =>
      var a :- EvalE(w, l, s);
      var b :- EvalE(w, r, s);
      Ok(OrV(a, b))
    case Not(x) =>
      var a :- EvalE(w, x, s);
      Ok(NotV(a))
    case Nested(x) => EvalE(w, x, s)
    case Case(c, t, f) =>
      var a :- EvalCond(w, c, s);
      if a then EvalE(w, t, s) else EvalE(w, f, s)
    case Call(fn, args) =>
      var vs :- EvalEs(w, args, s);
      w.call(fn, vs)
    case CountStar => if s.group.Some? then Ok(Int(|s.group.value|)) else Error
    case Agg(fn, arg) =>
      if s.group.None? then Error
      else
        var vs :- EvalOver(w, arg, s.group.value);
        Ok(Aggregate(fn, vs))
    case Tuple(es) =>
      var vs :- EvalEs(w, es, s);
      Ok(Composite(vs))
    case Scalar(q) =>
      var rows :- EvalQ(w, q, s.env);
      ScalarOf(rows)
    case Exists(q, negated) =>
      var rows :- EvalQ(w, q, s.env);
      Ok(Bool((rows != []) != negated))
    case InQuery(x, q, negated) =>
      var a :- EvalE(w, x, s);
      var rows :- EvalQ(w, q, s.env);
      var member := AnyEqual(a, RecValues(rows));
      Ok(if negated then NotV(member) else member)
    case AnyOf(x, arr) =>
      var a :- EvalE(w, x, s);
      var b :- EvalE(w, arr, s);
      Ok(if b.Array? then AnyEqual(a, b.elems) else Null)
    case Index(arr, idx) =>
      var a :- EvalE(w, arr, s);
      var i :- EvalE(w, idx, s);
      Ok(Subscripted(a, i))
  }

  /** A condition: whether it is true. The operands of AND and OR are taken from left to right
      and none is evaluated once the outcome is settled. */
  function EvalCond(w: World, e: Expr, s: Scope): Result<bool>
    decreases e, 1
  {
    match e
    case And(l, r) =>
      var a :- EvalCond(w, l, s);
      if a then EvalCond(w, r, s) else Ok(false)
    case Or(l, r) =>
      var a :- EvalCond(w, l, s);
      if a then Ok(true) else EvalCond(w, r, s)
    case Nested(x) => EvalCond(w, x, s)
    case Case(c, t, f) =>
      var a :- EvalCond(w, c, s);
      if a then EvalCond(w, t, s) else EvalCond(w, f, s)
    case _ =>
      var v :- EvalE(w, e, s);
      Ok(IsTrue(v))
  }

  function EvalEs(w: World, es: seq<Expr>, s: Scope): Result<seq<Value>>
    decreases es, 0
  {
    if es == [] then Ok([])
    else
      var v :- EvalE(w, es[0], s);
      var vs :- EvalEs(w, es[1..], s);
      Ok([v] + vs)
  }

  /** An aggregate's argument, once for each row of the group. */
  function EvalOver(w: World, arg: Expr, envs: seq<Env>): Result<seq<Value>>
    decreases arg, 1, |envs|
  {
    if envs == [] then Ok([])
    else
      var v :- EvalE(w, arg, Scope(envs[0], None));
      var vs :- EvalOver(w, arg, envs[1..]);
      Ok([v] + vs)
  }

  // --- queries -------------------------------------------------------------------------------

  function EvalQ(w: World, q: Query, env: Env): Result<seq<Rec>>
    decreases q, 0
  {
    var rows :- EvalB(w, q.body, env);
    Ok(Window(w, q, rows))
  }

  function EvalB(w: World, b: Body, env: Env): Result<seq<Rec>>
    decreases b, 2
  {
    match b
    case Union(l, r, all) =>
      var xs :- EvalB(w, l, env);
      var ys :- EvalB(w, r, env);
      var both := xs + Relabel(ys, BodyCols(w.tables, l));
      Ok(if all then both else Distinct(both))
    case Paren(q) => EvalQ(w, q, env)
    case Select(_, _, _, _, _, distinct) =>
      var kept :- Source(w, b, env);
      var rows :- Output(w, b, kept, env);
      Ok(if distinct then Distinct(rows) else rows)
  }

  /** The rows of FROM that WHERE keeps. */
  function Source(w: World, b: Body, env: Env): Result<seq<Frame>>
    requires b.Select?
    decreases b, 1
  {
    var frames :- EvalFrom(w, b.from, env);
    FilterOpt(w, b.selection, frames, env)
  }

  function Output(w: World, b: Body, kept: seq<Frame>, env: Env): Result<seq<Rec>>
    requires b.Select?
    decreases b, 1
  {
    if Aggregated(b) then
      var keys :- EvalKeys(w, b.groupBy, kept, env);
      EvalGroups(w, b, GroupsOf(b.groupBy, keys, kept), env)
    else
      EvalRows(w, b.proj, kept, env)
  }

  function EvalFrom(w: World, from: seq<FromItem>, env: Env): Result<seq<Frame>>
    decreases from, 0
  {
    if from == [] then Ok([[]])
    else
      var before :- EvalFrom(w, from[..|from| - 1], env);
      JoinAll(w, from[|from| - 1], before, env)
  }

  function JoinAll(w: World, it: FromItem, frames: seq<Frame>, env: Env): Result<seq<Frame>>
    decreases it, 1, |frames|
  {
    if frames == [] then Ok([])
    else
      var here :- JoinOne(w, it, frames[0], env);
      var rest :- JoinAll(w, it, frames[1..], env);
      Ok(here + rest)
  }

  /** The rows one FROM row continues to; LEFT pads it with NULLs when nothing matches. */
  function JoinOne(w: World, it: FromItem, f: Frame, env: Env): Result<seq<Frame>>
    decreases it, 0
  {
    var recs :- EvalFactor(w, it.factor, f, env);
    var name := FactorName(it.factor);
    var matches :- Matching(w, it.on, name, recs, f, env);
    Ok(if it.kind.Left? && matches == [] then [f + [Bound(name, NullRec(FactorCols(w.tables, it.factor)))]]
       else matches)
  }

  /** Only a LATERAL subquery or a table function sees the items written before it. */
  function EvalFactor(w: World, f: Factor, frame: Frame, env: Env): Result<seq<Rec>>
    decreases f, 0
  {
    match f
    case Table(schema, name, _) =>
      var t :- TableOf(w.tables, schema, name);
      Ok(t.recs)
    case Derived(q, _, lateral) => EvalQ(w, q, if lateral then Push(env, frame) else env)
    case Series(lo, hi, given) =>
      var a :- EvalE(w, lo, Scope(Push(env, frame), None));
      var b :- EvalE(w, hi, Scope(Push(env, frame), None));
      Ok(if a.Int? && b.Int? then SeriesRecs(a.i, b.i, given) else [])
  }

  function SeriesRecs(lo: int, hi: int, given: string): seq<Rec>
    decreases hi - lo
  {
    if lo > hi then [] else [[Cell(given, Int(lo))]] + SeriesRecs(lo + 1, hi, given)
  }

  function Matching(w: World, on: Expr, name: string, recs: seq<Rec>, f: Frame, env: Env): Result<seq<Frame>>
    decreases on, 2, |recs|
  {
    if recs == [] then Ok([])
    else
      var joined := f + [Bound(name, recs[0])];
      var holds :- EvalCond(w, on, Scope(Push(env, joined), None));
      var rest :- Matching(w, on, name, recs[1..], f, env);
      Ok(if holds then [joined] + rest else rest)
  }

  function FilterOpt(w: World, cond: Option<Expr>, frames: seq<Frame>, env: Env): Result<seq<Frame>>
    decreases cond, 0
  {
    if cond.None? then Ok(frames) else Filter(w, cond.value, frames, env)
  }

  function Filter(w: World, cond: Expr, frames: seq<Frame>, env: Env): Result<seq<Frame>>
    decreases cond, 2, |frames|
  {
    if frames == [] then Ok([])
    else
      var holds :- EvalCond(w, cond, Scope(Push(env, frames[0]), None));
      var rest :- Filter(w, cond, frames[1..], env);
      Ok(if holds then [frames[0]] + rest else rest)
  }

  function EvalRows(w: World, items: seq<Item>, frames: seq<Frame>, env: Env): Result<seq<Rec>>
    decreases items, 1, |frames|
  {
    if frames == [] then Ok([])
    else
      var row :- EvalItems(w, items, frames[0], Scope(Push(env, frames[0]), None));
      var rest :- EvalRows(w, items, frames[1..], env);
      Ok([row] + rest)
  }

  function EvalItems(w: World, items: seq<Item>, f: Frame, s: Scope): Result<Rec>
    decreases items, 0
  {
    if items == [] then Ok([])
    else
      var first :- EvalItem(w, items[0], f, s);
      var rest :- EvalItems(w, items[1..], f, s);
      Ok(first + rest)
  }

  function EvalItem(w: World, it: Item, f: Frame, s: Scope): Result<Rec>
    decreases it, 0
  {
    match it
    case Wildcard => Ok(FrameCells(f))
    case Item(e, _) =>
      var v :- EvalE(w, e, s);
      Ok([Cell(ItemName(it), v)])
  }

  /** The grouping key of each row. */
  function EvalKeys(w: World, keys: seq<Expr>, frames: seq<Frame>, env: Env): Result<seq<seq<Value>>>
    decreases keys, 1, |frames|
  {
    if frames == [] then Ok([])
    else
      var k :- EvalEs(w, keys, Scope(Push(env, frames[0]), None));
      var rest :- EvalKeys(w, keys, frames[1..], env);
      Ok([k] + rest)
  }

  /** Without GROUP BY all rows, even none, are one group; with it equal keys, NULLs included,
      share a group. */
  function GroupsOf(groupBy: seq<Expr>, keys: seq<seq<Value>>, frames: seq<Frame>): seq<seq<Frame>> {
    if groupBy == [] then [frames]
    else
      var ks := Distinct(keys);
      seq(|ks|, i requires 0 <= i < |ks| => WithKey(ks[i], keys, frames))
  }

  function WithKey(k: seq<Value>, keys: seq<seq<Value>>, frames: seq<Frame>): seq<Frame> {
    if keys == [] || frames == [] then []
    else (if keys[0] == k then [frames[0]] else []) + WithKey(k, keys[1..], frames[1..])
  }

  function Envs(env: Env, frames: seq<Frame>): seq<Env> {
    seq(|frames|, i requires 0 <= i < |frames| => Push(env, frames[i]))
  }

  /** The row a group's own columns are read from: its first one. Over an empty group the names
      of FROM are bound to rows without columns. */
  function GroupFrame(from: seq<FromItem>, g: seq<Frame>): Frame {
    if g != [] then g[0]
    else seq(|from|, i requires 0 <= i < |from| => Bound(FactorName(from[i].factor), []))
  }

  function GroupScope(from: seq<FromItem>, env: Env, g: seq<Frame>): Scope {
    Scope(Push(env, GroupFrame(from, g)), Some(Envs(env, g)))
  }

  function EvalGroups(w: World, b: Body, groups: seq<seq<Frame>>, env: Env): Result<seq<Rec>>
    requires b.Select?
    decreases b, 1, |groups|
  {
    if groups == [] then Ok([])
    else
      var here :- EvalGroup(w, b, groups[0], env);
      var rest :- EvalGroups(w, b, groups[1..], env);
      Ok(here + rest)
  }

  /** The row of one group, unless HAVING drops it. */
  function EvalGroup(w: World, b: Body, g: seq<Frame>, env: Env): Result<seq<Rec>>
    requires b.Select?
    decreases b, 0
  {
    var s := GroupScope(b.from, env, g);
    var keep :- if b.having.Some? then EvalCond(w, b.having.value, s) else Ok(true);
    var row :- EvalItems(w, b.proj, GroupFrame(b.from, g), s);
    Ok(if keep then [row] else [])
  }

  lemma PushOne(env: Env, f: Frame, b: Bound)
    ensures Push(env, f + [b]) == Push(env, f)[b.qual := b.rec]
  {
    var g := f + [b];
    assert g[..|g| - 1] == f;
  }

  // --- first facts ---------------------------------------------------------------------------

  /** A condition that has a value holds exactly when the value is true. */
  lemma {:induction false} CondOfValue(w: World, e: Expr, s: Scope)
    ensures EvalE(w, e, s).Ok? ==> EvalCond(w, e, s) == Ok(IsTrue(EvalE(w, e, s).value))
    decreases e
  {
    match e
    case And(l, r) =>
      CondOfValue(w, l, s);
      CondOfValue(w, r, s);
      ConnectiveOfValue(w, e, s);
    case Or(l, r) =>
      CondOfValue(w, l, s);
      CondOfValue(w, r, s);
      ConnectiveOfValue(w, e, s);
    case Nested(x) => CondOfValue(w, x, s);
    case Case(c, t, f) => CondOfValue(w, t, s); CondOfValue(w, f, s);
    case _ =>
  }

  ghost predicate CondIsValue(w: World, e: Expr, s: Scope) {
    EvalE(w, e, s).Ok? ==> EvalCond(w, e, s) == Ok(IsTrue(EvalE(w, e, s).value))
  }

  lemma {:induction false} ConnectiveOfValue(w: World, e: Expr, s: Scope)
    requires (e.And? || e.Or?) && CondIsValue(w, e.left, s) && CondIsValue(w, e.right, s)
    ensures CondIsValue(w, e, s)
  {
  }

  predicate Connective(e: Expr) {
    e.And? || e.Or? || e.Nested? || e.Case?
  }

  lemma PlainCond(w: World, e: Expr, s: Scope)
    requires !Connective(e)
    ensures EvalCond(w, e, s) == if EvalE(w, e, s).Ok? then Ok(IsTrue(EvalE(w, e, s).value)) else Error
  {
  }

  lemma AndStep(w: World, l: Expr, r: Expr, s: Scope)
    ensures EvalCond(w, And(l, r), s)
         == if EvalCond(w, l, s) == Ok(false) then Ok(false) else if EvalCond(w, l, s).Ok? then EvalCond(w, r, s) else Error
  {
  }

  lemma {:induction false} DistinctKeeps<T>(xs: seq<T>)
    ensures forall x :: x in Distinct(xs) <==> x in xs
    ensures Distinct(xs) == [] <==> xs == []
  {
    if xs != [] {
      DistinctKeeps(xs[..|xs| - 1]);
      assert xs == xs[..|xs| - 1] + [xs[|xs| - 1]];
      assert xs[|xs| - 1] in Distinct(xs);
    }
  }

  lemma SourceOf(w: World, b: Body, frames: seq<Frame>, env: Env)
    requires b.Select? && EvalFrom(w, b.from, env) == Ok(frames)
    ensures Source(w, b, env) == if b.selection.Some? then Filter(w, b.selection.value, frames, env) else Ok(frames)
  {
    assert Source(w, b, env) == FilterOpt(w, b.selection, frames, env);
  }

  lemma FilterStep(w: World, cond: Expr, frames: seq<Frame>, env: Env)
    requires frames != []
    ensures var holds, rest := EvalCond(w, cond, Scope(Push(env, frames[0]), None)), Filter(w, cond, frames[1..], env);
            Filter(w, cond, frames, env)
            == if !holds.Ok? || !rest.Ok? then Error else Ok(if holds.value then [frames[0]] + rest.value else rest.value)
  {
  }

  lemma MatchingStep(w: World, on: Expr, name: string, recs: seq<Rec>, f: Frame, env: Env)
    requires recs != []
    ensures var holds := EvalCond(w, on, Scope(Push(env, f + [Bound(name, recs[0])]), None));
            var rest := Matching(w, on, name, recs[1..], f, env);
            Matching(w, on, name, recs, f, env)
            == if !holds.Ok? || !rest.Ok? then Error
               else Ok(if holds.value then [f + [Bound(name, recs[0])]] + rest.value else rest.value)
  {
  }

  lemma {:induction false} EvalEsLength(w: World, es: seq<Expr>, s: Scope)
    ensures EvalEs(w, es, s).Ok? ==> |EvalEs(w, es, s).value| == |es|
  {
    if es != [] {
      EvalEsLength(w, es[1..], s);
    }
  }

  lemma OneItem(w: World, items: seq<Item>, f: Frame, s: Scope)
    requires |items| == 1
    ensures EvalItems(w, items, f, s) == EvalItem(w, items[0], f, s)
    ensures ItemsHaveAgg(items) == (items[0].Item? && HasAgg(items[0].e))
  {
    assert items[1..] == [];
    assert EvalItems(w, items[1..], f, s) == Ok([]);
    var first := EvalItem(w, items[0], f, s);
    if first.Ok? {
      assert first.value + [] == first.value;
    }
    assert !ItemsHaveAgg(items[1..]);
  }

  /** A SELECT without aggregation: its items once for each row WHERE keeps. */
  lemma PlainRows(w: World, b: Body, env: Env)
    requires b.Select? && !Aggregated(b) && EvalB(w, b, env).Ok?
    ensures Source(w, b, env).Ok? && EvalRows(w, b.proj, Source(w, b, env).value, env).Ok?
    ensures var rows := EvalRows(w, b.proj, Source(w, b, env).value, env).value;
            EvalB(w, b, env).value == if b.distinct then Distinct(rows) else rows
  {
  }

  lemma PlainSelect(w: World, b: Body, env: Env)
    requires b.Select? && !Aggregated(b) && !b.distinct
    ensures EvalB(w, b, env)
         == if Source(w, b, env).Ok? then EvalRows(w, b.proj, Source(w, b, env).value, env) else Error
  {
  }

  /** A row of constant 1s for each row kept: all that EXISTS needs. */
  lemma {:induction false} OnesRows(w: World, frames: seq<Frame>, env: Env)
    ensures EvalRows(w, [Item(Lit(Int(1)), None)], frames, env).Ok?
    ensures |EvalRows(w, [Item(Lit(Int(1)), None)], frames, env).value| == |frames|
  {
    if frames != [] {
      var items := [Item(Lit(Int(1)), None)];
      OneItem(w, items, frames[0], Scope(Push(env, frames[0]), None));
      OnesRows(w, frames[1..], env);
    }
  }

  /** EXISTS over `SELECT [DISTINCT] 1` without LIMIT: whether WHERE keeps a row. */
  lemma ExistsOfOnes(w: World, q: Query, negated: bool, s: Scope)
    requires q.body.Select? && q.body.proj == [Item(Lit(Int(1)), None)]
    requires q.body.groupBy == [] && q.body.having.None? && q.limit.None? && q.offset == 0
    requires Source(w, q.body, s.env).Ok?
    ensures EvalE(w, Exists(q, negated), s) == Ok(Bool((Source(w, q.body, s.env).value != []) != negated))
  {
    var kept := Source(w, q.body, s.env).value;
    OneItem(w, q.body.proj, [], s);
    OnesRows(w, kept, s.env);
    DistinctKeeps(EvalRows(w, q.body.proj, kept, s.env).value);
    assert EvalB(w, q.body, s.env).Ok?;
    PlainRows(w, q.body, s.env);
  }

  lemma {:induction false} RowsLength(w: World, items: seq<Item>, frames: seq<Frame>, env: Env)
    ensures EvalRows(w, items, frames, env).Ok? ==> |EvalRows(w, items, frames, env).value| == |frames|
  {
    if frames != [] {
      RowsLength(w, items, frames[1..], env);
    }
  }

  /** An answered scalar subquery of one plain item: no row and NULL, or one row and its item. */
  lemma ScalarRow(w: World, items: seq<Item>, kept: seq<Frame>, env: Env)
    requires |items| == 1 && items[0].Item?
    requires EvalRows(w, items, kept, env).Ok? && ScalarOf(EvalRows(w, items, kept, env).value).Ok?
    ensures |kept| <= 1
    ensures kept == [] ==> ScalarOf(EvalRows(w, items, kept, env).value).value == Null
    ensures kept != [] ==>
      EvalE(w, items[0].e, Scope(Push(env, kept[0]), None)) == ScalarOf(EvalRows(w, items, kept, env).value)
  {
    RowsLength(w, items, kept, env);
    if kept != [] {
      OneItem(w, items, kept[0], Scope(Push(env, kept[0]), None));
    }
  }

  lemma OneRow(w: World, items: seq<Item>, f: Frame, env: Env)
    ensures var row := EvalItems(w, items, f, Scope(Push(env, f), None));
            EvalRows(w, items, [f], env) == if row.Ok? then Ok([row.value]) else Error
  {
    var frames := [f];
    assert frames[1..] == [];
    var row := EvalItems(w, items, f, Scope(Push(env, f), None));
    if row.Ok? {
      assert [row.value] + [] == [row.value];
    }
  }

  // --- small statements for the examples -----------------------------------------------------

  /** `SELECT e` without a FROM clause. */
  function Just(e: Expr): Query {
    Query(Select([Item(e, None)], [], None, [], None, false), None, 0, 0)
  }

  lemma JustRow(w: World, e: Expr, env: Env)
    requires !HasAgg(e)
    ensures var v := EvalE(w, e, Scope(env, None));
            EvalQ(w, Just(e), env) == if v.Ok? then Ok([[Cell(OutName(e), v.value)]]) else Error
  {
    var b := Just(e).body;
    var s := Scope(Push(env, []), None);
    assert Push(env, []) == env;
    OneItem(w, b.proj, [], s);
    PlainSelect(w, b, env);
    OneRow(w, b.proj, [], env);
    assert Source(w, b, env) == Ok([[]]);
  }

  /** FROM with a single item. */
  lemma OneTable(w: World, it: FromItem, env: Env)
    ensures EvalFrom(w, [it], env) == JoinOne(w, it, [], env)
  {
    var from, frames: seq<Frame> := [it], [[]];
    assert from[..|from| - 1] == [] && frames[1..] == [];
    var joined := JoinOne(w, it, [], env);
    assert JoinAll(w, it, frames[1..], env) == Ok([]);
    if joined.Ok? {
      assert joined.value + [] == joined.value;
    }
  }
}
