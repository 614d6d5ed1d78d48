/** Set-returning functions called in a projection, and the unnesting form the planner can run. */
module ProjectionSrf {
  import opened Wrappers
  import opened SqlValues
  import opened SqlAst
  import opened SqlEval

  datatype PExpr =
    | Const(v: Value)
    | Name(c: string)                          // an unqualified column
    | Column(qual: string, c: string)
    | Apply(fn: string, args: seq<PExpr>)
    | Srf(fn: string, args: seq<PExpr>)        // a call to one of the projection SRFs
    | Dot(e: PExpr, field: string)             // (e).field
    | Bracket(e: PExpr, field: string)         // e['field']
    | Unnest(e: PExpr)

  datatype PItem = Out(e: PExpr) | Star

  /** The FROM and WHERE of a SELECT, as written or behind a derived table that also unnests a call. */
  datatype From =
    | Written(from: seq<FromItem>, selection: Option<Expr>)
    | Unnesting(from: seq<FromItem>, selection: Option<Expr>, call: PExpr)

  /** A SELECT without grouping. */
  datatype Listing = Listing(items: seq<PItem>, src: From, distinct: bool)

  const COLUMN := "__srf_unnest"
  const SOURCE := "__srf_src"

  // --- what a projection means ---------------------------------------------------------------

  /** PostgreSQL expands a set-returning call where it stands; DataFusion gives it as a list and
      expands only `unnest`. */
  datatype Engine = Postgres | DataFusion

  datatype Functions = Functions(
    call: (string, seq<Value>) -> Result<Value>,
    srf: (string, seq<Value>) -> seq<Value>,
    field: (Value, string) -> Value)

  datatype Row = Row(cells: Rec, env: Env)

  /** The one column with this name. */
  function Unique(cells: Rec, c: string): Result<Value> {
    if cells == [] then Error
    else if cells[0].name == c then (if FieldOf(cells[1..], c).Ok? then Error else Ok(cells[0].v))
    else Unique(cells[1..], c)
  }

  /** Step `i` of a set; a shorter set is continued with NULLs. */
  function Nth(vs: seq<Value>, i: nat): Value {
    if i < |vs| then vs[i] else Null
  }

  function EvalP(g: Engine, m: Functions, e: PExpr, row: Row, i: nat): Result<Value>
    decreases e, 0
  {
    match e
    case Const(v) => Ok(v)
    case Name(c) => Unique(row.cells, c)
    case Column(q, c) => Look(row.env, q, c)
    case Apply(fn, args) =>
      var vs :- EvalPs(g, m, args, row, i);
      m.call(fn, vs)
    case Srf(fn, args) =>
      var vs :- EvalPs(g, m, args, row, i);
      Ok(if g.Postgres? then Nth(m.srf(fn, vs), i) else Array(m.srf(fn, vs)))
    case Dot(x, f) =>
      var v :- EvalP(g, m, x, row, i);
      Ok(m.field(v, f))
    case Bracket(x, f) =>
      var v :- EvalP(g, m, x, row, i);
      Ok(m.field(v, f))
    case Unnest(x) =>
      var v :- EvalP(g, m, x, row, i);
      if v.Array? then Ok(Nth(v.elems, i)) else Error
  }

  function EvalPs(g: Engine, m: Functions, es: seq<PExpr>, row: Row, i: nat): Result<seq<Value>>
    decreases es, 0
  {
    if es == [] then Ok([])
    else
      var v :- EvalP(g, m, es[0], row, i);
      var vs :- EvalPs(g, m, es[1..], row, i);
      Ok([v] + vs)
  }

  /** The sizes of the sets an expression expands; a set inside a set's argument is not modelled. */
  function Spans(g: Engine, m: Functions, e: PExpr, row: Row): Result<seq<nat>>
    decreases e, 0
  {
    match e
    case Const(_) => Ok([])
    case Name(_) => Ok([])
    case Column(_, _) => Ok([])
    case Apply(_, args) => SpansEach(g, m, args, row)
    case Srf(fn, args) =>
      var inner :- SpansEach(g, m, args, row);
      if g.DataFusion? then Ok(inner)
      else
        var vs :- EvalPs(g, m, args, row, 0);
        if inner == [] then Ok([|m.srf(fn, vs)|]) else Error
    case Dot(x, _) => Spans(g, m, x, row)
    case Bracket(x, _) => Spans(g, m, x, row)
    case Unnest(x) =>
      var inner :- Spans(g, m, x, row);
      var v :- EvalP(g, m, x, row, 0);
      if inner == [] && v.Array? then Ok([|v.elems|]) else Error
  }

  function SpansEach(g: Engine, m: Functions, es: seq<PExpr>, row: Row): Result<seq<nat>>
    decreases es, 0
  {
    if es == [] then Ok([])
    else
      var first :- Spans(g, m, es[0], row);
      var rest :- SpansEach(g, m, es[1..], row);
      Ok(first + rest)
  }

  function SpansItems(g: Engine, m: Functions, items: seq<PItem>, row: Row): Result<seq<nat>> {
    if items == [] then Ok([])
    else
      var first :- if items[0].Star? then Ok([]) else Spans(g, m, items[0].e, row);
      var rest :- SpansItems(g, m, items[1..], row);
      Ok(first + rest)
  }

  function Longest(ns: seq<nat>): nat {
    if ns == [] then 0
    else if Longest(ns[1..]) > ns[0] then Longest(ns[1..]) else ns[0]
  }

  /** All sets of one row advance together; without a set the row gives one result. */
  function Steps(ns: seq<nat>): nat {
    if ns == [] then 1 else Longest(ns)
  }

  function ItemsAt(g: Engine, m: Functions, items: seq<PItem>, row: Row, i: nat): Result<seq<Value>> {
    if items == [] then Ok([])
    else
      var first :- ItemAt(g, m, items[0], row, i);
      var rest :- ItemsAt(g, m, items[1..], row, i);
      Ok(first + rest)
  }

  function ItemAt(g: Engine, m: Functions, it: PItem, row: Row, i: nat): Result<seq<Value>> {
    if it.Star? then Ok(Vals(row.cells))
    else
      var v :- EvalP(g, m, it.e, row, i);
      Ok([v])
  }

  /** The results of steps `i` up to `n`. */
  function StepRows(g: Engine, m: Functions, items: seq<PItem>, row: Row, i: nat, n: nat): Result<seq<seq<Value>>>
    decreases n - i
  {
    if i >= n then Ok([])
    else
      var first :- ItemsAt(g, m, items, row, i);
      var rest :- StepRows(g, m, items, row, i + 1, n);
      Ok([first] + rest)
  }

  function RowResults(g: Engine, m: Functions, items: seq<PItem>, row: Row): Result<seq<seq<Value>>> {
    var spans :- SpansItems(g, m, items, row);
    StepRows(g, m, items, row, 0, Steps(spans))
  }

  function Results(g: Engine, m: Functions, items: seq<PItem>, rows: seq<Row>): Result<seq<seq<Value>>> {
    if rows == [] then Ok([])
    else
      var first :- RowResults(g, m, items, rows[0]);
      var rest :- Results(g, m, items, rows[1..]);
      Ok(first + rest)
  }

  function RowOf(env: Env, f: Frame): Row {
    Row(FrameCells(f), Push(env, f))
  }

  function RowsOfFrames(env: Env, frames: seq<Frame>): seq<Row> {
    seq(|frames|, i requires 0 <= i < |frames| => RowOf(env, frames[i]))
  }

  function Named(cells: Rec, vals: seq<Value>): Rec {
    seq(|vals|, i requires 0 <= i < |vals| => Cell(if i < |cells| then cells[i].name else COLUMN, vals[i]))
  }

  /** The rows of the derived table: everything of a source row, and an element. */
  function DerivedRows(env: Env, cells: Rec, results: seq<seq<Value>>): seq<Row> {
    seq(|results|, i requires 0 <= i < |results| =>
      Row(Named(cells, results[i]), env[SOURCE := Named(cells, results[i])]))
  }

  /** SELECT *, unnest(call) AS __srf_unnest over the source rows. */
  function Unnested(g: Engine, m: Functions, call: PExpr, env: Env, rows: seq<Row>): Result<seq<Row>> {
    if rows == [] then Ok([])
    else
      var first :- RowResults(g, m, [Star, Out(Unnest(call))], rows[0]);
      var rest :- Unnested(g, m, call, env, rows[1..]);
      Ok(DerivedRows(env, rows[0].cells, first) + rest)
  }

  function Frames(w: World, src: From, env: Env): Result<seq<Frame>> {
    var frames :- EvalFrom(w, src.from, env);
    FilterOpt(w, src.selection, frames, env)
  }

  function SourceRows(g: Engine, m: Functions, w: World, src: From, env: Env): Result<seq<Row>> {
    var frames :- Frames(w, src, env);
    var rows := RowsOfFrames(env, frames);
    if src.Written? then Ok(rows) else Unnested(g, m, src.call, env, rows)
  }

  function EvalListing(g: Engine, m: Functions, w: World, l: Listing, env: Env): Result<seq<seq<Value>>> {
    var rows :- SourceRows(g, m, w, l.src, env);
    var results :- Results(g, m, l.items, rows);
    Ok(if l.distinct then Distinct(results) else results)
  }

  // --- the pass ------------------------------------------------------------------------------

  /** The calls whose fields an expression reads, innermost first. */
  function Accesses(e: PExpr): seq<PExpr>
    decreases e, 0
  {
    match e
    case Apply(_, args) => AccessesEach(args)
    case Srf(_, args) => AccessesEach(args)
    case Dot(x, _) => Accesses(x) + if x.Srf? then [x] else []
    case Bracket(x, _) => Accesses(x)
    case Unnest(x) => Accesses(x)
    case _ => []
  }

  function AccessesEach(es: seq<PExpr>): seq<PExpr>
    decreases es, 0
  {
    if es == [] then [] else Accesses(es[0]) + AccessesEach(es[1..])
  }

  function ItemAccesses(it: PItem): seq<PExpr> {
    if it.Star? then [] else Accesses(it.e)
  }

  function AccessesItems(items: seq<PItem>): seq<PExpr> {
    if items == [] then [] else AccessesItems(items[..|items| - 1]) + ItemAccesses(items[|items| - 1])
  }

  datatype Usage = Absent | Single(call: PExpr) | Several

  function UsageOf(accesses: seq<PExpr>): Usage {
    if accesses == [] then Absent
    else if exists i :: 0 <= i < |accesses| && accesses[i] != accesses[0] then Several
    else Single(accesses[0])
  }

  /** The classification loop: the first call found, and whether a different one followed. */
  method Classify(items: seq<PItem>) returns (usage: Usage)
    ensures usage == UsageOf(AccessesItems(items))
  {
    var found: Option<PExpr>, several := None, false;
    for n := 0 to |items|
      invariant found == if AccessesItems(items[..n]) == [] then None else Some(AccessesItems(items[..n])[0])
      invariant several <==> UsageOf(AccessesItems(items[..n])) == Several
    {
      assert items[..n + 1][..n] == items[..n];
      var calls := ItemAccesses(items[n]);
      ghost var before := AccessesItems(items[..n]);
      assert AccessesItems(items[..n + 1]) == before + calls && before + calls[..0] == before;
      for k := 0 to |calls|
        invariant found == if before + calls[..k] == [] then None else Some((before + calls[..k])[0])
        invariant several <==> UsageOf(before + calls[..k]) == Several
      {
        UsageSnoc(before + calls[..k], calls[k]);
        assert before + calls[..k + 1] == (before + calls[..k]) + [calls[k]];
        if found.None? {
          found := Some(calls[k]);
        } else if found.value != calls[k] {
          several := true;
        }
      }
      assert calls[..|calls|] == calls;
    }
    assert items[..|items|] == items;
    usage := if found.None? then Absent else if several then Several else Single(found.value);
  }

  lemma UsageSnoc(calls: seq<PExpr>, call: PExpr)
    ensures UsageOf(calls + [call])
         == if calls == [] then Single(call)
            else if UsageOf(calls) == Several || calls[0] != call then Several else Single(calls[0])
  {
    var all := calls + [call];
    assert all[|calls|] == call && forall i :: 0 <= i < |calls| ==> all[i] == calls[i];
  }

  /** The names of tables and of table functions, which the parser takes for tables. */
  function FromQualifiers(from: seq<FromItem>): set<string> {
    set i | 0 <= i < |from| && !from[i].factor.Derived? :: FactorName(from[i].factor)
  }

  /** Inside an expression only field accesses are redirected. */
  function Redirected(e: PExpr, call: PExpr): PExpr
    decreases e, 0
  {
    match e
    case Apply(fn, args) => Apply(fn, RedirectedEach(args, call))
    case Srf(fn, args) => Srf(fn, RedirectedEach(args, call))
    case Dot(x, f) =>
      var x1 := Redirected(x, call);
      if x1.Srf? && x1 == call then Bracket(Name(COLUMN), f) else Dot(x1, f)
    case Bracket(x, f) => Bracket(Redirected(x, call), f)
    case Unnest(x) => Unnest(Redirected(x, call))
    case _ => e
  }

  function RedirectedEach(es: seq<PExpr>, call: PExpr): (r: seq<PExpr>)
    ensures |r| == |es|
    decreases es, 0
  {
    if es == [] then [] else [Redirected(es[0], call)] + RedirectedEach(es[1..], call)
  }

  function Requalified(e: PExpr, quals: set<string>): PExpr
    decreases e, 0
  {
    match e
    case Column(q, c) => if q in quals then Column(SOURCE, c) else e
    case Apply(fn, args) => Apply(fn, RequalifiedEach(args, quals))
    case Srf(fn, args) => Srf(fn, RequalifiedEach(args, quals))
    case Dot(x, f) => Dot(Requalified(x, quals), f)
    case Bracket(x, f) => Bracket(Requalified(x, quals), f)
    case Unnest(x) => Unnest(Requalified(x, quals))
    case _ => e
  }

  function RequalifiedEach(es: seq<PExpr>, quals: set<string>): (r: seq<PExpr>)
    ensures |r| == |es|
    decreases es, 0
  {
    if es == [] then [] else [Requalified(es[0], quals)] + RequalifiedEach(es[1..], quals)
  }

  /** A whole item that is the call reads the column itself. */
  function RewrittenItem(it: PItem, call: PExpr, quals: set<string>): PItem {
    if it.Star? then it
    else Out(Requalified(if it.e.Srf? && it.e == call then Name(COLUMN) else Redirected(it.e, call), quals))
  }

  function RewrittenItems(items: seq<PItem>, call: PExpr, quals: set<string>): seq<PItem> {
    seq(|items|, i requires 0 <= i < |items| => RewrittenItem(items[i], call, quals))
  }

  /** Without field accesses a bare call is wrapped where it stands. */
  function WrappedItem(it: PItem): PItem {
    if it.Out? && it.e.Srf? then Out(Unnest(it.e)) else it
  }

  function WrappedItems(items: seq<PItem>): seq<PItem> {
    seq(|items|, i requires 0 <= i < |items| => WrappedItem(items[i]))
  }

  function RewriteListing(l: Listing): Listing {
    if !l.src.Written? then l
    else
      match UsageOf(AccessesItems(l.items))
      case Absent => l.(items := WrappedItems(l.items))
      case Several => l
      case Single(call) =>
        Listing(RewrittenItems(l.items, call, FromQualifiers(l.src.from)),
                Unnesting(l.src.from, l.src.selection, call), l.distinct)
  }
}

/** The rewritten projection under DataFusion gives the rows PostgreSQL gives for the written one. */
module UnnestedProjection {
  import opened Wrappers
  import opened SqlValues
  import opened SqlAst
  import opened SqlEval
  import opened SqlScope
  import opened ProjectionSrf

  /** Nothing inside expands. */
  predicate Still(e: PExpr)
    decreases e, 0
  {
    match e
    case Apply(_, args) => StillEach(args)
    case Srf(_, _) => false
    case Dot(x, _) => Still(x)
    case Bracket(x, _) => Still(x)
    case Unnest(_) => false
    case _ => true
  }

  predicate StillEach(es: seq<PExpr>)
    decreases es, 0
  {
    es == [] || (Still(es[0]) && StillEach(es[1..]))
  }

  /** A qualified column that still means what it did: one of a plain table of the FROM, or one of
      an enclosing query; `__srf_src` itself must then be bound where it was. */
  predicate Reachable(q: string, quals: set<string>, bound: set<string>) {
    q in quals || (q in bound <==> q == SOURCE)
  }

  /** The only set is the one call, read by its fields; other columns are reachable. */
  predicate Suits(e: PExpr, call: PExpr, quals: set<string>, bound: set<string>)
    decreases e, 0
  {
    match e
    case Const(_) => true
    case Name(_) => true
    case Column(q, _) => Reachable(q, quals, bound)
    case Apply(_, args) => SuitsEach(args, call, quals, bound)
    case Srf(_, _) => false
    case Dot(x, _) => x == call || Suits(x, call, quals, bound)
    case Bracket(x, _) => Suits(x, call, quals, bound)
    case Unnest(_) => false
  }

  predicate SuitsEach(es: seq<PExpr>, call: PExpr, quals: set<string>, bound: set<string>)
    decreases es, 0
  {
    es == [] || (Suits(es[0], call, quals, bound) && SuitsEach(es[1..], call, quals, bound))
  }

  predicate SuitsItem(it: PItem, call: PExpr, quals: set<string>, bound: set<string>) {
    it.Star? || it.e == call || Suits(it.e, call, quals, bound)
  }

  predicate SuitsItems(items: seq<PItem>, call: PExpr, quals: set<string>, bound: set<string>) {
    forall i :: 0 <= i < |items| ==> SuitsItem(items[i], call, quals, bound)
  }

  predicate Flat(call: PExpr) {
    call.Srf? && StillEach(call.args)
  }

  // --- expressions that do not expand --------------------------------------------------------

  lemma {:induction false} StillE(g: Engine, h: Engine, m: Functions, e: PExpr, row: Row, i: nat, j: nat)
    requires Still(e)
    ensures EvalP(g, m, e, row, i) == EvalP(h, m, e, row, j) && Spans(g, m, e, row) == Ok([])
    decreases e, 0
  {
    match e
    case Apply(_, args) => StillEs(g, h, m, args, row, i, j);
    case Dot(x, _) => StillE(g, h, m, x, row, i, j);
    case Bracket(x, _) => StillE(g, h, m, x, row, i, j);
    case _ =>
  }

  lemma {:induction false} StillEs(g: Engine, h: Engine, m: Functions, es: seq<PExpr>, row: Row, i: nat, j: nat)
    requires StillEach(es)
    ensures EvalPs(g, m, es, row, i) == EvalPs(h, m, es, row, j) && SpansEach(g, m, es, row) == Ok([])
    decreases es, 0
  {
    if es != [] {
      StillE(g, h, m, es[0], row, i, j);
      StillEs(g, h, m, es[1..], row, i, j);
      var none: seq<nat> := [];
      assert none + none == none && SpansEach(g, m, es, row) == Ok(none + none);
    }
  }

  lemma {:induction false} StillKept(e: PExpr, call: PExpr)
    requires Still(e)
    ensures Redirected(e, call) == e
    decreases e, 0
  {
    match e
    case Apply(_, args) => StillKeptEach(args, call);
    case Dot(x, _) => StillKept(x, call);
    case Bracket(x, _) => StillKept(x, call);
    case _ =>
  }

  lemma {:induction false} StillKeptEach(es: seq<PExpr>, call: PExpr)
    requires StillEach(es)
    ensures RedirectedEach(es, call) == es
    decreases es, 0
  {
    if es != [] {
      StillKept(es[0], call);
      StillKeptEach(es[1..], call);
      assert [es[0]] + es[1..] == es;
    }
  }

  /** The elements a call gives for a row. */
  function ListOf(m: Functions, call: PExpr, row: Row): Result<seq<Value>>
    requires call.Srf?
  {
    var vs :- EvalPs(DataFusion, m, call.args, row, 0);
    Ok(m.srf(call.fn, vs))
  }

  lemma CallExpands(m: Functions, call: PExpr, row: Row, i: nat)
    requires Flat(call)
    ensures var list := ListOf(m, call, row);
      && EvalP(Postgres, m, call, row, i) == (if list.Ok? then Ok(Nth(list.value, i)) else Error)
      && Spans(Postgres, m, call, row) == (if list.Ok? then Ok([|list.value|]) else Error)
      && EvalP(DataFusion, m, Unnest(call), row, i) == (if list.Ok? then Ok(Nth(list.value, i)) else Error)
      && Spans(DataFusion, m, Unnest(call), row) == (if list.Ok? then Ok([|list.value|]) else Error)
  {
    StillEs(Postgres, DataFusion, m, call.args, row, i, 0);
    StillEs(Postgres, DataFusion, m, call.args, row, 0, 0);
    StillEs(DataFusion, DataFusion, m, call.args, row, i, 0);
    StillEs(DataFusion, DataFusion, m, call.args, row, 0, 0);
  }

  // --- the derived table ---------------------------------------------------------------------

  /** A source row joined with one element. */
  function ElementRow(env: Env, cells: Rec, v: Value): Row {
    Row(cells + [Cell(COLUMN, v)], env[SOURCE := cells + [Cell(COLUMN, v)]])
  }

  function ElementRows(env: Env, cells: Rec, list: seq<Value>): seq<Row> {
    seq(|list|, i requires 0 <= i < |list| => ElementRow(env, cells, list[i]))
  }

  function ElementVals(cells: Rec, list: seq<Value>): seq<seq<Value>> {
    seq(|list|, i requires 0 <= i < |list| => Vals(cells) + [list[i]])
  }

  lemma StarAndOne(g: Engine, m: Functions, e: PExpr, row: Row, i: nat)
    ensures SpansItems(g, m, [Star, Out(e)], row) == Spans(g, m, e, row)
    ensures ItemsAt(g, m, [Star, Out(e)], row, i)
         == if EvalP(g, m, e, row, i).Ok? then Ok(Vals(row.cells) + [EvalP(g, m, e, row, i).value]) else Error
  {
    var items, last := [Star, Out(e)], [Out(e)];
    assert items[1..] == last && last[1..] == [];
    var spans, v := Spans(g, m, e, row), EvalP(g, m, e, row, i);
    if spans.Ok? {
      assert SpansItems(g, m, last, row) == Ok(spans.value + []) && spans.value + [] == spans.value;
      assert SpansItems(g, m, items, row) == Ok([] + spans.value) && [] + spans.value == spans.value;
    }
    if v.Ok? {
      assert [v.value] + [] == [v.value] && ItemsAt(g, m, last, row, i) == Ok([v.value]);
    }
  }

  lemma {:induction false} ElementSteps(m: Functions, call: PExpr, row: Row, list: seq<Value>, i: nat)
    requires Flat(call) && ListOf(m, call, row) == Ok(list) && i <= |list|
    ensures StepRows(DataFusion, m, [Star, Out(Unnest(call))], row, i, |list|) == Ok(ElementVals(row.cells, list[i..]))
    decreases |list| - i
  {
    if i < |list| {
      ElementSteps(m, call, row, list, i + 1);
      CallExpands(m, call, row, i);
      StarAndOne(DataFusion, m, Unnest(call), row, i);
      assert list[i..] == [list[i]] + list[i + 1..];
      assert ElementVals(row.cells, list[i..]) == [Vals(row.cells) + [list[i]]] + ElementVals(row.cells, list[i + 1..]);
    } else {
      assert ElementVals(row.cells, list[i..]) == [];
    }
  }

  /** The inner SELECT gives one row for each element of the row's list. */
  lemma ElementResults(m: Functions, call: PExpr, row: Row)
    requires Flat(call)
    ensures RowResults(DataFusion, m, [Star, Out(Unnest(call))], row)
         == if ListOf(m, call, row).Ok? then Ok(ElementVals(row.cells, ListOf(m, call, row).value)) else Error
  {
    CallExpands(m, call, row, 0);
    StarAndOne(DataFusion, m, Unnest(call), row, 0);
    var list := ListOf(m, call, row);
    if list.Ok? {
      OneSpan(|list.value|);
      ElementSteps(m, call, row, list.value, 0);
      assert list.value[0..] == list.value;
    }
  }

  lemma OneSpan(n: nat)
    ensures Steps([n]) == n
  {
    var ns: seq<nat> := [n];
    assert ns[1..] == [] && Longest(ns[1..]) == 0 && Longest(ns) == n;
  }

  lemma DerivedAreElements(env: Env, cells: Rec, list: seq<Value>)
    ensures DerivedRows(env, cells, ElementVals(cells, list)) == ElementRows(env, cells, list)
  {
    forall i | 0 <= i < |list| ensures Named(cells, Vals(cells) + [list[i]]) == cells + [Cell(COLUMN, list[i])] {
    }
  }

  // --- one expression ------------------------------------------------------------------------

  lemma {:induction false} FieldFirst(rec: Rec, more: Rec, c: string)
    ensures FieldOf(rec, c).Ok? ==> FieldOf(rec + more, c) == FieldOf(rec, c)
    ensures FieldOf(rec, c).Error? ==> FieldOf(rec + more, c) == FieldOf(more, c)
  {
    if rec == [] {
      assert rec + more == more;
    } else {
      FieldFirst(rec[1..], more, c);
      assert (rec + more)[1..] == rec[1..] + more;
    }
  }

  lemma {:induction false} UniqueStays(rec: Rec, v: Value, c: string)
    requires c != COLUMN
    ensures Unique(rec + [Cell(COLUMN, v)], c) == Unique(rec, c)
  {
    var last := [Cell(COLUMN, v)];
    if rec == [] {
      assert rec + last == last && last[1..] == [];
    } else {
      UniqueStays(rec[1..], v, c);
      assert (rec + last)[1..] == rec[1..] + last;
      FieldFirst(rec[1..], last, c);
      assert last[1..] == [] && FieldOf(last, c) == Error;
    }
  }

  /** A column name that is found at all is found as before. */
  lemma NameStays(cells: Rec, v: Value, c: string)
    requires Without(cells, COLUMN) && Unique(cells, c).Ok?
    ensures Unique(cells + [Cell(COLUMN, v)], c) == Unique(cells, c)
  {
    if c == COLUMN {
      NoUnique(cells, c);
    }
    UniqueStays(cells, v, c);
  }

  lemma {:induction false} NoUnique(rec: Rec, c: string)
    requires Without(rec, c)
    ensures Unique(rec, c) == Error
  {
    if rec != [] {
      NoUnique(rec[1..], c);
    }
  }

  predicate DistinctColumns(rec: Rec) {
    forall i, j :: 0 <= i < j < |rec| ==> rec[i].name != rec[j].name
  }

  predicate Without(rec: Rec, c: string) {
    forall i :: 0 <= i < |rec| ==> rec[i].name != c
  }

  lemma {:induction false} NoField(rec: Rec, c: string)
    requires Without(rec, c)
    ensures FieldOf(rec, c) == Error
  {
    if rec != [] {
      NoField(rec[1..], c);
    }
  }

  lemma {:induction false} ReadsElement(cells: Rec, v: Value)
    requires Without(cells, COLUMN)
    ensures Unique(cells + [Cell(COLUMN, v)], COLUMN) == Ok(v)
  {
    var last := [Cell(COLUMN, v)];
    if cells == [] {
      assert cells + last == last && last[1..] == [];
    } else {
      ReadsElement(cells[1..], v);
      assert (cells + last)[1..] == cells[1..] + last;
    }
  }

  /** A column of one FROM item is found under its own name in the row of the whole FROM. */
  lemma {:induction false} FieldOfFrame(f: Frame, k: nat, c: string)
    requires k < |f| && DistinctColumns(FrameCells(f)) && FieldOf(f[k].rec, c).Ok?
    ensures FieldOf(FrameCells(f), c) == FieldOf(f[k].rec, c)
  {
    var head, rest := f[0].rec, FrameCells(f[1..]);
    if k == 0 {
      FieldFirst(head, rest, c);
    } else {
      forall i, j | 0 <= i < j < |rest| ensures rest[i].name != rest[j].name {
        assert (head + rest)[|head| + i] == rest[i] && (head + rest)[|head| + j] == rest[j];
      }
      FieldOfFrame(f[1..], k - 1, c);
      var n := FoundAt(rest, c);
      forall i | 0 <= i < |head| ensures head[i].name != c {
        assert (head + rest)[i] == head[i] && (head + rest)[|head| + n] == rest[n];
      }
      NoField(head, c);
      FieldFirst(head, rest, c);
    }
  }

  lemma {:induction false} FoundAt(rec: Rec, c: string) returns (n: nat)
    requires FieldOf(rec, c).Ok?
    ensures n < |rec| && rec[n].name == c
  {
    if rec[0].name == c {
      n := 0;
    } else {
      n := FoundAt(rec[1..], c);
      n := n + 1;
    }
  }

  /** The record a name of the FROM is looked up in belongs to one of its items. */
  lemma {:induction false} FrameRecord(f: Frame, q: string) returns (k: nat)
    requires q in FrameEnv(f)
    ensures k < |f| && f[k].qual == q && f[k].rec == FrameEnv(f)[q]
    decreases |f|
  {
    var n := |f| - 1;
    if f[n].qual == q {
      k := n;
    } else {
      k := FrameRecord(f[..n], q);
    }
  }

  /** A source row as the rewritten SELECT needs it: distinct column names, none the new one's. */
  predicate PlainRow(row: Row) {
    DistinctColumns(row.cells) && Without(row.cells, COLUMN)
  }

  ghost predicate RowFits(row: Row, env: Env, f: Frame, quals: set<string>, bound: set<string>) {
    && row == RowOf(env, f) && PlainRow(row) && FrameEnv(f).Keys == bound && quals <= bound
  }

  lemma ColumnMoves(m: Functions, q: string, c: string, row: Row, env: Env, f: Frame, quals: set<string>, bound: set<string>,
                    v: Value, i: nat)
    requires RowFits(row, env, f, quals, bound) && Reachable(q, quals, bound)
    requires Look(row.env, q, c).Ok?
    ensures EvalP(DataFusion, m, Requalified(Column(q, c), quals), ElementRow(env, row.cells, v), i) == Look(row.env, q, c)
  {
    var cells := row.cells + [Cell(COLUMN, v)];
    if q in quals || q == SOURCE {
      var k := FrameRecord(f, q);
      FieldOfFrame(f, k, c);
      FieldFirst(row.cells, [Cell(COLUMN, v)], c);
    }
  }

  /** An item's expression reads, from the row of element `i`, what it had at step `i`. */
  lemma {:induction false} ExprMoves(m: Functions, e: PExpr, call: PExpr, row: Row, env: Env, f: Frame, quals: set<string>, bound: set<string>,
                                     list: seq<Value>, i: nat)
    requires RowFits(row, env, f, quals, bound) && Flat(call) && ListOf(m, call, row) == Ok(list) && i < |list|
    requires Suits(e, call, quals, bound) && EvalP(Postgres, m, e, row, i).Ok?
    ensures var e' := Requalified(Redirected(e, call), quals);
            var there := ElementRow(env, row.cells, list[i]);
      && EvalP(DataFusion, m, e', there, 0) == EvalP(Postgres, m, e, row, i) && Spans(DataFusion, m, e', there) == Ok([])
    ensures !Redirected(e, call).Srf?
    decreases e, 0
  {
    match e
    case Const(_) =>
    case Name(c) => NameStays(row.cells, list[i], c);
    case Column(q, c) => ColumnMoves(m, q, c, row, env, f, quals, bound, list[i], 0);
    case Apply(_, args) => ArgsMove(m, args, call, row, env, f, quals, bound, list, i);
    case Dot(x, _) =>
      if x == call {
        StillKeptEach(call.args, call);
        CallExpands(m, call, row, i);
        ReadsElement(row.cells, list[i]);
      } else {
        ExprMoves(m, x, call, row, env, f, quals, bound, list, i);
      }
    case Bracket(x, _) => ExprMoves(m, x, call, row, env, f, quals, bound, list, i);
  }

  lemma {:induction false} ArgsMove(m: Functions, es: seq<PExpr>, call: PExpr, row: Row, env: Env, f: Frame, quals: set<string>, bound: set<string>,
                                    list: seq<Value>, i: nat)
    requires RowFits(row, env, f, quals, bound) && Flat(call) && ListOf(m, call, row) == Ok(list) && i < |list|
    requires SuitsEach(es, call, quals, bound) && EvalPs(Postgres, m, es, row, i).Ok?
    ensures var es' := RequalifiedEach(RedirectedEach(es, call), quals);
            var there := ElementRow(env, row.cells, list[i]);
      && EvalPs(DataFusion, m, es', there, 0) == EvalPs(Postgres, m, es, row, i) && SpansEach(DataFusion, m, es', there) == Ok([])
    decreases es, 0
  {
    if es != [] {
      ExprMoves(m, es[0], call, row, env, f, quals, bound, list, i);
      ArgsMove(m, es[1..], call, row, env, f, quals, bound, list, i);
      var redirected := RedirectedEach(es, call);
      assert redirected[1..] == RedirectedEach(es[1..], call);
      var moved := RequalifiedEach(redirected, quals);
      assert moved[1..] == RequalifiedEach(redirected[1..], quals);
      var none: seq<nat> := [];
      assert none + none == none;
    }
  }

  // --- how many steps ------------------------------------------------------------------------

  predicate AllAre(ns: seq<nat>, n: nat) {
    forall i :: 0 <= i < |ns| ==> ns[i] == n
  }

  lemma {:induction false} LongestOfEqual(ns: seq<nat>, n: nat)
    requires AllAre(ns, n) && ns != []
    ensures Steps(ns) == n
  {
    if |ns| > 1 {
      LongestOfEqual(ns[1..], n);
    } else {
      assert ns[1..] == [] && Longest(ns[1..]) == 0 && ns[0] == n;
    }
  }

  /** Every set an expression expands is the one call's; it expands one when it reads a field. */
  lemma {:induction false} SpansAre(m: Functions, e: PExpr, call: PExpr, row: Row, quals: set<string>, bound: set<string>)
    requires Flat(call) && Suits(e, call, quals, bound) && Spans(Postgres, m, e, row).Ok?
    ensures var ns := Spans(Postgres, m, e, row).value;
      && (ns != [] <==> Accesses(e) != [])
      && (ns != [] ==> ListOf(m, call, row).Ok? && AllAre(ns, |ListOf(m, call, row).value|))
    decreases e, 0
  {
    match e
    case Apply(_, args) => SpansAreEach(m, args, call, row, quals, bound);
    case Dot(x, _) =>
      if x == call {
        CallExpands(m, call, row, 0);
      } else {
        SpansAre(m, x, call, row, quals, bound);
        assert !x.Srf?;
      }
    case Bracket(x, _) => SpansAre(m, x, call, row, quals, bound);
    case _ =>
  }

  lemma {:induction false} SpansAreEach(m: Functions, es: seq<PExpr>, call: PExpr, row: Row, quals: set<string>, bound: set<string>)
    requires Flat(call) && SuitsEach(es, call, quals, bound) && SpansEach(Postgres, m, es, row).Ok?
    ensures var ns := SpansEach(Postgres, m, es, row).value;
      && (ns != [] <==> AccessesEach(es) != [])
      && (ns != [] ==> ListOf(m, call, row).Ok? && AllAre(ns, |ListOf(m, call, row).value|))
    decreases es, 0
  {
    if es != [] {
      SpansAre(m, es[0], call, row, quals, bound);
      SpansAreEach(m, es[1..], call, row, quals, bound);
    }
  }

  lemma {:induction false} SpansAreItems(m: Functions, items: seq<PItem>, call: PExpr, row: Row, quals: set<string>, bound: set<string>)
    requires Flat(call) && SuitsItems(items, call, quals, bound) && SpansItems(Postgres, m, items, row).Ok?
    ensures var ns := SpansItems(Postgres, m, items, row).value;
      && (AccessesItems(items) != [] ==> ns != [])
      && (ns != [] ==> ListOf(m, call, row).Ok? && AllAre(ns, |ListOf(m, call, row).value|))
  {
    if items != [] {
      AccessesCons(items[0], items[1..]);
      assert items == [items[0]] + items[1..];
      SpansAreItems(m, items[1..], call, row, quals, bound);
      if items[0].Out? && items[0].e == call {
        CallExpands(m, call, row, 0);
      } else if items[0].Out? {
        SpansAre(m, items[0].e, call, row, quals, bound);
      }
    }
  }

  lemma AccessesSnoc(items: seq<PItem>, it: PItem)
    ensures AccessesItems(items + [it]) == AccessesItems(items) + ItemAccesses(it)
  {
    assert (items + [it])[..|items|] == items;
  }

  lemma {:induction false} AccessesAppend(a: seq<PItem>, b: seq<PItem>)
    ensures AccessesItems(a + b) == AccessesItems(a) + AccessesItems(b)
    decreases |b|
  {
    if b == [] {
      assert a + b == a;
    } else {
      var front, last := b[..|b| - 1], b[|b| - 1];
      assert a + b == (a + front) + [last] && b == front + [last];
      AccessesAppend(a, front);
      AccessesSnoc(a + front, last);
      AccessesSnoc(front, last);
    }
  }

  lemma AccessesCons(it: PItem, rest: seq<PItem>)
    ensures AccessesItems([it] + rest) == ItemAccesses(it) + AccessesItems(rest)
  {
    AccessesAppend([it], rest);
    AccessesSnoc([], it);
    assert [it] == [] + [it];
  }

  // --- rows ----------------------------------------------------------------------------------

  function Stars(items: seq<PItem>): nat {
    if items == [] then 0 else (if items[0].Star? then 1 else 0) + Stars(items[1..])
  }

  lemma {:induction false} NoStars(items: seq<PItem>)
    ensures Stars(items) == 0 <==> forall i :: 0 <= i < |items| ==> items[i].Out?
  {
    if items != [] {
      NoStars(items[1..]);
      assert items == [items[0]] + items[1..];
    }
  }

  /** A result row with `n` more columns than before; with none more it is the same row. */
  predicate Wider(before: seq<Value>, after: seq<Value>, n: nat) {
    |after| == |before| + n && (n == 0 ==> after == before)
  }

  predicate AllWider(before: seq<seq<Value>>, after: seq<seq<Value>>, n: nat) {
    |after| == |before| && forall i :: 0 <= i < |before| ==> Wider(before[i], after[i], n)
  }

  lemma WiderAppend(a: seq<seq<Value>>, a': seq<seq<Value>>, b: seq<seq<Value>>, b': seq<seq<Value>>, n: nat)
    requires AllWider(a, a', n) && AllWider(b, b', n)
    ensures AllWider(a + b, a' + b', n)
  {
    forall i | 0 <= i < |a + b| ensures Wider((a + b)[i], (a' + b')[i], n) {
      if i < |a| {
        assert Wider(a[i], a'[i], n);
      } else {
        assert Wider(b[i - |a|], b'[i - |a|], n);
      }
    }
  }

  lemma ItemMoves(m: Functions, it: PItem, call: PExpr, row: Row, env: Env, f: Frame, quals: set<string>, bound: set<string>,
                  list: seq<Value>, i: nat)
    requires RowFits(row, env, f, quals, bound) && Flat(call) && ListOf(m, call, row) == Ok(list) && i < |list|
    requires SuitsItem(it, call, quals, bound) && ItemAt(Postgres, m, it, row, i).Ok?
    ensures var there := ElementRow(env, row.cells, list[i]);
            var it' := RewrittenItem(it, call, quals);
      && it'.Star? == it.Star? && ItemAt(DataFusion, m, it', there, 0).Ok?
      && Wider(ItemAt(Postgres, m, it, row, i).value, ItemAt(DataFusion, m, it', there, 0).value, if it.Star? then 1 else 0)
      && (it.Out? ==> Spans(DataFusion, m, it'.e, there) == Ok([]))
  {
    if it.Out? && it.e == call {
      CallExpands(m, call, row, i);
      ReadsElement(row.cells, list[i]);
    } else if it.Out? {
      ExprMoves(m, it.e, call, row, env, f, quals, bound, list, i);
    }
  }

  lemma {:induction false} ItemsMove(m: Functions, items: seq<PItem>, call: PExpr, row: Row, env: Env, f: Frame, quals: set<string>, bound: set<string>,
                                     list: seq<Value>, i: nat)
    requires RowFits(row, env, f, quals, bound) && Flat(call) && ListOf(m, call, row) == Ok(list) && i < |list|
    requires SuitsItems(items, call, quals, bound) && ItemsAt(Postgres, m, items, row, i).Ok?
    ensures var there := ElementRow(env, row.cells, list[i]);
            var items' := RewrittenItems(items, call, quals);
      && ItemsAt(DataFusion, m, items', there, 0).Ok?
      && Wider(ItemsAt(Postgres, m, items, row, i).value, ItemsAt(DataFusion, m, items', there, 0).value, Stars(items))
      && SpansItems(DataFusion, m, items', there) == Ok([])
    decreases |items|
  {
    if items != [] {
      ItemMoves(m, items[0], call, row, env, f, quals, bound, list, i);
      ItemsMove(m, items[1..], call, row, env, f, quals, bound, list, i);
      assert RewrittenItems(items, call, quals)[1..] == RewrittenItems(items[1..], call, quals);
      var none: seq<nat> := [];
      assert none + none == none;
    }
  }

  /** A row without a set gives one result. */
  lemma OneStep(g: Engine, m: Functions, items: seq<PItem>, row: Row)
    requires SpansItems(g, m, items, row) == Ok([]) && ItemsAt(g, m, items, row, 0).Ok?
    ensures RowResults(g, m, items, row) == Ok([ItemsAt(g, m, items, row, 0).value])
  {
    assert StepRows(g, m, items, row, 1, 1) == Ok([]);
    var first := ItemsAt(g, m, items, row, 0).value;
    assert [first] + [] == [first] && StepRows(g, m, items, row, 0, 1) == Ok([first]);
    assert Steps([]) == 1;
  }

  /** Step by step, the set the call expands becomes the rows the elements were joined to. */
  lemma {:induction false} StepsMove(m: Functions, items: seq<PItem>, call: PExpr, row: Row, env: Env, f: Frame, quals: set<string>, bound: set<string>,
                                     list: seq<Value>, i: nat)
    requires RowFits(row, env, f, quals, bound) && Flat(call) && ListOf(m, call, row) == Ok(list) && i <= |list|
    requires SuitsItems(items, call, quals, bound) && StepRows(Postgres, m, items, row, i, |list|).Ok?
    ensures var after := Results(DataFusion, m, RewrittenItems(items, call, quals), ElementRows(env, row.cells, list[i..]));
      after.Ok? && AllWider(StepRows(Postgres, m, items, row, i, |list|).value, after.value, Stars(items))
    decreases |list| - i
  {
    var items' := RewrittenItems(items, call, quals);
    var rows := ElementRows(env, row.cells, list[i..]);
    if i < |list| {
      StepsMove(m, items, call, row, env, f, quals, bound, list, i + 1);
      ItemsMove(m, items, call, row, env, f, quals, bound, list, i);
      OneStep(DataFusion, m, items', rows[0]);
      assert rows == [rows[0]] + ElementRows(env, row.cells, list[i + 1..]);
      ResultsStep(DataFusion, m, items', rows[0], ElementRows(env, row.cells, list[i + 1..]));
      WiderAppend([ItemsAt(Postgres, m, items, row, i).value], [ItemsAt(DataFusion, m, items', rows[0], 0).value],
                  StepRows(Postgres, m, items, row, i + 1, |list|).value,
                  Results(DataFusion, m, items', ElementRows(env, row.cells, list[i + 1..])).value, Stars(items));
    } else {
      assert rows == [];
    }
  }

  /** One source row: as many results as its list has elements, none for an empty list. */
  lemma RowMoves(m: Functions, items: seq<PItem>, call: PExpr, row: Row, env: Env, f: Frame, quals: set<string>, bound: set<string>)
    requires RowFits(row, env, f, quals, bound) && Flat(call) && SuitsItems(items, call, quals, bound)
    requires AccessesItems(items) != [] && RowResults(Postgres, m, items, row).Ok?
    ensures ListOf(m, call, row).Ok? && |RowResults(Postgres, m, items, row).value| == |ListOf(m, call, row).value|
    ensures var after := Results(DataFusion, m, RewrittenItems(items, call, quals), ElementRows(env, row.cells, ListOf(m, call, row).value));
      after.Ok? && AllWider(RowResults(Postgres, m, items, row).value, after.value, Stars(items))
  {
    SpansAreItems(m, items, call, row, quals, bound);
    var list := ListOf(m, call, row).value;
    LongestOfEqual(SpansItems(Postgres, m, items, row).value, |list|);
    StepsMove(m, items, call, row, env, f, quals, bound, list, 0);
    assert list[0..] == list;
    StepsCount(Postgres, m, items, row, 0, |list|);
  }

  lemma {:induction false} StepsCount(g: Engine, m: Functions, items: seq<PItem>, row: Row, i: nat, n: nat)
    requires i <= n && StepRows(g, m, items, row, i, n).Ok?
    ensures |StepRows(g, m, items, row, i, n).value| == n - i
    decreases n - i
  {
    if i < n {
      StepsCount(g, m, items, row, i + 1, n);
    }
  }

  function Joined<T>(a: Result<seq<T>>, b: Result<seq<T>>): Result<seq<T>> {
    if a.Ok? && b.Ok? then Ok(a.value + b.value) else Error
  }

  lemma JoinedThrice<T>(a: Result<seq<T>>, b: Result<seq<T>>, c: Result<seq<T>>)
    ensures Joined(a, Joined(b, c)) == Joined(Joined(a, b), c)
  {
    if a.Ok? && b.Ok? && c.Ok? {
      assert a.value + (b.value + c.value) == (a.value + b.value) + c.value;
    }
  }

  lemma JoinedNone<T>(b: Result<seq<T>>)
    ensures Joined(Ok([]), b) == b
  {
    if b.Ok? {
      assert [] + b.value == b.value;
    }
  }

  lemma {:induction false} ResultsAppend(g: Engine, m: Functions, items: seq<PItem>, a: seq<Row>, b: seq<Row>)
    ensures Results(g, m, items, a + b) == Joined(Results(g, m, items, a), Results(g, m, items, b))
  {
    if a == [] {
      assert a + b == b;
      JoinedNone(Results(g, m, items, b));
    } else {
      ResultsAppend(g, m, items, a[1..], b);
      ResultsStep(g, m, items, a[0], a[1..]);
      ResultsStep(g, m, items, a[0], a[1..] + b);
      assert [a[0]] + a[1..] == a && [a[0]] + (a[1..] + b) == a + b;
      JoinedThrice(RowResults(g, m, items, a[0]), Results(g, m, items, a[1..]), Results(g, m, items, b));
    }
  }

  lemma ResultsStep(g: Engine, m: Functions, items: seq<PItem>, row: Row, rows: seq<Row>)
    ensures Results(g, m, items, [row] + rows) == Joined(RowResults(g, m, items, row), Results(g, m, items, rows))
  {
    assert ([row] + rows)[1..] == rows;
  }

  /** The frames of a FROM, each with distinct column names and none of them the new one. */
  ghost predicate FramesFit(env: Env, frames: seq<Frame>, quals: set<string>, bound: set<string>) {
    forall i :: 0 <= i < |frames| ==> RowFits(RowOf(env, frames[i]), env, frames[i], quals, bound)
  }

  lemma {:induction false} RowsMove(m: Functions, items: seq<PItem>, call: PExpr, env: Env, frames: seq<Frame>, quals: set<string>, bound: set<string>)
    requires FramesFit(env, frames, quals, bound) && Flat(call) && SuitsItems(items, call, quals, bound)
    requires AccessesItems(items) != [] && Results(Postgres, m, items, RowsOfFrames(env, frames)).Ok?
    ensures var inner := Unnested(DataFusion, m, call, env, RowsOfFrames(env, frames));
      && inner.Ok? && Results(DataFusion, m, RewrittenItems(items, call, quals), inner.value).Ok?
      && AllWider(Results(Postgres, m, items, RowsOfFrames(env, frames)).value,
                  Results(DataFusion, m, RewrittenItems(items, call, quals), inner.value).value, Stars(items))
    decreases |frames|
  {
    var rows := RowsOfFrames(env, frames);
    if frames != [] {
      assert rows[1..] == RowsOfFrames(env, frames[1..]);
      RowsMove(m, items, call, env, frames[1..], quals, bound);
      RowMoves(m, items, call, rows[0], env, frames[0], quals, bound);
      ElementResults(m, call, rows[0]);
      var list := ListOf(m, call, rows[0]).value;
      DerivedAreElements(env, rows[0].cells, list);
      var items', here, rest := RewrittenItems(items, call, quals), ElementRows(env, rows[0].cells, list), Unnested(DataFusion, m, call, env, rows[1..]).value;
      ResultsAppend(DataFusion, m, items', here, rest);
      WiderAppend(RowResults(Postgres, m, items, rows[0]).value, Results(DataFusion, m, items', here).value,
                  Results(Postgres, m, items, rows[1..]).value, Results(DataFusion, m, items', rest).value, Stars(items));
    }
  }

  // --- the whole SELECT ----------------------------------------------------------------------

  /** What a SELECT with one distinct call must be like; the column names are those of its rows. */
  ghost predicate Unnestable(w: World, l: Listing, env: Env) {
    var quals := FromQualifiers(l.src.from);
    match UsageOf(AccessesItems(l.items))
    case Single(call) =>
      && Flat(call) && SuitsItems(l.items, call, quals, Names(l.src.from))
      && (Frames(w, l.src, env).Ok? ==>
            forall f :: f in Frames(w, l.src, env).value ==> PlainRow(RowOf(env, f)))
    case _ => false
  }

  lemma FramesBind(w: World, src: From, env: Env)
    requires Frames(w, src, env).Ok?
    ensures forall i :: 0 <= i < |Frames(w, src, env).value| ==> Binds(Frames(w, src, env).value[i], src.from)
  {
    FromBinds(w, src.from, env);
    if src.selection.Some? {
      FilterBinds(w, src.selection.value, src.from, EvalFrom(w, src.from, env).value, env);
    }
  }

  lemma QualifiersAreNames(from: seq<FromItem>)
    ensures FromQualifiers(from) <= Names(from)
  {
    forall q | q in FromQualifiers(from) ensures q in Names(from) {
      var i :| 0 <= i < |from| && !from[i].factor.Derived? && FactorName(from[i].factor) == q;
    }
  }

  /** Distinct or not, rows that are all wider are other rows, if there are any. */
  lemma WiderDiffers(before: seq<seq<Value>>, after: seq<seq<Value>>, n: nat, distinct: bool)
    requires AllWider(before, after, n)
    ensures (if distinct then Distinct(after) == Distinct(before) else after == before) <==> n == 0 || before == []
  {
    if n == 0 || before == [] {
      assert after == before;
    } else {
      var k := Widest(before);
      DistinctKeeps(before);
      DistinctKeeps(after);
      assert after[k] in after && after[k] !in before;
    }
  }

  lemma {:induction false} Widest(rows: seq<seq<Value>>) returns (k: nat)
    requires rows != []
    ensures k < |rows| && forall i :: 0 <= i < |rows| ==> |rows[i]| <= |rows[k]|
  {
    k := 0;
    for n := 1 to |rows|
      invariant k < n && forall i :: 0 <= i < n ==> |rows[i]| <= |rows[k]|
    {
      if |rows[n]| > |rows[k]| {
        k := n;
      }
    }
  }

  /** Main theorem: the derived table and the redirected projection give the rows of the written
      SELECT, one for each source row and element, exactly when no item is a wildcard or there is
      no row at all; with DISTINCT too. */
  lemma UnnestingExactly(m: Functions, w: World, l: Listing, env: Env)
    requires l.src.Written? && Unnestable(w, l, env) && EvalListing(Postgres, m, w, l, env).Ok?
    ensures EvalListing(DataFusion, m, w, RewriteListing(l), env).Ok?
    ensures EvalListing(DataFusion, m, w, RewriteListing(l), env) == EvalListing(Postgres, m, w, l, env)
       <==> (forall i :: 0 <= i < |l.items| ==> l.items[i].Out?) || EvalListing(Postgres, m, w, l, env).value == []
  {
    var call := UsageOf(AccessesItems(l.items)).call;
    var quals, bound := FromQualifiers(l.src.from), Names(l.src.from);
    var frames := Frames(w, l.src, env).value;
    FramesBind(w, l.src, env);
    QualifiersAreNames(l.src.from);
    forall i | 0 <= i < |frames| ensures RowFits(RowOf(env, frames[i]), env, frames[i], quals, bound) {
      FrameKeys(frames[i], l.src.from);
      assert frames[i] in frames;
    }
    RowsMove(m, l.items, call, env, frames, quals, bound);
    RewrittenSource(m, w, l, env);
    var inner := Unnested(DataFusion, m, call, env, RowsOfFrames(env, frames)).value;
    var before := Results(Postgres, m, l.items, RowsOfFrames(env, frames)).value;
    var after := Results(DataFusion, m, RewrittenItems(l.items, call, quals), inner).value;
    WiderDiffers(before, after, Stars(l.items), l.distinct);
    DistinctKeeps(before);
    NoStars(l.items);
  }

  lemma RewrittenSource(m: Functions, w: World, l: Listing, env: Env)
    requires l.src.Written? && UsageOf(AccessesItems(l.items)).Single? && Frames(w, l.src, env).Ok?
    ensures var call := UsageOf(AccessesItems(l.items)).call;
            SourceRows(DataFusion, m, w, RewriteListing(l).src, env)
            == Unnested(DataFusion, m, call, env, RowsOfFrames(env, Frames(w, l.src, env).value))
  {
    var src := RewriteListing(l).src;
    assert Frames(w, src, env) == Frames(w, l.src, env);
  }
}

/** Calls that are whole items, wrapped where they stand. */
module WrappedProjection {
  import opened Wrappers
  import opened SqlValues
  import opened SqlAst
  import opened SqlEval
  import opened ProjectionSrf
  import opened UnnestedProjection

  predicate WholeOrStill(it: PItem) {
    it.Star? || Flat(it.e) || Still(it.e)
  }

  predicate WholeCalls(items: seq<PItem>) {
    forall i :: 0 <= i < |items| ==> WholeOrStill(items[i])
  }

  lemma WrappedAlike(m: Functions, it: PItem, row: Row, i: nat)
    requires WholeOrStill(it)
    ensures ItemAt(DataFusion, m, WrappedItem(it), row, i) == ItemAt(Postgres, m, it, row, i)
    ensures it.Out? ==> WrappedItem(it).Out? && Spans(DataFusion, m, WrappedItem(it).e, row) == Spans(Postgres, m, it.e, row)
  {
    if it.Out? {
      if Flat(it.e) {
        CallExpands(m, it.e, row, i);
      } else {
        assert !it.e.Srf?;
        StillE(DataFusion, Postgres, m, it.e, row, i, i);
        StillE(Postgres, Postgres, m, it.e, row, i, i);
      }
    }
  }

  lemma {:induction false} WrappedItemsAlike(m: Functions, items: seq<PItem>, row: Row, i: nat)
    requires WholeCalls(items)
    ensures ItemsAt(DataFusion, m, WrappedItems(items), row, i) == ItemsAt(Postgres, m, items, row, i)
    ensures SpansItems(DataFusion, m, WrappedItems(items), row) == SpansItems(Postgres, m, items, row)
    decreases |items|
  {
    if items != [] {
      WrappedAlike(m, items[0], row, i);
      WrappedItemsAlike(m, items[1..], row, i);
      assert WrappedItems(items)[1..] == WrappedItems(items[1..]);
    }
  }

  lemma {:induction false} WrappedSteps(m: Functions, items: seq<PItem>, row: Row, i: nat, n: nat)
    requires WholeCalls(items)
    ensures StepRows(DataFusion, m, WrappedItems(items), row, i, n) == StepRows(Postgres, m, items, row, i, n)
    decreases n - i
  {
    if i < n {
      WrappedItemsAlike(m, items, row, i);
      WrappedSteps(m, items, row, i + 1, n);
    }
  }

  lemma {:induction false} WrappedResults(m: Functions, items: seq<PItem>, rows: seq<Row>)
    requires WholeCalls(items)
    ensures Results(DataFusion, m, WrappedItems(items), rows) == Results(Postgres, m, items, rows)
    decreases |rows|
  {
    if rows != [] {
      WrappedItemsAlike(m, items, rows[0], 0);
      var spans := SpansItems(Postgres, m, items, rows[0]);
      if spans.Ok? {
        WrappedSteps(m, items, rows[0], 0, Steps(spans.value));
      }
      WrappedResults(m, items, rows[1..]);
    }
  }

  /** Several whole calls advance together under both engines: the in-place form keeps the rows,
      the NULLs that pad the shorter sets included. */
  lemma WrappingKeepsRows(m: Functions, w: World, l: Listing, env: Env)
    requires l.src.Written? && UsageOf(AccessesItems(l.items)) == Absent && WholeCalls(l.items)
    ensures EvalListing(DataFusion, m, w, RewriteListing(l), env) == EvalListing(Postgres, m, w, l, env)
  {
    var rows := SourceRows(Postgres, m, w, l.src, env);
    if rows.Ok? {
      WrappedResults(m, l.items, rows.value);
    }
  }
}
