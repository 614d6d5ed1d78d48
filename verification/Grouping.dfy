/** What an aggregating SELECT makes of its rows depends only on their grouping keys and on the
    values its aggregates are handed. */
module Grouping {
  import opened Wrappers
  import opened SqlValues
  import opened SqlAst
  import opened SqlEval
  import opened SqlVisit
  import opened SqlScope
  import opened Flats
  import opened Bags

  // --- the aggregates of an expression -------------------------------------------------------

  /** The arguments of the aggregates of its own SELECT. */
  function AggsE(e: Expr): seq<Expr> {
    match e
    case Cmp(_, l, r) => AggsE(l) + AggsE(r)
    case And(l, r) => AggsE(l) + AggsE(r)
    case Or(l, r) => AggsE(l) + AggsE(r)
    case Not(x) => AggsE(x)
    case Nested(x) => AggsE(x)
    case Case(c, t, f) => AggsE(c) + AggsE(t) + AggsE(f)
    case Call(_, args) => AggsEs(args)
    case Agg(_, arg) => [arg]
    case Tuple(es) => AggsEs(es)
    case InQuery(x, _, _) => AggsE(x)
    case AnyOf(x, a) => AggsE(x) + AggsE(a)
    case Index(a, i) => AggsE(a) + AggsE(i)
    case _ => []
  }

  function AggsEs(es: seq<Expr>): seq<Expr> {
    if es == [] then [] else AggsE(es[0]) + AggsEs(es[1..])
  }

  function AggsItems(items: seq<Item>): seq<Expr> {
    if items == [] then [] else (if items[0].Item? then AggsE(items[0].e) else []) + AggsItems(items[1..])
  }

  function AggsOpt(o: Option<Expr>): seq<Expr> {
    if o.Some? then AggsE(o.value) else []
  }

  /** Only `max` and `min`, which do not count. */
  predicate Extremes(e: Expr) {
    match e
    case Cmp(_, l, r) => Extremes(l) && Extremes(r)
    case And(l, r) => Extremes(l) && Extremes(r)
    case Or(l, r) => Extremes(l) && Extremes(r)
    case Not(x) => Extremes(x)
    case Nested(x) => Extremes(x)
    case Case(c, t, f) => Extremes(c) && Extremes(t) && Extremes(f)
    case Call(_, args) => AllExtremes(args)
    case CountStar => false
    case Agg(fn, _) => fn == Max || fn == Min
    case Tuple(es) => AllExtremes(es)
    case InQuery(x, _, _) => Extremes(x)
    case AnyOf(x, a) => Extremes(x) && Extremes(a)
    case Index(a, i) => Extremes(a) && Extremes(i)
    case _ => true
  }

  predicate AllExtremes(es: seq<Expr>) {
    es == [] || (Extremes(es[0]) && AllExtremes(es[1..]))
  }

  /** Neither aggregates nor refers to one of these names. */
  predicate Apart(e: Expr, names: set<string>) {
    !HasAgg(e) && Without(FreeE(e), names) == FreeE(e)
  }

  /** What PostgreSQL asks of an expression over groups: outside the aggregates it reads the group's
      own columns only through the grouping expressions. */
  predicate Steady(e: Expr, keys: seq<Expr>, names: set<string>) {
    e in keys || Apart(e, names) ||
    match e
    case Cmp(_, l, r) => Steady(l, keys, names) && Steady(r, keys, names)
    case And(l, r) => Steady(l, keys, names) && Steady(r, keys, names)
    case Or(l, r) => Steady(l, keys, names) && Steady(r, keys, names)
    case Not(x) => Steady(x, keys, names)
    case Nested(x) => Steady(x, keys, names)
    case Case(c, t, f) => Steady(c, keys, names) && Steady(t, keys, names) && Steady(f, keys, names)
    case Call(_, args) => SteadyEach(args, keys, names)
    case CountStar => true
    case Agg(_, _) => true
    case Tuple(es) => SteadyEach(es, keys, names)
    case InQuery(x, q, _) => Steady(x, keys, names) && Without(FreeB(q.body), names) == FreeB(q.body)
    case AnyOf(x, a) => Steady(x, keys, names) && Steady(a, keys, names)
    case Index(a, i) => Steady(a, keys, names) && Steady(i, keys, names)
    case _ => false
  }

  predicate SteadyEach(es: seq<Expr>, keys: seq<Expr>, names: set<string>) {
    es == [] || (Steady(es[0], keys, names) && SteadyEach(es[1..], keys, names))
  }

  // --- two groups that evaluate alike --------------------------------------------------------

  /** Two SELECTs with the same grouping, over FROM clauses that bind no more than these names. */
  datatype Pair = Pair(b: Body, c: Body, keys: seq<Expr>, args: seq<Expr>, names: set<string>, env: Env)

  ghost predicate AllBound(g: seq<Frame>, from: seq<FromItem>) {
    forall i :: 0 <= i < |g| ==> Binds(g[i], from)
  }

  predicate Paired(k: Pair) {
    && k.b.Select? && k.c.Select? && Names(k.b.from) <= k.names && Names(k.c.from) <= k.names
    && forall e :: e in k.keys ==> !HasAgg(e)
  }

  ghost predicate SameValues(exact: bool, xs: Result<seq<Value>>, ys: Result<seq<Value>>) {
    xs.Ok? && ys.Ok? && Same(exact, xs.value, ys.value)
  }

  /** The groups have one key, and hand each aggregate the same values. */
  ghost predicate GroupsMatch(w: World, k: Pair, exact: bool, g: seq<Frame>, h: seq<Frame>)
    requires Paired(k)
  {
    && AllBound(g, k.b.from) && AllBound(h, k.c.from)
    && (k.keys != [] ==>
          && g != [] && h != [] && EvalEs(w, k.keys, Scope(Push(k.env, g[0]), None)).Ok?
          && EvalEs(w, k.keys, Scope(Push(k.env, h[0]), None)) == EvalEs(w, k.keys, Scope(Push(k.env, g[0]), None)))
    && (forall a :: a in k.args ==> SameValues(exact, EvalOver(w, a, Envs(k.env, g)), EvalOver(w, a, Envs(k.env, h))))
    && (exact ==> |g| == |h|)
  }

  function Here(k: Pair, g: seq<Frame>): Scope
    requires Paired(k)
  {
    GroupScope(k.b.from, k.env, g)
  }

  function There(k: Pair, h: seq<Frame>): Scope
    requires Paired(k)
  {
    GroupScope(k.c.from, k.env, h)
  }

  lemma {:induction false} ListedValue(w: World, es: seq<Expr>, s: Scope, e: Expr) returns (n: nat)
    requires e in es && EvalEs(w, es, s).Ok?
    ensures |EvalEs(w, es, s).value| == |es| && n < |es| && EvalE(w, e, s) == Ok(EvalEs(w, es, s).value[n]) && es[n] == e
  {
    EvalEsLength(w, es, s);
    if es[0] == e {
      n := 0;
    } else {
      assert e in es[1..] by {
        assert es == [es[0]] + es[1..];
      }
      n := ListedValue(w, es[1..], s, e);
      n := n + 1;
    }
  }

  lemma {:induction false} SameListed(w: World, es: seq<Expr>, s: Scope, t: Scope, e: Expr)
    requires e in es && EvalEs(w, es, s).Ok? && EvalEs(w, es, t) == EvalEs(w, es, s)
    ensures EvalE(w, e, s).Ok? && EvalE(w, e, t) == EvalE(w, e, s)
    decreases |es|
  {
    if es[0] != e {
      assert e in es[1..] by {
        assert es == [es[0]] + es[1..];
      }
      assert EvalEs(w, es, s).value[1..] == EvalEs(w, es[1..], s).value;
      assert EvalEs(w, es, t).value[1..] == EvalEs(w, es[1..], t).value;
      SameListed(w, es[1..], s, t, e);
    } else {
      assert EvalEs(w, es, s).value[0] == EvalEs(w, es, t).value[0];
    }
  }

  lemma KeyValue(w: World, k: Pair, exact: bool, g: seq<Frame>, h: seq<Frame>, e: Expr)
    requires Paired(k) && GroupsMatch(w, k, exact, g, h) && e in k.keys
    ensures EvalE(w, e, There(k, h)) == EvalE(w, e, Here(k, g))
    ensures EvalCond(w, e, There(k, h)) == EvalCond(w, e, Here(k, g))
  {
    var s, t := Scope(Push(k.env, g[0]), None), Scope(Push(k.env, h[0]), None);
    SameListed(w, k.keys, s, t, e);
    GroupUnused(w, e, Here(k, g));
    GroupUnused(w, e, There(k, h));
    CondOfValue(w, e, s);
    CondOfValue(w, e, t);
  }

  lemma GroupFrameBinds(from: seq<FromItem>, g: seq<Frame>)
    requires AllBound(g, from)
    ensures Binds(GroupFrame(from, g), from)
  {
  }

  lemma OutsideGroup(refs: set<Ref>, names: set<string>, from: seq<FromItem>, env: Env, g: seq<Frame>)
    requires AllBound(g, from) && Names(from) <= names && Without(refs, names) == refs
    ensures SameView(map[], refs, env, Push(env, GroupFrame(from, g)))
  {
    GroupFrameBinds(from, g);
    assert Without(refs, Names(from)) == refs by {
      forall r | r in refs ensures r.qual !in Names(from) {
        assert r in Without(refs, names);
      }
    }
    OutsideFrame(refs, env, GroupFrame(from, g), from);
  }

  lemma ApartValue(w: World, names: set<string>, from: seq<FromItem>, env: Env, g: seq<Frame>, e: Expr)
    requires AllBound(g, from) && Names(from) <= names && Apart(e, names)
    ensures EvalE(w, e, GroupScope(from, env, g)) == EvalE(w, e, Scope(env, None))
    ensures EvalCond(w, e, GroupScope(from, env, g)) == EvalCond(w, e, Scope(env, None))
  {
    OutsideGroup(FreeE(e), names, from, env, g);
    GroupUnused(w, e, GroupScope(from, env, g));
    Coincide(w, w, e, Scope(env, None), Scope(Push(env, GroupFrame(from, g)), None));
  }

  lemma ApartRows(w: World, names: set<string>, from: seq<FromItem>, env: Env, g: seq<Frame>, q: Query)
    requires AllBound(g, from) && Names(from) <= names && Without(FreeB(q.body), names) == FreeB(q.body)
    ensures EvalQ(w, q, GroupScope(from, env, g).env) == EvalQ(w, q, env)
  {
    OutsideGroup(FreeB(q.body), names, from, env, g);
    CoincideQ(w, w, q, env, Push(env, GroupFrame(from, g)));
  }

  /** Matching groups give a steady expression one value. */
  lemma {:induction false} SteadyValue(w: World, k: Pair, exact: bool, g: seq<Frame>, h: seq<Frame>, e: Expr)
    requires Paired(k) && GroupsMatch(w, k, exact, g, h) && Steady(e, k.keys, k.names)
    requires (forall a :: a in AggsE(e) ==> a in k.args) && (exact || Extremes(e))
    ensures EvalE(w, e, There(k, h)) == EvalE(w, e, Here(k, g))
    ensures EvalCond(w, e, There(k, h)) == EvalCond(w, e, Here(k, g))
    decreases e, 2
  {
    if e in k.keys {
      KeyValue(w, k, exact, g, h, e);
    } else if Apart(e, k.names) {
      ApartValue(w, k.names, k.b.from, k.env, g, e);
      ApartValue(w, k.names, k.c.from, k.env, h, e);
    } else if e.And? || e.Or? {
      SteadyJunction(w, k, exact, g, h, e);
    } else if e.Nested? || e.Case? {
      SteadyBranch(w, k, exact, g, h, e);
    } else {
      if e.Agg? || e.CountStar? || e.InQuery? {
        SteadyAggregate(w, k, exact, g, h, e);
      } else if e.AnyOf? || e.Index? {
        SteadyArray(w, k, exact, g, h, e);
      } else {
        SteadyOperator(w, k, exact, g, h, e);
      }
      PlainCond(w, e, Here(k, g));
      PlainCond(w, e, There(k, h));
    }
  }

  lemma {:induction false} SteadyJunction(w: World, k: Pair, exact: bool, g: seq<Frame>, h: seq<Frame>, e: Expr)
    requires Paired(k) && GroupsMatch(w, k, exact, g, h) && Steady(e, k.keys, k.names) && e !in k.keys && !Apart(e, k.names)
    requires (forall a :: a in AggsE(e) ==> a in k.args) && (exact || Extremes(e)) && (e.And? || e.Or?)
    ensures EvalE(w, e, There(k, h)) == EvalE(w, e, Here(k, g))
    ensures EvalCond(w, e, There(k, h)) == EvalCond(w, e, Here(k, g))
    decreases e, 1
  {
    SteadyValue(w, k, exact, g, h, e.left);
    SteadyValue(w, k, exact, g, h, e.right);
  }

  lemma {:induction false} SteadyBranch(w: World, k: Pair, exact: bool, g: seq<Frame>, h: seq<Frame>, e: Expr)
    requires Paired(k) && GroupsMatch(w, k, exact, g, h) && Steady(e, k.keys, k.names) && e !in k.keys && !Apart(e, k.names)
    requires (forall a :: a in AggsE(e) ==> a in k.args) && (exact || Extremes(e)) && (e.Nested? || e.Case?)
    ensures EvalE(w, e, There(k, h)) == EvalE(w, e, Here(k, g))
    ensures EvalCond(w, e, There(k, h)) == EvalCond(w, e, Here(k, g))
    decreases e, 1
  {
    match e
    case Nested(x) => SteadyValue(w, k, exact, g, h, x);
    case Case(c, t, f) =>
      SteadyValue(w, k, exact, g, h, c);
      SteadyValue(w, k, exact, g, h, t);
      SteadyValue(w, k, exact, g, h, f);
  }

  lemma {:induction false} SteadyAggregate(w: World, k: Pair, exact: bool, g: seq<Frame>, h: seq<Frame>, e: Expr)
    requires Paired(k) && GroupsMatch(w, k, exact, g, h) && Steady(e, k.keys, k.names) && e !in k.keys && !Apart(e, k.names)
    requires (forall a :: a in AggsE(e) ==> a in k.args) && (exact || Extremes(e)) && (e.Agg? || e.CountStar? || e.InQuery?)
    ensures EvalE(w, e, There(k, h)) == EvalE(w, e, Here(k, g))
    decreases e, 1
  {
    match e
    case CountStar =>
    case Agg(fn, arg) =>
      assert arg in AggsE(e);
      var xs, ys := EvalOver(w, arg, Envs(k.env, g)), EvalOver(w, arg, Envs(k.env, h));
      AggregateAgrees(exact, fn, xs.value, ys.value);
    case InQuery(x, q, _) =>
      SteadyValue(w, k, exact, g, h, x);
      ApartRows(w, k.names, k.b.from, k.env, g, q);
      ApartRows(w, k.names, k.c.from, k.env, h, q);
  }

  lemma {:induction false} SteadyOperator(w: World, k: Pair, exact: bool, g: seq<Frame>, h: seq<Frame>, e: Expr)
    requires Paired(k) && GroupsMatch(w, k, exact, g, h) && Steady(e, k.keys, k.names) && e !in k.keys && !Apart(e, k.names)
    requires (forall a :: a in AggsE(e) ==> a in k.args) && (exact || Extremes(e))
    requires e.Cmp? || e.Not? || e.Call? || e.Tuple?
    ensures EvalE(w, e, There(k, h)) == EvalE(w, e, Here(k, g))
    decreases e, 1
  {
    match e
    case Cmp(_, l, r) => SteadyValue(w, k, exact, g, h, l); SteadyValue(w, k, exact, g, h, r);
    case Not(x) => SteadyValue(w, k, exact, g, h, x);
    case Call(_, args) => SteadyValues(w, k, exact, g, h, args);
    case Tuple(es) => SteadyValues(w, k, exact, g, h, es);
  }

  lemma {:induction false} SteadyArray(w: World, k: Pair, exact: bool, g: seq<Frame>, h: seq<Frame>, e: Expr)
    requires Paired(k) && GroupsMatch(w, k, exact, g, h) && Steady(e, k.keys, k.names) && e !in k.keys && !Apart(e, k.names)
    requires (forall a :: a in AggsE(e) ==> a in k.args) && (exact || Extremes(e)) && (e.AnyOf? || e.Index?)
    ensures EvalE(w, e, There(k, h)) == EvalE(w, e, Here(k, g))
    decreases e, 1
  {
    match e
    case AnyOf(x, a) => SteadyValue(w, k, exact, g, h, x); SteadyValue(w, k, exact, g, h, a);
    case Index(a, i) => SteadyValue(w, k, exact, g, h, a); SteadyValue(w, k, exact, g, h, i);
  }

  lemma {:induction false} SteadyValues(w: World, k: Pair, exact: bool, g: seq<Frame>, h: seq<Frame>, es: seq<Expr>)
    requires Paired(k) && GroupsMatch(w, k, exact, g, h) && SteadyEach(es, k.keys, k.names)
    requires (forall a :: a in AggsEs(es) ==> a in k.args) && (exact || AllExtremes(es))
    ensures EvalEs(w, es, There(k, h)) == EvalEs(w, es, Here(k, g))
    decreases es, 0
  {
    if es != [] {
      SteadyValue(w, k, exact, g, h, es[0]);
      SteadyValues(w, k, exact, g, h, es[1..]);
    }
  }

  // --- a whole group's row -------------------------------------------------------------------

  predicate SteadyItems(items: seq<Item>, keys: seq<Expr>, names: set<string>) {
    forall i :: 0 <= i < |items| ==> items[i].Item? && Steady(items[i].e, keys, names)
  }

  predicate ItemExtremes(items: seq<Item>) {
    forall i :: 0 <= i < |items| ==> items[i].Item? ==> Extremes(items[i].e)
  }

  lemma {:induction false} SteadyRow(w: World, k: Pair, exact: bool, g: seq<Frame>, h: seq<Frame>, items: seq<Item>)
    requires Paired(k) && GroupsMatch(w, k, exact, g, h) && SteadyItems(items, k.keys, k.names)
    requires (forall a :: a in AggsItems(items) ==> a in k.args) && (exact || ItemExtremes(items))
    ensures EvalItems(w, items, GroupFrame(k.c.from, h), There(k, h)) == EvalItems(w, items, GroupFrame(k.b.from, g), Here(k, g))
    decreases |items|
  {
    if items != [] {
      SteadyValue(w, k, exact, g, h, items[0].e);
      SteadyRow(w, k, exact, g, h, items[1..]);
    }
  }

  /** The clauses over groups of a SELECT are steady. */
  predicate SteadyBody(b: Body, names: set<string>)
    requires b.Select?
  {
    && SteadyItems(b.proj, b.groupBy, names)
    && (b.having.Some? ==> Steady(b.having.value, b.groupBy, names))
    && forall e :: e in b.groupBy ==> !HasAgg(e)
  }

  predicate BodyExtremes(b: Body)
    requires b.Select?
  {
    ItemExtremes(b.proj) && (b.having.Some? ==> Extremes(b.having.value))
  }

  /** The arguments of all aggregates of a SELECT. */
  function Arguments(b: Body): seq<Expr>
    requires b.Select?
  {
    AggsItems(b.proj) + AggsOpt(b.having)
  }

  lemma GroupAgrees(w: World, k: Pair, exact: bool, g: seq<Frame>, h: seq<Frame>)
    requires Paired(k) && GroupsMatch(w, k, exact, g, h) && k.keys == k.b.groupBy && k.args == Arguments(k.b)
    requires SteadyBody(k.b, k.names) && (exact || BodyExtremes(k.b))
    requires k.c.proj == k.b.proj && k.c.having == k.b.having
    ensures EvalGroup(w, k.c, h, k.env) == EvalGroup(w, k.b, g, k.env)
  {
    SteadyRow(w, k, exact, g, h, k.b.proj);
    if k.b.having.Some? {
      SteadyValue(w, k, exact, g, h, k.b.having.value);
    }
  }
}

/** From the plain rows of keys and arguments to the rows of the groups. */
module GroupTables {
  import opened Wrappers
  import opened SqlValues
  import opened SqlAst
  import opened SqlEval
  import opened SqlScope
  import opened LateralAggregate
  import opened Flats
  import opened Bags
  import opened Grouping

  type ValueRow = seq<Value>

  /** One column of some rows. */
  function At(m: nat): ValueRow -> seq<Value> {
    (r: ValueRow) => if m < |r| then [r[m]] else []
  }

  function Front(n: nat): ValueRow -> seq<ValueRow> {
    (r: ValueRow) => if n <= |r| then [r[..n]] else []
  }

  function Keyed(key: ValueRow): ValueRow -> seq<ValueRow> {
    (r: ValueRow) => if |key| <= |r| && r[..|key|] == key then [r] else []
  }

  lemma {:induction false} TableWidth(w: World, es: seq<Expr>, frames: seq<Frame>, env: Env)
    requires EvalKeys(w, es, frames, env).Ok?
    ensures |EvalKeys(w, es, frames, env).value| == |frames|
    ensures forall i :: 0 <= i < |frames| ==>
      |EvalKeys(w, es, frames, env).value[i]| == |es|
      && EvalEs(w, es, Scope(Push(env, frames[i]), None)) == Ok(EvalKeys(w, es, frames, env).value[i])
    decreases |frames|
  {
    if frames != [] {
      EvalEsLength(w, es, Scope(Push(env, frames[0]), None));
      TableWidth(w, es, frames[1..], env);
    }
  }

  lemma {:induction false} ListAppend(w: World, xs: seq<Expr>, ys: seq<Expr>, s: Scope)
    requires EvalEs(w, xs + ys, s).Ok?
    ensures EvalEs(w, xs, s).Ok? && EvalEs(w, ys, s).Ok?
    ensures EvalEs(w, xs + ys, s).value == EvalEs(w, xs, s).value + EvalEs(w, ys, s).value
  {
    if xs == [] {
      assert xs + ys == ys;
    } else {
      assert (xs + ys)[0] == xs[0] && (xs + ys)[1..] == xs[1..] + ys;
      ListAppend(w, xs[1..], ys, s);
    }
  }

  /** The keys are the first columns. */
  lemma {:induction false} KeysInFront(w: World, keys: seq<Expr>, args: seq<Expr>, frames: seq<Frame>, env: Env)
    requires EvalKeys(w, keys + args, frames, env).Ok?
    ensures EvalKeys(w, keys, frames, env) == Ok(Flat(Front(|keys|), EvalKeys(w, keys + args, frames, env).value))
    decreases |frames|
  {
    if frames != [] {
      KeysInFront(w, keys, args, frames[1..], env);
      var s := Scope(Push(env, frames[0]), None);
      ListAppend(w, keys, args, s);
      EvalEsLength(w, keys, s);
      var row := EvalEs(w, keys + args, s).value;
      assert row[..|keys|] == EvalEs(w, keys, s).value;
      TableStep(w, keys + args, frames, env);
      TableStep(w, keys, frames, env);
    }
  }

  lemma TableStep(w: World, es: seq<Expr>, frames: seq<Frame>, env: Env)
    requires frames != []
    ensures var row, rest := EvalEs(w, es, Scope(Push(env, frames[0]), None)), EvalKeys(w, es, frames[1..], env);
      EvalKeys(w, es, frames, env) == if row.Ok? && rest.Ok? then Ok([row.value] + rest.value) else Error
    ensures EvalKeys(w, es, frames, env).Ok? ==>
      forall f: ValueRow -> seq<Value> ::
        Flat(f, EvalKeys(w, es, frames, env).value)
        == f(EvalEs(w, es, Scope(Push(env, frames[0]), None)).value) + Flat(f, EvalKeys(w, es, frames[1..], env).value)
  {
  }

  /** An aggregate is handed one column. */
  lemma {:induction false} ColumnHanded(w: World, es: seq<Expr>, m: nat, frames: seq<Frame>, env: Env)
    requires m < |es| && EvalKeys(w, es, frames, env).Ok?
    ensures EvalOver(w, es[m], Envs(env, frames)) == Ok(Flat(At(m), EvalKeys(w, es, frames, env).value))
    decreases |frames|
  {
    if frames != [] {
      ColumnHanded(w, es, m, frames[1..], env);
      var s := Scope(Push(env, frames[0]), None);
      ListedAt(w, es, s, m);
      assert Envs(env, frames)[1..] == Envs(env, frames[1..]);
      TableStep(w, es, frames, env);
    }
  }

  lemma {:induction false} ListedAt(w: World, es: seq<Expr>, s: Scope, m: nat)
    requires m < |es| && EvalEs(w, es, s).Ok?
    ensures |EvalEs(w, es, s).value| == |es| && EvalE(w, es[m], s) == Ok(EvalEs(w, es, s).value[m])
  {
    EvalEsLength(w, es, s);
    if m > 0 {
      ListedAt(w, es[1..], s, m - 1);
    }
  }

  /** The rows of one group are those that start with its key. */
  lemma {:induction false} GroupTable(w: World, es: seq<Expr>, key: ValueRow, keys: seq<ValueRow>, frames: seq<Frame>, env: Env)
    requires EvalKeys(w, es, frames, env).Ok? && |key| <= |es| && keys == Flat(Front(|key|), EvalKeys(w, es, frames, env).value)
    ensures EvalKeys(w, es, WithKey(key, keys, frames), env) == Ok(Flat(Keyed(key), EvalKeys(w, es, frames, env).value))
    decreases |frames|
  {
    if frames != [] {
      var row := EvalEs(w, es, Scope(Push(env, frames[0]), None)).value;
      var rest := EvalKeys(w, es, frames[1..], env).value;
      EvalEsLength(w, es, Scope(Push(env, frames[0]), None));
      TableStep(w, es, frames, env);
      FrontStep(key, row, rest);
      GroupTable(w, es, key, Flat(Front(|key|), rest), frames[1..], env);
      var more := WithKey(key, Flat(Front(|key|), rest), frames[1..]);
      WithKeyStep(key, row[..|key|], Flat(Front(|key|), rest), frames);
      if row[..|key|] == key {
        assert ([frames[0]] + more)[1..] == more;
        TableStep(w, es, [frames[0]] + more, env);
      }
    }
  }

  lemma FrontStep(key: ValueRow, row: ValueRow, rest: seq<ValueRow>)
    requires |key| <= |row|
    ensures Flat(Front(|key|), [row] + rest) == [row[..|key|]] + Flat(Front(|key|), rest)
    ensures Flat(Keyed(key), [row] + rest)
         == if row[..|key|] == key then [row] + Flat(Keyed(key), rest) else Flat(Keyed(key), rest)
  {
    assert ([row] + rest)[1..] == rest && [] + Flat(Keyed(key), rest) == Flat(Keyed(key), rest);
  }

  lemma WithKeyStep(key: ValueRow, first: ValueRow, keys: seq<ValueRow>, frames: seq<Frame>)
    requires frames != []
    ensures WithKey(key, [first] + keys, frames)
         == if first == key then [frames[0]] + WithKey(key, keys, frames[1..]) else WithKey(key, keys, frames[1..])
  {
    assert ([first] + keys)[1..] == keys && [] + WithKey(key, keys, frames[1..]) == WithKey(key, keys, frames[1..]);
  }
}

/** Two aggregating SELECTs over rows that agree on keys and arguments. */
module GroupedSelect {
  import opened Wrappers
  import opened SqlValues
  import opened SqlAst
  import opened SqlEval
  import opened SqlVisit
  import opened SqlScope
  import opened LateralAggregate
  import opened Flats
  import opened Bags
  import opened Grouping
  import opened GroupTables

  /** Everything a SELECT reads of its rows once they are grouped. */
  function Listing(b: Body): seq<Expr>
    requires b.Select?
  {
    b.groupBy + Arguments(b)
  }

  /** The same for both SELECTs: clauses, and what they may refer to. */
  ghost predicate Twinned(k: Pair) {
    && Paired(k) && k.keys == k.b.groupBy && k.args == Arguments(k.b)
    && k.c == k.b.(from := k.c.from, selection := k.c.selection)
    && SteadyBody(k.b, k.names)
  }

  ghost predicate TablesMatch(w: World, k: Pair, exact: bool, g: seq<Frame>, h: seq<Frame>)
    requires Twinned(k)
  {
    && EvalKeys(w, Listing(k.b), g, k.env).Ok? && EvalKeys(w, Listing(k.b), h, k.env).Ok?
    && Same(exact, EvalKeys(w, Listing(k.b), g, k.env).value, EvalKeys(w, Listing(k.b), h, k.env).value)
    && AllBound(g, k.b.from) && AllBound(h, k.c.from)
  }

  lemma ColumnsMatch(w: World, k: Pair, exact: bool, g: seq<Frame>, h: seq<Frame>, a: Expr)
    requires Twinned(k) && TablesMatch(w, k, exact, g, h) && a in k.args
    ensures SameValues(exact, EvalOver(w, a, Envs(k.env, g)), EvalOver(w, a, Envs(k.env, h)))
  {
    var i :| 0 <= i < |k.args| && k.args[i] == a;
    var es, m := Listing(k.b), |k.keys| + i;
    assert es[m] == a;
    ColumnHanded(w, es, m, g, k.env);
    ColumnHanded(w, es, m, h, k.env);
    FlatSame(exact, At(m), EvalKeys(w, es, g, k.env).value, EvalKeys(w, es, h, k.env).value);
  }

  lemma TablesMakeGroups(w: World, k: Pair, exact: bool, g: seq<Frame>, h: seq<Frame>)
    requires Twinned(k) && TablesMatch(w, k, exact, g, h)
    requires k.keys != [] ==>
      && g != [] && h != [] && EvalEs(w, k.keys, Scope(Push(k.env, g[0]), None)).Ok?
      && EvalEs(w, k.keys, Scope(Push(k.env, h[0]), None)) == EvalEs(w, k.keys, Scope(Push(k.env, g[0]), None))
    ensures GroupsMatch(w, k, exact, g, h)
  {
    forall a | a in k.args ensures SameValues(exact, EvalOver(w, a, Envs(k.env, g)), EvalOver(w, a, Envs(k.env, h))) {
      ColumnsMatch(w, k, exact, g, h, a);
    }
    TableWidth(w, Listing(k.b), g, k.env);
    TableWidth(w, Listing(k.b), h, k.env);
    if exact {
      assert |multiset(EvalKeys(w, Listing(k.b), g, k.env).value)| == |multiset(EvalKeys(w, Listing(k.b), h, k.env).value)|;
    }
  }

  function KeysOfRows(w: World, b: Body, xs: seq<Frame>, env: Env): seq<ValueRow>
    requires b.Select? && EvalKeys(w, Listing(b), xs, env).Ok?
  {
    Flat(Front(|b.groupBy|), EvalKeys(w, Listing(b), xs, env).value)
  }

  lemma KeysAre(w: World, b: Body, xs: seq<Frame>, env: Env)
    requires b.Select? && EvalKeys(w, Listing(b), xs, env).Ok?
    ensures EvalKeys(w, b.groupBy, xs, env) == Ok(KeysOfRows(w, b, xs, env)) && |KeysOfRows(w, b, xs, env)| == |xs|
    ensures forall i :: 0 <= i < |xs| ==>
      |KeysOfRows(w, b, xs, env)[i]| == |b.groupBy|
      && EvalEs(w, b.groupBy, Scope(Push(env, xs[i]), None)) == Ok(KeysOfRows(w, b, xs, env)[i])
  {
    KeysInFront(w, b.groupBy, Arguments(b), xs, env);
    TableWidth(w, b.groupBy, xs, env);
  }

  function GroupAt(w: World, b: Body, key: ValueRow, xs: seq<Frame>, env: Env): seq<Frame>
    requires b.Select? && EvalKeys(w, Listing(b), xs, env).Ok?
  {
    WithKey(key, KeysOfRows(w, b, xs, env), xs)
  }

  /** A group: its rows, and their key. */
  lemma OneGroupOf(w: World, b: Body, key: ValueRow, xs: seq<Frame>, env: Env)
    requires b.Select? && EvalKeys(w, Listing(b), xs, env).Ok? && key in KeysOfRows(w, b, xs, env) && AllBound(xs, b.from)
    ensures var g := GroupAt(w, b, key, xs, env);
      && g != [] && AllBound(g, b.from) && |key| == |b.groupBy|
      && EvalEs(w, b.groupBy, Scope(Push(env, g[0]), None)) == Ok(key)
      && EvalKeys(w, Listing(b), g, env) == Ok(Flat(Keyed(key), EvalKeys(w, Listing(b), xs, env).value))
  {
    KeysAre(w, b, xs, env);
    var keys := KeysOfRows(w, b, xs, env);
    GroupExists(key, keys, xs);
    GroupHasKey(w, b.groupBy, key, keys, xs, env);
    GroupTable(w, Listing(b), key, keys, xs, env);
    WithKeyBinds(key, keys, xs, b.from);
  }

  lemma GroupMatches(w: World, k: Pair, exact: bool, xs: seq<Frame>, ys: seq<Frame>, key: ValueRow)
    requires Twinned(k) && TablesMatch(w, k, exact, xs, ys) && key in KeysOfRows(w, k.b, xs, k.env)
    ensures key in KeysOfRows(w, k.c, ys, k.env)
    ensures GroupsMatch(w, k, exact, GroupAt(w, k.b, key, xs, k.env), GroupAt(w, k.c, key, ys, k.env))
  {
    var t1, t2 := EvalKeys(w, Listing(k.b), xs, k.env).value, EvalKeys(w, Listing(k.b), ys, k.env).value;
    assert Listing(k.c) == Listing(k.b);
    FlatSame(exact, Front(|k.b.groupBy|), t1, t2);
    OneGroupOf(w, k.b, key, xs, k.env);
    OneGroupOf(w, k.c, key, ys, k.env);
    FlatSame(exact, Keyed(key), t1, t2);
    TablesMakeGroups(w, k, exact, GroupAt(w, k.b, key, xs, k.env), GroupAt(w, k.c, key, ys, k.env));
  }

  // --- all groups ----------------------------------------------------------------------------

  function GroupsAt(w: World, b: Body, ks: seq<ValueRow>, xs: seq<Frame>, env: Env): seq<seq<Frame>>
    requires b.Select? && EvalKeys(w, Listing(b), xs, env).Ok?
  {
    seq(|ks|, i requires 0 <= i < |ks| => GroupAt(w, b, ks[i], xs, env))
  }

  function RowsFor(w: World, b: Body, xs: seq<Frame>, env: Env): ValueRow -> seq<Rec>
    requires b.Select? && EvalKeys(w, Listing(b), xs, env).Ok?
  {
    (key: ValueRow) =>
      var rows := EvalGroup(w, b, GroupAt(w, b, key, xs, env), env);
      if rows.Ok? then rows.value else []
  }

  predicate AllOk(w: World, b: Body, ks: seq<ValueRow>, xs: seq<Frame>, env: Env)
    requires b.Select? && EvalKeys(w, Listing(b), xs, env).Ok?
  {
    forall key :: key in ks ==> EvalGroup(w, b, GroupAt(w, b, key, xs, env), env).Ok?
  }

  lemma {:induction false} OkStep(w: World, b: Body, ks: seq<ValueRow>, xs: seq<Frame>, env: Env)
    requires b.Select? && EvalKeys(w, Listing(b), xs, env).Ok? && ks != []
    ensures AllOk(w, b, ks, xs, env)
       <==> EvalGroup(w, b, GroupAt(w, b, ks[0], xs, env), env).Ok? && AllOk(w, b, ks[1..], xs, env)
  {
    assert ks == [ks[0]] + ks[1..];
  }

  lemma {:induction false} GroupsFlat(w: World, b: Body, ks: seq<ValueRow>, xs: seq<Frame>, env: Env)
    requires b.Select? && EvalKeys(w, Listing(b), xs, env).Ok?
    ensures EvalGroups(w, b, GroupsAt(w, b, ks, xs, env), env)
         == if AllOk(w, b, ks, xs, env) then Ok(Flat(RowsFor(w, b, xs, env), ks)) else Error
    decreases |ks|
  {
    var groups := GroupsAt(w, b, ks, xs, env);
    if ks != [] {
      assert ks == [ks[0]] + ks[1..];
      assert groups[1..] == GroupsAt(w, b, ks[1..], xs, env) && groups[0] == GroupAt(w, b, ks[0], xs, env);
      GroupsFlat(w, b, ks[1..], xs, env);
      OkStep(w, b, ks, xs, env);
      GroupsStep(w, b, groups, env);
    } else {
      assert groups == [];
    }
  }

  lemma {:induction false} FlatAlike<T(!new), U>(f: T -> seq<U>, g: T -> seq<U>, xs: seq<T>)
    requires forall x :: x in xs ==> f(x) == g(x)
    ensures Flat(f, xs) == Flat(g, xs)
  {
    if xs != [] {
      assert xs == [xs[0]] + xs[1..];
      FlatAlike(f, g, xs[1..]);
    }
  }

  /** With GROUP BY, the groups of both are the same, in some order. */
  lemma GroupedOutput(w: World, k: Pair, exact: bool, xs: seq<Frame>, ys: seq<Frame>)
    requires Twinned(k) && TablesMatch(w, k, exact, xs, ys) && (exact || BodyExtremes(k.b)) && k.keys != []
    requires Output(w, k.b, xs, k.env).Ok?
    ensures Output(w, k.c, ys, k.env).Ok? && multiset(Output(w, k.c, ys, k.env).value) == multiset(Output(w, k.b, xs, k.env).value)
  {
    var ks, ls := Distinct(KeysOfRows(w, k.b, xs, k.env)), Distinct(KeysOfRows(w, k.c, ys, k.env));
    OutputIsFlat(w, k.b, xs, k.env);
    OutputIsFlat(w, k.c, ys, k.env);
    SameKeys(w, k, exact, xs, ys);
    forall key | key in ks
      ensures EvalGroup(w, k.c, GroupAt(w, k.c, key, ys, k.env), k.env) == EvalGroup(w, k.b, GroupAt(w, k.b, key, xs, k.env), k.env)
    {
      DistinctKeeps(KeysOfRows(w, k.b, xs, k.env));
      GroupMatches(w, k, exact, xs, ys, key);
      GroupAgrees(w, k, exact, GroupAt(w, k.b, key, xs, k.env), GroupAt(w, k.c, key, ys, k.env));
    }
    FlatAlike(RowsFor(w, k.b, xs, k.env), RowsFor(w, k.c, ys, k.env), ks);
    FlatBag(RowsFor(w, k.c, ys, k.env), ks, ls);
  }

  lemma SameKeys(w: World, k: Pair, exact: bool, xs: seq<Frame>, ys: seq<Frame>)
    requires Twinned(k) && TablesMatch(w, k, exact, xs, ys)
    ensures EvalKeys(w, Listing(k.c), ys, k.env).Ok?
    ensures var ks, ls := Distinct(KeysOfRows(w, k.b, xs, k.env)), Distinct(KeysOfRows(w, k.c, ys, k.env));
            multiset(ks) == multiset(ls) && forall key :: key in ks <==> key in ls
  {
    assert Listing(k.c) == Listing(k.b);
    var a, b := KeysOfRows(w, k.b, xs, k.env), KeysOfRows(w, k.c, ys, k.env);
    FlatSame(exact, Front(|k.b.groupBy|), EvalKeys(w, Listing(k.b), xs, k.env).value, EvalKeys(w, Listing(k.b), ys, k.env).value);
    DistinctKeeps(a);
    DistinctKeeps(b);
    DistinctOnce(a);
    DistinctOnce(b);
    SingleSame(Distinct(a), Distinct(b));
  }

  lemma OutputIsFlat(w: World, b: Body, xs: seq<Frame>, env: Env)
    requires b.Select? && EvalKeys(w, Listing(b), xs, env).Ok? && b.groupBy != []
    ensures var ks := Distinct(KeysOfRows(w, b, xs, env));
      Output(w, b, xs, env) == if AllOk(w, b, ks, xs, env) then Ok(Flat(RowsFor(w, b, xs, env), ks)) else Error
  {
    KeysAre(w, b, xs, env);
    var keys := KeysOfRows(w, b, xs, env);
    GroupsFlat(w, b, Distinct(keys), xs, env);
    assert GroupsOf(b.groupBy, keys, xs) == GroupsAt(w, b, Distinct(keys), xs, env);
  }

  /** Without GROUP BY there is one group, and one answer. */
  lemma OneGroupOutput(w: World, k: Pair, exact: bool, xs: seq<Frame>, ys: seq<Frame>)
    requires Twinned(k) && TablesMatch(w, k, exact, xs, ys) && (exact || BodyExtremes(k.b)) && k.keys == []
    requires Aggregated(k.b)
    ensures Output(w, k.c, ys, k.env) == Output(w, k.b, xs, k.env)
  {
    TablesMakeGroups(w, k, exact, xs, ys);
    GroupAgrees(w, k, exact, xs, ys);
    OneGroupAlone(w, k.b, xs, k.env);
    OneGroupAlone(w, k.c, ys, k.env);
  }

  lemma {:induction false} NoKeys(w: World, frames: seq<Frame>, env: Env)
    ensures EvalKeys(w, [], frames, env).Ok?
    decreases |frames|
  {
    if frames != [] {
      NoKeys(w, frames[1..], env);
    }
  }

  lemma OneGroupAlone(w: World, b: Body, xs: seq<Frame>, env: Env)
    requires b.Select? && b.groupBy == [] && Aggregated(b)
    ensures Output(w, b, xs, env) == EvalGroup(w, b, xs, env)
  {
    NoKeys(w, xs, env);
    var here := EvalGroup(w, b, xs, env);
    assert [xs][1..] == [] && EvalGroups(w, b, [], env) == Ok([]);
    assert EvalGroups(w, b, [xs], env) == if here.Ok? then Ok(here.value + []) else Error;
    assert here.Ok? ==> here.value + [] == here.value;
  }

  // --- the plain SELECT that lists them ------------------------------------------------------

  function AsItems(es: seq<Expr>): seq<Item> {
    seq(|es|, i requires 0 <= i < |es| => Item(es[i], None))
  }

  /** The SELECT that lists the keys and the arguments of each row. */
  function Listed(b: Body): Body
    requires b.Select?
  {
    b.(proj := AsItems(Listing(b)), groupBy := [], having := None, distinct := false)
  }

  function ValsOf(): Rec -> seq<ValueRow> {
    (r: Rec) => [Vals(r)]
  }

  lemma {:induction false} ItemsList(w: World, es: seq<Expr>, f: Frame, s: Scope)
    ensures EvalItems(w, AsItems(es), f, s).Ok? <==> EvalEs(w, es, s).Ok?
    ensures EvalEs(w, es, s).Ok? ==> Vals(EvalItems(w, AsItems(es), f, s).value) == EvalEs(w, es, s).value
    decreases |es|
  {
    if es != [] {
      ItemsList(w, es[1..], f, s);
      assert AsItems(es)[1..] == AsItems(es[1..]) && AsItems(es)[0] == Item(es[0], None);
    } else {
      assert AsItems(es) == [];
    }
  }

  lemma {:induction false} RowsList(w: World, es: seq<Expr>, frames: seq<Frame>, env: Env)
    requires EvalRows(w, AsItems(es), frames, env).Ok?
    ensures EvalKeys(w, es, frames, env) == Ok(Flat(ValsOf(), EvalRows(w, AsItems(es), frames, env).value))
    decreases |frames|
  {
    if frames != [] {
      RowsList(w, es, frames[1..], env);
      ItemsList(w, es, frames[0], Scope(Push(env, frames[0]), None));
      var row, rest := EvalItems(w, AsItems(es), frames[0], Scope(Push(env, frames[0]), None)).value, EvalRows(w, AsItems(es), frames[1..], env).value;
      assert EvalRows(w, AsItems(es), frames, env).value == [row] + rest && ([row] + rest)[1..] == rest;
    }
  }

  lemma {:induction false} PlainItems(es: seq<Expr>)
    requires forall e :: e in es ==> !HasAgg(e)
    ensures !ItemsHaveAgg(AsItems(es))
  {
    if es != [] {
      assert AsItems(es)[1..] == AsItems(es[1..]) && AsItems(es)[0] == Item(es[0], None);
      assert es == [es[0]] + es[1..];
      PlainItems(es[1..]);
    }
  }

  /** Aggregates are not nested. */
  predicate Unnested(b: Body)
    requires b.Select?
  {
    forall e :: e in Listing(b) ==> !HasAgg(e)
  }

  lemma ListedTable(w: World, b: Body, env: Env)
    requires b.Select? && Unnested(b) && EvalB(w, Listed(b), env).Ok?
    ensures Source(w, b, env).Ok? && EvalKeys(w, Listing(b), Source(w, b, env).value, env)
                                     == Ok(Flat(ValsOf(), EvalB(w, Listed(b), env).value))
    ensures AllBound(Source(w, b, env).value, b.from)
  {
    PlainItems(Listing(b));
    PlainSelect(w, Listed(b), env);
    assert Source(w, Listed(b), env) == Source(w, b, env);
    RowsList(w, Listing(b), Source(w, b, env).value, env);
    SourceBinds(w, b, env);
  }

  lemma ListsMatch(w: World, k: Pair, exact: bool)
    requires Twinned(k) && Unnested(k.b)
    requires EvalB(w, Listed(k.b), k.env).Ok? && EvalB(w, Listed(k.c), k.env).Ok?
    requires Same(exact, EvalB(w, Listed(k.b), k.env).value, EvalB(w, Listed(k.c), k.env).value)
    ensures Source(w, k.b, k.env).Ok? && Source(w, k.c, k.env).Ok?
    ensures TablesMatch(w, k, exact, Source(w, k.b, k.env).value, Source(w, k.c, k.env).value)
  {
    assert Listing(k.c) == Listing(k.b);
    ListedTable(w, k.b, k.env);
    ListedTable(w, k.c, k.env);
    FlatSame(exact, ValsOf(), EvalB(w, Listed(k.b), k.env).value, EvalB(w, Listed(k.c), k.env).value);
  }

  /** Two aggregating SELECTs whose plain lists of keys and arguments hold the same rows - as often,
      or whatever their number when only `max` and `min` are asked for - give the same answer. */
  lemma SelectsAgree(w: World, k: Pair, exact: bool)
    requires Twinned(k) && Unnested(k.b) && Aggregated(k.b) && (exact || BodyExtremes(k.b))
    requires EvalB(w, Listed(k.b), k.env).Ok? && EvalB(w, Listed(k.c), k.env).Ok?
    requires Same(exact, EvalB(w, Listed(k.b), k.env).value, EvalB(w, Listed(k.c), k.env).value)
    requires EvalB(w, k.b, k.env).Ok?
    ensures EvalB(w, k.c, k.env).Ok? && multiset(EvalB(w, k.c, k.env).value) == multiset(EvalB(w, k.b, k.env).value)
    ensures k.keys == [] ==> EvalB(w, k.c, k.env) == EvalB(w, k.b, k.env)
  {
    ListsMatch(w, k, exact);
    var xs, ys := Source(w, k.b, k.env).value, Source(w, k.c, k.env).value;
    assert Output(w, k.b, xs, k.env).Ok?;
    if k.keys == [] {
      OneGroupOutput(w, k, exact, xs, ys);
    } else {
      GroupedOutput(w, k, exact, xs, ys);
    }
    assert Output(w, k.c, ys, k.env).Ok?;
    DistinctBag(Output(w, k.b, xs, k.env).value, Output(w, k.c, ys, k.env).value);
  }

  /** DISTINCT leaves one of each. */
  lemma DistinctBag<T(!new)>(xs: seq<T>, ys: seq<T>)
    ensures (forall x :: x in xs <==> x in ys) ==> multiset(Distinct(xs)) == multiset(Distinct(ys))
    ensures multiset(xs) == multiset(ys) ==> multiset(Distinct(xs)) == multiset(Distinct(ys))
  {
    DistinctKeeps(xs);
    DistinctKeeps(ys);
    DistinctOnce(xs);
    DistinctOnce(ys);
    if multiset(xs) == multiset(ys) {
      forall x ensures x in xs <==> x in ys {
        assert x in xs <==> x in multiset(xs);
      }
    }
    if forall x :: x in xs <==> x in ys {
      SingleSame(Distinct(xs), Distinct(ys));
    }
  }

  lemma {:induction false} AggsMeet(ok: Check, e: Expr, p: Pos)
    requires AllE(ok, e, p)
    ensures forall a :: a in AggsE(e) ==> AllE(ok, a, Exact)
    decreases e, 1
  {
    match e
    case Cmp(_, l, r) => AggsMeet(ok, l, Exact); AggsMeet(ok, r, Exact);
    case And(l, r) => AggsMeet(ok, l, p); AggsMeet(ok, r, p);
    case Or(l, r) => AggsMeet(ok, l, p); AggsMeet(ok, r, p);
    case Not(x) => AggsMeet(ok, x, Exact);
    case Nested(x) => AggsMeet(ok, x, p);
    case Case(c, t, f) => AggsMeet(ok, c, Truth); AggsMeet(ok, t, p); AggsMeet(ok, f, p);
    case Call(_, args) => AggsMeetEach(ok, args);
    case Tuple(es) => AggsMeetEach(ok, es);
    case InQuery(x, _, _) => AggsMeet(ok, x, Exact);
    case AnyOf(x, a) => AggsMeet(ok, x, Exact); AggsMeet(ok, a, Exact);
    case Index(a, i) => AggsMeet(ok, a, Exact); AggsMeet(ok, i, Exact);
    case _ =>
  }

  lemma {:induction false} AggsMeetEach(ok: Check, es: seq<Expr>)
    requires AllEs(ok, es)
    ensures forall a :: a in AggsEs(es) ==> AllE(ok, a, Exact)
    decreases es, 0
  {
    if es != [] {
      AggsMeet(ok, es[0], Exact);
      AggsMeetEach(ok, es[1..]);
    }
  }

  lemma {:induction false} ItemAggsMeet(ok: Check, items: seq<Item>)
    requires AllItems(ok, items)
    ensures forall a :: a in AggsItems(items) ==> AllE(ok, a, Exact)
  {
    if items != [] {
      if items[0].Item? {
        AggsMeet(ok, items[0].e, Exact);
      }
      ItemAggsMeet(ok, items[1..]);
    }
  }

  lemma {:induction false} ListMeets(ok: Check, es: seq<Expr>)
    ensures AllEs(ok, es) <==> forall e :: e in es ==> AllE(ok, e, Exact)
    ensures (forall e :: e in es ==> AllE(ok, e, Exact)) ==> AllItems(ok, AsItems(es))
  {
    if es != [] {
      assert es == [es[0]] + es[1..];
      assert AsItems(es)[1..] == AsItems(es[1..]) && AsItems(es)[0] == Item(es[0], None);
      ListMeets(ok, es[1..]);
      assert AllItems(ok, AsItems(es)) == (AllItem(ok, AsItems(es)[0]) && AllItems(ok, AsItems(es)[1..]));
      assert es[0] in es && forall e :: e in es[1..] ==> e in es;
    }
  }

  /** What holds of every expression of the clauses holds of the list. */
  lemma ListedMeets(ok: Check, b: Body)
    requires b.Select? && AllB(ok, b)
    ensures AllB(ok, Listed(b))
  {
    ListMeets(ok, b.groupBy);
    ItemAggsMeet(ok, b.proj);
    if b.having.Some? {
      AggsMeet(ok, b.having.value, Truth);
    }
    ListMeets(ok, Listing(b));
  }
}
