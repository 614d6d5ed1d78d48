/** `JOIN LATERAL (SELECT <aggregates> FROM t WHERE t.k = outer) d ON true` becomes a join with the
    aggregates grouped by `t.k`, on the key. */
module LateralAggregate {
  import opened Wrappers
  import opened SqlValues
  import opened SqlAst
  import opened SqlEval
  import opened SqlVisit
  import opened SqlCarry
  import opened SqlScope
  import opened ExistsRewrites
  import opened TupleRewrites

  // --- the recogniser and the rewrite --------------------------------------------------------

  /** Casts and operators are named by their symbol, functions by an identifier. */
  predicate OperatorName(fn: string) {
    fn != "" && !('a' <= fn[0] <= 'z') && !('A' <= fn[0] <= 'Z') && fn[0] != '_'
  }

  /** Whether an item computes an aggregate, looked for under casts, parentheses and operators. */
  predicate Triggers(e: Expr) {
    match e
    case CountStar => true
    case Agg(_, _) => true
    case Nested(x) => Triggers(x)
    case Not(x) => Triggers(x)
    case Cmp(_, l, r) => Triggers(l) || Triggers(r)
    case And(l, r) => Triggers(l) || Triggers(r)
    case Or(l, r) => Triggers(l) || Triggers(r)
    case Call(fn, args) => OperatorName(fn) && exists i :: 0 <= i < |args| && Triggers(args[i])
    case _ => false
  }

  predicate QualifiedBy(e: Expr, x: string) {
    e.Col? && e.qual == x
  }

  /** The shape the pass accepts. HAVING, DISTINCT, LIMIT and the join kind are not looked at. */
  predicate LateralShape(it: FromItem) {
    && it.kind != Comma && it.on == TrueLit
    && it.factor.Derived? && it.factor.lateral
    && var b := it.factor.q.body;
      && b.Select? && |b.from| == 1 && b.groupBy == []
      && b.from[0].kind == Comma && b.from[0].on == TrueLit && b.from[0].factor.Table?
      && b.selection.Some? && b.selection.value.Cmp? && b.selection.value.op == Eq
      && QualifiedBy(b.selection.value.left, InnerName(b)) != QualifiedBy(b.selection.value.right, InnerName(b))
      && exists i :: 0 <= i < |b.proj| && b.proj[i].Item? && Triggers(b.proj[i].e)
  }

  function InnerName(b: Body): string
    requires b.Select? && |b.from| == 1
  {
    FactorName(b.from[0].factor)
  }

  function InnerKey(it: FromItem): Expr
    requires LateralShape(it)
  {
    var b := it.factor.q.body;
    if QualifiedBy(b.selection.value.left, InnerName(b)) then b.selection.value.left else b.selection.value.right
  }

  function OuterSide(it: FromItem): Expr
    requires LateralShape(it)
  {
    var b := it.factor.q.body;
    if QualifiedBy(b.selection.value.left, InnerName(b)) then b.selection.value.right else b.selection.value.left
  }

  function GroupedQuery(it: FromItem, key: string): Query
    requires LateralShape(it)
  {
    var q := it.factor.q;
    q.(body := q.body.(
      proj := [Item(InnerKey(it), Some(key))] + q.body.proj, groupBy := [InnerKey(it)], selection := None))
  }

  function GroupedJoin(it: FromItem, key: string): FromItem
    requires LateralShape(it)
  {
    var d := it.factor.given;
    FromItem(it.kind, Derived(GroupedQuery(it, key), d, false), Cmp(Eq, Col(d, key), OuterSide(it)))
  }

  /** What a caller checks: no HAVING, DISTINCT, LIMIT or OFFSET; only the equality looks at the
      items written before; and its outer side names neither the inner table nor the subquery. */
  predicate Decorrelates(it: FromItem, before: set<string>)
    requires LateralShape(it)
  {
    var q := it.factor.q;
    var t := InnerName(q.body);
    && q.limit.None? && q.offset == 0 && q.body.having.None? && !q.body.distinct
    && !HasAgg(OuterSide(it))
    && Without(FreeE(OuterSide(it)), {t, it.factor.given}) == FreeE(OuterSide(it))
    && Without(FreeItems(q.body.proj), before - {t}) == FreeItems(q.body.proj)
  }

  // --- the inner table -----------------------------------------------------------------------

  lemma {:induction false} TriggersAggregate(e: Expr)
    requires Triggers(e)
    ensures HasAgg(e)
    decreases e
  {
    match e
    case Nested(x) => TriggersAggregate(x);
    case Not(x) => TriggersAggregate(x);
    case Cmp(_, l, r) => if Triggers(l) { TriggersAggregate(l); } else { TriggersAggregate(r); }
    case And(l, r) => if Triggers(l) { TriggersAggregate(l); } else { TriggersAggregate(r); }
    case Or(l, r) => if Triggers(l) { TriggersAggregate(l); } else { TriggersAggregate(r); }
    case Call(_, args) =>
      var i :| 0 <= i < |args| && Triggers(args[i]);
      TriggersAggregate(args[i]);
      SomeHasAgg(args, i);
    case _ =>
  }

  lemma {:induction false} SomeHasAgg(es: seq<Expr>, i: nat)
    requires i < |es| && HasAgg(es[i])
    ensures AnyHasAgg(es)
  {
    if i > 0 {
      SomeHasAgg(es[1..], i - 1);
    }
  }

  lemma {:induction false} SomeItemHasAgg(items: seq<Item>, i: nat)
    requires i < |items| && items[i].Item? && HasAgg(items[i].e)
    ensures ItemsHaveAgg(items)
  {
    if i > 0 {
      SomeItemHasAgg(items[1..], i - 1);
    }
  }

  lemma ShapeAggregates(it: FromItem, key: string)
    requires LateralShape(it)
    ensures ItemsHaveAgg(it.factor.q.body.proj)
  {
    var items := it.factor.q.body.proj;
    var i :| 0 <= i < |items| && items[i].Item? && Triggers(items[i].e);
    TriggersAggregate(items[i].e);
    SomeItemHasAgg(items, i);
  }

  /** The rows of the inner table, whatever the environment. */
  lemma InnerRows(w: World, it: FromItem, env1: Env, env2: Env)
    requires LateralShape(it)
    ensures EvalFrom(w, it.factor.q.body.from, env1) == EvalFrom(w, it.factor.q.body.from, env2)
  {
    var from := it.factor.q.body.from;
    OneTable(w, from[0], env1);
    OneTable(w, from[0], env2);
    assert from == [from[0]];
    var recs := EvalFactor(w, from[0].factor, [], env1);
    assert recs == EvalFactor(w, from[0].factor, [], env2);
    if recs.Ok? {
      MatchingAgree(w, w, TrueLit, TrueLit, FactorName(from[0].factor), recs.value, [], env1, env2);
    }
  }

  // --- equality with the outer value ---------------------------------------------------------

  lemma {:induction false} EqTrueIsSame(a: Value, b: Value)
    ensures IsTrue(EqV(a, b)) ==> a == b
    decreases a
  {
    if a.Composite? && b.Composite? && |a.cells| == |b.cells| {
      EqAllTrueIsSame(a.cells, b.cells);
    }
  }

  lemma {:induction false} EqAllTrueIsSame(xs: seq<Value>, ys: seq<Value>)
    requires |xs| == |ys|
    ensures IsTrue(EqAll(xs, ys)) ==> xs == ys
    decreases xs
  {
    if xs != [] {
      EqTrueIsSame(xs[0], ys[0]);
      EqAllTrueIsSame(xs[1..], ys[1..]);
      if IsTrue(EqAll(xs, ys)) {
        assert xs == [xs[0]] + xs[1..] && ys == [ys[0]] + ys[1..];
      }
    }
  }

  /** The rows whose key equals the outer value: the group of that key, or none. */
  lemma {:induction false} KeptIsGroup(w: World, cond: Expr, o: Value, keys: seq<seq<Value>>, frames: seq<Frame>, env: Env)
    requires |keys| == |frames|
    requires forall i :: 0 <= i < |keys| ==> |keys[i]| == 1
    requires forall i :: 0 <= i < |frames| ==>
      EvalCond(w, cond, Scope(Push(env, frames[i]), None)) == Ok(IsTrue(EqV(keys[i][0], o)))
    ensures Filter(w, cond, frames, env) == Ok(if IsTrue(EqV(o, o)) then WithKey([o], keys, frames) else [])
    decreases |frames|
  {
    if frames != [] {
      KeptIsGroup(w, cond, o, keys[1..], frames[1..], env);
      EqTrueIsSame(keys[0][0], o);
      assert keys[0] == [keys[0][0]];
      assert IsTrue(EqV(keys[0][0], o)) <==> keys[0] == [o] && IsTrue(EqV(o, o));
      var rest := WithKey([o], keys[1..], frames[1..]);
      assert [] + rest == rest;
      assert WithKey([o], keys, frames) == if keys[0] == [o] then [frames[0]] + rest else rest;
    }
  }

  lemma {:induction false} GroupExists(k: seq<Value>, keys: seq<seq<Value>>, frames: seq<Frame>)
    requires |keys| == |frames|
    ensures WithKey(k, keys, frames) != [] <==> k in keys
    decreases |frames|
  {
    if frames != [] {
      GroupExists(k, keys[1..], frames[1..]);
      assert keys == [keys[0]] + keys[1..];
    }
  }

  lemma {:induction false} DistinctOnce<T>(xs: seq<T>)
    ensures forall i, j :: 0 <= i < j < |Distinct(xs)| ==> Distinct(xs)[i] != Distinct(xs)[j]
  {
    if xs != [] {
      DistinctOnce(xs[..|xs| - 1]);
    }
  }

  // --- evaluating both forms from one outer row ----------------------------------------------

  /** The row the lateral subquery returns for an outer row: its items over the matching rows. */
  function AggregateRow(w: World, it: FromItem, g: seq<Frame>, env: Env): Result<Rec>
    requires LateralShape(it)
  {
    var b := it.factor.q.body;
    EvalItems(w, b.proj, GroupFrame(b.from, g), GroupScope(b.from, env, g))
  }

  /** The items see the same whether or not the earlier FROM items are in scope. */
  lemma SameAggregateRow(w: World, it: FromItem, before: seq<FromItem>, f: Frame, g: seq<Frame>, env: Env)
    requires LateralShape(it) && Decorrelates(it, Names(before)) && Binds(f, before)
    requires forall i :: 0 <= i < |g| ==> Binds(g[i], it.factor.q.body.from)
    ensures AggregateRow(w, it, g, Push(env, f)) == AggregateRow(w, it, g, env)
  {
    var b := it.factor.q.body;
    var s1, s2 := GroupScope(b.from, Push(env, f), g), GroupScope(b.from, env, g);
    SameInside(it, before, f, GroupFrame(b.from, g), env);
    forall i | 0 <= i < |g|
      ensures SameView(map[], FreeItems(b.proj), s1.group.value[i], s2.group.value[i])
    {
      SameInside(it, before, f, g[i], env);
    }
    NoRenaming();
    AlwaysItems(b.proj);
    KeptItems(Renamer(map[]), Always, b.proj, 0);
    ScopeItems(w, w, map[], b.proj, 0, GroupFrame(b.from, g), s1, s2);
  }

  lemma SameInside(it: FromItem, before: seq<FromItem>, f: Frame, g: Frame, env: Env)
    requires LateralShape(it) && Decorrelates(it, Names(before))
    requires Binds(f, before) && Binds(g, it.factor.q.body.from)
    ensures SameView(map[], FreeItems(it.factor.q.body.proj), Push(Push(env, f), g), Push(env, g))
  {
    var b := it.factor.q.body;
    FrameKeys(f, before);
    FrameKeys(g, b.from);
    assert Names(b.from) == {InnerName(b)};
    forall r | r in FreeItems(b.proj)
      ensures Found(map[], Push(Push(env, f), g), r) == Found(map[], Push(env, g), r)
    {
      assert r in Without(FreeItems(b.proj), Names(before) - {InnerName(b)});
    }
  }

  /** The key is read from the inner row. */
  lemma KeyValue(w: World, it: FromItem, g: Frame, env1: Env, env2: Env)
    requires LateralShape(it) && Binds(g, it.factor.q.body.from)
    ensures EvalE(w, InnerKey(it), Scope(Push(env1, g), None)) == EvalE(w, InnerKey(it), Scope(Push(env2, g), None))
  {
    FrameKeys(g, it.factor.q.body.from);
    assert InnerName(it.factor.q.body) in Names(it.factor.q.body.from);
  }

  /** The outer side is read from outside, in the lateral subquery as in the ON condition. */
  lemma OuterValue(w: World, it: FromItem, before: set<string>, env: Env, x: string, rec: Rec, s: Scope)
    requires LateralShape(it) && Decorrelates(it, before)
    requires x == InnerName(it.factor.q.body) || x == it.factor.given
    ensures EvalE(w, OuterSide(it), Scope(env[x := rec], None)) == EvalE(w, OuterSide(it), Scope(env, None))
  {
    var o := OuterSide(it);
    forall r | r in FreeE(o) ensures Found(map[], env[x := rec], r) == Found(map[], env, r) {
      assert r in Without(FreeE(o), {InnerName(it.factor.q.body), it.factor.given});
    }
    Coincide(w, w, o, Scope(env[x := rec], None), Scope(env, None));
  }

  /** The lateral WHERE on one inner row. */
  lemma LateralCond(w: World, it: FromItem, before: set<string>, g: Frame, env: Env)
    requires LateralShape(it) && Decorrelates(it, before) && Binds(g, it.factor.q.body.from)
    ensures var cond := it.factor.q.body.selection.value;
      var s := Scope(Push(env, g), None);
      EvalCond(w, cond, s)
        == if EvalE(w, InnerKey(it), s).Ok? && EvalE(w, OuterSide(it), Scope(env, None)).Ok?
           then Ok(IsTrue(EqV(EvalE(w, InnerKey(it), s).value, EvalE(w, OuterSide(it), Scope(env, None)).value)))
           else Error
  {
    var b := it.factor.q.body;
    var cond := b.selection.value;
    var s := Scope(Push(env, g), None);
    assert g == [] + [g[0]];
    PushOne(env, [], g[0]);
    assert Push(env, []) == env;
    OuterValue(w, it, before, env, g[0].qual, g[0].rec, s);
    PlainCond(w, cond, s);
    if EvalE(w, InnerKey(it), s).Ok? && EvalE(w, OuterSide(it), s).Ok? {
      EqSymmetric(EvalE(w, cond.left, s).value, EvalE(w, cond.right, s).value);
    }
  }

  // --- the grouped side ----------------------------------------------------------------------

  lemma {:induction false} KeysOfFrames(w: World, keys: seq<Expr>, frames: seq<Frame>, env: Env)
    requires EvalKeys(w, keys, frames, env).Ok?
    ensures |EvalKeys(w, keys, frames, env).value| == |frames|
    ensures forall i :: 0 <= i < |frames| ==>
      EvalEs(w, keys, Scope(Push(env, frames[i]), None)) == Ok(EvalKeys(w, keys, frames, env).value[i])
    decreases |frames|
  {
    if frames != [] {
      KeysOfFrames(w, keys, frames[1..], env);
    }
  }

  lemma {:induction false} GroupHasKey(w: World, exprs: seq<Expr>, k: seq<Value>, keys: seq<seq<Value>>, frames: seq<Frame>, env: Env)
    requires |keys| == |frames|
    requires forall i :: 0 <= i < |frames| ==> EvalEs(w, exprs, Scope(Push(env, frames[i]), None)) == Ok(keys[i])
    ensures forall i :: 0 <= i < |WithKey(k, keys, frames)| ==>
      EvalEs(w, exprs, Scope(Push(env, WithKey(k, keys, frames)[i]), None)) == Ok(k)
    decreases |frames|
  {
    if frames != [] {
      GroupHasKey(w, exprs, k, keys[1..], frames[1..], env);
    }
  }

  /** The key of a group, then its aggregates. */
  ghost predicate KeyedAs(w: World, it: FromItem, key: string, g: seq<Frame>, row: Rec, env: Env)
    requires LateralShape(it)
  {
    var v := EvalE(w, InnerKey(it), GroupScope(it.factor.q.body.from, env, g));
    AggregateRow(w, it, g, env).Ok? && v.Ok? && row == [Cell(key, v.value)] + AggregateRow(w, it, g, env).value
  }

  /** Each group's row of the rewritten subquery: its key, then the aggregates over the group. */
  lemma {:induction false} GroupedRows(w: World, it: FromItem, key: string, groups: seq<seq<Frame>>, env: Env)
    requires LateralShape(it) && it.factor.q.body.having.None?
    requires EvalGroups(w, GroupedQuery(it, key).body, groups, env).Ok?
    ensures var rows := EvalGroups(w, GroupedQuery(it, key).body, groups, env).value;
      && |rows| == |groups|
      && forall j :: 0 <= j < |groups| ==> KeyedAs(w, it, key, groups[j], rows[j], env)
    decreases |groups|
  {
    if groups != [] {
      var b := GroupedQuery(it, key).body;
      GroupedRows(w, it, key, groups[1..], env);
      KeyedRow(w, it, key, groups[0], env);
      GroupsStep(w, b, groups, env);
      KeyedSnoc(w, it, key, groups, EvalGroup(w, b, groups[0], env).value[0], EvalGroups(w, b, groups[1..], env).value, env);
    }
  }

  lemma {:induction false} GroupsStep(w: World, b: Body, groups: seq<seq<Frame>>, env: Env)
    requires b.Select? && groups != []
    ensures EvalGroups(w, b, groups, env)
         == if EvalGroup(w, b, groups[0], env).Ok? && EvalGroups(w, b, groups[1..], env).Ok?
            then Ok(EvalGroup(w, b, groups[0], env).value + EvalGroups(w, b, groups[1..], env).value) else Error
  {
  }

  lemma KeyedSnoc(w: World, it: FromItem, key: string, groups: seq<seq<Frame>>, row: Rec, rest: seq<Rec>, env: Env)
    requires LateralShape(it) && groups != [] && |rest| == |groups| - 1 && KeyedAs(w, it, key, groups[0], row, env)
    requires forall j :: 0 <= j < |rest| ==> KeyedAs(w, it, key, groups[1..][j], rest[j], env)
    ensures forall j :: 0 <= j < |groups| ==> KeyedAs(w, it, key, groups[j], ([row] + rest)[j], env)
  {
    forall j | 0 <= j < |groups| ensures KeyedAs(w, it, key, groups[j], ([row] + rest)[j], env) {
      if j > 0 {
        assert groups[1..][j - 1] == groups[j];
      }
    }
  }

  lemma KeyedRow(w: World, it: FromItem, key: string, g: seq<Frame>, env: Env)
    requires LateralShape(it) && it.factor.q.body.having.None?
    requires EvalGroup(w, GroupedQuery(it, key).body, g, env).Ok?
    ensures var rows := EvalGroup(w, GroupedQuery(it, key).body, g, env).value;
            |rows| == 1 && KeyedAs(w, it, key, g, rows[0], env)
  {
    var b := GroupedQuery(it, key).body;
    var f, s := GroupFrame(b.from, g), GroupScope(b.from, env, g);
    assert EvalGroup(w, b, g, env).value == [EvalItems(w, b.proj, f, s).value];
    ItemThen(w, Item(InnerKey(it), Some(key)), it.factor.q.body.proj, f, s);
  }

  lemma ItemThen(w: World, item: Item, rest: seq<Item>, f: Frame, s: Scope)
    requires item.Item? && item.alias.Some?
    ensures var v, row := EvalE(w, item.e, s), EvalItems(w, rest, f, s);
      EvalItems(w, [item] + rest, f, s)
      == if v.Ok? && row.Ok? then Ok([Cell(item.alias.value, v.value)] + row.value) else Error
  {
    var items := [item] + rest;
    assert items[0] == item && items[1..] == rest;
    assert EvalItem(w, item, f, s).Ok? == EvalE(w, item.e, s).Ok?;
  }

  /** The frames of the records ON is met by. */
  function Joined(hits: seq<bool>, name: string, recs: seq<Rec>, f: Frame): seq<Frame>
    requires |hits| == |recs|
  {
    if recs == [] then []
    else (if hits[0] then [f + [Bound(name, recs[0])]] else []) + Joined(hits[1..], name, recs[1..], f)
  }

  lemma {:induction false} MatchingJoins(w: World, on: Expr, name: string, recs: seq<Rec>, hits: seq<bool>, f: Frame, env: Env)
    requires |hits| == |recs|
    requires forall i :: 0 <= i < |recs| ==>
      EvalCond(w, on, Scope(Push(env, f + [Bound(name, recs[i])]), None)) == Ok(hits[i])
    ensures Matching(w, on, name, recs, f, env) == Ok(Joined(hits, name, recs, f))
    decreases |recs|
  {
    if recs != [] {
      MatchingJoins(w, on, name, recs[1..], hits[1..], f, env);
      var rest := Joined(hits[1..], name, recs[1..], f);
      assert [] + rest == rest;
    }
  }

  lemma {:induction false} JoinedNone(hits: seq<bool>, name: string, recs: seq<Rec>, f: Frame)
    requires |hits| == |recs| && forall i :: 0 <= i < |hits| ==> !hits[i]
    ensures Joined(hits, name, recs, f) == []
    decreases |recs|
  {
    if recs != [] {
      JoinedNone(hits[1..], name, recs[1..], f);
    }
  }

  lemma {:induction false} JoinedOne(hits: seq<bool>, name: string, recs: seq<Rec>, j: nat, f: Frame)
    requires |hits| == |recs| && j < |hits| && hits[j]
    requires forall i :: 0 <= i < |hits| && i != j ==> !hits[i]
    ensures Joined(hits, name, recs, f) == [f + [Bound(name, recs[j])]]
    decreases |recs|
  {
    if j == 0 {
      JoinedNone(hits[1..], name, recs[1..], f);
    } else {
      JoinedOne(hits[1..], name, recs[1..], j - 1, f);
    }
  }

  /** The new ON condition against one row of the grouped subquery. */
  lemma GroupedCond(w: World, it: FromItem, before: set<string>, key: string, row: Rec, f: Frame, env: Env)
    requires LateralShape(it) && Decorrelates(it, before) && row != [] && row[0].name == key
    requires EvalE(w, OuterSide(it), Scope(Push(env, f), None)).Ok?
    ensures EvalCond(w, GroupedJoin(it, key).on, Scope(Push(env, f + [Bound(it.factor.given, row)]), None))
         == Ok(IsTrue(EqV(row[0].v, EvalE(w, OuterSide(it), Scope(Push(env, f), None)).value)))
  {
    var s := Scope(Push(env, f + [Bound(it.factor.given, row)]), None);
    KeyAndOuter(w, it, before, key, row, f, env);
    EqualityCond(w, Col(it.factor.given, key), OuterSide(it), row[0].v, EvalE(w, OuterSide(it), Scope(Push(env, f), None)).value, s);
  }

  /** The two sides of the new ON: the key is the row's first column, the outer side is as before. */
  lemma KeyAndOuter(w: World, it: FromItem, before: set<string>, key: string, row: Rec, f: Frame, env: Env)
    requires LateralShape(it) && Decorrelates(it, before) && row != [] && row[0].name == key
    ensures var s := Scope(Push(env, f + [Bound(it.factor.given, row)]), None);
      && EvalE(w, Col(it.factor.given, key), s) == Ok(row[0].v)
      && EvalE(w, OuterSide(it), s) == EvalE(w, OuterSide(it), Scope(Push(env, f), None))
  {
    var d := it.factor.given;
    PushOne(env, f, Bound(d, row));
    OuterValue(w, it, before, Push(env, f), d, row, Scope(Push(env, f + [Bound(d, row)]), None));
  }

  lemma EqualityCond(w: World, l: Expr, r: Expr, a: Value, b: Value, s: Scope)
    requires EvalE(w, l, s) == Ok(a) && EvalE(w, r, s) == Ok(b)
    ensures EvalCond(w, Cmp(Eq, l, r), s) == Ok(IsTrue(EqV(a, b)))
  {
    PlainCond(w, Cmp(Eq, l, r), s);
  }

  // --- one outer row -------------------------------------------------------------------------

  /** The inner rows an outer row matches. */
  function Matches(w: World, it: FromItem, f: Frame, env: Env): Result<seq<Frame>>
    requires LateralShape(it)
  {
    Source(w, it.factor.q.body, Push(env, f))
  }

  /** The lateral side: always one row, the aggregates over the matches. */
  lemma {:induction false} LateralSide(w: World, it: FromItem, before: set<string>, f: Frame, env: Env)
    requires LateralShape(it) && Decorrelates(it, before) && JoinOne(w, it, f, env).Ok?
    ensures Matches(w, it, f, env).Ok?
    ensures AggregateRow(w, it, Matches(w, it, f, env).value, Push(env, f)).Ok?
    ensures JoinOne(w, it, f, env).value
         == [f + [Bound(it.factor.given, AggregateRow(w, it, Matches(w, it, f, env).value, Push(env, f)).value)]]
  {
    LateralRow(w, it, before, Push(env, f));
    assert EvalFactor(w, it.factor, f, env) == EvalQ(w, it.factor.q, Push(env, f));
    OnTrue(w, it, AggregateRow(w, it, Matches(w, it, f, env).value, Push(env, f)).value, f, env);
  }

  /** The lateral subquery's one row. */
  lemma LateralRow(w: World, it: FromItem, before: set<string>, env: Env)
    requires LateralShape(it) && Decorrelates(it, before) && EvalQ(w, it.factor.q, env).Ok?
    ensures Source(w, it.factor.q.body, env).Ok?
    ensures var row := AggregateRow(w, it, Source(w, it.factor.q.body, env).value, env);
            row.Ok? && EvalQ(w, it.factor.q, env) == Ok([row.value])
  {
    var q := it.factor.q;
    ShapeAggregates(it, "");
    assert EvalQ(w, q, env) == EvalB(w, q.body, env);
    OneGroup(w, q.body, Source(w, q.body, env).value, env);
  }

  lemma OnTrue(w: World, it: FromItem, row: Rec, f: Frame, env: Env)
    requires it.on == TrueLit && EvalFactor(w, it.factor, f, env) == Ok([row])
    ensures JoinOne(w, it, f, env) == Ok([f + [Bound(FactorName(it.factor), row)]])
  {
    var name := FactorName(it.factor);
    MatchingStep(w, TrueLit, name, [row], f, env);
    assert [row][1..] == [] && Matching(w, TrueLit, name, [], f, env) == Ok([]);
    assert [f + [Bound(name, row)]] + [] == [f + [Bound(name, row)]];
  }

  /** The grouping keys are the keys the lateral WHERE compares. */
  lemma KeysRead(w: World, it: FromItem, frames: seq<Frame>, keys: seq<seq<Value>>, env: Env, env1: Env)
    requires LateralShape(it)
    requires EvalFrom(w, it.factor.q.body.from, env) == Ok(frames)
    requires EvalKeys(w, [InnerKey(it)], frames, env) == Ok(keys)
    ensures |keys| == |frames|
    ensures forall i :: 0 <= i < |keys| ==> |keys[i]| == 1
    ensures forall i :: 0 <= i < |frames| ==>
      EvalE(w, InnerKey(it), Scope(Push(env1, frames[i]), None)) == Ok(keys[i][0])
  {
    KeysOfFrames(w, [InnerKey(it)], frames, env);
    FromBinds(w, it.factor.q.body.from, env);
    forall i | 0 <= i < |frames|
      ensures |keys[i]| == 1 && EvalE(w, InnerKey(it), Scope(Push(env1, frames[i]), None)) == Ok(keys[i][0])
    {
      KeyValue(w, it, frames[i], env, env1);
      OneValueList(w, InnerKey(it), Scope(Push(env, frames[i]), None));
    }
  }

  /** What the lateral WHERE decides on each inner row. */
  lemma CondsRead(w: World, it: FromItem, before: set<string>, frames: seq<Frame>, keys: seq<seq<Value>>, env: Env, env1: Env)
    requires LateralShape(it) && Decorrelates(it, before) && frames != []
    requires EvalFrom(w, it.factor.q.body.from, env) == Ok(frames)
    requires EvalKeys(w, [InnerKey(it)], frames, env) == Ok(keys)
    requires Filter(w, it.factor.q.body.selection.value, frames, env1).Ok?
    ensures |keys| == |frames| && forall i :: 0 <= i < |keys| ==> |keys[i]| == 1
    ensures EvalE(w, OuterSide(it), Scope(env1, None)).Ok?
    ensures forall i :: 0 <= i < |frames| ==>
      EvalCond(w, it.factor.q.body.selection.value, Scope(Push(env1, frames[i]), None))
      == Ok(IsTrue(EqV(keys[i][0], EvalE(w, OuterSide(it), Scope(env1, None)).value)))
  {
    KeysRead(w, it, frames, keys, env, env1);
    FromBinds(w, it.factor.q.body.from, env);
    LateralCond(w, it, before, frames[0], env1);
    forall i | 0 <= i < |frames|
      ensures EvalCond(w, it.factor.q.body.selection.value, Scope(Push(env1, frames[i]), None))
           == Ok(IsTrue(EqV(keys[i][0], EvalE(w, OuterSide(it), Scope(env1, None)).value)))
    {
      LateralCond(w, it, before, frames[i], env1);
    }
  }

  lemma MatchesFilter(w: World, it: FromItem, f: Frame, env: Env, frames: seq<Frame>)
    requires LateralShape(it) && EvalFrom(w, it.factor.q.body.from, env) == Ok(frames)
    ensures Matches(w, it, f, env) == Filter(w, it.factor.q.body.selection.value, frames, Push(env, f))
  {
    var b := it.factor.q.body;
    InnerRows(w, it, env, Push(env, f));
    assert EvalFrom(w, b.from, Push(env, f)) == Ok(frames);
    assert FilterOpt(w, b.selection, frames, Push(env, f)) == Filter(w, b.selection.value, frames, Push(env, f));
  }

  /** The matches, as the group of the outer value. */
  lemma MatchesAreGroup(w: World, it: FromItem, before: set<string>, f: Frame, env: Env, frames: seq<Frame>, keys: seq<seq<Value>>)
    requires LateralShape(it) && Decorrelates(it, before) && Matches(w, it, f, env).Ok? && frames != []
    requires EvalFrom(w, it.factor.q.body.from, env) == Ok(frames)
    requires EvalKeys(w, [InnerKey(it)], frames, env) == Ok(keys)
    ensures |keys| == |frames|
    ensures EvalE(w, OuterSide(it), Scope(Push(env, f), None)).Ok?
    ensures var o := EvalE(w, OuterSide(it), Scope(Push(env, f), None)).value;
      Matches(w, it, f, env).value == if IsTrue(EqV(o, o)) then WithKey([o], keys, frames) else []
  {
    var env1 := Push(env, f);
    MatchesFilter(w, it, f, env, frames);
    CondsRead(w, it, before, frames, keys, env, env1);
    var o := EvalE(w, OuterSide(it), Scope(env1, None)).value;
    KeptIsGroup(w, it.factor.q.body.selection.value, o, keys, frames, env1);
  }

  lemma OneValueList(w: World, e: Expr, s: Scope)
    ensures EvalEs(w, [e], s) == if EvalE(w, e, s).Ok? then Ok([EvalE(w, e, s).value]) else Error
  {
    assert [e][1..] == [];
    if EvalE(w, e, s).Ok? {
      assert [EvalE(w, e, s).value] + [] == [EvalE(w, e, s).value];
    }
  }

  /** The groups of the rewritten subquery, and its rows. */
  lemma GroupedSide(w: World, it: FromItem, before: set<string>, key: string, env: Env)
    requires LateralShape(it) && Decorrelates(it, before)
    requires EvalQ(w, GroupedQuery(it, key), env).Ok?
    ensures EvalFrom(w, it.factor.q.body.from, env).Ok?
    ensures var frames := EvalFrom(w, it.factor.q.body.from, env).value;
      && EvalKeys(w, [InnerKey(it)], frames, env).Ok?
      && var groups := GroupsOf([InnerKey(it)], EvalKeys(w, [InnerKey(it)], frames, env).value, frames);
         EvalQ(w, GroupedQuery(it, key), env) == EvalGroups(w, GroupedQuery(it, key).body, groups, env)
  {
    var b := GroupedQuery(it, key).body;
    assert Aggregated(b);
    assert EvalQ(w, GroupedQuery(it, key), env) == EvalB(w, b, env);
    assert b.from == it.factor.q.body.from && b.groupBy == [InnerKey(it)] && !b.distinct;
    assert Source(w, b, env) == EvalFrom(w, b.from, env);
    var frames := EvalFrom(w, b.from, env).value;
    assert EvalB(w, b, env) == Output(w, b, frames, env);
  }

  /** The row of the group with key `ks[j]`. */
  lemma GroupedRow(w: World, it: FromItem, before: set<string>, key: string, env: Env, frames: seq<Frame>, keys: seq<seq<Value>>, j: nat)
    requires LateralShape(it) && Decorrelates(it, before)
    requires EvalFrom(w, it.factor.q.body.from, env) == Ok(frames)
    requires EvalKeys(w, [InnerKey(it)], frames, env) == Ok(keys)
    requires EvalQ(w, GroupedQuery(it, key), env).Ok?
    requires j < |Distinct(keys)|
    ensures |keys| == |frames|
    ensures |EvalQ(w, GroupedQuery(it, key), env).value| == |Distinct(keys)|
    ensures var ks := Distinct(keys);
      && |ks[j]| == 1
      && AggregateRow(w, it, WithKey(ks[j], keys, frames), env).Ok?
      && EvalQ(w, GroupedQuery(it, key), env).value[j]
         == [Cell(key, ks[j][0])] + AggregateRow(w, it, WithKey(ks[j], keys, frames), env).value
  {
    GroupedSide(w, it, before, key, env);
    var groups := GroupsOf([InnerKey(it)], keys, frames);
    GroupedRows(w, it, key, groups, env);
    var ks := Distinct(keys);
    KeysRead(w, it, frames, keys, env, env);
    DistinctKeeps(keys);
    assert ks[j] in keys;
    KeysOfFrames(w, [InnerKey(it)], frames, env);
    GroupHasKey(w, [InnerKey(it)], ks[j], keys, frames, env);
    GroupExists(ks[j], keys, frames);
    var g := WithKey(ks[j], keys, frames);
    assert groups[j] == g && KeyedAs(w, it, key, groups[j], EvalQ(w, GroupedQuery(it, key), env).value[j], env);
    OneValueList(w, InnerKey(it), Scope(Push(env, g[0]), None));
    assert EvalE(w, InnerKey(it), GroupScope(it.factor.q.body.from, env, g))
        == EvalE(w, InnerKey(it), Scope(Push(env, g[0]), None));
  }

  /** Which rows of the grouped subquery have a key equal to the outer value. */
  ghost predicate HitsAre(hits: seq<bool>, ks: seq<seq<Value>>, o: Value) {
    && |hits| == |ks|
    && forall j :: 0 <= j < |ks| ==> |ks[j]| == 1 && (hits[j] <==> IsTrue(EqV(ks[j][0], o)))
  }

  /** The new ON condition against all rows of the grouped subquery. */
  lemma GroupedMatching(w: World, it: FromItem, before: set<string>, key: string, f: Frame, env: Env, frames: seq<Frame>, keys: seq<seq<Value>>)
    returns (hits: seq<bool>)
    requires LateralShape(it) && Decorrelates(it, before)
    requires EvalFrom(w, it.factor.q.body.from, env) == Ok(frames)
    requires EvalKeys(w, [InnerKey(it)], frames, env) == Ok(keys)
    requires EvalQ(w, GroupedQuery(it, key), env).Ok?
    requires EvalE(w, OuterSide(it), Scope(Push(env, f), None)).Ok?
    ensures |keys| == |frames|
    ensures |EvalQ(w, GroupedQuery(it, key), env).value| == |Distinct(keys)|
    ensures HitsAre(hits, Distinct(keys), EvalE(w, OuterSide(it), Scope(Push(env, f), None)).value)
    ensures Matching(w, GroupedJoin(it, key).on, it.factor.given, EvalQ(w, GroupedQuery(it, key), env).value, f, env)
         == Ok(Joined(hits, it.factor.given, EvalQ(w, GroupedQuery(it, key), env).value, f))
  {
    var o := EvalE(w, OuterSide(it), Scope(Push(env, f), None)).value;
    var ks := Distinct(keys);
    var rows := EvalQ(w, GroupedQuery(it, key), env).value;
    GroupedSide(w, it, before, key, env);
    GroupedRows(w, it, key, GroupsOf([InnerKey(it)], keys, frames), env);
    KeysRead(w, it, frames, keys, env, env);
    hits := seq(|ks|, j requires 0 <= j < |ks| => |ks[j]| == 1 && IsTrue(EqV(ks[j][0], o)));
    forall j | 0 <= j < |ks|
      ensures |ks[j]| == 1
      ensures EvalCond(w, GroupedJoin(it, key).on, Scope(Push(env, f + [Bound(it.factor.given, rows[j])]), None)) == Ok(hits[j])
    {
      GroupedRow(w, it, before, key, env, frames, keys, j);
      GroupedCond(w, it, before, key, rows[j], f, env);
    }
    MatchingJoins(w, GroupedJoin(it, key).on, it.factor.given, rows, hits, f, env);
  }

  predicate WithKeyColumn(key: string, row: Rec, wider: Rec) {
    wider != [] && wider[0].name == key && wider[1..] == row
  }

  /** Both sides continue an outer row alike, but for the key column the rewrite puts in front. */
  predicate AlikeButKey(a: seq<Frame>, b: seq<Frame>, f: Frame, name: string, key: string) {
    |a| == |b| && forall i :: 0 <= i < |a| ==>
      && |a[i]| == |b[i]| == |f| + 1 && a[i][..|f|] == f && b[i][..|f|] == f
      && a[i][|f|].qual == name && b[i][|f|].qual == name
      && WithKeyColumn(key, a[i][|f|].rec, b[i][|f|].rec)
  }

  /** What the rewritten join finds for an outer row: the row of its group, or nothing. */
  lemma GroupedMatches(w: World, it: FromItem, before: seq<FromItem>, key: string, f: Frame, env: Env)
    requires LateralShape(it) && Decorrelates(it, Names(before)) && Binds(f, before)
    requires Matches(w, it, f, env).Ok? && EvalQ(w, GroupedQuery(it, key), env).Ok?
    requires AggregateRow(w, it, Matches(w, it, f, env).value, Push(env, f)).Ok?
    ensures var kept := Matches(w, it, f, env).value;
      var found := Matching(w, GroupedJoin(it, key).on, it.factor.given, EvalQ(w, GroupedQuery(it, key), env).value, f, env);
      && found.Ok?
      && var row := AggregateRow(w, it, kept, Push(env, f)).value;
         if kept == [] then found.value == []
         else AlikeButKey([f + [Bound(it.factor.given, row)]], found.value, f, it.factor.given, key)
  {
    GroupedSide(w, it, Names(before), key, env);
    var frames := EvalFrom(w, it.factor.q.body.from, env).value;
    var keys := EvalKeys(w, [InnerKey(it)], frames, env).value;
    KeysRead(w, it, frames, keys, env, env);
    if frames == [] {
      MatchesFilter(w, it, f, env, frames);
      assert EvalQ(w, GroupedQuery(it, key), env).value == [];
    } else {
      MatchesAreGroup(w, it, Names(before), f, env, frames, keys);
      var hits := GroupedMatching(w, it, Names(before), key, f, env, frames, keys);
      FoundGroup(w, it, before, key, f, env, frames, keys, hits);
    }
  }

  lemma FoundGroup(w: World, it: FromItem, before: seq<FromItem>, key: string, f: Frame, env: Env, frames: seq<Frame>, keys: seq<seq<Value>>, hits: seq<bool>)
    requires LateralShape(it) && Decorrelates(it, Names(before)) && Binds(f, before) && frames != []
    requires EvalFrom(w, it.factor.q.body.from, env) == Ok(frames)
    requires EvalKeys(w, [InnerKey(it)], frames, env) == Ok(keys) && |keys| == |frames|
    requires Matches(w, it, f, env).Ok? && EvalQ(w, GroupedQuery(it, key), env).Ok?
    requires AggregateRow(w, it, Matches(w, it, f, env).value, Push(env, f)).Ok?
    requires EvalE(w, OuterSide(it), Scope(Push(env, f), None)).Ok?
    requires |EvalQ(w, GroupedQuery(it, key), env).value| == |Distinct(keys)|
    requires HitsAre(hits, Distinct(keys), EvalE(w, OuterSide(it), Scope(Push(env, f), None)).value)
    ensures var kept := Matches(w, it, f, env).value;
      var found := Joined(hits, it.factor.given, EvalQ(w, GroupedQuery(it, key), env).value, f);
      var row := AggregateRow(w, it, kept, Push(env, f)).value;
      if kept == [] then found == []
      else AlikeButKey([f + [Bound(it.factor.given, row)]], found, f, it.factor.given, key)
  {
    var rows := EvalQ(w, GroupedQuery(it, key), env).value;
    var o := EvalE(w, OuterSide(it), Scope(Push(env, f), None)).value;
    var ks := Distinct(keys);
    MatchesAreGroup(w, it, Names(before), f, env, frames, keys);
    GroupExists([o], keys, frames);
    OnlyKey(ks, keys, o);
    if IsTrue(EqV(o, o)) && [o] in keys {
      var j :| 0 <= j < |ks| && ks[j] == [o];
      JoinedOne(hits, it.factor.given, rows, j, f);
      FoundRow(w, it, before, key, f, env, frames, keys, o, j);
    } else {
      JoinedNone(hits, it.factor.given, rows, f);
    }
  }

  /** Of the distinct keys only the outer value's own equals it, and only when it is not NULL. */
  lemma OnlyKey(ks: seq<seq<Value>>, keys: seq<seq<Value>>, o: Value)
    requires ks == Distinct(keys) && forall j :: 0 <= j < |ks| ==> |ks[j]| == 1
    ensures forall j :: 0 <= j < |ks| ==> (IsTrue(EqV(ks[j][0], o)) <==> ks[j] == [o] && IsTrue(EqV(o, o)))
    ensures [o] in keys <==> exists j :: 0 <= j < |ks| && ks[j] == [o]
    ensures forall i, j :: 0 <= i < |ks| && 0 <= j < |ks| && ks[i] == ks[j] ==> i == j
  {
    DistinctKeeps(keys);
    DistinctOnce(keys);
    forall j | 0 <= j < |ks| ensures IsTrue(EqV(ks[j][0], o)) <==> ks[j] == [o] && IsTrue(EqV(o, o)) {
      EqTrueIsSame(ks[j][0], o);
      assert ks[j] == [ks[j][0]];
    }
  }

  lemma FoundRow(w: World, it: FromItem, before: seq<FromItem>, key: string, f: Frame, env: Env, frames: seq<Frame>, keys: seq<seq<Value>>, o: Value, j: nat)
    requires LateralShape(it) && Decorrelates(it, Names(before)) && Binds(f, before)
    requires EvalFrom(w, it.factor.q.body.from, env) == Ok(frames)
    requires EvalKeys(w, [InnerKey(it)], frames, env) == Ok(keys) && EvalQ(w, GroupedQuery(it, key), env).Ok?
    requires j < |Distinct(keys)| && Distinct(keys)[j] == [o]
    ensures |EvalQ(w, GroupedQuery(it, key), env).value| == |Distinct(keys)|
    ensures AggregateRow(w, it, WithKey([o], keys, frames), Push(env, f)).Ok?
    ensures WithKeyColumn(key, AggregateRow(w, it, WithKey([o], keys, frames), Push(env, f)).value,
                          EvalQ(w, GroupedQuery(it, key), env).value[j])
  {
    GroupedRow(w, it, Names(before), key, env, frames, keys, j);
    FromBinds(w, it.factor.q.body.from, env);
    WithKeyBinds([o], keys, frames, it.factor.q.body.from);
    SameAggregateRow(w, it, before, f, WithKey([o], keys, frames), env);
  }

  // --- exactly when the two joins agree ------------------------------------------------------

  /** The row of NULLs a LEFT join pads with. */
  function Padding(w: World, it: FromItem): Rec
    requires LateralShape(it)
  {
    NullRec(FactorCols(w.tables, it.factor))
  }

  lemma PaddingOfGrouped(w: World, it: FromItem, key: string)
    requires LateralShape(it)
    ensures NullRec(FactorCols(w.tables, GroupedJoin(it, key).factor)) == [Cell(key, Null)] + Padding(w, it)
  {
    var b := it.factor.q.body;
    var cols := FromCols(w.tables, b.from);
    var items := [Item(InnerKey(it), Some(key))] + b.proj;
    assert items[1..] == b.proj;
    assert ItemCols(w.tables, items, cols) == [key] + ItemCols(w.tables, b.proj, cols);
    assert FactorCols(w.tables, GroupedJoin(it, key).factor) == [key] + FactorCols(w.tables, it.factor);
  }

  lemma AlikePadding(row: Rec, padding: Rec, f: Frame, d: string, key: string)
    ensures AlikeButKey([f + [Bound(d, row)]], [f + [Bound(d, [Cell(key, Null)] + padding)]], f, d, key)
       <==> row == padding
  {
    var padded := [Cell(key, Null)] + padding;
    assert padded[1..] == padding;
    var a, b := [f + [Bound(d, row)]], [f + [Bound(d, padded)]];
    assert a[0][..|f|] == f && b[0][..|f|] == f;
    assert a[0][|f|].rec == row && b[0][|f|].rec == padded;
  }

  /** One outer row, NULL keys and unmatched rows included: the joins agree exactly when the row
      matches something, or the join is LEFT and the aggregates over nothing are all NULL. */
  lemma LateralExact(w: World, it: FromItem, before: seq<FromItem>, key: string, f: Frame, env: Env)
    requires LateralShape(it) && Decorrelates(it, Names(before)) && Binds(f, before)
    requires JoinOne(w, it, f, env).Ok? && EvalQ(w, GroupedQuery(it, key), env).Ok?
    ensures JoinOne(w, GroupedJoin(it, key), f, env).Ok? && Matches(w, it, f, env).Ok?
    ensures AlikeButKey(JoinOne(w, it, f, env).value, JoinOne(w, GroupedJoin(it, key), f, env).value,
                        f, it.factor.given, key)
       <==> Matches(w, it, f, env).value != []
            || (it.kind == Left && AggregateRow(w, it, [], Push(env, f)) == Ok(Padding(w, it)))
  {
    LateralSide(w, it, Names(before), f, env);
    GroupedMatches(w, it, before, key, f, env);
    PaddingOfGrouped(w, it, key);
    var d := it.factor.given;
    var it' := GroupedJoin(it, key);
    assert EvalFactor(w, it'.factor, f, env) == EvalQ(w, GroupedQuery(it, key), env);
    var found := Matching(w, it'.on, d, EvalQ(w, GroupedQuery(it, key), env).value, f, env).value;
    var row := AggregateRow(w, it, Matches(w, it, f, env).value, Push(env, f)).value;
    AlikePadding(row, Padding(w, it), f, d, key);
    if it.kind == Left && found == [] {
      assert JoinOne(w, it', f, env) == Ok([f + [Bound(d, [Cell(key, Null)] + Padding(w, it))]]);
    } else {
      assert JoinOne(w, it', f, env) == Ok(found);
    }
  }

  // --- aggregates that are NULL over nothing -------------------------------------------------

  /** `count` is not one of them. */
  predicate NullOnEmpty(e: Expr) {
    match e
    case Agg(fn, _) => fn != Count
    case Lit(v) => v == Null
    case Nested(x) => NullOnEmpty(x)
    case Cmp(_, l, r) => NullOnEmpty(l) && NullOnEmpty(r)
    case _ => false
  }

  lemma {:induction false} NullOverNothing(w: World, e: Expr, env: Env)
    requires NullOnEmpty(e)
    ensures EvalE(w, e, Scope(env, Some([]))) == Ok(Null)
    decreases e
  {
    match e
    case Agg(_, _) =>
    case Lit(_) =>
    case Nested(x) => NullOverNothing(w, x, env);
    case Cmp(_, l, r) => NullOverNothing(w, l, env); NullOverNothing(w, r, env);
  }

  lemma {:induction false} NullRow(w: World, items: seq<Item>, f: Frame, env: Env, all: seq<string>)
    requires forall i :: 0 <= i < |items| ==> items[i].Item? && NullOnEmpty(items[i].e)
    ensures EvalItems(w, items, f, Scope(env, Some([]))) == Ok(NullRec(ItemCols(w.tables, items, all)))
    decreases |items|
  {
    if items == [] {
      assert NullRec([]) == [];
    } else {
      NullOverNothing(w, items[0].e, env);
      NullRow(w, items[1..], f, env, all);
      var cols, rest := ItemCols(w.tables, items, all), ItemCols(w.tables, items[1..], all);
      assert NullRec(cols) == [Cell(cols[0], Null)] + NullRec(rest);
    }
  }

  /** So a LEFT join of such aggregates can always be rewritten. */
  lemma NullAggregatesAgree(w: World, it: FromItem, env: Env)
    requires LateralShape(it)
    requires forall i :: 0 <= i < |it.factor.q.body.proj| ==>
      it.factor.q.body.proj[i].Item? && NullOnEmpty(it.factor.q.body.proj[i].e)
    ensures AggregateRow(w, it, [], env) == Ok(Padding(w, it))
  {
    var b := it.factor.q.body;
    var s := GroupScope(b.from, env, []);
    assert Envs(env, []) == [];
    assert AggregateRow(w, it, [], env) == EvalItems(w, b.proj, GroupFrame(b.from, []), s);
    NullRow(w, b.proj, GroupFrame(b.from, []), s.env, FromCols(w.tables, b.from));
    assert BodyCols(w.tables, b) == ItemCols(w.tables, b.proj, FromCols(w.tables, b.from));
  }
}

/** The rewrite inside a SELECT: any join of the FROM clause, whatever else the SELECT does. */
module LateralSelect {
  import opened Wrappers
  import opened SqlValues
  import opened SqlAst
  import opened SqlEval
  import opened SqlScope
  import opened FrameViews
  import opened LateralAggregate
  import Decimal

  function Decorrelated(b: Body, n: nat, key: string): Body
    requires b.Select? && n < |b.from| && LateralShape(b.from[n])
  {
    b.(from := b.from[n := GroupedJoin(b.from[n], key)])
  }

  /** The pass invents the key column's name, so nothing else mentions it. */
  predicate FreshKey(b: Body, n: nat, key: string)
    requires b.Select? && n < |b.from| && LateralShape(b.from[n])
  {
    var d := b.from[n].factor.given;
    && key != d && NoWildcard(b.proj)
    && Ref(d, key) !in FreeClauses(b) + AllUses(b.from[n + 1..])
  }

  /** When an outer row may be rewritten; see `LateralExact`. */
  ghost predicate RowAgrees(w: World, it: FromItem, f: Frame, env: Env)
    requires LateralShape(it)
  {
    JoinOne(w, it, f, env).Ok? ==>
      && Matches(w, it, f, env).Ok?
      && (Matches(w, it, f, env).value != []
          || (it.kind == Left && AggregateRow(w, it, [], Push(env, f)) == Ok(Padding(w, it))))
  }

  lemma AlikeFound(r: Ref, env: Env, d: string, key: string, row: Rec, wider: Rec)
    requires WithKeyColumn(key, row, wider) && r != Ref(d, key) && key != d
    ensures Found(map[], env[d := row], r) == Found(map[], env[d := wider], r)
  {
  }

  lemma AlikeViews(refs: set<Ref>, env: Env, a: seq<Frame>, b: seq<Frame>, f: Frame, d: string, key: string)
    requires AlikeButKey(a, b, f, d, key) && Ref(d, key) !in refs && key != d
    ensures Views(refs, env, a, b)
  {
    forall i | 0 <= i < |a| ensures SameView(map[], refs, Push(env, a[i]), Push(env, b[i])) {
      assert a[i] == f + [a[i][|f|]] && b[i] == f + [b[i][|f|]];
      PushOne(env, f, a[i][|f|]);
      PushOne(env, f, b[i][|f|]);
      forall r | r in refs ensures Found(map[], Push(env, a[i]), r) == Found(map[], Push(env, b[i]), r) {
        AlikeFound(r, Push(env, f), d, key, a[i][|f|].rec, b[i][|f|].rec);
      }
    }
  }

  lemma {:induction false} JoinAllAlike(w: World, it: FromItem, before: seq<FromItem>, key: string, frames: seq<Frame>, refs: set<Ref>, env: Env)
    requires LateralShape(it) && Decorrelates(it, Names(before))
    requires Ref(it.factor.given, key) !in refs && key != it.factor.given
    requires forall i :: 0 <= i < |frames| ==> Binds(frames[i], before) && RowAgrees(w, it, frames[i], env)
    requires JoinAll(w, it, frames, env).Ok? && EvalQ(w, GroupedQuery(it, key), env).Ok?
    ensures ViewsOk(refs, env, JoinAll(w, it, frames, env), JoinAll(w, GroupedJoin(it, key), frames, env))
    decreases |frames|
  {
    if frames != [] {
      var it' := GroupedJoin(it, key);
      JoinAllAlike(w, it, before, key, frames[1..], refs, env);
      LateralExact(w, it, before, key, frames[0], env);
      var x, y := JoinOne(w, it, frames[0], env).value, JoinOne(w, it', frames[0], env).value;
      AlikeViews(refs, env, x, y, frames[0], it.factor.given, key);
      AppendViews(refs, env, x, y, JoinAll(w, it, frames[1..], env).value, JoinAll(w, it', frames[1..], env).value);
    }
  }

  /** The outer rows the join starts from. */
  ghost predicate AllRowsAgree(w: World, b: Body, n: nat, env: Env)
    requires b.Select? && n < |b.from| && LateralShape(b.from[n])
  {
    var outer := EvalFrom(w, b.from[..n], env);
    outer.Ok? ==> forall i :: 0 <= i < |outer.value| ==> RowAgrees(w, b.from[n], outer.value[i], env)
  }

  /** The rows of the two FROM clauses look the same to every reference after the join. */
  lemma FromAlike(w: World, it: FromItem, before: seq<FromItem>, rest: seq<FromItem>, key: string, refs: set<Ref>, env: Env)
    requires LateralShape(it) && Decorrelates(it, Names(before)) && EvalQ(w, GroupedQuery(it, key), env).Ok?
    requires AllUses(rest) <= refs && Ref(it.factor.given, key) !in refs && key != it.factor.given
    requires EvalFrom(w, before + ([it] + rest), env).Ok?
    requires EvalFrom(w, before, env).Ok?
    requires forall i :: 0 <= i < |EvalFrom(w, before, env).value| ==>
      RowAgrees(w, it, EvalFrom(w, before, env).value[i], env)
    ensures ViewsOk(refs, env, EvalFrom(w, before + ([it] + rest), env),
                    EvalFrom(w, before + ([GroupedJoin(it, key)] + rest), env))
  {
    var it' := GroupedJoin(it, key);
    FromSplits(w, before, [it] + rest, env);
    FromSplits(w, before, [it'] + rest, env);
    var outer := EvalFrom(w, before, env).value;
    FromBinds(w, before, env);
    RestStep(w, it, rest, outer, env);
    RestStep(w, it', rest, outer, env);
    JoinAllAlike(w, it, before, key, outer, refs, env);
    JoinRestViews(w, refs, rest, JoinAll(w, it, outer, env).value, JoinAll(w, it', outer, env).value, env);
  }

  lemma RowsOf(w: World, b: Body, env: Env)
    requires b.Select? && EvalB(w, b, env).Ok?
    ensures EvalFrom(w, b.from, env).Ok?
  {
  }

  lemma Split(b: Body, n: nat, key: string)
    requires b.Select? && n < |b.from| && LateralShape(b.from[n])
    ensures b.from == b.from[..n] + ([b.from[n]] + b.from[n + 1..])
    ensures Decorrelated(b, n, key).from == b.from[..n] + ([GroupedJoin(b.from[n], key)] + b.from[n + 1..])
    ensures SameButFrom(b, Decorrelated(b, n, key))
  {
  }

  /** The whole SELECT returns the same rows, when every outer row matches or is padded alike. */
  lemma LateralKeepsRows(w: World, b: Body, n: nat, key: string, env: Env)
    requires b.Select? && n < |b.from| && LateralShape(b.from[n])
    requires Decorrelates(b.from[n], Names(b.from[..n])) && FreshKey(b, n, key)
    requires EvalB(w, b, env).Ok? && EvalQ(w, GroupedQuery(b.from[n], key), env).Ok?
    requires AllRowsAgree(w, b, n, env)
    ensures EvalB(w, Decorrelated(b, n, key), env) == EvalB(w, b, env)
  {
    var c, refs := Decorrelated(b, n, key), FreeClauses(b) + AllUses(b.from[n + 1..]);
    RowsOf(w, b, env);
    FromViews(w, b, n, key, env);
    SelectViews(w, refs, b, c, EvalFrom(w, b.from, env).value, EvalFrom(w, c.from, env).value, env);
  }

  lemma FromViews(w: World, b: Body, n: nat, key: string, env: Env)
    requires b.Select? && n < |b.from| && LateralShape(b.from[n])
    requires Decorrelates(b.from[n], Names(b.from[..n])) && FreshKey(b, n, key)
    requires EvalFrom(w, b.from, env).Ok? && EvalQ(w, GroupedQuery(b.from[n], key), env).Ok?
    requires AllRowsAgree(w, b, n, env)
    ensures ViewsOk(FreeClauses(b) + AllUses(b.from[n + 1..]), env,
                    EvalFrom(w, b.from, env), EvalFrom(w, Decorrelated(b, n, key).from, env))
    ensures SameButFrom(b, Decorrelated(b, n, key))
  {
    var it, before, rest := b.from[n], b.from[..n], b.from[n + 1..];
    Split(b, n, key);
    FromSplits(w, before, [it] + rest, env);
    FromAlike(w, it, before, rest, key, FreeClauses(b) + AllUses(rest), env);
  }

  lemma RestStep(w: World, it: FromItem, rest: seq<FromItem>, frames: seq<Frame>, env: Env)
    ensures JoinRest(w, [it] + rest, frames, env)
         == if JoinAll(w, it, frames, env).Ok? then JoinRest(w, rest, JoinAll(w, it, frames, env).value, env) else Error
  {
    assert ([it] + rest)[1..] == rest;
  }

  /** A LEFT join of aggregates that are NULL over nothing needs no look at the data. */
  lemma LeftNullAggregates(w: World, b: Body, n: nat, env: Env)
    requires b.Select? && n < |b.from| && LateralShape(b.from[n]) && b.from[n].kind == Left
    requires Decorrelates(b.from[n], Names(b.from[..n]))
    requires forall i :: 0 <= i < |b.from[n].factor.q.body.proj| ==>
      b.from[n].factor.q.body.proj[i].Item? && NullOnEmpty(b.from[n].factor.q.body.proj[i].e)
    ensures AllRowsAgree(w, b, n, env)
  {
    var outer := EvalFrom(w, b.from[..n], env);
    if outer.Ok? {
      forall i | 0 <= i < |outer.value| ensures RowAgrees(w, b.from[n], outer.value[i], env) {
        NullAggregatesAgree(w, b.from[n], Push(env, outer.value[i]));
        if JoinOne(w, b.from[n], outer.value[i], env).Ok? {
          LateralSide(w, b.from[n], Names(b.from[..n]), outer.value[i], env);
        }
      }
    }
  }

  // --- every join of one FROM clause ---------------------------------------------------------

  const KEY := "__decorr_key_"

  /** The name of the key column the pass makes at this number. */
  function KeyName(k: nat): string {
    KEY + Decimal.OfNat(k)
  }

  predicate IsKey(x: string) {
    |x| >= |KEY| && x[..|KEY|] == KEY
  }

  /** The walk over a FROM clause, with the counter. */
  function DecorrelateFrom(from: seq<FromItem>, k: nat): (r: (seq<FromItem>, nat))
    ensures |r.0| == |from|
  {
    if from == [] then ([], k)
    else
      var n := |from| - 1;
      var (front, k1) := DecorrelateFrom(from[..n], k);
      if LateralShape(from[n]) then (front + [GroupedJoin(from[n], KeyName(k1))], k1 + 1) else (front + [from[n]], k1)
  }

  /** The loop over the joins, which replaces each in place. */
  method DecorrelateLoop(from: seq<FromItem>, counter: nat) returns (out: seq<FromItem>, next: nat)
    ensures (out, next) == DecorrelateFrom(from, counter)
  {
    out, next := [], counter;
    for i := 0 to |from|
      invariant (out, next) == DecorrelateFrom(from[..i], counter)
    {
      assert from[..i + 1][..i] == from[..i];
      if LateralShape(from[i]) {
        out := out + [GroupedJoin(from[i], KeyName(next))];
        next := next + 1;
      } else {
        out := out + [from[i]];
      }
    }
    assert from[..|from|] == from;
  }

  /** What a caller checks of one join: LEFT, aggregates that are NULL over nothing, and nothing
      written after it names a column of the subquery like a made key. */
  predicate Decorrelatable(b: Body, i: nat)
    requires b.Select? && i < |b.from| && LateralShape(b.from[i])
  {
    var it := b.from[i];
    && it.kind == Left && Decorrelates(it, Names(b.from[..i])) && !IsKey(it.factor.given)
    && (forall j :: 0 <= j < |it.factor.q.body.proj| ==>
          it.factor.q.body.proj[j].Item? && NullOnEmpty(it.factor.q.body.proj[j].e))
    && (forall r :: r in FreeClauses(b) + AllUses(b.from[i + 1..]) && r.Ref? && r.qual == it.factor.given ==> !IsKey(r.name))
  }

  /** The first `n` items as the pass leaves them, the others as written. */
  function Upto(b: Body, k: nat, n: nat): Body
    requires b.Select? && n <= |b.from|
  {
    b.(from := DecorrelateFrom(b.from[..n], k).0 + b.from[n..])
  }

  lemma {:induction false} SameNames(from: seq<FromItem>, k: nat)
    ensures Names(DecorrelateFrom(from, k).0) == Names(from)
  {
    var out := DecorrelateFrom(from, k).0;
    forall i | 0 <= i < |from| ensures FactorName(out[i].factor) == FactorName(from[i].factor) {
      NameStays(from, k, i);
    }
    forall x ensures x in Names(out) <==> x in Names(from) {
      if x in Names(out) {
        var i :| 0 <= i < |out| && x == FactorName(out[i].factor);
        assert FactorName(from[i].factor) == x;
      }
      if x in Names(from) {
        var i :| 0 <= i < |from| && x == FactorName(from[i].factor);
        assert FactorName(out[i].factor) == x;
      }
    }
  }

  lemma {:induction false} NameStays(from: seq<FromItem>, k: nat, i: nat)
    requires i < |from|
    ensures FactorName(DecorrelateFrom(from, k).0[i].factor) == FactorName(from[i].factor)
    decreases |from|
  {
    if i < |from| - 1 {
      NameStays(from[..|from| - 1], k, i);
    }
  }

  /** One more item. */
  lemma UptoNext(b: Body, k: nat, n: nat)
    requires b.Select? && n < |b.from|
    ensures var k1 := DecorrelateFrom(b.from[..n], k).1;
      && Upto(b, k, n).from[n] == b.from[n] && |Upto(b, k, n).from| == |b.from|
      && Upto(b, k, n + 1) == (if LateralShape(b.from[n]) then Decorrelated(Upto(b, k, n), n, KeyName(k1)) else Upto(b, k, n))
  {
    var front, k1 := DecorrelateFrom(b.from[..n], k).0, DecorrelateFrom(b.from[..n], k).1;
    assert b.from[..n + 1][..n] == b.from[..n] && b.from[..n + 1][n] == b.from[n];
    assert b.from[n..] == [b.from[n]] + b.from[n + 1..];
    var at := Upto(b, k, n).from;
    assert at == front + ([b.from[n]] + b.from[n + 1..]);
    if LateralShape(b.from[n]) {
      var joined := GroupedJoin(b.from[n], KeyName(k1));
      assert at[n := joined] == front + [joined] + b.from[n + 1..];
    } else {
      assert at == front + [b.from[n]] + b.from[n + 1..];
    }
  }

  lemma KeyStaysFresh(b: Body, k: nat, n: nat, j: nat)
    requires b.Select? && n < |b.from| && LateralShape(b.from[n]) && NoWildcard(b.proj) && Decorrelatable(b, n)
    requires Upto(b, k, n).from[n] == b.from[n] && |Upto(b, k, n).from| == |b.from|
    ensures FreshKey(Upto(b, k, n), n, KeyName(j))
    ensures Decorrelates(b.from[n], Names(Upto(b, k, n).from[..n]))
  {
    var c := Upto(b, k, n);
    SameNames(b.from[..n], k);
    assert c.from[..n] == DecorrelateFrom(b.from[..n], k).0 && c.from[n + 1..] == b.from[n + 1..];
    assert FreeClauses(c) == FreeClauses(b);
    assert KeyName(j)[..|KEY|] == KEY && IsKey(KeyName(j));
  }

  /** Every join the pass replaces in one FROM clause, with the keys it numbers: the SELECT returns
      the same rows. Each grouped subquery is asked to raise no error. */
  lemma {:induction false} LateralsKeepRows(w: World, b: Body, k: nat, n: nat, env: Env)
    requires b.Select? && n <= |b.from| && NoWildcard(b.proj) && EvalB(w, b, env).Ok?
    requires forall i :: 0 <= i < |b.from| && LateralShape(b.from[i]) ==> Decorrelatable(b, i)
    requires forall i, j: nat :: 0 <= i < |b.from| && LateralShape(b.from[i]) ==> EvalQ(w, GroupedQuery(b.from[i], KeyName(j)), env).Ok?
    ensures EvalB(w, Upto(b, k, n), env) == EvalB(w, b, env)
    decreases n
  {
    if n == 0 {
      assert Upto(b, k, 0).from == b.from;
    } else {
      LateralsKeepRows(w, b, k, n - 1, env);
      UptoNext(b, k, n - 1);
      if LateralShape(b.from[n - 1]) {
        NextKeeps(w, b, k, n - 1, env);
      }
    }
  }

  lemma {:induction false} NextKeeps(w: World, b: Body, k: nat, n: nat, env: Env)
    requires b.Select? && n < |b.from| && LateralShape(b.from[n]) && NoWildcard(b.proj) && Decorrelatable(b, n)
    requires Upto(b, k, n).from[n] == b.from[n] && |Upto(b, k, n).from| == |b.from| && EvalB(w, Upto(b, k, n), env).Ok?
    requires forall j: nat :: EvalQ(w, GroupedQuery(b.from[n], KeyName(j)), env).Ok?
    ensures EvalB(w, Decorrelated(Upto(b, k, n), n, KeyName(DecorrelateFrom(b.from[..n], k).1)), env) == EvalB(w, Upto(b, k, n), env)
  {
    var c, j := Upto(b, k, n), DecorrelateFrom(b.from[..n], k).1;
    KeyStaysFresh(b, k, n, j);
    LeftNullAggregates(w, c, n, env);
    LateralKeepsRows(w, c, n, KeyName(j), env);
  }

  /** The whole clause. */
  lemma LateralPassKeepsRows(w: World, b: Body, k: nat, env: Env)
    requires b.Select? && NoWildcard(b.proj) && EvalB(w, b, env).Ok?
    requires forall i :: 0 <= i < |b.from| && LateralShape(b.from[i]) ==> Decorrelatable(b, i)
    requires forall i, j: nat :: 0 <= i < |b.from| && LateralShape(b.from[i]) ==> EvalQ(w, GroupedQuery(b.from[i], KeyName(j)), env).Ok?
    ensures EvalB(w, b.(from := DecorrelateFrom(b.from, k).0), env) == EvalB(w, b, env)
  {
    LateralsKeepRows(w, b, k, |b.from|, env);
    assert b.from[..|b.from|] == b.from && b.from[|b.from|..] == [];
    assert Upto(b, k, |b.from|) == b.(from := DecorrelateFrom(b.from, k).0);
  }
}
