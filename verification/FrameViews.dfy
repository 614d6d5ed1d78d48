/** What follows a FROM item in a SELECT depends on the item's rows only through the columns it
    refers to. */
module FrameViews {
  import opened Wrappers
  import opened SqlValues
  import opened SqlAst
  import opened SqlEval
  import opened SqlVisit
  import opened SqlCarry
  import opened SqlScope

  /** FROM rows that look the same to these references, position by position. */
  ghost predicate Views(refs: set<Ref>, env: Env, as_: seq<Frame>, bs: seq<Frame>) {
    |as_| == |bs| && forall i :: 0 <= i < |as_| ==> SameView(map[], refs, Push(env, as_[i]), Push(env, bs[i]))
  }

  ghost predicate ViewsOk(refs: set<Ref>, env: Env, a: Result<seq<Frame>>, b: Result<seq<Frame>>) {
    a.Ok? == b.Ok? && (a.Ok? ==> Views(refs, env, a.value, b.value))
  }

  /** The references of a FROM item, its siblings' columns included. */
  function Uses(it: FromItem): set<Ref> {
    FreeFactor(it.factor, {}) + FreeE(it.on)
  }

  function AllUses(from: seq<FromItem>): set<Ref> {
    if from == [] then {} else Uses(from[0]) + AllUses(from[1..])
  }

  /** The items of a FROM clause from some point on, over the rows before it. */
  function JoinRest(w: World, rest: seq<FromItem>, frames: seq<Frame>, env: Env): Result<seq<Frame>> {
    if rest == [] then Ok(frames)
    else
      var joined :- JoinAll(w, rest[0], frames, env);
      JoinRest(w, rest[1..], joined, env)
  }

  lemma {:induction false} FromSplits(w: World, before: seq<FromItem>, rest: seq<FromItem>, env: Env)
    ensures EvalFrom(w, before + rest, env)
         == if EvalFrom(w, before, env).Ok? then JoinRest(w, rest, EvalFrom(w, before, env).value, env) else Error
    decreases |rest|
  {
    if rest == [] {
      assert before + rest == before;
    } else {
      var more := before + [rest[0]];
      assert before + rest == more + rest[1..];
      assert more[..|more| - 1] == before;
      FromSplits(w, more, rest[1..], env);
    }
  }

  lemma FoundExtended(r: Ref, env1: Env, env2: Env, x: string, rec: Rec)
    requires Found(map[], env1, r) == Found(map[], env2, r)
    ensures Found(map[], env1[x := rec], r) == Found(map[], env2[x := rec], r)
  {
  }

  lemma ExtendView(refs: set<Ref>, env: Env, f: Frame, g: Frame, b: Bound)
    requires SameView(map[], refs, Push(env, f), Push(env, g))
    ensures SameView(map[], refs, Push(env, f + [b]), Push(env, g + [b]))
  {
    PushOne(env, f, b);
    PushOne(env, g, b);
    var env1, env2 := Push(env, f), Push(env, g);
    forall r | r in refs ensures Found(map[], env1[b.qual := b.rec], r) == Found(map[], env2[b.qual := b.rec], r) {
      FoundExtended(r, env1, env2, b.qual, b.rec);
    }
  }

  lemma ConsViews(refs: set<Ref>, env: Env, f: Frame, g: Frame, as_: seq<Frame>, bs: seq<Frame>)
    requires Views(refs, env, as_, bs) && SameView(map[], refs, Push(env, f), Push(env, g))
    ensures Views(refs, env, [f] + as_, [g] + bs)
  {
  }

  lemma AppendViews(refs: set<Ref>, env: Env, as1: seq<Frame>, bs1: seq<Frame>, as2: seq<Frame>, bs2: seq<Frame>)
    requires Views(refs, env, as1, bs1) && Views(refs, env, as2, bs2)
    ensures Views(refs, env, as1 + as2, bs1 + bs2)
  {
  }

  lemma TailViews(refs: set<Ref>, env: Env, as_: seq<Frame>, bs: seq<Frame>)
    requires Views(refs, env, as_, bs) && as_ != []
    ensures Views(refs, env, as_[1..], bs[1..])
    ensures SameView(map[], refs, Push(env, as_[0]), Push(env, bs[0]))
  {
  }

  lemma NarrowView(small: set<Ref>, refs: set<Ref>, env1: Env, env2: Env)
    requires small <= refs && SameView(map[], refs, env1, env2)
    ensures SameView(map[], small, env1, env2)
  {
  }

  lemma {:induction false} MatchingViews(w: World, refs: set<Ref>, on: Expr, name: string, recs: seq<Rec>, f: Frame, g: Frame, env: Env)
    requires FreeE(on) <= refs && SameView(map[], refs, Push(env, f), Push(env, g))
    ensures ViewsOk(refs, env, Matching(w, on, name, recs, f, env), Matching(w, on, name, recs, g, env))
    decreases |recs|
  {
    if recs != [] {
      var b := Bound(name, recs[0]);
      var x, y := Matching(w, on, name, recs[1..], f, env), Matching(w, on, name, recs[1..], g, env);
      MatchingViews(w, refs, on, name, recs[1..], f, g, env);
      OnViews(w, refs, on, b, f, g, env);
      MatchingStep(w, on, name, recs, f, env);
      MatchingStep(w, on, name, recs, g, env);
      if x.Ok? {
        ConsViews(refs, env, f + [b], g + [b], x.value, y.value);
      }
    }
  }

  lemma OnViews(w: World, refs: set<Ref>, on: Expr, b: Bound, f: Frame, g: Frame, env: Env)
    requires FreeE(on) <= refs && SameView(map[], refs, Push(env, f), Push(env, g))
    ensures SameView(map[], refs, Push(env, f + [b]), Push(env, g + [b]))
    ensures EvalCond(w, on, Scope(Push(env, f + [b]), None)) == EvalCond(w, on, Scope(Push(env, g + [b]), None))
  {
    ExtendView(refs, env, f, g, b);
    NarrowView(FreeE(on), refs, Push(env, f + [b]), Push(env, g + [b]));
    Coincide(w, w, on, Scope(Push(env, f + [b]), None), Scope(Push(env, g + [b]), None));
  }

  lemma FactorViews(w: World, refs: set<Ref>, t: Factor, f: Frame, g: Frame, env: Env)
    requires FreeFactor(t, {}) <= refs && SameView(map[], refs, Push(env, f), Push(env, g))
    ensures EvalFactor(w, t, f, env) == EvalFactor(w, t, g, env)
  {
    match t
    case Table(_, _, _) =>
    case Derived(q, _, lateral) =>
      if lateral {
        assert Without(FreeB(q.body), {}) == FreeB(q.body);
        CoincideQ(w, w, q, Push(env, f), Push(env, g));
      }
    case Series(lo, hi, _) =>
      assert Without(FreeE(lo) + FreeE(hi), {}) == FreeE(lo) + FreeE(hi);
      Coincide(w, w, lo, Scope(Push(env, f), None), Scope(Push(env, g), None));
      Coincide(w, w, hi, Scope(Push(env, f), None), Scope(Push(env, g), None));
  }

  lemma JoinOneViews(w: World, refs: set<Ref>, it: FromItem, f: Frame, g: Frame, env: Env)
    requires Uses(it) <= refs && SameView(map[], refs, Push(env, f), Push(env, g))
    ensures ViewsOk(refs, env, JoinOne(w, it, f, env), JoinOne(w, it, g, env))
  {
    FactorViews(w, refs, it.factor, f, g, env);
    var recs := EvalFactor(w, it.factor, f, env);
    if recs.Ok? {
      var name := FactorName(it.factor);
      MatchingViews(w, refs, it.on, name, recs.value, f, g, env);
      var b := Bound(name, NullRec(FactorCols(w.tables, it.factor)));
      ExtendView(refs, env, f, g, b);
      JoinOnePads(w, it, f, env);
      JoinOnePads(w, it, g, env);
      PaddedViews(refs, env, it.kind.Left?, Matching(w, it.on, name, recs.value, f, env), Matching(w, it.on, name, recs.value, g, env),
                  f + [b], g + [b]);
    }
  }

  /** LEFT continues a row that nothing matches with a row of NULLs. */
  function Padded(left: bool, matches: Result<seq<Frame>>, pad: Frame): Result<seq<Frame>> {
    var ms :- matches;
    Ok(if left && ms == [] then [pad] else ms)
  }

  lemma JoinOnePads(w: World, it: FromItem, f: Frame, env: Env)
    requires EvalFactor(w, it.factor, f, env).Ok?
    ensures var name := FactorName(it.factor);
      JoinOne(w, it, f, env)
      == Padded(it.kind.Left?, Matching(w, it.on, name, EvalFactor(w, it.factor, f, env).value, f, env),
                f + [Bound(name, NullRec(FactorCols(w.tables, it.factor)))])
  {
  }

  lemma PaddedViews(refs: set<Ref>, env: Env, left: bool, xs: Result<seq<Frame>>, ys: Result<seq<Frame>>, x: Frame, y: Frame)
    requires ViewsOk(refs, env, xs, ys) && SameView(map[], refs, Push(env, x), Push(env, y))
    ensures ViewsOk(refs, env, Padded(left, xs, x), Padded(left, ys, y))
  {
  }

  lemma {:induction false} JoinAllViews(w: World, refs: set<Ref>, it: FromItem, as_: seq<Frame>, bs: seq<Frame>, env: Env)
    requires Uses(it) <= refs && Views(refs, env, as_, bs)
    ensures ViewsOk(refs, env, JoinAll(w, it, as_, env), JoinAll(w, it, bs, env))
    decreases |as_|
  {
    if as_ != [] {
      TailViews(refs, env, as_, bs);
      JoinOneViews(w, refs, it, as_[0], bs[0], env);
      JoinAllViews(w, refs, it, as_[1..], bs[1..], env);
      var x1, y1 := JoinOne(w, it, as_[0], env), JoinOne(w, it, bs[0], env);
      var x2, y2 := JoinAll(w, it, as_[1..], env), JoinAll(w, it, bs[1..], env);
      if x1.Ok? && x2.Ok? {
        AppendViews(refs, env, x1.value, y1.value, x2.value, y2.value);
      }
    }
  }

  lemma {:induction false} JoinRestViews(w: World, refs: set<Ref>, rest: seq<FromItem>, as_: seq<Frame>, bs: seq<Frame>, env: Env)
    requires AllUses(rest) <= refs && Views(refs, env, as_, bs)
    ensures ViewsOk(refs, env, JoinRest(w, rest, as_, env), JoinRest(w, rest, bs, env))
    decreases |rest|
  {
    if rest != [] {
      JoinAllViews(w, refs, rest[0], as_, bs, env);
      var a, b := JoinAll(w, rest[0], as_, env), JoinAll(w, rest[0], bs, env);
      if a.Ok? {
        JoinRestViews(w, refs, rest[1..], a.value, b.value, env);
      }
    }
  }

  lemma {:induction false} FilterViews(w: World, refs: set<Ref>, cond: Expr, as_: seq<Frame>, bs: seq<Frame>, env: Env)
    requires FreeE(cond) <= refs && Views(refs, env, as_, bs)
    ensures ViewsOk(refs, env, Filter(w, cond, as_, env), Filter(w, cond, bs, env))
    decreases |as_|
  {
    if as_ != [] {
      TailViews(refs, env, as_, bs);
      FilterViews(w, refs, cond, as_[1..], bs[1..], env);
      CondViews(w, refs, cond, as_[0], bs[0], env);
      var x, y := Filter(w, cond, as_[1..], env), Filter(w, cond, bs[1..], env);
      if x.Ok? {
        ConsViews(refs, env, as_[0], bs[0], x.value, y.value);
      }
    }
  }

  lemma CondViews(w: World, refs: set<Ref>, cond: Expr, f: Frame, g: Frame, env: Env)
    requires FreeE(cond) <= refs && SameView(map[], refs, Push(env, f), Push(env, g))
    ensures EvalCond(w, cond, Scope(Push(env, f), None)) == EvalCond(w, cond, Scope(Push(env, g), None))
  {
    NarrowView(FreeE(cond), refs, Push(env, f), Push(env, g));
    Coincide(w, w, cond, Scope(Push(env, f), None), Scope(Push(env, g), None));
  }

  predicate NoWildcard(items: seq<Item>) {
    forall i :: 0 <= i < |items| ==> items[i].Item?
  }

  lemma {:induction false} ItemsViews(w: World, items: seq<Item>, f: Frame, g: Frame, s1: Scope, s2: Scope)
    requires NoWildcard(items) && SameScope(map[], FreeItems(items), s1, s2)
    ensures EvalItems(w, items, f, s1) == EvalItems(w, items, g, s2)
    decreases |items|
  {
    if items != [] {
      assert FreeItem(items[0]) == FreeE(items[0].e);
      NarrowScope(map[], FreeE(items[0].e), FreeItems(items), s1, s2);
      Coincide(w, w, items[0].e, s1, s2);
      NarrowScope(map[], FreeItems(items[1..]), FreeItems(items), s1, s2);
      ItemsViews(w, items[1..], f, g, s1, s2);
    }
  }

  lemma {:induction false} RowsViews(w: World, refs: set<Ref>, items: seq<Item>, as_: seq<Frame>, bs: seq<Frame>, env: Env)
    requires NoWildcard(items) && FreeItems(items) <= refs && Views(refs, env, as_, bs)
    ensures EvalRows(w, items, as_, env) == EvalRows(w, items, bs, env)
    decreases |as_|
  {
    if as_ != [] {
      ItemsViews(w, items, as_[0], bs[0], Scope(Push(env, as_[0]), None), Scope(Push(env, bs[0]), None));
      RowsViews(w, refs, items, as_[1..], bs[1..], env);
    }
  }

  lemma {:induction false} EsViews(w: World, es: seq<Expr>, s1: Scope, s2: Scope)
    requires SameScope(map[], FreeEs(es), s1, s2)
    ensures EvalEs(w, es, s1) == EvalEs(w, es, s2)
    decreases |es|
  {
    if es != [] {
      Coincide(w, w, es[0], s1, s2);
      EsViews(w, es[1..], s1, s2);
    }
  }

  lemma {:induction false} KeysViews(w: World, refs: set<Ref>, keys: seq<Expr>, as_: seq<Frame>, bs: seq<Frame>, env: Env)
    requires FreeEs(keys) <= refs && Views(refs, env, as_, bs)
    ensures EvalKeys(w, keys, as_, env) == EvalKeys(w, keys, bs, env)
    decreases |as_|
  {
    if as_ != [] {
      EsViews(w, keys, Scope(Push(env, as_[0]), None), Scope(Push(env, bs[0]), None));
      KeysViews(w, refs, keys, as_[1..], bs[1..], env);
    }
  }

  lemma {:induction false} WithKeyViews(refs: set<Ref>, k: seq<Value>, keys: seq<seq<Value>>, as_: seq<Frame>, bs: seq<Frame>, env: Env)
    requires Views(refs, env, as_, bs)
    ensures Views(refs, env, WithKey(k, keys, as_), WithKey(k, keys, bs))
    decreases |as_|
  {
    if keys != [] && as_ != [] {
      WithKeyViews(refs, k, keys[1..], as_[1..], bs[1..], env);
    }
  }

  ghost predicate GroupsView(refs: set<Ref>, env: Env, as_: seq<seq<Frame>>, bs: seq<seq<Frame>>) {
    |as_| == |bs| && forall i :: 0 <= i < |as_| ==> Views(refs, env, as_[i], bs[i])
  }

  lemma GroupsOfView(refs: set<Ref>, groupBy: seq<Expr>, keys: seq<seq<Value>>, as_: seq<Frame>, bs: seq<Frame>, env: Env)
    requires Views(refs, env, as_, bs)
    ensures GroupsView(refs, env, GroupsOf(groupBy, keys, as_), GroupsOf(groupBy, keys, bs))
  {
    if groupBy != [] {
      var ks := Distinct(keys);
      forall i | 0 <= i < |ks| ensures Views(refs, env, WithKey(ks[i], keys, as_), WithKey(ks[i], keys, bs)) {
        WithKeyViews(refs, ks[i], keys, as_, bs, env);
      }
    }
  }

  /** Two SELECTs that differ in FROM only, and there bind the same names. */
  ghost predicate SameButFrom(b: Body, c: Body) {
    && b.Select? && c.Select? && b == c.(from := b.from)
    && |b.from| == |c.from| && forall i :: 0 <= i < |b.from| ==> FactorName(b.from[i].factor) == FactorName(c.from[i].factor)
  }

  lemma GroupViews(w: World, refs: set<Ref>, b: Body, c: Body, g: seq<Frame>, h: seq<Frame>, env: Env)
    requires SameButFrom(b, c) && NoWildcard(b.proj) && FreeClauses(b) <= refs && Views(refs, env, g, h)
    ensures EvalGroup(w, b, g, env) == EvalGroup(w, c, h, env)
  {
    var s1, s2 := GroupScope(b.from, env, g), GroupScope(c.from, env, h);
    if g == [] {
      assert GroupFrame(b.from, g) == GroupFrame(c.from, h);
    }
    assert SameScope(map[], refs, s1, s2);
    NarrowScope(map[], FreeItems(b.proj), refs, s1, s2);
    ItemsViews(w, b.proj, GroupFrame(b.from, g), GroupFrame(c.from, h), s1, s2);
    if b.having.Some? {
      assert FreeOpt(b.having) == FreeE(b.having.value);
      NarrowScope(map[], FreeE(b.having.value), refs, s1, s2);
      Coincide(w, w, b.having.value, s1, s2);
    }
  }

  lemma {:induction false} AllGroupsViews(w: World, refs: set<Ref>, b: Body, c: Body, gs: seq<seq<Frame>>, hs: seq<seq<Frame>>, env: Env)
    requires SameButFrom(b, c) && NoWildcard(b.proj) && FreeClauses(b) <= refs && GroupsView(refs, env, gs, hs)
    ensures EvalGroups(w, b, gs, env) == EvalGroups(w, c, hs, env)
    decreases |gs|
  {
    if gs != [] {
      GroupViews(w, refs, b, c, gs[0], hs[0], env);
      AllGroupsViews(w, refs, b, c, gs[1..], hs[1..], env);
    }
  }

  /** WHERE, grouping, HAVING and the projection over rows that look the same. */
  lemma SelectViews(w: World, refs: set<Ref>, b: Body, c: Body, as_: seq<Frame>, bs: seq<Frame>, env: Env)
    requires SameButFrom(b, c) && NoWildcard(b.proj) && FreeClauses(b) <= refs && Views(refs, env, as_, bs)
    requires EvalFrom(w, b.from, env) == Ok(as_) && EvalFrom(w, c.from, env) == Ok(bs)
    ensures EvalB(w, b, env) == EvalB(w, c, env)
  {
    var x, y := Source(w, b, env), Source(w, c, env);
    SourceOf(w, b, as_, env);
    SourceOf(w, c, bs, env);
    if b.selection.Some? {
      assert FreeOpt(b.selection) == FreeE(b.selection.value);
      FilterViews(w, refs, b.selection.value, as_, bs, env);
    }
    if x.Ok? {
      OutputViews(w, refs, b, c, x.value, y.value, env);
    }
  }

  lemma OutputViews(w: World, refs: set<Ref>, b: Body, c: Body, as_: seq<Frame>, bs: seq<Frame>, env: Env)
    requires SameButFrom(b, c) && NoWildcard(b.proj) && FreeClauses(b) <= refs && Views(refs, env, as_, bs)
    ensures Output(w, b, as_, env) == Output(w, c, bs, env)
  {
    if Aggregated(b) {
      KeysViews(w, refs, b.groupBy, as_, bs, env);
      var keys := EvalKeys(w, b.groupBy, as_, env);
      if keys.Ok? {
        GroupsOfView(refs, b.groupBy, keys.value, as_, bs, env);
        AllGroupsViews(w, refs, b, c, GroupsOf(b.groupBy, keys.value, as_), GroupsOf(b.groupBy, keys.value, bs), env);
      }
    } else {
      RowsViews(w, refs, b.proj, as_, bs, env);
    }
  }
}
