/** Giving the tables of subqueries generated aliases, and pointing references at them. */
module AliasTables {
  import opened Wrappers
  import opened SqlValues
  import opened SqlAst
  import opened SqlEval
  import opened SqlVisit
  import opened SqlCarry
  import opened SqlCongruence
  import opened SqlScope
  import Decimal

  /** The generated alias with this number. */
  function SubName(k: nat): string {
    "subq" + Decimal.OfNat(k) + "_t"
  }

  lemma SubNameInjective(a: nat, b: nat)
    requires SubName(a) == SubName(b)
    ensures a == b
  {
    var s, t := SubName(a), SubName(b);
    assert |s| == |t| && s[4..|s| - 2] == Decimal.OfNat(a) && t[4..|t| - 2] == Decimal.OfNat(b);
    Decimal.NatInjective(a, b);
  }

  /** A table of the FROM that has no alias of its own. */
  predicate Unaliased(it: FromItem) {
    it.factor.Table? && it.factor.alias.None?
  }

  function AliasFactor(t: Factor, k: nat): (Factor, nat) {
    match t
    case Table(schema, name, alias) =>
      var qualified := Some(if schema.Some? then schema.value else "pg_catalog");
      if alias.Some? then (Table(qualified, name, alias), k) else (Table(qualified, name, Some(SubName(k))), k + 1)
    case _ => (t, k)
  }

  function AliasFrom(from: seq<FromItem>, k: nat): (r: (seq<FromItem>, nat))
    ensures |r.0| == |from|
  {
    if from == [] then ([], k)
    else
      var n := |from| - 1;
      var (front, k1) := AliasFrom(from[..n], k);
      var (factor, k2) := AliasFactor(from[n].factor, k1);
      (front + [FromItem(from[n].kind, factor, from[n].on)], k2)
  }

  /** The bare names and the aliases their references move to; of two equal names the first counts. */
  function Pairs(from: seq<FromItem>, k: nat): Renaming {
    if from == [] then map[]
    else
      var n := |from| - 1;
      var front := Pairs(from[..n], k);
      if Unaliased(from[n]) && from[n].factor.name !in front
      then front[from[n].factor.name := SubName(AliasFrom(from[..n], k).1)] else front
  }

  /** The pair a reference finds, as the pass looks it up in its list. */
  function Lookup(pairs: seq<(string, string)>, x: string): Option<string> {
    if pairs == [] then None else if pairs[0].0 == x then Some(pairs[0].1) else Lookup(pairs[1..], x)
  }

  lemma {:induction false} LookupSnoc(pairs: seq<(string, string)>, p: (string, string), x: string)
    ensures Lookup(pairs + [p], x) == if Lookup(pairs, x).Some? then Lookup(pairs, x) else if p.0 == x then Some(p.1) else None
  {
    if pairs == [] {
      assert [p][1..] == [];
    } else {
      LookupSnoc(pairs[1..], p, x);
      assert (pairs + [p])[1..] == pairs[1..] + [p];
    }
  }

  /** The loop over the FROM items. */
  method AliasLoop(from: seq<FromItem>, counter: nat) returns (out: seq<FromItem>, pairs: seq<(string, string)>, next: nat)
    ensures (out, next) == AliasFrom(from, counter)
    ensures forall x :: Lookup(pairs, x) == if x in Pairs(from, counter) then Some(Pairs(from, counter)[x]) else None
  {
    out, pairs, next := [], [], counter;
    for i := 0 to |from|
      invariant (out, next) == AliasFrom(from[..i], counter)
      invariant forall x :: Lookup(pairs, x) == if x in Pairs(from[..i], counter) then Some(Pairs(from[..i], counter)[x]) else None
    {
      assert from[..i + 1][..i] == from[..i];
      var it := from[i];
      var (factor, after) := AliasFactor(it.factor, next);
      if Unaliased(it) {
        forall x {
          LookupSnoc(pairs, (it.factor.name, SubName(next)), x);
        }
        pairs := pairs + [(it.factor.name, SubName(next))];
      }
      out := out + [FromItem(it.kind, factor, it.on)];
      next := after;
    }
    assert from[..|from|] == from;
  }

  /** One subquery: only a plain SELECT is entered, and only its own FROM. */
  function AliasQuery(q: Query, k: nat): (Query, nat) {
    if !q.body.Select? then (q, k)
    else
      var (from, k1) := AliasFrom(q.body.from, k);
      var aliased := q.(body := q.body.(from := from));
      (VisitQ(Renamer(Pairs(q.body.from, k)), aliased, 0).0, k1)
  }

  function AliasSubqueries(e: Expr, k: nat): (Expr, nat) {
    match e
    case Scalar(q) => var (q1, k1) := AliasQuery(q, k); (Scalar(q1), k1)
    case Exists(q, negated) => var (q1, k1) := AliasQuery(q, k); (Exists(q1, negated), k1)
    case InQuery(x, q, negated) => var (q1, k1) := AliasQuery(q, k); (InQuery(x, q1, negated), k1)
    case _ => (e, k)
  }

  // --- frames under new names ----------------------------------------------------------------

  /** The names of the aliased FROM, in order. */
  function NewNames(from: seq<FromItem>, k: nat): (names: seq<string>)
    ensures |names| == |from|
  {
    seq(|from|, i requires 0 <= i < |from| => FactorName(AliasFrom(from, k).0[i].factor))
  }

  function Rebind(f: Frame, names: seq<string>): Frame {
    seq(|f|, i requires 0 <= i < |f| => Bound(if i < |names| then names[i] else f[i].qual, f[i].rec))
  }

  predicate DistinctStrings(xs: seq<string>) {
    forall i, j :: 0 <= i < j < |xs| ==> xs[i] != xs[j]
  }

  /** The own names of a FROM clause, in order. */
  function OwnNames(from: seq<FromItem>): (names: seq<string>)
    ensures |names| == |from|
  {
    seq(|from|, i requires 0 <= i < |from| => FactorName(from[i].factor))
  }

  predicate Quals(f: Frame, names: seq<string>) {
    |f| <= |names| && forall i :: 0 <= i < |f| ==> f[i].qual == names[i]
  }

  lemma {:induction false} FrameLooks(f: Frame, names: seq<string>, i: nat)
    requires Quals(f, names) && DistinctStrings(names) && i < |f|
    ensures names[i] in FrameEnv(f) && FrameEnv(f)[names[i]] == f[i].rec
    decreases |f|
  {
    var n := |f| - 1;
    if i < n {
      FrameLooks(f[..n], names, i);
    }
  }

  lemma {:induction false} FrameMisses(f: Frame, names: seq<string>, x: string)
    requires Quals(f, names) && forall i :: 0 <= i < |f| ==> names[i] != x
    ensures x !in FrameEnv(f)
    decreases |f|
  {
    if f != [] {
      FrameMisses(f[..|f| - 1], names, x);
    }
  }

  /** What renames one list of names into another: own and new names are distinct, each own name
      keeps itself or moves to its new one, and no other name is touched. */
  ghost predicate Renames(m: Renaming, own: seq<string>, moved: seq<string>) {
    && |own| == |moved| && DistinctStrings(own) && DistinctStrings(moved)
    && (forall i :: 0 <= i < |own| ==> if own[i] in m then moved[i] == m[own[i]] else moved[i] == own[i])
    && (forall i :: 0 <= i < |own| ==> own[i] !in m.Values)
    && (forall x :: x in m ==> x in own)
  }

  /** References the renaming carries over the first `n` items: they name no generated alias, no
      renamed table by its value, and no renamed table that only a later item binds. */
  ghost predicate Carried(m: Renaming, own: seq<string>, n: nat, refs: set<Ref>)
    requires n <= |own|
  {
    && (forall r :: r in refs ==> r.qual !in m.Values && (r.Whole? ==> r.qual !in m))
    && (forall r, i :: r in refs && n <= i < |own| && own[i] in m ==> r.qual != own[i])
  }

  lemma RelabelledView(m: Renaming, own: seq<string>, moved: seq<string>, n: nat, refs: set<Ref>, env: Env, f: Frame)
    requires Renames(m, own, moved) && n <= |own| && Carried(m, own, n, refs) && |f| == n && Quals(f, own)
    ensures SameView(m, refs, Push(env, f), Push(env, Rebind(f, moved)))
  {
    forall r | r in refs ensures Found(map[], Push(env, f), r) == Found(m, Push(env, Rebind(f, moved)), r) {
      RelabelledRef(m, own, moved, n, refs, env, f, r);
    }
  }

  lemma RelabelledRef(m: Renaming, own: seq<string>, moved: seq<string>, n: nat, refs: set<Ref>, env: Env, f: Frame, r: Ref)
    requires Renames(m, own, moved) && n <= |own| && Carried(m, own, n, refs) && |f| == n && Quals(f, own) && r in refs
    ensures Found(map[], Push(env, f), r) == Found(m, Push(env, Rebind(f, moved)), r)
  {
    var g := Rebind(f, moved);
    if i :| 0 <= i < n && own[i] == r.qual {
      FrameLooks(f, own, i);
      FrameLooks(g, moved, i);
    } else {
      FrameMisses(f, own, r.qual);
      forall i | 0 <= i < n ensures moved[i] != r.qual {
        assert own[i] in m ==> m[own[i]] in m.Values;
      }
      FrameMisses(g, moved, r.qual);
    }
  }
}

/** A SELECT evaluated over the same rows under new names. */
module AliasedSelect {
  import opened Wrappers
  import opened SqlValues
  import opened SqlAst
  import opened SqlEval
  import opened SqlVisit
  import opened SqlCarry
  import opened SqlCongruence
  import opened SqlScope
  import opened AliasTables

  predicate Framed(frames: seq<Frame>, own: seq<string>) {
    forall i :: 0 <= i < |frames| ==> |frames[i]| == |own| && Quals(frames[i], own)
  }

  function Moved(frames: seq<Frame>, moved: seq<string>): seq<Frame> {
    seq(|frames|, i requires 0 <= i < |frames| => Rebind(frames[i], moved))
  }

  function MovedOk(frames: Result<seq<Frame>>, moved: seq<string>): Result<seq<Frame>> {
    var fs :- frames;
    Ok(Moved(fs, moved))
  }

  /** The renaming and the two lists of names, and references it carries over a whole frame. */
  ghost predicate Fit(m: Renaming, own: seq<string>, moved: seq<string>, refs: set<Ref>) {
    Renames(m, own, moved) && Carried(m, own, |own|, refs)
  }

  lemma FrameView(m: Renaming, own: seq<string>, moved: seq<string>, refs: set<Ref>, small: set<Ref>, env: Env, f: Frame)
    requires Fit(m, own, moved, refs) && small <= refs && |f| == |own| && Quals(f, own)
    ensures SameView(m, small, Push(env, f), Push(env, Rebind(f, moved)))
  {
    RelabelledView(m, own, moved, |own|, small, env, f);
  }

  lemma {:induction false} FilterKeepsFrames(w: World, cond: Expr, frames: seq<Frame>, own: seq<string>, env: Env)
    requires Framed(frames, own) && Filter(w, cond, frames, env).Ok?
    ensures Framed(Filter(w, cond, frames, env).value, own)
    decreases |frames|
  {
    if frames != [] {
      FilterKeepsFrames(w, cond, frames[1..], own, env);
    }
  }

  lemma MovedCons(f: Frame, frames: seq<Frame>, moved: seq<string>)
    ensures Moved([f] + frames, moved) == [Rebind(f, moved)] + Moved(frames, moved)
  {
  }

  lemma {:induction false} FilterAlike(w: World, c1: Expr, c2: Expr, frames: seq<Frame>, moved: seq<string>, env: Env)
    requires forall i :: 0 <= i < |frames| ==>
      EvalCond(w, c1, Scope(Push(env, frames[i]), None)) == EvalCond(w, c2, Scope(Push(env, Rebind(frames[i], moved)), None))
    ensures Filter(w, c2, Moved(frames, moved), env) == MovedOk(Filter(w, c1, frames, env), moved)
    decreases |frames|
  {
    if frames != [] {
      FilterAlike(w, c1, c2, frames[1..], moved, env);
      assert Moved(frames, moved)[1..] == Moved(frames[1..], moved) && Moved(frames, moved)[0] == Rebind(frames[0], moved);
      FilterStep(w, c1, frames, env);
      FilterStep(w, c2, Moved(frames, moved), env);
      var rest := Filter(w, c1, frames[1..], env);
      if rest.Ok? {
        MovedCons(frames[0], rest.value, moved);
      }
    }
  }

  lemma FilterMoves(w: World, m: Renaming, own: seq<string>, moved: seq<string>, refs: set<Ref>,
                    cond: Expr, k: nat, frames: seq<Frame>, env: Env)
    requires Fit(m, own, moved, refs) && FreeE(cond) <= refs && Clear(m, MarksE(cond)) && Framed(frames, own)
    ensures Filter(w, cond, frames, env).Ok? ==> Framed(Filter(w, cond, frames, env).value, own)
    ensures Filter(w, VisitE(Renamer(m), cond, k).0, Moved(frames, moved), env) == MovedOk(Filter(w, cond, frames, env), moved)
  {
    var c := VisitE(Renamer(m), cond, k).0;
    forall i | 0 <= i < |frames|
      ensures EvalCond(w, cond, Scope(Push(env, frames[i]), None)) == EvalCond(w, c, Scope(Push(env, Rebind(frames[i], moved)), None))
    {
      FrameView(m, own, moved, refs, FreeE(cond), env, frames[i]);
      ScopeE(w, w, m, cond, k, Scope(Push(env, frames[i]), None), Scope(Push(env, Rebind(frames[i], moved)), None));
    }
    FilterAlike(w, cond, c, frames, moved, env);
    if Filter(w, cond, frames, env).Ok? {
      FilterKeepsFrames(w, cond, frames, own, env);
    }
  }

  lemma {:induction false} SameRecords(f: Frame, g: Frame)
    requires |f| == |g| && forall i :: 0 <= i < |f| ==> f[i].rec == g[i].rec
    ensures FrameCells(f) == FrameCells(g)
  {
    if f != [] {
      SameRecords(f[1..], g[1..]);
    }
  }

  lemma {:induction false} ItemsFrame(w: World, items: seq<Item>, f: Frame, g: Frame, s: Scope)
    requires FrameCells(f) == FrameCells(g)
    ensures EvalItems(w, items, f, s) == EvalItems(w, items, g, s)
    decreases |items|
  {
    if items != [] {
      ItemsFrame(w, items[1..], f, g, s);
      assert EvalItem(w, items[0], f, s) == EvalItem(w, items[0], g, s);
    }
  }

  lemma {:induction false} RowsAlike(w: World, is1: seq<Item>, is2: seq<Item>, frames: seq<Frame>, moved: seq<string>, env: Env)
    requires forall i :: 0 <= i < |frames| ==>
      EvalItems(w, is1, frames[i], Scope(Push(env, frames[i]), None))
      == EvalItems(w, is2, Rebind(frames[i], moved), Scope(Push(env, Rebind(frames[i], moved)), None))
    ensures EvalRows(w, is2, Moved(frames, moved), env) == EvalRows(w, is1, frames, env)
    decreases |frames|
  {
    if frames != [] {
      RowsAlike(w, is1, is2, frames[1..], moved, env);
      assert Moved(frames, moved)[1..] == Moved(frames[1..], moved);
    }
  }

  /** One row's items, wildcards included. */
  lemma ItemsMove(w: World, m: Renaming, moved: seq<string>, items: seq<Item>, k: nat, f: Frame, s1: Scope, s2: Scope)
    requires SameScope(m, FreeItems(items), s1, s2) && Clear(m, MarksItems(items))
    ensures EvalItems(w, items, f, s1) == EvalItems(w, VisitItems(Renamer(m), items, k).0, Rebind(f, moved), s2)
  {
    ScopeItems(w, w, m, items, k, f, s1, s2);
    SameRecords(Rebind(f, moved), f);
    ItemsFrame(w, VisitItems(Renamer(m), items, k).0, f, Rebind(f, moved), s2);
  }

  lemma RowsMove(w: World, m: Renaming, own: seq<string>, moved: seq<string>, refs: set<Ref>,
                 items: seq<Item>, k: nat, frames: seq<Frame>, env: Env)
    requires Fit(m, own, moved, refs) && FreeItems(items) <= refs && Clear(m, MarksItems(items)) && Framed(frames, own)
    ensures EvalRows(w, VisitItems(Renamer(m), items, k).0, Moved(frames, moved), env) == EvalRows(w, items, frames, env)
  {
    var visited := VisitItems(Renamer(m), items, k).0;
    forall i | 0 <= i < |frames|
      ensures EvalItems(w, items, frames[i], Scope(Push(env, frames[i]), None))
           == EvalItems(w, visited, Rebind(frames[i], moved), Scope(Push(env, Rebind(frames[i], moved)), None))
    {
      FrameView(m, own, moved, refs, FreeItems(items), env, frames[i]);
      ItemsMove(w, m, moved, items, k, frames[i], Scope(Push(env, frames[i]), None), Scope(Push(env, Rebind(frames[i], moved)), None));
    }
    RowsAlike(w, items, visited, frames, moved, env);
  }

  lemma {:induction false} KeysAlike(w: World, ks1: seq<Expr>, ks2: seq<Expr>, frames: seq<Frame>, moved: seq<string>, env: Env)
    requires forall i :: 0 <= i < |frames| ==>
      EvalEs(w, ks1, Scope(Push(env, frames[i]), None)) == EvalEs(w, ks2, Scope(Push(env, Rebind(frames[i], moved)), None))
    ensures EvalKeys(w, ks2, Moved(frames, moved), env) == EvalKeys(w, ks1, frames, env)
    decreases |frames|
  {
    if frames != [] {
      KeysAlike(w, ks1, ks2, frames[1..], moved, env);
      assert Moved(frames, moved)[1..] == Moved(frames[1..], moved);
    }
  }

  lemma KeysMove(w: World, m: Renaming, own: seq<string>, moved: seq<string>, refs: set<Ref>,
                 keys: seq<Expr>, k: nat, frames: seq<Frame>, env: Env)
    requires Fit(m, own, moved, refs) && FreeEs(keys) <= refs && Clear(m, MarksEs(keys)) && Framed(frames, own)
    ensures EvalKeys(w, VisitEs(Renamer(m), keys, k).0, Moved(frames, moved), env) == EvalKeys(w, keys, frames, env)
  {
    var visited := VisitEs(Renamer(m), keys, k).0;
    forall i | 0 <= i < |frames|
      ensures EvalEs(w, keys, Scope(Push(env, frames[i]), None)) == EvalEs(w, visited, Scope(Push(env, Rebind(frames[i], moved)), None))
    {
      FrameView(m, own, moved, refs, FreeEs(keys), env, frames[i]);
      ScopeEs(w, w, m, keys, k, Scope(Push(env, frames[i]), None), Scope(Push(env, Rebind(frames[i], moved)), None));
    }
    KeysAlike(w, keys, visited, frames, moved, env);
  }

  lemma {:induction false} GroupMoves(key: seq<Value>, keys: seq<seq<Value>>, frames: seq<Frame>, own: seq<string>, moved: seq<string>)
    requires Framed(frames, own) && |moved| == |own|
    ensures Framed(WithKey(key, keys, frames), own)
    ensures WithKey(key, keys, Moved(frames, moved)) == Moved(WithKey(key, keys, frames), moved)
    decreases |frames|
  {
    if keys != [] && frames != [] {
      GroupMoves(key, keys[1..], frames[1..], own, moved);
      assert Moved(frames, moved)[1..] == Moved(frames[1..], moved);
      var rest := WithKey(key, keys[1..], frames[1..]);
      assert Moved([frames[0]] + rest, moved) == [Rebind(frames[0], moved)] + Moved(rest, moved);
      assert Moved([] + rest, moved) == [] + Moved(rest, moved);
    }
  }

  predicate GroupsFramed(groups: seq<seq<Frame>>, own: seq<string>) {
    forall i :: 0 <= i < |groups| ==> Framed(groups[i], own)
  }

  function MovedGroups(groups: seq<seq<Frame>>, own: seq<string>, moved: seq<string>): seq<seq<Frame>>
    requires GroupsFramed(groups, own) && |moved| == |own|
  {
    seq(|groups|, i requires 0 <= i < |groups| => Moved(groups[i], moved))
  }

  lemma GroupsMove(b: Body, c: Body, keys: seq<seq<Value>>, frames: seq<Frame>, own: seq<string>, moved: seq<string>)
    requires b.Select? && c.Select? && |b.groupBy| == |c.groupBy| && Framed(frames, own) && |moved| == |own|
    ensures GroupsFramed(GroupsOf(b.groupBy, keys, frames), own)
    ensures GroupsOf(c.groupBy, keys, Moved(frames, moved)) == MovedGroups(GroupsOf(b.groupBy, keys, frames), own, moved)
  {
    if b.groupBy != [] {
      var ks := Distinct(keys);
      forall i | 0 <= i < |ks|
        ensures Framed(WithKey(ks[i], keys, frames), own)
        ensures WithKey(ks[i], keys, Moved(frames, moved)) == Moved(WithKey(ks[i], keys, frames), moved)
      {
        GroupMoves(ks[i], keys, frames, own, moved);
      }
    }
  }

  // --- one group -----------------------------------------------------------------------------

  lemma GroupScopeMoves(m: Renaming, own: seq<string>, moved: seq<string>, refs: set<Ref>, b: Body, c: Body, g: seq<Frame>, env: Env)
    requires b.Select? && c.Select? && own == OwnNames(b.from) && moved == OwnNames(c.from)
    requires Fit(m, own, moved, refs) && Framed(g, own)
    ensures |GroupFrame(b.from, g)| == |own| && GroupFrame(c.from, Moved(g, moved)) == Rebind(GroupFrame(b.from, g), moved)
    ensures SameScope(m, refs, GroupScope(b.from, env, g), GroupScope(c.from, env, Moved(g, moved)))
  {
    var f := GroupFrame(b.from, g);
    assert |f| == |own| && Quals(f, own);
    assert GroupFrame(c.from, Moved(g, moved)) == Rebind(f, moved);
    FrameView(m, own, moved, refs, refs, env, f);
    forall i | 0 <= i < |g| ensures SameView(m, refs, Envs(env, g)[i], Envs(env, Moved(g, moved))[i]) {
      FrameView(m, own, moved, refs, refs, env, g[i]);
    }
  }

  /** The renamed SELECT beside the original: the clauses renamed, DISTINCT and shape as they were. */
  ghost predicate Renamed(m: Renaming, b: Body, c: Body) {
    && b.Select? && c.Select? && c.distinct == b.distinct && |c.groupBy| == |b.groupBy|
    && c.having.None? == b.having.None? && c.selection.None? == b.selection.None? && Aggregated(c) == Aggregated(b)
    && (exists k :: c.proj == VisitItems(Renamer(m), b.proj, k).0)
    && (exists k :: c.groupBy == VisitEs(Renamer(m), b.groupBy, k).0)
    && (b.selection.Some? ==> exists k :: c.selection.value == VisitE(Renamer(m), b.selection.value, k).0)
    && (b.having.Some? ==> exists k :: c.having.value == VisitE(Renamer(m), b.having.value, k).0)
  }

  ghost predicate ClausesClear(m: Renaming, b: Body)
    requires b.Select?
  {
    Clear(m, MarksItems(b.proj)) && Clear(m, MarksOpt(b.selection)) && Clear(m, MarksEs(b.groupBy)) && Clear(m, MarksOpt(b.having))
  }

  lemma GroupAlike(w: World, b: Body, c: Body, g: seq<Frame>, h: seq<Frame>, env: Env)
    requires b.Select? && c.Select? && c.having.None? == b.having.None?
    requires EvalItems(w, b.proj, GroupFrame(b.from, g), GroupScope(b.from, env, g))
          == EvalItems(w, c.proj, GroupFrame(c.from, h), GroupScope(c.from, env, h))
    requires b.having.Some? ==>
      EvalCond(w, b.having.value, GroupScope(b.from, env, g)) == EvalCond(w, c.having.value, GroupScope(c.from, env, h))
    ensures EvalGroup(w, c, h, env) == EvalGroup(w, b, g, env)
  {
  }

  lemma GroupMove(w: World, m: Renaming, own: seq<string>, moved: seq<string>, b: Body, c: Body, g: seq<Frame>, env: Env)
    requires Renamed(m, b, c) && ClausesClear(m, b) && own == OwnNames(b.from) && moved == OwnNames(c.from)
    requires Fit(m, own, moved, FreeClauses(b)) && Framed(g, own)
    ensures EvalGroup(w, c, Moved(g, moved), env) == EvalGroup(w, b, g, env)
  {
    var refs := FreeClauses(b);
    var s1, s2 := GroupScope(b.from, env, g), GroupScope(c.from, env, Moved(g, moved));
    GroupScopeMoves(m, own, moved, refs, b, c, g, env);
    ProjMoves(w, m, moved, b, c, GroupFrame(b.from, g), s1, s2);
    if b.having.Some? {
      HavingMoves(w, m, b, c, s1, s2);
    }
    GroupAlike(w, b, c, g, Moved(g, moved), env);
  }

  lemma ProjMoves(w: World, m: Renaming, moved: seq<string>, b: Body, c: Body, f: Frame, s1: Scope, s2: Scope)
    requires Renamed(m, b, c) && ClausesClear(m, b) && SameScope(m, FreeClauses(b), s1, s2)
    ensures EvalItems(w, b.proj, f, s1) == EvalItems(w, c.proj, Rebind(f, moved), s2)
  {
    NarrowScope(m, FreeItems(b.proj), FreeClauses(b), s1, s2);
    var k :| c.proj == VisitItems(Renamer(m), b.proj, k).0;
    ItemsMove(w, m, moved, b.proj, k, f, s1, s2);
  }

  lemma HavingMoves(w: World, m: Renaming, b: Body, c: Body, s1: Scope, s2: Scope)
    requires Renamed(m, b, c) && ClausesClear(m, b) && b.having.Some? && SameScope(m, FreeClauses(b), s1, s2)
    ensures EvalCond(w, b.having.value, s1) == EvalCond(w, c.having.value, s2)
  {
    var k :| c.having.value == VisitE(Renamer(m), b.having.value, k).0;
    assert FreeOpt(b.having) == FreeE(b.having.value) && MarksOpt(b.having) == MarksE(b.having.value);
    NarrowScope(m, FreeE(b.having.value), FreeClauses(b), s1, s2);
    ScopeE(w, w, m, b.having.value, k, s1, s2);
  }

  lemma {:induction false} GroupsAlike(w: World, b: Body, c: Body, gs: seq<seq<Frame>>, hs: seq<seq<Frame>>, env: Env)
    requires b.Select? && c.Select? && |gs| == |hs|
    requires forall i :: 0 <= i < |gs| ==> EvalGroup(w, c, hs[i], env) == EvalGroup(w, b, gs[i], env)
    ensures EvalGroups(w, c, hs, env) == EvalGroups(w, b, gs, env)
    decreases |gs|
  {
    if gs != [] {
      GroupsAlike(w, b, c, gs[1..], hs[1..], env);
    }
  }

  lemma GroupsMoved(w: World, m: Renaming, own: seq<string>, moved: seq<string>, b: Body, c: Body, groups: seq<seq<Frame>>, env: Env)
    requires Renamed(m, b, c) && ClausesClear(m, b) && own == OwnNames(b.from) && moved == OwnNames(c.from)
    requires Fit(m, own, moved, FreeClauses(b)) && GroupsFramed(groups, own)
    ensures EvalGroups(w, c, MovedGroups(groups, own, moved), env) == EvalGroups(w, b, groups, env)
  {
    forall i | 0 <= i < |groups|
      ensures EvalGroup(w, c, MovedGroups(groups, own, moved)[i], env) == EvalGroup(w, b, groups[i], env)
    {
      GroupMove(w, m, own, moved, b, c, groups[i], env);
    }
    GroupsAlike(w, b, c, groups, MovedGroups(groups, own, moved), env);
  }

  lemma OutputMoves(w: World, m: Renaming, own: seq<string>, moved: seq<string>, b: Body, c: Body, kept: seq<Frame>, env: Env)
    requires Renamed(m, b, c) && ClausesClear(m, b) && own == OwnNames(b.from) && moved == OwnNames(c.from)
    requires Fit(m, own, moved, FreeClauses(b)) && Framed(kept, own)
    ensures Output(w, c, Moved(kept, moved), env) == Output(w, b, kept, env)
  {
    if Aggregated(b) {
      var k :| c.groupBy == VisitEs(Renamer(m), b.groupBy, k).0;
      KeysMove(w, m, own, moved, FreeClauses(b), b.groupBy, k, kept, env);
      var keys := EvalKeys(w, b.groupBy, kept, env);
      if keys.Ok? {
        GroupsMove(b, c, keys.value, kept, own, moved);
        GroupsMoved(w, m, own, moved, b, c, GroupsOf(b.groupBy, keys.value, kept), env);
      }
    } else {
      var k :| c.proj == VisitItems(Renamer(m), b.proj, k).0;
      RowsMove(w, m, own, moved, FreeClauses(b), b.proj, k, kept, env);
    }
  }

  /** The same rows under new names give the same result. */
  lemma SelectMoves(w: World, m: Renaming, b: Body, c: Body, frames: seq<Frame>, env: Env)
    requires Renamed(m, b, c) && ClausesClear(m, b) && |c.from| == |b.from| && Fit(m, OwnNames(b.from), OwnNames(c.from), FreeClauses(b))
    requires EvalFrom(w, b.from, env) == Ok(frames) && Framed(frames, OwnNames(b.from))
    requires EvalFrom(w, c.from, env) == Ok(Moved(frames, OwnNames(c.from)))
    ensures EvalB(w, c, env) == EvalB(w, b, env)
  {
    var own, moved := OwnNames(b.from), OwnNames(c.from);
    SourceOf(w, b, frames, env);
    SourceOf(w, c, Moved(frames, moved), env);
    if b.selection.Some? {
      var k :| c.selection.value == VisitE(Renamer(m), b.selection.value, k).0;
      assert FreeOpt(b.selection) == FreeE(b.selection.value) && MarksOpt(b.selection) == MarksE(b.selection.value);
      FilterMoves(w, m, own, moved, FreeClauses(b), b.selection.value, k, frames, env);
    }
    var kept := Source(w, b, env);
    if kept.Ok? {
      OutputMoves(w, m, own, moved, b, c, kept.value, env);
    }
  }
}

/** The FROM clause itself, item by item. */
module AliasedFrom {
  import opened Wrappers
  import opened SqlValues
  import opened SqlAst
  import opened SqlEval
  import opened SqlVisit
  import opened SqlCarry
  import opened SqlCongruence
  import opened SqlScope
  import opened AliasTables
  import opened AliasedSelect

  /** From which item on a FROM item's own references may not name a renamed table: a subquery that
      is not LATERAL sees none of its siblings. */
  function SeesTo(t: Factor, i: nat): nat {
    if t.Derived? && !t.lateral then 0 else i
  }

  /** What one FROM item needs: an unqualified table is pg_catalog's, nothing inside hides a renamed
      name, and references reach only names bound before. */
  ghost predicate ItemReady(ts: Tables, m: Renaming, own: seq<string>, i: nat, it: FromItem)
    requires i < |own|
  {
    && (it.factor.Table? && it.factor.schema.None? ==>
          TableOf(ts, None, it.factor.name) == TableOf(ts, Some("pg_catalog"), it.factor.name))
    && Clear(m, MarksFactor(it.factor)) && Clear(m, MarksE(it.on))
    && Carried(m, own, SeesTo(it.factor, i), FreeFactor(it.factor, {})) && Carried(m, own, i + 1, FreeE(it.on))
  }

  lemma OutsideView(m: Renaming, own: seq<string>, refs: set<Ref>, env: Env)
    requires Carried(m, own, 0, refs) && forall x :: x in m ==> x in own
    ensures SameView(m, refs, env, env)
  {
    forall r | r in refs ensures r.qual !in m {
      assert r.qual in own ==> exists i :: 0 <= i < |own| && own[i] == r.qual;
    }
  }

  lemma {:induction false} FactorMoves(w: World, m: Renaming, own: seq<string>, moved: seq<string>, i: nat, it: FromItem, k: nat, j: nat, f: Frame, env: Env)
    requires Renames(m, own, moved) && i < |own| && ItemReady(w.tables, m, own, i, it) && |f| == i && Quals(f, own)
    ensures EvalFactor(w, VisitFactor(Renamer(m), AliasFactor(it.factor, k).0, j).0, Rebind(f, moved), env)
         == EvalFactor(w, it.factor, f, env)
  {
    if it.factor.Derived? {
      DerivedMoves(w, m, own, moved, i, it, j, f, env);
    } else if it.factor.Series? {
      SeriesMoves(w, m, own, moved, i, it, j, f, env);
    }
  }

  lemma DerivedMoves(w: World, m: Renaming, own: seq<string>, moved: seq<string>, i: nat, it: FromItem, j: nat, f: Frame, env: Env)
    requires Renames(m, own, moved) && i < |own| && ItemReady(w.tables, m, own, i, it) && |f| == i && Quals(f, own)
    requires it.factor.Derived?
    ensures EvalFactor(w, VisitFactor(Renamer(m), it.factor, j).0, Rebind(f, moved), env) == EvalFactor(w, it.factor, f, env)
  {
    var q := it.factor.q;
    assert FreeFactor(it.factor, {}) == FreeB(q.body);
    if it.factor.lateral {
      RelabelledView(m, own, moved, i, FreeB(q.body), env, f);
      ScopeQ(w, w, m, q, j, Push(env, f), Push(env, Rebind(f, moved)));
    } else {
      OutsideView(m, own, FreeB(q.body), env);
      ScopeQ(w, w, m, q, j, env, env);
    }
  }

  lemma SeriesMoves(w: World, m: Renaming, own: seq<string>, moved: seq<string>, i: nat, it: FromItem, j: nat, f: Frame, env: Env)
    requires Renames(m, own, moved) && i < |own| && ItemReady(w.tables, m, own, i, it) && |f| == i && Quals(f, own)
    requires it.factor.Series?
    ensures EvalFactor(w, VisitFactor(Renamer(m), it.factor, j).0, Rebind(f, moved), env) == EvalFactor(w, it.factor, f, env)
  {
    var refs := FreeE(it.factor.lo) + FreeE(it.factor.hi);
    assert FreeFactor(it.factor, {}) == refs;
    RelabelledView(m, own, moved, i, refs, env, f);
    ScopeBounds(w, w, m, it.factor, j, Scope(Push(env, f), None), Scope(Push(env, Rebind(f, moved)), None));
  }

  lemma ColumnsMove(w: World, m: Renaming, own: seq<string>, i: nat, it: FromItem, k: nat, j: nat)
    requires i < |own| && ItemReady(w.tables, m, own, i, it)
    ensures FactorCols(w.tables, VisitFactor(Renamer(m), AliasFactor(it.factor, k).0, j).0) == FactorCols(w.tables, it.factor)
    ensures FactorName(VisitFactor(Renamer(m), AliasFactor(it.factor, k).0, j).0) == FactorName(AliasFactor(it.factor, k).0)
  {
    RenamerShape(m);
    AlwaysFactor(AliasFactor(it.factor, k).0);
    ShapeFactor(w.tables, Renamer(m), Always, AliasFactor(it.factor, k).0, j);
  }

  lemma RebindSnoc(f: Frame, name: string, rec: Rec, moved: seq<string>)
    requires |f| < |moved|
    ensures Rebind(f + [Bound(name, rec)], moved) == Rebind(f, moved) + [Bound(moved[|f|], rec)]
  {
  }

  lemma {:induction false} MatchingAlike(w: World, c1: Expr, c2: Expr, name: string, recs: seq<Rec>, f: Frame, moved: seq<string>, env: Env)
    requires |f| < |moved|
    requires forall i :: 0 <= i < |recs| ==>
      EvalCond(w, c1, Scope(Push(env, f + [Bound(name, recs[i])]), None))
      == EvalCond(w, c2, Scope(Push(env, Rebind(f, moved) + [Bound(moved[|f|], recs[i])]), None))
    ensures Matching(w, c2, moved[|f|], recs, Rebind(f, moved), env) == MovedOk(Matching(w, c1, name, recs, f, env), moved)
    decreases |recs|
  {
    if recs != [] {
      MatchingAlike(w, c1, c2, name, recs[1..], f, moved, env);
      MatchingStep(w, c1, name, recs, f, env);
      MatchingStep(w, c2, moved[|f|], recs, Rebind(f, moved), env);
      RebindSnoc(f, name, recs[0], moved);
      var rest := Matching(w, c1, name, recs[1..], f, env);
      if rest.Ok? {
        MovedCons(f + [Bound(name, recs[0])], rest.value, moved);
      }
    } else {
      assert Moved([], moved) == [];
    }
  }

  /** One row of FROM continued by one aliased item. */
  lemma JoinOneMoves(w: World, m: Renaming, own: seq<string>, moved: seq<string>, i: nat, it: FromItem, it': FromItem, k: nat, j: nat, f: Frame, env: Env)
    requires Renames(m, own, moved) && i < |own| && ItemReady(w.tables, m, own, i, it) && |f| == i && Quals(f, own)
    requires own[i] == FactorName(it.factor) && moved[i] == FactorName(AliasFactor(it.factor, k).0)
    requires it' == VisitFromItem(Renamer(m), FromItem(it.kind, AliasFactor(it.factor, k).0, it.on), j).0
    ensures JoinOne(w, it', Rebind(f, moved), env) == MovedOk(JoinOne(w, it, f, env), moved)
  {
    FactorMoves(w, m, own, moved, i, it, k, j, f, env);
    ColumnsMove(w, m, own, i, it, k, j);
    var recs := EvalFactor(w, it.factor, f, env);
    if recs.Ok? {
      OnMoves(w, m, own, moved, i, it, VisitFactor(Renamer(m), AliasFactor(it.factor, k).0, j).1, recs.value, f, env);
    }
    JoinOneAlike(w, it, it', own[i], moved, f, env);
  }

  /** Joining one item to a row, from its rows, its columns and its ON. */
  lemma JoinOneAlike(w: World, it: FromItem, it': FromItem, name: string, moved: seq<string>, f: Frame, env: Env)
    requires |f| < |moved| && it'.kind == it.kind && name == FactorName(it.factor) && moved[|f|] == FactorName(it'.factor)
    requires FactorCols(w.tables, it'.factor) == FactorCols(w.tables, it.factor)
    requires EvalFactor(w, it'.factor, Rebind(f, moved), env) == EvalFactor(w, it.factor, f, env)
    requires EvalFactor(w, it.factor, f, env).Ok? ==>
      var recs := EvalFactor(w, it.factor, f, env).value;
      Matching(w, it'.on, moved[|f|], recs, Rebind(f, moved), env) == MovedOk(Matching(w, it.on, name, recs, f, env), moved)
    ensures JoinOne(w, it', Rebind(f, moved), env) == MovedOk(JoinOne(w, it, f, env), moved)
  {
    var rec := NullRec(FactorCols(w.tables, it.factor));
    RebindSnoc(f, name, rec, moved);
    assert Moved([f + [Bound(name, rec)]], moved) == [Rebind(f, moved) + [Bound(moved[|f|], rec)]];
  }

  lemma OnMoves(w: World, m: Renaming, own: seq<string>, moved: seq<string>, i: nat, it: FromItem, j: nat, recs: seq<Rec>, f: Frame, env: Env)
    requires Renames(m, own, moved) && i < |own| && ItemReady(w.tables, m, own, i, it) && |f| == i && Quals(f, own)
    requires own[i] == FactorName(it.factor)
    ensures Matching(w, VisitE(Renamer(m), it.on, j).0, moved[i], recs, Rebind(f, moved), env)
         == MovedOk(Matching(w, it.on, own[i], recs, f, env), moved)
  {
    var on := VisitE(Renamer(m), it.on, j).0;
    forall n | 0 <= n < |recs|
      ensures EvalCond(w, it.on, Scope(Push(env, f + [Bound(own[i], recs[n])]), None))
           == EvalCond(w, on, Scope(Push(env, Rebind(f, moved) + [Bound(moved[i], recs[n])]), None))
    {
      var g := f + [Bound(own[i], recs[n])];
      RebindSnoc(f, own[i], recs[n], moved);
      RelabelledView(m, own, moved, i + 1, FreeE(it.on), env, g);
      ScopeE(w, w, m, it.on, j, Scope(Push(env, g), None), Scope(Push(env, Rebind(g, moved)), None));
    }
    MatchingAlike(w, it.on, on, own[i], recs, f, moved, env);
  }

  lemma MovedAppend(a: seq<Frame>, b: seq<Frame>, moved: seq<string>)
    ensures Moved(a + b, moved) == Moved(a, moved) + Moved(b, moved)
  {
  }

  lemma {:induction false} JoinAllAlike(w: World, it: FromItem, it': FromItem, frames: seq<Frame>, moved: seq<string>, env: Env)
    requires forall n :: 0 <= n < |frames| ==>
      JoinOne(w, it', Rebind(frames[n], moved), env) == MovedOk(JoinOne(w, it, frames[n], env), moved)
    ensures JoinAll(w, it', Moved(frames, moved), env) == MovedOk(JoinAll(w, it, frames, env), moved)
    decreases |frames|
  {
    if frames != [] {
      JoinAllAlike(w, it, it', frames[1..], moved, env);
      assert Moved(frames, moved)[1..] == Moved(frames[1..], moved) && Moved(frames, moved)[0] == Rebind(frames[0], moved);
      var x, y := JoinOne(w, it, frames[0], env), JoinAll(w, it, frames[1..], env);
      if x.Ok? && y.Ok? {
        MovedAppend(x.value, y.value, moved);
      }
    }
  }

  ghost predicate FromReady(ts: Tables, m: Renaming, from: seq<FromItem>, own: seq<string>) {
    |own| >= |from| && forall i :: 0 <= i < |from| ==> own[i] == FactorName(from[i].factor) && ItemReady(ts, m, own, i, from[i])
  }

  lemma FrontReady(ts: Tables, m: Renaming, own: seq<string>, moved: seq<string>, from: seq<FromItem>, k: nat)
    requires FromReady(ts, m, from, own) && from != [] && |moved| >= |from|
    requires forall i :: 0 <= i < |from| ==> moved[i] == FactorName(AliasFrom(from, k).0[i].factor)
    ensures FromReady(ts, m, from[..|from| - 1], own)
    ensures forall i :: 0 <= i < |from| - 1 ==> moved[i] == FactorName(AliasFrom(from[..|from| - 1], k).0[i].factor)
  {
    assert AliasFrom(from, k).0[..|from| - 1] == AliasFrom(from[..|from| - 1], k).0;
  }

  lemma FromQuals(w: World, from: seq<FromItem>, own: seq<string>, env: Env)
    requires |own| >= |from| && forall i :: 0 <= i < |from| ==> own[i] == FactorName(from[i].factor)
    ensures EvalFrom(w, from, env).Ok? ==> forall f :: f in EvalFrom(w, from, env).value ==> |f| == |from| && Quals(f, own)
  {
    if EvalFrom(w, from, env).Ok? {
      FromBinds(w, from, env);
    }
  }

  lemma NothingMoves(w: World, m: Renaming, moved: seq<string>, k: nat, j: nat, env: Env)
    ensures EvalFrom(w, VisitFrom(Renamer(m), AliasFrom([], k).0, j).0, env) == MovedOk(EvalFrom(w, [], env), moved)
  {
    assert Moved([[]], moved) == [[]];
  }

  /** The rows of the aliased FROM are the rows of the original one, under the new names. */
  lemma {:induction false} FromMoves(w: World, m: Renaming, own: seq<string>, moved: seq<string>, from: seq<FromItem>, k: nat, j: nat, env: Env)
    requires Renames(m, own, moved) && FromReady(w.tables, m, from, own)
    requires forall i :: 0 <= i < |from| ==> moved[i] == FactorName(AliasFrom(from, k).0[i].factor)
    ensures EvalFrom(w, VisitFrom(Renamer(m), AliasFrom(from, k).0, j).0, env) == MovedOk(EvalFrom(w, from, env), moved)
    decreases |from|
  {
    if from == [] {
      NothingMoves(w, m, moved, k, j, env);
    } else {
      var n := |from| - 1;
      FrontReady(w.tables, m, own, moved, from, k);
      FromMoves(w, m, own, moved, from[..n], k, j, env);
      FromQuals(w, from[..n], own, env);
      LastMoves(w, m, own, moved, from, k, j, env);
    }
  }

  /** The last item of the aliased and visited FROM, and the items before it. */
  lemma LastItem(m: Renaming, from: seq<FromItem>, k: nat, j: nat)
    requires from != []
    ensures var n := |from| - 1;
      var visited := VisitFrom(Renamer(m), AliasFrom(from, k).0, j).0;
      var (before, j1) := VisitFrom(Renamer(m), AliasFrom(from[..n], k).0, j);
      && |visited| == n + 1 && visited[..n] == before
      && visited[n] == VisitFromItem(Renamer(m),
                         FromItem(from[n].kind, AliasFactor(from[n].factor, AliasFrom(from[..n], k).1).0, from[n].on), j1).0
  {
    var n := |from| - 1;
    var aliased := AliasFrom(from, k).0;
    assert aliased[..n] == AliasFrom(from[..n], k).0;
  }

  lemma FromStep(w: World, a: seq<FromItem>, b: seq<FromItem>, moved: seq<string>, env: Env)
    requires |a| == |b| > 0
    requires EvalFrom(w, b[..|b| - 1], env) == MovedOk(EvalFrom(w, a[..|a| - 1], env), moved)
    requires EvalFrom(w, a[..|a| - 1], env).Ok? ==>
      var frames := EvalFrom(w, a[..|a| - 1], env).value;
      JoinAll(w, b[|b| - 1], Moved(frames, moved), env) == MovedOk(JoinAll(w, a[|a| - 1], frames, env), moved)
    ensures EvalFrom(w, b, env) == MovedOk(EvalFrom(w, a, env), moved)
  {
  }

  lemma LastMoves(w: World, m: Renaming, own: seq<string>, moved: seq<string>, from: seq<FromItem>, k: nat, j: nat, env: Env)
    requires Renames(m, own, moved) && FromReady(w.tables, m, from, own) && from != []
    requires forall i :: 0 <= i < |from| ==> moved[i] == FactorName(AliasFrom(from, k).0[i].factor)
    requires var n := |from| - 1;
      && EvalFrom(w, VisitFrom(Renamer(m), AliasFrom(from[..n], k).0, j).0, env) == MovedOk(EvalFrom(w, from[..n], env), moved)
      && (EvalFrom(w, from[..n], env).Ok? ==> forall f :: f in EvalFrom(w, from[..n], env).value ==> |f| == n && Quals(f, own))
    ensures EvalFrom(w, VisitFrom(Renamer(m), AliasFrom(from, k).0, j).0, env) == MovedOk(EvalFrom(w, from, env), moved)
  {
    var n := |from| - 1;
    var visited := VisitFrom(Renamer(m), AliasFrom(from, k).0, j).0;
    LastItem(m, from, k, j);
    var before := EvalFrom(w, from[..n], env);
    if before.Ok? {
      LastJoins(w, m, own, moved, from[n], visited[n], AliasFrom(from[..n], k).1,
                VisitFrom(Renamer(m), AliasFrom(from[..n], k).0, j).1, n, before.value, env);
    }
    FromStep(w, from, visited, moved, env);
  }

  lemma LastJoins(w: World, m: Renaming, own: seq<string>, moved: seq<string>, it: FromItem, it': FromItem, k: nat, j: nat,
                  n: nat, frames: seq<Frame>, env: Env)
    requires Renames(m, own, moved) && n < |own| && ItemReady(w.tables, m, own, n, it)
    requires own[n] == FactorName(it.factor) && moved[n] == FactorName(AliasFactor(it.factor, k).0)
    requires it' == VisitFromItem(Renamer(m), FromItem(it.kind, AliasFactor(it.factor, k).0, it.on), j).0
    requires forall f :: f in frames ==> |f| == n && Quals(f, own)
    ensures JoinAll(w, it', Moved(frames, moved), env) == MovedOk(JoinAll(w, it, frames, env), moved)
  {
    forall i | 0 <= i < |frames|
      ensures JoinOne(w, it', Rebind(frames[i], moved), env) == MovedOk(JoinOne(w, it, frames[i], env), moved)
    {
      assert frames[i] in frames;
      JoinOneMoves(w, m, own, moved, n, it, it', k, j, frames[i], env);
    }
    JoinAllAlike(w, it, it', frames, moved, env);
  }
}
