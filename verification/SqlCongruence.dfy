/** Replacing expressions anywhere in a statement keeps what the statement returns, as soon as
    each single replacement does. One theorem for all passes that walk the tree child-first. */
module SqlCongruence {
  import opened Wrappers
  import opened SqlValues
  import opened SqlAst
  import opened SqlEval
  import opened SqlVisit

  /** Wherever `a` is an answer, `b` is the same answer. */
  ghost predicate Refines<T(!new)>(a: Result<T>, b: Result<T>) {
    a.Ok? ==> b == a
  }

  /** `b` can stand for `a`: as a value, or where only whether the condition holds matters. */
  ghost predicate RefinesAt(w: World, p: Pos, a: Expr, b: Expr, s: Scope) {
    match p
    case Exact => Refines(EvalE(w, a, s), EvalE(w, b, s))
    case Truth => Refines(EvalCond(w, a, s), EvalCond(w, b, s))
  }

  /** The callback keeps what decides the shape of a SELECT: whether the expression aggregates,
      and what its column is called. */
  ghost predicate StepShape(f: Callback, ok: Check) {
    forall e, k, p :: AllE(ok, e, p) ==> StepShapeAt(f, e, k, p)
  }

  ghost predicate StepShapeAt(f: Callback, e: Expr, k: nat, p: Pos) {
    var kids := VisitKids(f, e, k).0;
    var done := VisitE(f, e, k).0;
    HasAgg(done) == HasAgg(kids) && OutName(done) == OutName(kids)
  }

  /** The callback keeps the value of each checked expression whose operands it has already
      rewritten. */
  ghost predicate StepSound(w: World, f: Callback, ok: Check) {
    && StepShape(f, ok)
    && forall e, k, p :: AllE(ok, e, p) ==> StepSoundAt(w, f, e, k, p)
  }

  ghost predicate StepSoundAt(w: World, f: Callback, e: Expr, k: nat, p: Pos) {
    var kids := VisitKids(f, e, k).0;
    var done := VisitE(f, e, k).0;
    forall s :: RefinesAt(w, p, kids, done, s)
  }

  // --- shape: what decides whether a SELECT aggregates, and what its columns are called ------

  lemma {:induction false} ShapeE(f: Callback, ok: Check, e: Expr, k: nat, p: Pos)
    requires StepShape(f, ok) && AllE(ok, e, p)
    ensures HasAgg(VisitE(f, e, k).0) == HasAgg(e)
    ensures OutName(VisitE(f, e, k).0) == OutName(e)
    decreases e, 1
  {
    if e.Cmp? || e.And? || e.Or? {
      ShapeConnective(f, ok, e, k, p);
    } else if e.AnyOf? || e.Index? || e.Case? {
      ShapeOperator(f, ok, e, k, p);
    } else {
      ShapeOther(f, ok, e, k, p);
    }
    assert StepShapeAt(f, e, k, p);
  }

  lemma {:induction false} ShapeConnective(f: Callback, ok: Check, e: Expr, k: nat, p: Pos)
    requires StepShape(f, ok) && AllKids(ok, e, p)
    requires e.Cmp? || e.And? || e.Or?
    ensures HasAgg(VisitKids(f, e, k).0) == HasAgg(e)
    ensures OutName(VisitKids(f, e, k).0) == OutName(e)
    decreases e, 0
  {
    var q := if e.Cmp? then Exact else p;
    ShapeE(f, ok, e.left, k, q);
    ShapeE(f, ok, e.right, VisitE(f, e.left, k).1, q);
  }

  lemma {:induction false} ShapeOperator(f: Callback, ok: Check, e: Expr, k: nat, p: Pos)
    requires StepShape(f, ok) && AllKids(ok, e, p)
    requires e.AnyOf? || e.Index? || e.Case?
    ensures HasAgg(VisitKids(f, e, k).0) == HasAgg(e)
    ensures OutName(VisitKids(f, e, k).0) == OutName(e)
    decreases e, 0
  {
    match e
    case AnyOf(x, a) =>
      ShapeE(f, ok, x, k, Exact);
      ShapeE(f, ok, a, VisitE(f, x, k).1, Exact);
    case Index(a, i) =>
      ShapeE(f, ok, a, k, Exact);
      ShapeE(f, ok, i, VisitE(f, a, k).1, Exact);
    case Case(c, t, g) =>
      ShapeE(f, ok, c, k, Truth);
      var k1 := VisitE(f, c, k).1;
      ShapeE(f, ok, t, k1, p);
      ShapeE(f, ok, g, VisitE(f, t, k1).1, p);
  }

  lemma {:induction false} ShapeOther(f: Callback, ok: Check, e: Expr, k: nat, p: Pos)
    requires StepShape(f, ok) && AllKids(ok, e, p)
    requires !e.Cmp? && !e.And? && !e.Or? && !e.AnyOf? && !e.Index? && !e.Case?
    ensures HasAgg(VisitKids(f, e, k).0) == HasAgg(e)
    ensures OutName(VisitKids(f, e, k).0) == OutName(e)
    decreases e, 0
  {
    match e
    case Not(x) => ShapeE(f, ok, x, k, Exact);
    case Nested(x) => ShapeE(f, ok, x, k, p);
    case Call(_, args) => ShapeEs(f, ok, args, k);
    case Tuple(es) => ShapeEs(f, ok, es, k);
    case InQuery(x, _, _) => ShapeE(f, ok, x, k, Exact);
    case _ =>
  }

  lemma {:induction false} ShapeEs(f: Callback, ok: Check, es: seq<Expr>, k: nat)
    requires StepShape(f, ok) && AllEs(ok, es)
    ensures AnyHasAgg(VisitEs(f, es, k).0) == AnyHasAgg(es)
    decreases es, 0
  {
    if es != [] {
      ShapeE(f, ok, es[0], k, Exact);
      ShapeEs(f, ok, es[1..], VisitE(f, es[0], k).1);
    }
  }

  lemma {:induction false} ShapeAggs(f: Callback, ok: Check, items: seq<Item>, k: nat)
    requires StepShape(f, ok) && AllItems(ok, items)
    ensures ItemsHaveAgg(VisitItems(f, items, k).0) == ItemsHaveAgg(items)
    decreases items
  {
    if items != [] {
      if items[0].Item? {
        ShapeE(f, ok, items[0].e, k, Exact);
      }
      ShapeAggs(f, ok, items[1..], VisitItem(f, items[0], k).1);
    }
  }

  lemma {:induction false} ShapeItems(ts: Tables, f: Callback, ok: Check, items: seq<Item>, k: nat, all: seq<string>)
    requires StepShape(f, ok) && AllItems(ok, items)
    ensures ItemCols(ts, VisitItems(f, items, k).0, all) == ItemCols(ts, items, all)
    decreases items, 0
  {
    if items != [] {
      if items[0].Item? {
        ShapeE(f, ok, items[0].e, k, Exact);
      }
      ShapeItems(ts, f, ok, items[1..], VisitItem(f, items[0], k).1, all);
    }
  }

  lemma {:induction false} ShapeFrom(ts: Tables, f: Callback, ok: Check, from: seq<FromItem>, k: nat)
    requires StepShape(f, ok) && AllFrom(ok, from)
    ensures FromCols(ts, VisitFrom(f, from, k).0) == FromCols(ts, from)
    decreases from, 0
  {
    if from != [] {
      ShapeFrom(ts, f, ok, from[..|from| - 1], k);
      ShapeFromItem(ts, f, ok, from[|from| - 1], VisitFrom(f, from[..|from| - 1], k).1);
      var visited := VisitFrom(f, from, k).0;
      assert visited[..|visited| - 1] == VisitFrom(f, from[..|from| - 1], k).0;
    }
  }

  lemma {:induction false} ShapeFromItem(ts: Tables, f: Callback, ok: Check, it: FromItem, k: nat)
    requires StepShape(f, ok) && AllFromItem(ok, it)
    ensures JoinedCols(ts, VisitFromItem(f, it, k).0) == JoinedCols(ts, it)
    decreases it, 0
  {
    ShapeFactor(ts, f, ok, it.factor, k);
  }

  lemma {:induction false} ShapeFactor(ts: Tables, f: Callback, ok: Check, t: Factor, k: nat)
    requires StepShape(f, ok) && AllFactor(ok, t)
    ensures FactorCols(ts, VisitFactor(f, t, k).0) == FactorCols(ts, t)
    ensures FactorName(VisitFactor(f, t, k).0) == FactorName(t)
    decreases t, 0
  {
    match t
    case Table(_, _, _) =>
    case Derived(q, _, _) => ShapeB(ts, f, ok, q.body, k);
    case Series(_, _, _) =>
  }

  lemma {:induction false} ShapeB(ts: Tables, f: Callback, ok: Check, b: Body, k: nat)
    requires StepShape(f, ok) && AllB(ok, b)
    ensures BodyCols(ts, VisitB(f, b, k).0) == BodyCols(ts, b)
    decreases b, 0
  {
    match b
    case Select(proj, from, _, _, _, _) =>
      ShapeItems(ts, f, ok, proj, k, FromCols(ts, from));
      ShapeFrom(ts, f, ok, from, VisitItems(f, proj, k).1);
    case Union(l, _, _) => ShapeB(ts, f, ok, l, k);
    case Paren(q) => ShapeB(ts, f, ok, q.body, k);
  }

  lemma ShapeSelect(f: Callback, ok: Check, b: Body, k: nat)
    requires StepShape(f, ok) && AllB(ok, b) && b.Select?
    ensures Aggregated(VisitB(f, b, k).0) == Aggregated(b)
  {
    ShapeAggs(f, ok, b.proj, k);
  }

  // --- evaluation ----------------------------------------------------------------------------

  /** Main congruence: a rewritten expression answers what the written one does. */
  lemma {:induction false} VisitSoundE(w: World, f: Callback, ok: Check, e: Expr, k: nat, p: Pos, s: Scope)
    requires StepSound(w, f, ok) && AllE(ok, e, p)
    ensures RefinesAt(w, p, e, VisitE(f, e, k).0, s)
    decreases e, 1
  {
    if e.And? || e.Or? || e.Nested? || e.Case? {
      VisitSoundConnective(w, f, ok, e, k, p, s);
    } else if e.Cmp? || e.AnyOf? || e.Index? {
      VisitSoundOperator(w, f, ok, e, k, p, s);
    } else if e.Scalar? || e.Exists? || e.InQuery? {
      VisitSoundSubquery(w, f, ok, e, k, p, s);
    } else {
      VisitSoundOther(w, f, ok, e, k, p, s);
    }
    assert StepSoundAt(w, f, e, k, p);
    assert RefinesAt(w, p, VisitKids(f, e, k).0, VisitE(f, e, k).0, s);
  }

  lemma {:induction false} VisitSoundConnective(w: World, f: Callback, ok: Check, e: Expr, k: nat, p: Pos, s: Scope)
    requires StepSound(w, f, ok) && AllKids(ok, e, p)
    requires e.And? || e.Or? || e.Nested? || e.Case?
    ensures RefinesAt(w, p, e, VisitKids(f, e, k).0, s)
    decreases e, 0
  {
    match e
    case Nested(x) => VisitSoundE(w, f, ok, x, k, p, s);
    case Case(c, t, g) =>
      VisitSoundE(w, f, ok, c, k, Truth, s);
      var k1 := VisitE(f, c, k).1;
      VisitSoundE(w, f, ok, t, k1, p, s);
      VisitSoundE(w, f, ok, g, VisitE(f, t, k1).1, p, s);
    case And(l, r) =>
      VisitSoundE(w, f, ok, l, k, p, s);
      VisitSoundE(w, f, ok, r, VisitE(f, l, k).1, p, s);
    case Or(l, r) =>
      VisitSoundE(w, f, ok, l, k, p, s);
      VisitSoundE(w, f, ok, r, VisitE(f, l, k).1, p, s);
  }

  lemma {:induction false} VisitSoundOperator(w: World, f: Callback, ok: Check, e: Expr, k: nat, p: Pos, s: Scope)
    requires StepSound(w, f, ok) && AllKids(ok, e, p)
    requires e.Cmp? || e.AnyOf? || e.Index?
    ensures RefinesAt(w, p, e, VisitKids(f, e, k).0, s)
    decreases e, 0
  {
    match e
    case Cmp(_, l, r) =>
      VisitSoundE(w, f, ok, l, k, Exact, s);
      VisitSoundE(w, f, ok, r, VisitE(f, l, k).1, Exact, s);
    case AnyOf(x, a) =>
      VisitSoundE(w, f, ok, x, k, Exact, s);
      VisitSoundE(w, f, ok, a, VisitE(f, x, k).1, Exact, s);
    case Index(a, i) =>
      VisitSoundE(w, f, ok, a, k, Exact, s);
      VisitSoundE(w, f, ok, i, VisitE(f, a, k).1, Exact, s);
  }

  lemma {:induction false} VisitSoundSubquery(w: World, f: Callback, ok: Check, e: Expr, k: nat, p: Pos, s: Scope)
    requires StepSound(w, f, ok) && AllKids(ok, e, p)
    requires e.Scalar? || e.Exists? || e.InQuery?
    ensures RefinesAt(w, p, e, VisitKids(f, e, k).0, s)
    decreases e, 0
  {
    match e
    case Scalar(q) => VisitSoundQ(w, f, ok, q, k, s.env);
    case Exists(q, _) => VisitSoundQ(w, f, ok, q, k, s.env);
    case InQuery(x, q, _) =>
      VisitSoundE(w, f, ok, x, k, Exact, s);
      VisitSoundQ(w, f, ok, q, VisitE(f, x, k).1, s.env);
  }

  lemma {:induction false} VisitSoundOther(w: World, f: Callback, ok: Check, e: Expr, k: nat, p: Pos, s: Scope)
    requires StepSound(w, f, ok) && AllKids(ok, e, p)
    requires !e.Cmp? && !e.And? && !e.Or? && !e.Nested? && !e.AnyOf? && !e.Index? && !e.Case?
    requires !e.Scalar? && !e.Exists? && !e.InQuery?
    ensures RefinesAt(w, p, e, VisitKids(f, e, k).0, s)
    decreases e, 0
  {
    match e
    case Not(x) => VisitSoundE(w, f, ok, x, k, Exact, s);
    case Call(_, args) => VisitSoundEs(w, f, ok, args, k, s);
    case Tuple(es) => VisitSoundEs(w, f, ok, es, k, s);
    case Agg(_, arg) =>
      if s.group.Some? {
        VisitSoundOver(w, f, ok, arg, k, s.group.value);
      }
    case _ =>
  }

  lemma {:induction false} VisitSoundEs(w: World, f: Callback, ok: Check, es: seq<Expr>, k: nat, s: Scope)
    requires StepSound(w, f, ok) && AllEs(ok, es)
    ensures Refines(EvalEs(w, es, s), EvalEs(w, VisitEs(f, es, k).0, s))
    decreases es, 0
  {
    if es != [] {
      VisitSoundE(w, f, ok, es[0], k, Exact, s);
      VisitSoundEs(w, f, ok, es[1..], VisitE(f, es[0], k).1, s);
      assert VisitEs(f, es, k).0[1..] == VisitEs(f, es[1..], VisitE(f, es[0], k).1).0;
    }
  }

  lemma {:induction false} VisitSoundOver(w: World, f: Callback, ok: Check, arg: Expr, k: nat, envs: seq<Env>)
    requires StepSound(w, f, ok) && AllE(ok, arg, Exact)
    ensures Refines(EvalOver(w, arg, envs), EvalOver(w, VisitE(f, arg, k).0, envs))
    decreases arg, 2, |envs|
  {
    if envs != [] {
      VisitSoundE(w, f, ok, arg, k, Exact, Scope(envs[0], None));
      VisitSoundOver(w, f, ok, arg, k, envs[1..]);
    }
  }

  /** A rewritten subquery returns the rows the written one does. */
  lemma {:induction false} VisitSoundQ(w: World, f: Callback, ok: Check, q: Query, k: nat, env: Env)
    requires StepSound(w, f, ok) && AllQ(ok, q)
    ensures Refines(EvalQ(w, q, env), EvalQ(w, VisitQ(f, q, k).0, env))
    decreases q, 0
  {
    VisitSoundB(w, f, ok, q.body, k, env);
  }

  lemma {:induction false} VisitSoundB(w: World, f: Callback, ok: Check, b: Body, k: nat, env: Env)
    requires StepSound(w, f, ok) && AllB(ok, b)
    ensures Refines(EvalB(w, b, env), EvalB(w, VisitB(f, b, k).0, env))
    decreases b, 2
  {
    match b
    case Select(_, _, _, _, _, _) =>
      VisitSoundSource(w, f, ok, b, k, env);
      var source := Source(w, b, env);
      if source.Ok? {
        VisitSoundOutput(w, f, ok, b, k, source.value, env);
      }
    case Union(l, r, _) =>
      VisitSoundB(w, f, ok, l, k, env);
      VisitSoundB(w, f, ok, r, VisitB(f, l, k).1, env);
      ShapeB(w.tables, f, ok, l, k);
    case Paren(q) => VisitSoundQ(w, f, ok, q, k, env);
  }

  lemma {:induction false} VisitSoundSource(w: World, f: Callback, ok: Check, b: Body, k: nat, env: Env)
    requires StepSound(w, f, ok) && AllB(ok, b) && b.Select?
    ensures Refines(Source(w, b, env), Source(w, VisitB(f, b, k).0, env))
    decreases b, 1
  {
    var k1 := VisitItems(f, b.proj, k).1;
    VisitSoundFrom(w, f, ok, b.from, k1, env);
    var frames := EvalFrom(w, b.from, env);
    if frames.Ok? && b.selection.Some? {
      VisitSoundFilter(w, f, ok, b.selection.value, VisitFrom(f, b.from, k1).1, frames.value, env);
    }
  }

  lemma {:induction false} VisitSoundOutput(w: World, f: Callback, ok: Check, b: Body, k: nat, kept: seq<Frame>, env: Env)
    requires StepSound(w, f, ok) && AllB(ok, b) && b.Select?
    ensures Refines(Output(w, b, kept, env), Output(w, VisitB(f, b, k).0, kept, env))
    decreases b, 1
  {
    ShapeSelect(f, ok, b, k);
    if Aggregated(b) {
      var k3 := VisitOpt(f, b.selection, VisitFrom(f, b.from, VisitItems(f, b.proj, k).1).1).1;
      VisitSoundKeys(w, f, ok, b.groupBy, k3, kept, env);
      var keys := EvalKeys(w, b.groupBy, kept, env);
      if keys.Ok? {
        VisitSoundGroups(w, f, ok, b, k, GroupsOf(b.groupBy, keys.value, kept), env);
      }
    } else {
      VisitSoundRows(w, f, ok, b.proj, k, kept, env);
    }
  }

  lemma {:induction false} VisitSoundKeys(w: World, f: Callback, ok: Check, keys: seq<Expr>, k: nat, frames: seq<Frame>, env: Env)
    requires StepSound(w, f, ok) && AllEs(ok, keys)
    ensures Refines(EvalKeys(w, keys, frames, env), EvalKeys(w, VisitEs(f, keys, k).0, frames, env))
    decreases keys, 1, |frames|
  {
    if frames != [] {
      VisitSoundEs(w, f, ok, keys, k, Scope(Push(env, frames[0]), None));
      VisitSoundKeys(w, f, ok, keys, k, frames[1..], env);
    }
  }

  lemma {:induction false} VisitSoundGroups(w: World, f: Callback, ok: Check, b: Body, k: nat, groups: seq<seq<Frame>>, env: Env)
    requires StepSound(w, f, ok) && AllB(ok, b) && b.Select?
    ensures Refines(EvalGroups(w, b, groups, env), EvalGroups(w, VisitB(f, b, k).0, groups, env))
    decreases b, 0, |groups|
  {
    if groups != [] {
      VisitSoundGroup(w, f, ok, b, k, groups[0], env);
      VisitSoundGroups(w, f, ok, b, k, groups[1..], env);
    }
  }

  lemma {:induction false} VisitSoundGroup(w: World, f: Callback, ok: Check, b: Body, k: nat, g: seq<Frame>, env: Env)
    requires StepSound(w, f, ok) && AllB(ok, b) && b.Select?
    ensures Refines(EvalGroup(w, b, g, env), EvalGroup(w, VisitB(f, b, k).0, g, env))
    decreases b, 0, 0
  {
    var k1 := VisitItems(f, b.proj, k).1;
    VisitKeepsNames(f, b.from, k1);
    var s := GroupScope(b.from, env, g);
    assert GroupFrame(VisitB(f, b, k).0.from, g) == GroupFrame(b.from, g);
    if b.having.Some? {
      var k3 := VisitOpt(f, b.selection, VisitFrom(f, b.from, k1).1).1;
      VisitSoundE(w, f, ok, b.having.value, VisitEs(f, b.groupBy, k3).1, Truth, s);
    }
    VisitSoundItems(w, f, ok, b.proj, k, GroupFrame(b.from, g), s);
  }

  lemma {:induction false} VisitSoundRows(w: World, f: Callback, ok: Check, items: seq<Item>, k: nat, frames: seq<Frame>, env: Env)
    requires StepSound(w, f, ok) && AllItems(ok, items)
    ensures Refines(EvalRows(w, items, frames, env), EvalRows(w, VisitItems(f, items, k).0, frames, env))
    decreases items, 1, |frames|
  {
    if frames != [] {
      VisitSoundItems(w, f, ok, items, k, frames[0], Scope(Push(env, frames[0]), None));
      VisitSoundRows(w, f, ok, items, k, frames[1..], env);
    }
  }

  lemma {:induction false} VisitSoundItems(w: World, f: Callback, ok: Check, items: seq<Item>, k: nat, frame: Frame, s: Scope)
    requires StepSound(w, f, ok) && AllItems(ok, items)
    ensures Refines(EvalItems(w, items, frame, s), EvalItems(w, VisitItems(f, items, k).0, frame, s))
    decreases items, 0
  {
    if items != [] {
      VisitSoundItem(w, f, ok, items[0], k, frame, s);
      VisitSoundItems(w, f, ok, items[1..], VisitItem(f, items[0], k).1, frame, s);
      assert VisitItems(f, items, k).0[1..] == VisitItems(f, items[1..], VisitItem(f, items[0], k).1).0;
    }
  }

  lemma {:induction false} VisitSoundItem(w: World, f: Callback, ok: Check, it: Item, k: nat, frame: Frame, s: Scope)
    requires StepSound(w, f, ok) && AllItem(ok, it)
    ensures Refines(EvalItem(w, it, frame, s), EvalItem(w, VisitItem(f, it, k).0, frame, s))
    decreases it, 0
  {
    match it
    case Wildcard =>
    case Item(e, alias) =>
      VisitSoundE(w, f, ok, e, k, Exact, s);
      ShapeE(f, ok, e, k, Exact);
  }

  lemma {:induction false} VisitSoundFilter(w: World, f: Callback, ok: Check, cond: Expr, k: nat, frames: seq<Frame>, env: Env)
    requires StepSound(w, f, ok) && AllE(ok, cond, Truth)
    ensures Refines(Filter(w, cond, frames, env), Filter(w, VisitE(f, cond, k).0, frames, env))
    decreases cond, 3, |frames|
  {
    if frames != [] {
      VisitSoundE(w, f, ok, cond, k, Truth, Scope(Push(env, frames[0]), None));
      VisitSoundFilter(w, f, ok, cond, k, frames[1..], env);
    }
  }

  lemma {:induction false} VisitSoundFrom(w: World, f: Callback, ok: Check, from: seq<FromItem>, k: nat, env: Env)
    requires StepSound(w, f, ok) && AllFrom(ok, from)
    ensures Refines(EvalFrom(w, from, env), EvalFrom(w, VisitFrom(f, from, k).0, env))
    decreases from, 0
  {
    if from != [] {
      var n := |from| - 1;
      VisitSoundFrom(w, f, ok, from[..n], k, env);
      var visited := VisitFrom(f, from, k).0;
      assert visited[..n] == VisitFrom(f, from[..n], k).0;
      var before := EvalFrom(w, from[..n], env);
      if before.Ok? {
        VisitSoundJoinAll(w, f, ok, from[n], VisitFrom(f, from[..n], k).1, before.value, env);
      }
    }
  }

  lemma {:induction false} VisitSoundJoinAll(w: World, f: Callback, ok: Check, it: FromItem, k: nat, frames: seq<Frame>, env: Env)
    requires StepSound(w, f, ok) && AllFromItem(ok, it)
    ensures Refines(JoinAll(w, it, frames, env), JoinAll(w, VisitFromItem(f, it, k).0, frames, env))
    decreases it, 1, |frames|
  {
    if frames != [] {
      VisitSoundJoinOne(w, f, ok, it, k, frames[0], env);
      VisitSoundJoinAll(w, f, ok, it, k, frames[1..], env);
    }
  }

  lemma {:induction false} VisitSoundJoinOne(w: World, f: Callback, ok: Check, it: FromItem, k: nat, frame: Frame, env: Env)
    requires StepSound(w, f, ok) && AllFromItem(ok, it)
    ensures Refines(JoinOne(w, it, frame, env), JoinOne(w, VisitFromItem(f, it, k).0, frame, env))
    decreases it, 0
  {
    VisitSoundFactor(w, f, ok, it.factor, k, frame, env);
    ShapeFactor(w.tables, f, ok, it.factor, k);
    var recs := EvalFactor(w, it.factor, frame, env);
    if recs.Ok? {
      var k1 := VisitFactor(f, it.factor, k).1;
      VisitSoundMatching(w, f, ok, it.on, k1, FactorName(it.factor), recs.value, frame, env);
    }
  }

  lemma {:induction false} VisitSoundFactor(w: World, f: Callback, ok: Check, t: Factor, k: nat, frame: Frame, env: Env)
    requires StepSound(w, f, ok) && AllFactor(ok, t)
    ensures Refines(EvalFactor(w, t, frame, env), EvalFactor(w, VisitFactor(f, t, k).0, frame, env))
    decreases t, 0
  {
    match t
    case Table(_, _, _) =>
    case Derived(q, _, lateral) => VisitSoundQ(w, f, ok, q, k, if lateral then Push(env, frame) else env);
    case Series(lo, hi, _) =>
      VisitSoundE(w, f, ok, lo, k, Exact, Scope(Push(env, frame), None));
      VisitSoundE(w, f, ok, hi, VisitE(f, lo, k).1, Exact, Scope(Push(env, frame), None));
  }

  lemma {:induction false} VisitSoundMatching(w: World, f: Callback, ok: Check, on: Expr, k: nat, name: string, recs: seq<Rec>, frame: Frame, env: Env)
    requires StepSound(w, f, ok) && AllE(ok, on, Truth)
    ensures Refines(Matching(w, on, name, recs, frame, env), Matching(w, VisitE(f, on, k).0, name, recs, frame, env))
    decreases on, 3, |recs|
  {
    if recs != [] {
      var joined := frame + [Bound(name, recs[0])];
      VisitSoundE(w, f, ok, on, k, Truth, Scope(Push(env, joined), None));
      VisitSoundMatching(w, f, ok, on, k, name, recs[1..], frame, env);
    }
  }

  lemma JustVisited(f: Callback, e: Expr, k: nat)
    ensures VisitQ(f, Just(e), k) == (Just(VisitE(f, e, k).0), VisitE(f, e, k).1)
  {
    var items := [Item(e, None)];
    assert items[1..] == [];
    var it := VisitItem(f, items[0], k).0;
    assert [it] + [] == [it];
    assert VisitItems(f, items[1..], VisitItem(f, items[0], k).1) == ([], VisitE(f, e, k).1);
    assert VisitItems(f, items, k) == ([it], VisitE(f, e, k).1);
    assert VisitFrom(f, [], VisitE(f, e, k).1) == ([], VisitE(f, e, k).1);
    assert VisitB(f, Just(e).body, k) == (Just(VisitE(f, e, k).0).body, VisitE(f, e, k).1);
  }
}
