/** Scope: what a tree refers to outside itself, which names it binds, and the theorem that its
    value depends on nothing else. Renaming and adding or hiding outer names are its cases. */
module SqlScope {
  import opened Wrappers
  import opened SqlValues
  import opened SqlAst
  import opened SqlEval
  import opened SqlVisit
  import opened SqlCarry
  import opened SqlCongruence

  /** A column reference, or a table function's alias read as a value. */
  datatype Ref = Ref(qual: string, name: string) | Whole(qual: string)

  /** A name a nested FROM binds, or the site of a LIMIT. */
  datatype Mark = Binder(name: string) | Site(n: nat)

  function Without(refs: set<Ref>, names: set<string>): set<Ref> {
    set r | r in refs && r.qual !in names
  }

  // --- references that reach outside the tree ------------------------------------------------

  function FreeE(e: Expr): set<Ref>
    decreases e, 0
  {
    match e
    case Lit(_) => {}
    case Col(q, c) => {Ref(q, c)}
    case Bare(x) => {Whole(x)}
    case Cmp(_, l, r) => FreeE(l) + FreeE(r)
    case And(l, r) => FreeE(l) + FreeE(r)
    case Or(l, r) => FreeE(l) + FreeE(r)
    case Not(x) => FreeE(x)
    case Nested(x) => FreeE(x)
    case Case(c, t, f) => FreeE(c) + FreeE(t) + FreeE(f)
    case Call(_, args) => FreeEs(args)
    case CountStar => {}
    case Agg(_, arg) => FreeE(arg)
    case Tuple(es) => FreeEs(es)
    case Scalar(q) => FreeB(q.body)
    case Exists(q, _) => FreeB(q.body)
    case InQuery(x, q, _) => FreeE(x) + FreeB(q.body)
    case AnyOf(x, a) => FreeE(x) + FreeE(a)
    case Index(a, i) => FreeE(a) + FreeE(i)
  }

  function FreeEs(es: seq<Expr>): set<Ref>
    decreases es, 0
  {
    if es == [] then {} else FreeE(es[0]) + FreeEs(es[1..])
  }

  function FreeOpt(o: Option<Expr>): set<Ref>
    decreases o, 0
  {
    match o
    case None => {}
    case Some(e) => FreeE(e)
  }

  function FreeB(b: Body): set<Ref>
    decreases b, 1
  {
    match b
    case Select(_, from, _, _, _, _) => FreeFrom(from) + Without(FreeClauses(b), Names(from))
    case Union(l, r, _) => FreeB(l) + FreeB(r)
    case Paren(q) => FreeB(q.body)
  }

  /** The references of the clauses that see the whole FROM. */
  function FreeClauses(b: Body): set<Ref>
    requires b.Select?
    decreases b, 0
  {
    match b
    case Select(proj, _, selection, groupBy, having, _) =>
      FreeItems(proj) + FreeOpt(selection) + FreeEs(groupBy) + FreeOpt(having)
  }

  function FreeItems(items: seq<Item>): set<Ref>
    decreases items, 0
  {
    if items == [] then {} else FreeItem(items[0]) + FreeItems(items[1..])
  }

  function FreeItem(it: Item): set<Ref>
    decreases it, 0
  {
    match it
    case Wildcard => {}
    case Item(e, _) => FreeE(e)
  }

  function FreeFrom(from: seq<FromItem>): set<Ref>
    decreases from, 0
  {
    if from == [] then {}
    else FreeFrom(from[..|from| - 1]) + FreeJoined(from[|from| - 1], Names(from[..|from| - 1]))
  }

  /** A FROM item whose siblings bind the names `before`. */
  function FreeJoined(it: FromItem, before: set<string>): set<Ref>
    decreases it, 0
  {
    FreeFactor(it.factor, before) + Without(FreeE(it.on), before + {FactorName(it.factor)})
  }

  function FreeFactor(t: Factor, before: set<string>): set<Ref>
    decreases t, 0
  {
    match t
    case Table(_, _, _) => {}
    case Derived(q, _, lateral) => if lateral then Without(FreeB(q.body), before) else FreeB(q.body)
    case Series(lo, hi, _) => Without(FreeE(lo) + FreeE(hi), before)
  }

  // --- names bound and LIMITs applied inside the tree ----------------------------------------

  function MarksE(e: Expr): set<Mark>
    decreases e, 0
  {
    match e
    case Lit(_) => {}
    case Col(_, _) => {}
    case Bare(_) => {}
    case Cmp(_, l, r) => MarksE(l) + MarksE(r)
    case And(l, r) => MarksE(l) + MarksE(r)
    case Or(l, r) => MarksE(l) + MarksE(r)
    case Not(x) => MarksE(x)
    case Nested(x) => MarksE(x)
    case Case(c, t, f) => MarksE(c) + MarksE(t) + MarksE(f)
    case Call(_, args) => MarksEs(args)
    case CountStar => {}
    case Agg(_, arg) => MarksE(arg)
    case Tuple(es) => MarksEs(es)
    case Scalar(q) => MarksQ(q)
    case Exists(q, _) => MarksQ(q)
    case InQuery(x, q, _) => MarksE(x) + MarksQ(q)
    case AnyOf(x, a) => MarksE(x) + MarksE(a)
    case Index(a, i) => MarksE(a) + MarksE(i)
  }

  function MarksEs(es: seq<Expr>): set<Mark>
    decreases es, 0
  {
    if es == [] then {} else MarksE(es[0]) + MarksEs(es[1..])
  }

  function MarksOpt(o: Option<Expr>): set<Mark>
    decreases o, 0
  {
    match o
    case None => {}
    case Some(e) => MarksE(e)
  }

  function MarksQ(q: Query): set<Mark>
    decreases q, 0
  {
    (if q.limit.None? && q.offset == 0 then {} else {Site(q.site)}) + MarksB(q.body)
  }

  function MarksB(b: Body): set<Mark>
    decreases b, 0
  {
    match b
    case Select(proj, from, selection, groupBy, having, _) =>
      MarksItems(proj) + MarksFrom(from) + MarksOpt(selection) + MarksEs(groupBy) + MarksOpt(having)
    case Union(l, r, _) => MarksB(l) + MarksB(r)
    case Paren(q) => MarksQ(q)
  }

  function MarksItems(items: seq<Item>): set<Mark>
    decreases items, 0
  {
    if items == [] then {} else MarksItem(items[0]) + MarksItems(items[1..])
  }

  function MarksItem(it: Item): set<Mark>
    decreases it, 0
  {
    match it
    case Wildcard => {}
    case Item(e, _) => MarksE(e)
  }

  function MarksFrom(from: seq<FromItem>): set<Mark>
    decreases from, 0
  {
    if from == [] then {}
    else MarksFrom(from[..|from| - 1]) + MarksFromItem(from[|from| - 1])
  }

  function MarksFromItem(it: FromItem): set<Mark>
    decreases it, 0
  {
    {Binder(FactorName(it.factor))} + MarksFactor(it.factor) + MarksE(it.on)
  }

  function MarksFactor(t: Factor): set<Mark>
    decreases t, 0
  {
    match t
    case Table(_, _, _) => {}
    case Derived(q, _, _) => MarksQ(q)
    case Series(lo, hi, _) => MarksE(lo) + MarksE(hi)
  }

  // --- renaming qualifiers -------------------------------------------------------------------

  type Renaming = map<string, string>

  function Rn(m: Renaming, x: string): string {
    if x in m then m[x] else x
  }

  /** The callback that points references at renamed FROM items. */
  function Renamer(m: Renaming): Callback {
    (e: Expr, k: nat) => (if e.Col? then Col(Rn(m, e.qual), e.name) else e, k)
  }

  lemma RenamerShape(m: Renaming)
    ensures StepShape(Renamer(m), Always)
  {
    forall e: Expr, k: nat, p: Pos ensures StepShapeAt(Renamer(m), e, k, p) {
    }
  }

  // --- when two evaluations agree ------------------------------------------------------------

  /** Both worlds hold the same tables and functions, and take the same rows at these sites. */
  ghost predicate SameWorld(w1: World, w2: World, marks: set<Mark>) {
    && w1.tables == w2.tables && w1.call == w2.call
    && forall n, rows :: Site(n) in marks ==> w1.pick(n, rows) == w2.pick(n, rows)
  }

  /** No FROM inside the tree binds a renamed name, before or after renaming. */
  ghost predicate Clear(m: Renaming, marks: set<Mark>) {
    forall x :: Binder(x) in marks ==> x !in m.Keys && x !in m.Values
  }

  /** What a reference finds once qualifiers are renamed; the callback passes over bare names. */
  function Found(m: Renaming, env: Env, r: Ref): Result<Value> {
    match r
    case Ref(q, c) => Look(env, Rn(m, q), c)
    case Whole(x) => Look(env, x, x)
  }

  /** Every reference finds in `env2`, under its new name, what it finds in `env1`. */
  ghost predicate SameView(m: Renaming, refs: set<Ref>, env1: Env, env2: Env) {
    forall r :: r in refs ==> Found(map[], env1, r) == Found(m, env2, r)
  }

  ghost predicate SameScope(m: Renaming, refs: set<Ref>, s1: Scope, s2: Scope) {
    && SameView(m, refs, s1.env, s2.env)
    && s1.group.Some? == s2.group.Some?
    && (s1.group.Some? ==>
      && |s1.group.value| == |s2.group.value|
      && forall i :: 0 <= i < |s1.group.value| ==> SameView(m, refs, s1.group.value[i], s2.group.value[i]))
  }

  /** A frame's names, in order. */
  predicate Binds(f: Frame, from: seq<FromItem>) {
    |f| == |from| && forall i :: 0 <= i < |f| ==> f[i].qual == FactorName(from[i].factor)
  }

  lemma {:induction false} FrameKeys(f: Frame, from: seq<FromItem>)
    requires Binds(f, from)
    ensures FrameEnv(f).Keys == Names(from)
  {
    if f == [] {
      assert from == [];
    } else {
      var n := |f| - 1;
      FrameKeys(f[..n], from[..n]);
      assert Names(from) == Names(from[..n]) + {FactorName(from[n].factor)} by {
        forall x ensures x in Names(from) <==> x in Names(from[..n]) + {FactorName(from[n].factor)} {
          if x in Names(from) {
            var k :| 0 <= k < |from| && x == FactorName(from[k].factor);
            assert k < n ==> from[..n][k] == from[k];
          }
          if x in Names(from[..n]) {
            var k :| 0 <= k < n && x == FactorName(from[..n][k].factor);
            assert from[..n][k] == from[k];
          }
        }
      }
    }
  }

  /** Entering a FROM keeps agreement: its names are found in the frame, the others outside. */
  lemma PushView(m: Renaming, refs: set<Ref>, names: set<string>, env1: Env, env2: Env, f: Frame)
    requires FrameEnv(f).Keys == names
    requires forall x :: x in names ==> x !in m.Keys && x !in m.Values
    requires SameView(m, Without(refs, names), env1, env2)
    ensures SameView(m, refs, Push(env1, f), Push(env2, f))
  {
    forall r | r in refs
      ensures Found(map[], Push(env1, f), r) == Found(m, Push(env2, f), r)
    {
      if r.qual in names {
      } else {
        assert r in Without(refs, names);
        assert Rn(m, r.qual) !in names by {
          if r.qual in m {
            assert m[r.qual] in m.Values;
          }
        }
      }
    }
  }

  // --- the names of evaluated frames ---------------------------------------------------------

  lemma {:induction false} FromBinds(w: World, from: seq<FromItem>, env: Env)
    requires EvalFrom(w, from, env).Ok?
    ensures forall i :: 0 <= i < |EvalFrom(w, from, env).value| ==> Binds(EvalFrom(w, from, env).value[i], from)
  {
    if from != [] {
      var n := |from| - 1;
      FromBinds(w, from[..n], env);
      JoinBinds(w, from, EvalFrom(w, from[..n], env).value, env);
    }
  }

  lemma {:induction false} JoinBinds(w: World, from: seq<FromItem>, frames: seq<Frame>, env: Env)
    requires from != []
    requires forall i :: 0 <= i < |frames| ==> Binds(frames[i], from[..|from| - 1])
    requires JoinAll(w, from[|from| - 1], frames, env).Ok?
    ensures var joined := JoinAll(w, from[|from| - 1], frames, env).value;
            forall i :: 0 <= i < |joined| ==> Binds(joined[i], from)
    decreases |frames|
  {
    if frames != [] {
      var it := from[|from| - 1];
      JoinBinds(w, from, frames[1..], env);
      var recs := EvalFactor(w, it.factor, frames[0], env).value;
      MatchingBinds(w, from, recs, frames[0], env);
      ExtendBinds(from, frames[0], NullRec(FactorCols(w.tables, it.factor)));
    }
  }

  lemma ExtendBinds(from: seq<FromItem>, f: Frame, rec: Rec)
    requires from != [] && Binds(f, from[..|from| - 1])
    ensures Binds(f + [Bound(FactorName(from[|from| - 1].factor), rec)], from)
  {
    var n := |from| - 1;
    forall i | 0 <= i < n ensures f[i].qual == FactorName(from[i].factor) {
      assert from[..n][i] == from[i];
    }
  }

  lemma {:induction false} MatchingBinds(w: World, from: seq<FromItem>, recs: seq<Rec>, f: Frame, env: Env)
    requires from != [] && Binds(f, from[..|from| - 1])
    requires var it := from[|from| - 1]; Matching(w, it.on, FactorName(it.factor), recs, f, env).Ok?
    ensures var it := from[|from| - 1];
            var joined := Matching(w, it.on, FactorName(it.factor), recs, f, env).value;
            forall i :: 0 <= i < |joined| ==> Binds(joined[i], from)
    decreases |recs|
  {
    if recs != [] {
      MatchingBinds(w, from, recs[1..], f, env);
      ExtendBinds(from, f, recs[0]);
    }
  }

  lemma {:induction false} FilterBinds(w: World, cond: Expr, from: seq<FromItem>, frames: seq<Frame>, env: Env)
    requires forall i :: 0 <= i < |frames| ==> Binds(frames[i], from)
    requires Filter(w, cond, frames, env).Ok?
    ensures var kept := Filter(w, cond, frames, env).value;
            forall i :: 0 <= i < |kept| ==> Binds(kept[i], from)
    decreases |frames|
  {
    if frames != [] {
      FilterBinds(w, cond, from, frames[1..], env);
    }
  }

  lemma SourceBinds(w: World, b: Body, env: Env)
    requires b.Select? && Source(w, b, env).Ok?
    ensures forall i :: 0 <= i < |Source(w, b, env).value| ==> Binds(Source(w, b, env).value[i], b.from)
  {
    FromBinds(w, b.from, env);
    if b.selection.Some? {
      FilterBinds(w, b.selection.value, b.from, EvalFrom(w, b.from, env).value, env);
    }
  }

  // --- clauses that agree row by row ---------------------------------------------------------

  lemma {:induction false} OverAgree(w1: World, w2: World, a1: Expr, a2: Expr, envs1: seq<Env>, envs2: seq<Env>)
    requires |envs1| == |envs2|
    requires forall i :: 0 <= i < |envs1| ==> EvalE(w1, a1, Scope(envs1[i], None)) == EvalE(w2, a2, Scope(envs2[i], None))
    ensures EvalOver(w1, a1, envs1) == EvalOver(w2, a2, envs2)
    decreases |envs1|
  {
    if envs1 != [] {
      OverAgree(w1, w2, a1, a2, envs1[1..], envs2[1..]);
    }
  }

  lemma {:induction false} FilterAgree(w1: World, w2: World, c1: Expr, c2: Expr, frames: seq<Frame>, env1: Env, env2: Env)
    requires forall i :: 0 <= i < |frames| ==>
      EvalCond(w1, c1, Scope(Push(env1, frames[i]), None)) == EvalCond(w2, c2, Scope(Push(env2, frames[i]), None))
    ensures Filter(w1, c1, frames, env1) == Filter(w2, c2, frames, env2)
    decreases |frames|
  {
    if frames != [] {
      FilterAgree(w1, w2, c1, c2, frames[1..], env1, env2);
    }
  }

  lemma {:induction false} KeysAgree(w1: World, w2: World, ks1: seq<Expr>, ks2: seq<Expr>, frames: seq<Frame>, env1: Env, env2: Env)
    requires forall i :: 0 <= i < |frames| ==>
      EvalEs(w1, ks1, Scope(Push(env1, frames[i]), None)) == EvalEs(w2, ks2, Scope(Push(env2, frames[i]), None))
    ensures EvalKeys(w1, ks1, frames, env1) == EvalKeys(w2, ks2, frames, env2)
    decreases |frames|
  {
    if frames != [] {
      KeysAgree(w1, w2, ks1, ks2, frames[1..], env1, env2);
    }
  }

  lemma {:induction false} RowsAgree(w1: World, w2: World, is1: seq<Item>, is2: seq<Item>, frames: seq<Frame>, env1: Env, env2: Env)
    requires forall i :: 0 <= i < |frames| ==>
      EvalItems(w1, is1, frames[i], Scope(Push(env1, frames[i]), None))
      == EvalItems(w2, is2, frames[i], Scope(Push(env2, frames[i]), None))
    ensures EvalRows(w1, is1, frames, env1) == EvalRows(w2, is2, frames, env2)
    decreases |frames|
  {
    if frames != [] {
      RowsAgree(w1, w2, is1, is2, frames[1..], env1, env2);
    }
  }

  lemma {:induction false} MatchingAgree(w1: World, w2: World, c1: Expr, c2: Expr, name: string, recs: seq<Rec>, f: Frame, env1: Env, env2: Env)
    requires forall i :: 0 <= i < |recs| ==>
      EvalCond(w1, c1, Scope(Push(env1, f + [Bound(name, recs[i])]), None))
      == EvalCond(w2, c2, Scope(Push(env2, f + [Bound(name, recs[i])]), None))
    ensures Matching(w1, c1, name, recs, f, env1) == Matching(w2, c2, name, recs, f, env2)
    decreases |recs|
  {
    if recs != [] {
      MatchingAgree(w1, w2, c1, c2, name, recs[1..], f, env1, env2);
      MatchingStep(w1, c1, name, recs, f, env1);
      MatchingStep(w2, c2, name, recs, f, env2);
    }
  }

  // --- the scope theorem ---------------------------------------------------------------------

  lemma KeepsHead(m: Renaming, e: Expr, k: nat)
    ensures Connective(VisitE(Renamer(m), e, k).0) == Connective(e)
  {
    assert Connective(VisitKids(Renamer(m), e, k).0) == Connective(e);
  }

  /** A renamed expression has, where its references find the same things, the same value. */
  lemma {:induction false} ScopeE(w1: World, w2: World, m: Renaming, e: Expr, k: nat, s1: Scope, s2: Scope)
    requires SameWorld(w1, w2, MarksE(e)) && Clear(m, MarksE(e))
    requires SameScope(m, FreeE(e), s1, s2)
    ensures EvalE(w1, e, s1) == EvalE(w2, VisitE(Renamer(m), e, k).0, s2)
    ensures EvalCond(w1, e, s1) == EvalCond(w2, VisitE(Renamer(m), e, k).0, s2)
    decreases e, 2
  {
    if e.And? {
      ScopeAnd(w1, w2, m, e, k, s1, s2);
    } else if e.Or? {
      ScopeOr(w1, w2, m, e, k, s1, s2);
    } else if e.Nested? {
      ScopeNested(w1, w2, m, e, k, s1, s2);
    } else if e.Case? {
      ScopeCase(w1, w2, m, e, k, s1, s2);
    } else {
      if e.Cmp? || e.Not? {
        ScopeOperator(w1, w2, m, e, k, s1, s2);
      } else if e.AnyOf? {
        ScopeAny(w1, w2, m, e, k, s1, s2);
      } else if e.Index? {
        ScopeIndex(w1, w2, m, e, k, s1, s2);
      } else if e.Scalar? || e.Exists? {
        ScopeSubquery(w1, w2, m, e, k, s1, s2);
      } else if e.InQuery? {
        ScopeMembership(w1, w2, m, e, k, s1, s2);
      } else {
        ScopeOther(w1, w2, m, e, k, s1, s2);
      }
      KeepsHead(m, e, k);
      PlainCond(w1, e, s1);
      PlainCond(w2, VisitE(Renamer(m), e, k).0, s2);
    }
  }

  lemma {:induction false} ScopeAnd(w1: World, w2: World, m: Renaming, e: Expr, k: nat, s1: Scope, s2: Scope)
    requires SameWorld(w1, w2, MarksE(e)) && Clear(m, MarksE(e))
    requires SameScope(m, FreeE(e), s1, s2)
    requires e.And?
    ensures EvalE(w1, e, s1) == EvalE(w2, VisitE(Renamer(m), e, k).0, s2)
    ensures EvalCond(w1, e, s1) == EvalCond(w2, VisitE(Renamer(m), e, k).0, s2)
    decreases e, 1
  {
    ScopeE(w1, w2, m, e.left, k, s1, s2);
    ScopeE(w1, w2, m, e.right, VisitE(Renamer(m), e.left, k).1, s1, s2);
  }

  lemma {:induction false} ScopeOr(w1: World, w2: World, m: Renaming, e: Expr, k: nat, s1: Scope, s2: Scope)
    requires SameWorld(w1, w2, MarksE(e)) && Clear(m, MarksE(e))
    requires SameScope(m, FreeE(e), s1, s2)
    requires e.Or?
    ensures EvalE(w1, e, s1) == EvalE(w2, VisitE(Renamer(m), e, k).0, s2)
    ensures EvalCond(w1, e, s1) == EvalCond(w2, VisitE(Renamer(m), e, k).0, s2)
    decreases e, 1
  {
    ScopeE(w1, w2, m, e.left, k, s1, s2);
    ScopeE(w1, w2, m, e.right, VisitE(Renamer(m), e.left, k).1, s1, s2);
  }

  lemma {:induction false} ScopeNested(w1: World, w2: World, m: Renaming, e: Expr, k: nat, s1: Scope, s2: Scope)
    requires SameWorld(w1, w2, MarksE(e)) && Clear(m, MarksE(e))
    requires SameScope(m, FreeE(e), s1, s2)
    requires e.Nested?
    ensures EvalE(w1, e, s1) == EvalE(w2, VisitE(Renamer(m), e, k).0, s2)
    ensures EvalCond(w1, e, s1) == EvalCond(w2, VisitE(Renamer(m), e, k).0, s2)
    decreases e, 1
  {
    ScopeE(w1, w2, m, e.e, k, s1, s2);
  }

  lemma {:induction false} ScopeCase(w1: World, w2: World, m: Renaming, e: Expr, k: nat, s1: Scope, s2: Scope)
    requires SameWorld(w1, w2, MarksE(e)) && Clear(m, MarksE(e))
    requires SameScope(m, FreeE(e), s1, s2)
    requires e.Case?
    ensures EvalE(w1, e, s1) == EvalE(w2, VisitE(Renamer(m), e, k).0, s2)
    ensures EvalCond(w1, e, s1) == EvalCond(w2, VisitE(Renamer(m), e, k).0, s2)
    decreases e, 1
  {
    ScopeE(w1, w2, m, e.cond, k, s1, s2);
    var k1 := VisitE(Renamer(m), e.cond, k).1;
    ScopeE(w1, w2, m, e.thn, k1, s1, s2);
    var k2 := VisitE(Renamer(m), e.thn, k1).1;
    ScopeE(w1, w2, m, e.els, k2, s1, s2);
    var c, t, g := VisitE(Renamer(m), e.cond, k).0, VisitE(Renamer(m), e.thn, k1).0, VisitE(Renamer(m), e.els, k2).0;
    CaseAgrees(w1, w2, e, Case(c, t, g), s1, s2);
    assert VisitE(Renamer(m), e, k).0 == Case(c, t, g);
  }

  lemma CaseAgrees(w1: World, w2: World, a: Expr, b: Expr, s1: Scope, s2: Scope)
    requires a.Case? && b.Case? && EvalCond(w1, a.cond, s1) == EvalCond(w2, b.cond, s2)
    requires EvalE(w1, a.thn, s1) == EvalE(w2, b.thn, s2) && EvalE(w1, a.els, s1) == EvalE(w2, b.els, s2)
    requires EvalCond(w1, a.thn, s1) == EvalCond(w2, b.thn, s2) && EvalCond(w1, a.els, s1) == EvalCond(w2, b.els, s2)
    ensures EvalE(w1, a, s1) == EvalE(w2, b, s2) && EvalCond(w1, a, s1) == EvalCond(w2, b, s2)
  {
  }

  lemma {:induction false} ScopeOperator(w1: World, w2: World, m: Renaming, e: Expr, k: nat, s1: Scope, s2: Scope)
    requires SameWorld(w1, w2, MarksE(e)) && Clear(m, MarksE(e))
    requires SameScope(m, FreeE(e), s1, s2)
    requires e.Cmp? || e.Not?
    ensures EvalE(w1, e, s1) == EvalE(w2, VisitE(Renamer(m), e, k).0, s2)
    decreases e, 1
  {
    match e
    case Not(x) => ScopeE(w1, w2, m, x, k, s1, s2);
    case Cmp(_, l, r) =>
      ScopeE(w1, w2, m, l, k, s1, s2);
      ScopeE(w1, w2, m, r, VisitE(Renamer(m), l, k).1, s1, s2);
  }

  lemma {:induction false} ScopeAny(w1: World, w2: World, m: Renaming, e: Expr, k: nat, s1: Scope, s2: Scope)
    requires SameWorld(w1, w2, MarksE(e)) && Clear(m, MarksE(e))
    requires SameScope(m, FreeE(e), s1, s2)
    requires e.AnyOf?
    ensures EvalE(w1, e, s1) == EvalE(w2, VisitE(Renamer(m), e, k).0, s2)
    decreases e, 1
  {
    ScopeE(w1, w2, m, e.e, k, s1, s2);
    ScopeE(w1, w2, m, e.arr, VisitE(Renamer(m), e.e, k).1, s1, s2);
  }

  lemma {:induction false} ScopeIndex(w1: World, w2: World, m: Renaming, e: Expr, k: nat, s1: Scope, s2: Scope)
    requires SameWorld(w1, w2, MarksE(e)) && Clear(m, MarksE(e))
    requires SameScope(m, FreeE(e), s1, s2)
    requires e.Index?
    ensures EvalE(w1, e, s1) == EvalE(w2, VisitE(Renamer(m), e, k).0, s2)
    decreases e, 1
  {
    ScopeE(w1, w2, m, e.arr, k, s1, s2);
    ScopeE(w1, w2, m, e.idx, VisitE(Renamer(m), e.arr, k).1, s1, s2);
  }

  lemma {:induction false} ScopeSubquery(w1: World, w2: World, m: Renaming, e: Expr, k: nat, s1: Scope, s2: Scope)
    requires SameWorld(w1, w2, MarksE(e)) && Clear(m, MarksE(e))
    requires SameScope(m, FreeE(e), s1, s2)
    requires e.Scalar? || e.Exists?
    ensures EvalE(w1, e, s1) == EvalE(w2, VisitE(Renamer(m), e, k).0, s2)
    decreases e, 1
  {
    ScopeQ(w1, w2, m, e.q, k, s1.env, s2.env);
  }

  lemma {:induction false} ScopeMembership(w1: World, w2: World, m: Renaming, e: Expr, k: nat, s1: Scope, s2: Scope)
    requires SameWorld(w1, w2, MarksE(e)) && Clear(m, MarksE(e))
    requires SameScope(m, FreeE(e), s1, s2)
    requires e.InQuery?
    ensures EvalE(w1, e, s1) == EvalE(w2, VisitE(Renamer(m), e, k).0, s2)
    decreases e, 1
  {
    ScopeE(w1, w2, m, e.e, k, s1, s2);
    ScopeQ(w1, w2, m, e.q, VisitE(Renamer(m), e.e, k).1, s1.env, s2.env);
  }

  lemma {:induction false} ScopeOther(w1: World, w2: World, m: Renaming, e: Expr, k: nat, s1: Scope, s2: Scope)
    requires SameWorld(w1, w2, MarksE(e)) && Clear(m, MarksE(e))
    requires SameScope(m, FreeE(e), s1, s2)
    requires !e.And? && !e.Or? && !e.Nested? && !e.Case? && !e.Cmp? && !e.AnyOf? && !e.Index? && !e.Not?
    requires !e.Scalar? && !e.Exists? && !e.InQuery?
    ensures EvalE(w1, e, s1) == EvalE(w2, VisitE(Renamer(m), e, k).0, s2)
    decreases e, 1
  {
    match e
    case Col(q, c) =>
      assert Ref(q, c) in FreeE(e);
      assert Found(map[], s1.env, Ref(q, c)) == Found(m, s2.env, Ref(q, c));
    case Bare(x) =>
      assert Whole(x) in FreeE(e);
      assert Found(map[], s1.env, Whole(x)) == Found(m, s2.env, Whole(x));
    case Call(_, args) => ScopeEs(w1, w2, m, args, k, s1, s2);
    case Tuple(es) => ScopeEs(w1, w2, m, es, k, s1, s2);
    case Agg(_, arg) =>
      if s1.group.Some? {
        ScopeOver(w1, w2, m, arg, k, s1.group.value, s2.group.value);
      }
    case _ =>
  }

  lemma {:induction false} ScopeEs(w1: World, w2: World, m: Renaming, es: seq<Expr>, k: nat, s1: Scope, s2: Scope)
    requires SameWorld(w1, w2, MarksEs(es)) && Clear(m, MarksEs(es))
    requires SameScope(m, FreeEs(es), s1, s2)
    ensures EvalEs(w1, es, s1) == EvalEs(w2, VisitEs(Renamer(m), es, k).0, s2)
    decreases es, 0
  {
    if es != [] {
      var k1 := VisitE(Renamer(m), es[0], k).1;
      ScopeE(w1, w2, m, es[0], k, s1, s2);
      ScopeEs(w1, w2, m, es[1..], k1, s1, s2);
      assert VisitEs(Renamer(m), es, k).0[1..] == VisitEs(Renamer(m), es[1..], k1).0;
    }
  }

  lemma {:induction false} ScopeOver(w1: World, w2: World, m: Renaming, arg: Expr, k: nat, envs1: seq<Env>, envs2: seq<Env>)
    requires SameWorld(w1, w2, MarksE(arg)) && Clear(m, MarksE(arg))
    requires |envs1| == |envs2|
    requires forall i :: 0 <= i < |envs1| ==> SameView(m, FreeE(arg), envs1[i], envs2[i])
    ensures EvalOver(w1, arg, envs1) == EvalOver(w2, VisitE(Renamer(m), arg, k).0, envs2)
    decreases arg, 3, |envs1|
  {
    forall i | 0 <= i < |envs1|
      ensures EvalE(w1, arg, Scope(envs1[i], None)) == EvalE(w2, VisitE(Renamer(m), arg, k).0, Scope(envs2[i], None))
    {
      ScopeE(w1, w2, m, arg, k, Scope(envs1[i], None), Scope(envs2[i], None));
    }
    OverAgree(w1, w2, arg, VisitE(Renamer(m), arg, k).0, envs1, envs2);
  }

  /** The theorem for queries: what is outside a query reaches it only through its free
      references. */
  lemma {:induction false} ScopeQ(w1: World, w2: World, m: Renaming, q: Query, k: nat, env1: Env, env2: Env)
    requires SameWorld(w1, w2, MarksQ(q)) && Clear(m, MarksQ(q))
    requires SameView(m, FreeB(q.body), env1, env2)
    ensures EvalQ(w1, q, env1) == EvalQ(w2, VisitQ(Renamer(m), q, k).0, env2)
    decreases q, 0
  {
    ScopeB(w1, w2, m, q.body, k, env1, env2);
    if q.limit.Some? || q.offset != 0 {
      assert Site(q.site) in MarksQ(q);
    }
  }

  lemma {:induction false} ScopeB(w1: World, w2: World, m: Renaming, b: Body, k: nat, env1: Env, env2: Env)
    requires SameWorld(w1, w2, MarksB(b)) && Clear(m, MarksB(b))
    requires SameView(m, FreeB(b), env1, env2)
    ensures EvalB(w1, b, env1) == EvalB(w2, VisitB(Renamer(m), b, k).0, env2)
    decreases b, 2
  {
    match b
    case Select(_, _, _, _, _, _) =>
      ScopeSource(w1, w2, m, b, k, env1, env2);
      var kept := Source(w1, b, env1);
      if kept.Ok? {
        SourceBinds(w1, b, env1);
        ScopeOutput(w1, w2, m, b, k, kept.value, env1, env2);
      }
    case Union(l, r, _) =>
      ScopeB(w1, w2, m, l, k, env1, env2);
      ScopeB(w1, w2, m, r, VisitB(Renamer(m), l, k).1, env1, env2);
      RenamerShape(m);
      AlwaysB(l);
      ShapeB(w1.tables, Renamer(m), Always, l, k);
    case Paren(q) => ScopeQ(w1, w2, m, q, k, env1, env2);
  }

  lemma BinderNames(m: Renaming, from: seq<FromItem>)
    requires Clear(m, MarksFrom(from))
    ensures forall x :: x in Names(from) ==> x !in m.Keys && x !in m.Values
  {
    forall x | x in Names(from) ensures x !in m.Keys && x !in m.Values {
      var i :| 0 <= i < |from| && x == FactorName(from[i].factor);
      BinderMarked(from, i);
    }
  }

  lemma {:induction false} BinderMarked(from: seq<FromItem>, i: nat)
    requires i < |from|
    ensures Binder(FactorName(from[i].factor)) in MarksFrom(from)
    decreases |from|
  {
    var n := |from| - 1;
    if i < n {
      BinderMarked(from[..n], i);
      assert from[..n][i] == from[i];
    }
  }

  /** Inside the FROM of a SELECT, on both sides of the renaming. */
  lemma InsideView(m: Renaming, b: Body, env1: Env, env2: Env, f: Frame)
    requires b.Select? && Clear(m, MarksB(b)) && SameView(m, FreeB(b), env1, env2)
    requires Binds(f, b.from)
    ensures SameView(m, FreeClauses(b), Push(env1, f), Push(env2, f))
  {
    FrameKeys(f, b.from);
    BinderNames(m, b.from);
    PushView(m, FreeClauses(b), Names(b.from), env1, env2, f);
  }

  lemma {:induction false} ScopeSource(w1: World, w2: World, m: Renaming, b: Body, k: nat, env1: Env, env2: Env)
    requires b.Select? && SameWorld(w1, w2, MarksB(b)) && Clear(m, MarksB(b))
    requires SameView(m, FreeB(b), env1, env2)
    ensures Source(w1, b, env1) == Source(w2, VisitB(Renamer(m), b, k).0, env2)
    decreases b, 1
  {
    var f := Renamer(m);
    var k1 := VisitItems(f, b.proj, k).1;
    ScopeFrom(w1, w2, m, b.from, k1, env1, env2);
    var frames := EvalFrom(w1, b.from, env1);
    if frames.Ok? && b.selection.Some? {
      FromBinds(w1, b.from, env1);
      forall i | 0 <= i < |frames.value|
        ensures SameView(m, FreeE(b.selection.value), Push(env1, frames.value[i]), Push(env2, frames.value[i]))
      {
        InsideView(m, b, env1, env2, frames.value[i]);
        assert FreeOpt(b.selection) == FreeE(b.selection.value);
        assert FreeE(b.selection.value) <= FreeClauses(b);
      }
      assert MarksOpt(b.selection) == MarksE(b.selection.value);
      ScopeFilter(w1, w2, m, b.selection.value, VisitFrom(f, b.from, k1).1, frames.value, env1, env2);
    }
  }

  lemma {:induction false} ScopeFilter(w1: World, w2: World, m: Renaming, cond: Expr, k: nat, frames: seq<Frame>, env1: Env, env2: Env)
    requires SameWorld(w1, w2, MarksE(cond)) && Clear(m, MarksE(cond))
    requires forall i :: 0 <= i < |frames| ==> SameView(m, FreeE(cond), Push(env1, frames[i]), Push(env2, frames[i]))
    ensures Filter(w1, cond, frames, env1) == Filter(w2, VisitE(Renamer(m), cond, k).0, frames, env2)
    decreases cond, 3, |frames|
  {
    forall i | 0 <= i < |frames|
      ensures EvalCond(w1, cond, Scope(Push(env1, frames[i]), None))
           == EvalCond(w2, VisitE(Renamer(m), cond, k).0, Scope(Push(env2, frames[i]), None))
    {
      ScopeE(w1, w2, m, cond, k, Scope(Push(env1, frames[i]), None), Scope(Push(env2, frames[i]), None));
    }
    FilterAgree(w1, w2, cond, VisitE(Renamer(m), cond, k).0, frames, env1, env2);
  }

  lemma {:induction false} ScopeOutput(w1: World, w2: World, m: Renaming, b: Body, k: nat, kept: seq<Frame>, env1: Env, env2: Env)
    requires b.Select? && SameWorld(w1, w2, MarksB(b)) && Clear(m, MarksB(b))
    requires SameView(m, FreeB(b), env1, env2)
    requires forall i :: 0 <= i < |kept| ==> Binds(kept[i], b.from)
    ensures Output(w1, b, kept, env1) == Output(w2, VisitB(Renamer(m), b, k).0, kept, env2)
    decreases b, 1
  {
    var f := Renamer(m);
    RenamerShape(m);
    AlwaysB(b);
    ShapeSelect(f, Always, b, k);
    forall i | 0 <= i < |kept|
      ensures SameView(m, FreeClauses(b), Push(env1, kept[i]), Push(env2, kept[i]))
    {
      InsideView(m, b, env1, env2, kept[i]);
    }
    if Aggregated(b) {
      var k3 := VisitOpt(f, b.selection, VisitFrom(f, b.from, VisitItems(f, b.proj, k).1).1).1;
      assert FreeEs(b.groupBy) <= FreeClauses(b);
      ScopeKeys(w1, w2, m, b.groupBy, k3, kept, env1, env2);
      var keys := EvalKeys(w1, b.groupBy, kept, env1);
      if keys.Ok? {
        GroupsBind(b, keys.value, kept);
        ScopeGroups(w1, w2, m, b, k, GroupsOf(b.groupBy, keys.value, kept), env1, env2);
      }
    } else {
      assert FreeItems(b.proj) <= FreeClauses(b);
      ScopeRows(w1, w2, m, b.proj, k, kept, env1, env2);
    }
  }

  lemma {:induction false} ScopeKeys(w1: World, w2: World, m: Renaming, keys: seq<Expr>, k: nat, frames: seq<Frame>, env1: Env, env2: Env)
    requires SameWorld(w1, w2, MarksEs(keys)) && Clear(m, MarksEs(keys))
    requires forall i :: 0 <= i < |frames| ==> SameView(m, FreeEs(keys), Push(env1, frames[i]), Push(env2, frames[i]))
    ensures EvalKeys(w1, keys, frames, env1) == EvalKeys(w2, VisitEs(Renamer(m), keys, k).0, frames, env2)
    decreases keys, 1, |frames|
  {
    forall i | 0 <= i < |frames|
      ensures EvalEs(w1, keys, Scope(Push(env1, frames[i]), None))
           == EvalEs(w2, VisitEs(Renamer(m), keys, k).0, Scope(Push(env2, frames[i]), None))
    {
      ScopeEs(w1, w2, m, keys, k, Scope(Push(env1, frames[i]), None), Scope(Push(env2, frames[i]), None));
    }
    KeysAgree(w1, w2, keys, VisitEs(Renamer(m), keys, k).0, frames, env1, env2);
  }

  ghost predicate AllBind(groups: seq<seq<Frame>>, from: seq<FromItem>) {
    forall g, i :: 0 <= g < |groups| && 0 <= i < |groups[g]| ==> Binds(groups[g][i], from)
  }

  lemma GroupsBind(b: Body, keys: seq<seq<Value>>, kept: seq<Frame>)
    requires b.Select? && forall i :: 0 <= i < |kept| ==> Binds(kept[i], b.from)
    ensures AllBind(GroupsOf(b.groupBy, keys, kept), b.from)
  {
    if b.groupBy != [] {
      var ks := Distinct(keys);
      forall g | 0 <= g < |ks|
        ensures forall i :: 0 <= i < |WithKey(ks[g], keys, kept)| ==> Binds(WithKey(ks[g], keys, kept)[i], b.from)
      {
        WithKeyBinds(ks[g], keys, kept, b.from);
      }
    }
  }

  lemma {:induction false} WithKeyBinds(key: seq<Value>, keys: seq<seq<Value>>, kept: seq<Frame>, from: seq<FromItem>)
    requires forall i :: 0 <= i < |kept| ==> Binds(kept[i], from)
    ensures forall i :: 0 <= i < |WithKey(key, keys, kept)| ==> Binds(WithKey(key, keys, kept)[i], from)
    decreases |kept|
  {
    if keys != [] && kept != [] {
      WithKeyBinds(key, keys[1..], kept[1..], from);
    }
  }

  lemma GroupView(m: Renaming, b: Body, g: seq<Frame>, env1: Env, env2: Env)
    requires b.Select? && Clear(m, MarksB(b)) && SameView(m, FreeB(b), env1, env2)
    requires forall i :: 0 <= i < |g| ==> Binds(g[i], b.from)
    ensures SameScope(m, FreeClauses(b), GroupScope(b.from, env1, g), GroupScope(b.from, env2, g))
  {
    InsideView(m, b, env1, env2, GroupFrame(b.from, g));
    forall i | 0 <= i < |g| ensures SameView(m, FreeClauses(b), Envs(env1, g)[i], Envs(env2, g)[i]) {
      InsideView(m, b, env1, env2, g[i]);
    }
  }

  lemma NarrowScope(m: Renaming, small: set<Ref>, refs: set<Ref>, s1: Scope, s2: Scope)
    requires small <= refs && SameScope(m, refs, s1, s2)
    ensures SameScope(m, small, s1, s2)
  {
  }

  lemma {:induction false} ScopeGroups(w1: World, w2: World, m: Renaming, b: Body, k: nat, groups: seq<seq<Frame>>, env1: Env, env2: Env)
    requires b.Select? && SameWorld(w1, w2, MarksB(b)) && Clear(m, MarksB(b))
    requires SameView(m, FreeB(b), env1, env2) && AllBind(groups, b.from)
    ensures EvalGroups(w1, b, groups, env1) == EvalGroups(w2, VisitB(Renamer(m), b, k).0, groups, env2)
    decreases b, 1, |groups|
  {
    if groups != [] {
      ScopeGroup(w1, w2, m, b, k, groups[0], env1, env2);
      ScopeGroups(w1, w2, m, b, k, groups[1..], env1, env2);
    }
  }

  lemma {:induction false} ScopeGroup(w1: World, w2: World, m: Renaming, b: Body, k: nat, g: seq<Frame>, env1: Env, env2: Env)
    requires b.Select? && SameWorld(w1, w2, MarksB(b)) && Clear(m, MarksB(b))
    requires SameView(m, FreeB(b), env1, env2)
    requires forall i :: 0 <= i < |g| ==> Binds(g[i], b.from)
    ensures EvalGroup(w1, b, g, env1) == EvalGroup(w2, VisitB(Renamer(m), b, k).0, g, env2)
    decreases b, 0, 1
  {
    ScopeGroupItems(w1, w2, m, b, k, g, env1, env2);
    VisitKeepsClauses(Renamer(m), b, k);
    if b.having.Some? {
      ScopeHaving(w1, w2, m, b, k, g, env1, env2);
    }
  }

  /** One group's items. */
  lemma {:induction false} ScopeGroupItems(w1: World, w2: World, m: Renaming, b: Body, k: nat, g: seq<Frame>, env1: Env, env2: Env)
    requires b.Select? && SameWorld(w1, w2, MarksB(b)) && Clear(m, MarksB(b))
    requires SameView(m, FreeB(b), env1, env2)
    requires forall i :: 0 <= i < |g| ==> Binds(g[i], b.from)
    ensures GroupFrame(VisitB(Renamer(m), b, k).0.from, g) == GroupFrame(b.from, g)
    ensures EvalItems(w1, b.proj, GroupFrame(b.from, g), GroupScope(b.from, env1, g))
         == EvalItems(w2, VisitB(Renamer(m), b, k).0.proj, GroupFrame(b.from, g), GroupScope(b.from, env2, g))
    decreases b, 0, 0
  {
    VisitKeepsNames(Renamer(m), b.from, VisitItems(Renamer(m), b.proj, k).1);
    GroupView(m, b, g, env1, env2);
    var s1, s2 := GroupScope(b.from, env1, g), GroupScope(b.from, env2, g);
    NarrowScope(m, FreeItems(b.proj), FreeClauses(b), s1, s2);
    ScopeItems(w1, w2, m, b.proj, k, GroupFrame(b.from, g), s1, s2);
  }

  /** One group's HAVING. */
  lemma {:induction false} ScopeHaving(w1: World, w2: World, m: Renaming, b: Body, k: nat, g: seq<Frame>, env1: Env, env2: Env)
    requires b.Select? && SameWorld(w1, w2, MarksB(b)) && Clear(m, MarksB(b)) && b.having.Some?
    requires SameView(m, FreeB(b), env1, env2)
    requires forall i :: 0 <= i < |g| ==> Binds(g[i], b.from)
    ensures VisitB(Renamer(m), b, k).0.having.Some?
    ensures EvalCond(w1, b.having.value, GroupScope(b.from, env1, g))
         == EvalCond(w2, VisitB(Renamer(m), b, k).0.having.value, GroupScope(b.from, env2, g))
    decreases b, 0, 0
  {
    var f := Renamer(m);
    GroupView(m, b, g, env1, env2);
    var s1, s2 := GroupScope(b.from, env1, g), GroupScope(b.from, env2, g);
    var k3 := VisitOpt(f, b.selection, VisitFrom(f, b.from, VisitItems(f, b.proj, k).1).1).1;
    assert FreeOpt(b.having) == FreeE(b.having.value);
    assert MarksOpt(b.having) == MarksE(b.having.value);
    NarrowScope(m, FreeE(b.having.value), FreeClauses(b), s1, s2);
    ScopeE(w1, w2, m, b.having.value, VisitEs(f, b.groupBy, k3).1, s1, s2);
    assert VisitOpt(f, b.having, VisitEs(f, b.groupBy, k3).1).0.value
        == VisitE(f, b.having.value, VisitEs(f, b.groupBy, k3).1).0;
  }

  lemma {:induction false} ScopeRows(w1: World, w2: World, m: Renaming, items: seq<Item>, k: nat, frames: seq<Frame>, env1: Env, env2: Env)
    requires SameWorld(w1, w2, MarksItems(items)) && Clear(m, MarksItems(items))
    requires forall i :: 0 <= i < |frames| ==> SameView(m, FreeItems(items), Push(env1, frames[i]), Push(env2, frames[i]))
    ensures EvalRows(w1, items, frames, env1) == EvalRows(w2, VisitItems(Renamer(m), items, k).0, frames, env2)
    decreases items, 1, |frames|
  {
    forall i | 0 <= i < |frames|
      ensures EvalItems(w1, items, frames[i], Scope(Push(env1, frames[i]), None))
           == EvalItems(w2, VisitItems(Renamer(m), items, k).0, frames[i], Scope(Push(env2, frames[i]), None))
    {
      ScopeItems(w1, w2, m, items, k, frames[i], Scope(Push(env1, frames[i]), None), Scope(Push(env2, frames[i]), None));
    }
    RowsAgree(w1, w2, items, VisitItems(Renamer(m), items, k).0, frames, env1, env2);
  }

  lemma {:induction false} ScopeItems(w1: World, w2: World, m: Renaming, items: seq<Item>, k: nat, frame: Frame, s1: Scope, s2: Scope)
    requires SameWorld(w1, w2, MarksItems(items)) && Clear(m, MarksItems(items))
    requires SameScope(m, FreeItems(items), s1, s2)
    ensures EvalItems(w1, items, frame, s1) == EvalItems(w2, VisitItems(Renamer(m), items, k).0, frame, s2)
    decreases items, 0
  {
    if items != [] {
      var k1 := VisitItem(Renamer(m), items[0], k).1;
      ScopeItem(w1, w2, m, items[0], k, frame, s1, s2);
      ScopeItems(w1, w2, m, items[1..], k1, frame, s1, s2);
      assert VisitItems(Renamer(m), items, k).0[1..] == VisitItems(Renamer(m), items[1..], k1).0;
    }
  }

  lemma {:induction false} ScopeItem(w1: World, w2: World, m: Renaming, it: Item, k: nat, frame: Frame, s1: Scope, s2: Scope)
    requires SameWorld(w1, w2, MarksItem(it)) && Clear(m, MarksItem(it))
    requires SameScope(m, FreeItem(it), s1, s2)
    ensures EvalItem(w1, it, frame, s1) == EvalItem(w2, VisitItem(Renamer(m), it, k).0, frame, s2)
    decreases it, 0
  {
    match it
    case Wildcard =>
    case Item(e, _) =>
      ScopeE(w1, w2, m, e, k, s1, s2);
      RenamerShape(m);
      AlwaysE(e, Exact);
      ShapeE(Renamer(m), Always, e, k, Exact);
  }

  lemma {:induction false} ScopeFrom(w1: World, w2: World, m: Renaming, from: seq<FromItem>, k: nat, env1: Env, env2: Env)
    requires SameWorld(w1, w2, MarksFrom(from)) && Clear(m, MarksFrom(from))
    requires SameView(m, FreeFrom(from), env1, env2)
    ensures EvalFrom(w1, from, env1) == EvalFrom(w2, VisitFrom(Renamer(m), from, k).0, env2)
    decreases from, 0
  {
    if from != [] {
      var n := |from| - 1;
      ScopeFrom(w1, w2, m, from[..n], k, env1, env2);
      var visited := VisitFrom(Renamer(m), from, k).0;
      assert visited[..n] == VisitFrom(Renamer(m), from[..n], k).0;
      var before := EvalFrom(w1, from[..n], env1);
      if before.Ok? {
        FromBinds(w1, from[..n], env1);
        BinderNames(m, from[..n]);
        ScopeJoinAll(w1, w2, m, from[n], from[..n], VisitFrom(Renamer(m), from[..n], k).1, before.value, env1, env2);
      }
    }
  }

  lemma {:induction false} ScopeJoinAll(w1: World, w2: World, m: Renaming, it: FromItem, before: seq<FromItem>, k: nat, frames: seq<Frame>, env1: Env, env2: Env)
    requires SameWorld(w1, w2, MarksFromItem(it)) && Clear(m, MarksFromItem(it)) && Clear(m, MarksFrom(before))
    requires SameView(m, FreeJoined(it, Names(before)), env1, env2)
    requires forall i :: 0 <= i < |frames| ==> Binds(frames[i], before)
    ensures JoinAll(w1, it, frames, env1) == JoinAll(w2, VisitFromItem(Renamer(m), it, k).0, frames, env2)
    decreases it, 1, |frames|
  {
    if frames != [] {
      ScopeJoinOne(w1, w2, m, it, before, k, frames[0], env1, env2);
      ScopeJoinAll(w1, w2, m, it, before, k, frames[1..], env1, env2);
    }
  }

  lemma {:induction false} ScopeJoinOne(w1: World, w2: World, m: Renaming, it: FromItem, before: seq<FromItem>, k: nat, frame: Frame, env1: Env, env2: Env)
    requires SameWorld(w1, w2, MarksFromItem(it)) && Clear(m, MarksFromItem(it)) && Clear(m, MarksFrom(before))
    requires SameView(m, FreeJoined(it, Names(before)), env1, env2) && Binds(frame, before)
    ensures JoinOne(w1, it, frame, env1) == JoinOne(w2, VisitFromItem(Renamer(m), it, k).0, frame, env2)
    decreases it, 0
  {
    var f := Renamer(m);
    ScopeFactor(w1, w2, m, it.factor, before, k, frame, env1, env2);
    FactorLooks(w1.tables, m, it.factor, k);
    var recs := EvalFactor(w1, it.factor, frame, env1);
    if recs.Ok? {
      ScopeMatching(w1, w2, m, it, before, VisitFactor(f, it.factor, k).1, recs.value, frame, env1, env2);
    }
    JoinOneAgrees(w1, w2, it, VisitFromItem(f, it, k).0, frame, env1, env2);
  }

  /** Renaming inside an item leaves its name and its columns. */
  lemma FactorLooks(ts: Tables, m: Renaming, t: Factor, k: nat)
    ensures FactorCols(ts, VisitFactor(Renamer(m), t, k).0) == FactorCols(ts, t)
    ensures FactorName(VisitFactor(Renamer(m), t, k).0) == FactorName(t)
  {
    RenamerShape(m);
    AlwaysFactor(t);
    ShapeFactor(ts, Renamer(m), Always, t, k);
  }

  lemma JoinOneAgrees(w1: World, w2: World, a: FromItem, b: FromItem, frame: Frame, env1: Env, env2: Env)
    requires a.kind == b.kind && FactorName(a.factor) == FactorName(b.factor)
    requires FactorCols(w1.tables, a.factor) == FactorCols(w2.tables, b.factor)
    requires EvalFactor(w1, a.factor, frame, env1) == EvalFactor(w2, b.factor, frame, env2)
    requires EvalFactor(w1, a.factor, frame, env1).Ok? ==>
      var recs := EvalFactor(w1, a.factor, frame, env1).value;
      Matching(w1, a.on, FactorName(a.factor), recs, frame, env1) == Matching(w2, b.on, FactorName(a.factor), recs, frame, env2)
    ensures JoinOne(w1, a, frame, env1) == JoinOne(w2, b, frame, env2)
  {
  }

  lemma {:induction false} ScopeFactor(w1: World, w2: World, m: Renaming, t: Factor, before: seq<FromItem>, k: nat, frame: Frame, env1: Env, env2: Env)
    requires SameWorld(w1, w2, MarksFactor(t)) && Clear(m, MarksFactor(t)) && Clear(m, MarksFrom(before))
    requires SameView(m, FreeFactor(t, Names(before)), env1, env2) && Binds(frame, before)
    ensures EvalFactor(w1, t, frame, env1) == EvalFactor(w2, VisitFactor(Renamer(m), t, k).0, frame, env2)
    decreases t, 1
  {
    FrameKeys(frame, before);
    BinderNames(m, before);
    match t
    case Table(_, _, _) =>
    case Derived(q, _, lateral) =>
      if lateral {
        PushView(m, FreeB(q.body), Names(before), env1, env2, frame);
        ScopeQ(w1, w2, m, q, k, Push(env1, frame), Push(env2, frame));
      } else {
        ScopeQ(w1, w2, m, q, k, env1, env2);
      }
    case Series(lo, hi, _) =>
      PushView(m, FreeE(lo) + FreeE(hi), Names(before), env1, env2, frame);
      ScopeBounds(w1, w2, m, t, k, Scope(Push(env1, frame), None), Scope(Push(env2, frame), None));
  }

  lemma {:induction false} ScopeBounds(w1: World, w2: World, m: Renaming, t: Factor, k: nat, s1: Scope, s2: Scope)
    requires t.Series? && SameWorld(w1, w2, MarksFactor(t)) && Clear(m, MarksFactor(t))
    requires SameScope(m, FreeE(t.lo) + FreeE(t.hi), s1, s2)
    ensures EvalE(w1, t.lo, s1) == EvalE(w2, VisitE(Renamer(m), t.lo, k).0, s2)
    ensures EvalE(w1, t.hi, s1) == EvalE(w2, VisitE(Renamer(m), t.hi, VisitE(Renamer(m), t.lo, k).1).0, s2)
    decreases t, 0
  {
    ScopeE(w1, w2, m, t.lo, k, s1, s2);
    ScopeE(w1, w2, m, t.hi, VisitE(Renamer(m), t.lo, k).1, s1, s2);
  }

  lemma {:induction false} ScopeMatching(w1: World, w2: World, m: Renaming, it: FromItem, before: seq<FromItem>, k: nat, recs: seq<Rec>, frame: Frame, env1: Env, env2: Env)
    requires SameWorld(w1, w2, MarksFromItem(it)) && Clear(m, MarksFromItem(it)) && Clear(m, MarksFrom(before))
    requires SameView(m, FreeJoined(it, Names(before)), env1, env2) && Binds(frame, before)
    ensures Matching(w1, it.on, FactorName(it.factor), recs, frame, env1)
         == Matching(w2, VisitE(Renamer(m), it.on, k).0, FactorName(it.factor), recs, frame, env2)
    decreases it.on, 3, |recs|
  {
    var name := FactorName(it.factor);
    forall i | 0 <= i < |recs|
      ensures EvalCond(w1, it.on, Scope(Push(env1, frame + [Bound(name, recs[i])]), None))
           == EvalCond(w2, VisitE(Renamer(m), it.on, k).0, Scope(Push(env2, frame + [Bound(name, recs[i])]), None))
    {
      var joined := frame + [Bound(name, recs[i])];
      JoinedView(m, it, before, frame, recs[i], env1, env2);
      ScopeE(w1, w2, m, it.on, k, Scope(Push(env1, joined), None), Scope(Push(env2, joined), None));
    }
    MatchingAgree(w1, w2, it.on, VisitE(Renamer(m), it.on, k).0, name, recs, frame, env1, env2);
  }

  /** An ON condition sees the items written before it and its own. */
  lemma JoinedView(m: Renaming, it: FromItem, before: seq<FromItem>, frame: Frame, rec: Rec, env1: Env, env2: Env)
    requires Clear(m, MarksFromItem(it)) && Clear(m, MarksFrom(before))
    requires SameView(m, FreeJoined(it, Names(before)), env1, env2) && Binds(frame, before)
    ensures var joined := frame + [Bound(FactorName(it.factor), rec)];
            SameView(m, FreeE(it.on), Push(env1, joined), Push(env2, joined))
  {
    var from := before + [it];
    assert from[..|from| - 1] == before;
    var joined := frame + [Bound(FactorName(it.factor), rec)];
    ExtendBinds(from, frame, rec);
    FrameKeys(joined, from);
    NamesSnoc(before, it);
    BinderNames(m, before);
    assert Binder(FactorName(it.factor)) in MarksFromItem(it);
    PushView(m, FreeE(it.on), Names(from), env1, env2, joined);
  }

  lemma NamesSnoc(before: seq<FromItem>, it: FromItem)
    ensures Names(before + [it]) == Names(before) + {FactorName(it.factor)}
  {
    var from := before + [it];
    forall x ensures x in Names(from) <==> x in Names(before) + {FactorName(it.factor)} {
      if x in Names(from) {
        var i :| 0 <= i < |from| && x == FactorName(from[i].factor);
        assert i < |before| ==> before[i] == from[i];
      }
      if x in Names(before) {
        var i :| 0 <= i < |before| && x == FactorName(before[i].factor);
        assert from[i] == before[i];
      }
      if x == FactorName(it.factor) {
        assert from[|before|] == it;
      }
    }
  }

  // --- without renaming ----------------------------------------------------------------------

  lemma NoRenaming()
    ensures Inert(Renamer(map[]))
  {
    forall e: Expr, k: nat ensures Renamer(map[])(e, k) == (e, k) {
    }
  }

  /** Two scopes that agree on an expression's references give it the same value. */
  lemma Coincide(w1: World, w2: World, e: Expr, s1: Scope, s2: Scope)
    requires SameWorld(w1, w2, MarksE(e)) && SameScope(map[], FreeE(e), s1, s2)
    ensures EvalE(w1, e, s1) == EvalE(w2, e, s2)
    ensures EvalCond(w1, e, s1) == EvalCond(w2, e, s2)
  {
    NoRenaming();
    SameE(Renamer(map[]), e, 0);
    ScopeE(w1, w2, map[], e, 0, s1, s2);
  }

  lemma CoincideQ(w1: World, w2: World, q: Query, env1: Env, env2: Env)
    requires SameWorld(w1, w2, MarksQ(q)) && SameView(map[], FreeB(q.body), env1, env2)
    ensures EvalQ(w1, q, env1) == EvalQ(w2, q, env2)
  {
    NoRenaming();
    SameQ(Renamer(map[]), q, 0);
    ScopeQ(w1, w2, map[], q, 0, env1, env2);
  }

  /** An expression that does not aggregate does not look at the group it is evaluated in. */
  lemma {:induction false} GroupUnused(w: World, e: Expr, s: Scope)
    requires !HasAgg(e)
    ensures EvalE(w, e, s) == EvalE(w, e, Scope(s.env, None))
    ensures EvalCond(w, e, s) == EvalCond(w, e, Scope(s.env, None))
    decreases e, 1
  {
    if e.And? || e.Or? || e.Nested? || e.Case? {
      GroupUnusedBranch(w, e, s);
    } else {
      GroupUnusedValue(w, e, s);
      PlainCond(w, e, s);
      PlainCond(w, e, Scope(s.env, None));
    }
  }

  lemma {:induction false} GroupUnusedBranch(w: World, e: Expr, s: Scope)
    requires !HasAgg(e) && (e.And? || e.Or? || e.Nested? || e.Case?)
    ensures EvalE(w, e, s) == EvalE(w, e, Scope(s.env, None))
    ensures EvalCond(w, e, s) == EvalCond(w, e, Scope(s.env, None))
    decreases e, 0
  {
    match e
    case And(l, r) => GroupUnused(w, l, s); GroupUnused(w, r, s);
    case Or(l, r) => GroupUnused(w, l, s); GroupUnused(w, r, s);
    case Nested(x) => GroupUnused(w, x, s);
    case Case(c, t, f) => GroupUnused(w, c, s); GroupUnused(w, t, s); GroupUnused(w, f, s);
  }

  lemma {:induction false} GroupUnusedValue(w: World, e: Expr, s: Scope)
    requires !HasAgg(e) && !e.And? && !e.Or? && !e.Nested? && !e.Case?
    ensures EvalE(w, e, s) == EvalE(w, e, Scope(s.env, None))
    decreases e, 0
  {
    match e
    case Cmp(_, l, r) => GroupUnused(w, l, s); GroupUnused(w, r, s);
    case Not(x) => GroupUnused(w, x, s);
    case Call(_, args) => GroupUnusedEs(w, args, s);
    case Tuple(es) => GroupUnusedEs(w, es, s);
    case InQuery(x, _, _) => GroupUnused(w, x, s);
    case AnyOf(x, a) => GroupUnused(w, x, s); GroupUnused(w, a, s);
    case Index(a, i) => GroupUnused(w, a, s); GroupUnused(w, i, s);
    case _ =>
  }

  lemma {:induction false} GroupUnusedEs(w: World, es: seq<Expr>, s: Scope)
    requires !AnyHasAgg(es)
    ensures EvalEs(w, es, s) == EvalEs(w, es, Scope(s.env, None))
    decreases es, 0
  {
    if es != [] {
      GroupUnused(w, es[0], s);
      GroupUnusedEs(w, es[1..], s);
    }
  }

  /** A frame hides none of these references. */
  lemma OutsideFrame(refs: set<Ref>, env: Env, f: Frame, from: seq<FromItem>)
    requires Binds(f, from) && Without(refs, Names(from)) == refs
    ensures SameView(map[], refs, env, Push(env, f))
  {
    FrameKeys(f, from);
    forall r | r in refs ensures Found(map[], env, r) == Found(map[], Push(env, f), r) {
      assert r in Without(refs, Names(from));
    }
  }
}
