/** Walking an array's indexes and comparing each element, against one membership test. */
module ArrayIteration {
  import opened Wrappers
  import opened SqlValues
  import opened SqlAst
  import opened SqlEval
  import opened SqlVisit
  import opened SqlCarry
  import opened SqlScope
  import opened FrameViews
  import opened SqlMentions
  import opened TupleRewrites
  import opened LateralAggregate

  // --- the pass ------------------------------------------------------------------------------

  /** An expression without the casts and parentheses around it. */
  function Uncast(e: Expr): Expr {
    match e
    case Nested(x) => Uncast(x)
    case Call(fn, args) => if IsCast(fn) && |args| == 1 then Uncast(args[0]) else e
    case _ => e
  }

  /** The array whose first dimension bounds a generate_series; its lower bound is not looked at. */
  function IndexedArray(t: Factor): (r: Option<Expr>)
    ensures r.Some? ==> t.Series?
  {
    if !t.Series? then None
    else
      var bound := Uncast(t.hi);
      if bound.Call? && bound.fn in {"array_upper", "array_length"} && |bound.args| == 2
         && Uncast(bound.args[1]) == Lit(Int(1)) then Some(Uncast(bound.args[0]))
      else None
  }

  /** `<anything>[s]`; which array is subscripted is not looked at. */
  predicate SubscriptBy(e: Expr, s: string) {
    e.Index? && !e.arr.Index? && e.idx == Bare(s)
  }

  /** The value compared with a subscript by the series. */
  function Compared(e: Expr, s: string): Option<Expr> {
    if !(e.Cmp? && e.op == Eq) then None
    else if SubscriptBy(e.right, s) then Some(e.left)
    else if SubscriptBy(e.left, s) then Some(e.right)
    else None
  }

  /** The counter counts the comparisons replaced. */
  function ToAny(s: string, arr: Expr): Callback {
    (e: Expr, k: nat) =>
      var v := Compared(e, s);
      if v.Some? then (AnyOf(v.value, arr), k + 1) else (e, k)
  }

  /** A FROM entry of its own, without joins. */
  predicate Alone(from: seq<FromItem>, p: nat)
    requires p < |from|
  {
    (p == 0 || from[p].kind.Comma?) && (p + 1 == |from| || from[p + 1].kind.Comma?)
  }

  function FirstSeries(from: seq<FromItem>, p: nat): (r: Option<nat>)
    requires p <= |from|
    ensures r.Some? ==> p <= r.value < |from| && Alone(from, r.value) && IndexedArray(from[r.value].factor).Some?
    decreases |from| - p
  {
    if p == |from| then None
    else if Alone(from, p) && IndexedArray(from[p].factor).Some? then Some(p)
    else FirstSeries(from, p + 1)
  }

  function Without1(from: seq<FromItem>, p: nat): seq<FromItem>
    requires p < |from|
  {
    from[..p] + from[p + 1..]
  }

  function Candidate(b: Body, p: nat): Body
    requires b.Select? && p < |b.from| && IndexedArray(b.from[p].factor).Some? && b.selection.Some?
  {
    var s, arr := b.from[p].factor.given, IndexedArray(b.from[p].factor).value;
    b.(from := Without1(b.from, p), selection := Some(VisitE(ToAny(s, arr), b.selection.value, 0).0))
  }

  /** One SELECT; it is left alone unless nothing else still names the series. */
  function IndexToAny(b: Body): Body {
    if !b.Select? then b
    else
      match FirstSeries(b.from, 0)
      case None => b
      case Some(p) =>
        if |b.from| < 2 || b.selection.None? then b
        else
          var s, arr := b.from[p].factor.given, IndexedArray(b.from[p].factor).value;
          var c := Candidate(b, p);
          if VisitE(ToAny(s, arr), b.selection.value, 0).1 == 0 || !AllB(Silent({s}), c) then b else c
  }

  // --- casts and bounds ----------------------------------------------------------------------

  /** The casts `Uncast` takes off. */
  function Peeled(e: Expr): set<string> {
    match e
    case Nested(x) => Peeled(x)
    case Call(fn, args) => if IsCast(fn) && |args| == 1 then {fn} + Peeled(args[0]) else {}
    case _ => {}
  }

  /** The casts written in the bound of a series. */
  function BoundCasts(t: Factor): set<string>
    requires IndexedArray(t).Some?
  {
    Peeled(t.hi) + Peeled(Uncast(t.hi).args[0]) + Peeled(Uncast(t.hi).args[1])
  }

  /** The bound functions count the elements of an array, NULL for a NULL or an empty one. */
  ghost predicate BoundFunctions(w: World) {
    forall fn, v :: fn in {"array_upper", "array_length"} ==> w.call(fn, [v, Int(1)]) == Ok(UpperBound(v))
  }

  ghost predicate KeepValues(w: World, casts: set<string>) {
    forall fn, v :: fn in casts ==> w.call(fn, [v]) == Ok(v)
  }

  /** And the casts inside the bound keep the value. */
  ghost predicate ArrayFunctions(w: World, t: Factor)
    requires IndexedArray(t).Some?
  {
    BoundFunctions(w) && KeepValues(w, BoundCasts(t))
  }

  function UpperBound(v: Value): Value {
    if v.Array? && v.elems != [] then Int(|v.elems|) else Null
  }

  lemma {:induction false} UncastValue(w: World, e: Expr, s: Scope)
    requires KeepValues(w, Peeled(e))
    ensures EvalE(w, Uncast(e), s) == EvalE(w, e, s)
    decreases e
  {
    match e
    case Nested(x) => UncastValue(w, x, s);
    case Call(fn, args) =>
      if IsCast(fn) && |args| == 1 {
        UncastValue(w, args[0], s);
        assert args == [args[0]] && args[1..] == [];
        assert EvalEs(w, args[1..], s) == Ok([]);
        var v := EvalE(w, args[0], s);
        if v.Ok? {
          assert EvalEs(w, args, s) == Ok([v.value]) by {
            assert [v.value] + [] == [v.value];
          }
        }
      }
    case _ =>
  }

  lemma BoundValue(w: World, t: Factor, s: Scope)
    requires IndexedArray(t).Some? && ArrayFunctions(w, t)
    ensures EvalE(w, t.hi, s)
         == if EvalE(w, IndexedArray(t).value, s).Ok? then Ok(UpperBound(EvalE(w, IndexedArray(t).value, s).value)) else Error
  {
    var bound := Uncast(t.hi);
    UncastValue(w, t.hi, s);
    UncastValue(w, bound.args[0], s);
    UncastValue(w, bound.args[1], s);
    assert EvalE(w, Lit(Int(1)), s) == Ok(Int(1));
    TwoArguments(w, bound.args, s);
  }

  lemma TwoArguments(w: World, args: seq<Expr>, s: Scope)
    requires |args| == 2
    ensures EvalEs(w, args, s)
         == if EvalE(w, args[0], s).Ok? && EvalE(w, args[1], s).Ok? then Ok([EvalE(w, args[0], s).value, EvalE(w, args[1], s).value]) else Error
  {
    var rest := args[1..];
    assert rest[0] == args[1] && rest[1..] == [];
    assert EvalEs(w, rest[1..], s) == Ok([]);
    var a, b := EvalE(w, args[0], s), EvalE(w, args[1], s);
    if b.Ok? {
      assert [b.value] + [] == [b.value];
      assert EvalEs(w, rest, s) == Ok([b.value]);
      if a.Ok? {
        assert [a.value] + [b.value] == [a.value, b.value];
      }
    } else {
      assert EvalEs(w, rest, s) == Error;
    }
  }

  // --- the rows of the series ----------------------------------------------------------------

  /** An outer row continued by each index from `lo` to `hi`. */
  function Indexed(f: Frame, s: string, lo: int, hi: int): seq<Frame>
    decreases hi - lo
  {
    if lo > hi then [] else [f + [Bound(s, [Cell(s, Int(lo))])]] + Indexed(f, s, lo + 1, hi)
  }

  lemma {:induction false} MatchSeries(w: World, f: Frame, s: string, lo: int, hi: int, env: Env)
    ensures Matching(w, TrueLit, s, SeriesRecs(lo, hi, s), f, env) == Ok(Indexed(f, s, lo, hi))
    decreases hi - lo
  {
    if lo <= hi {
      MatchSeries(w, f, s, lo + 1, hi, env);
      var recs := SeriesRecs(lo, hi, s);
      assert recs[0] == [Cell(s, Int(lo))] && recs[1..] == SeriesRecs(lo + 1, hi, s);
      MatchingStep(w, TrueLit, s, recs, f, env);
    }
  }

  /** The indexes an array is walked by. */
  function Last(v: Value): int {
    if v.Array? then |v.elems| else 0
  }

  /** What makes the item a plain walk: it joins ON true, from an integer at most 1, over an array or
      NULL. */
  ghost predicate Walks(w: World, it: FromItem, f: Frame, env: Env) {
    && IndexedArray(it.factor).Some? && it.on == TrueLit && !it.kind.Left?
    && var sc := Scope(Push(env, f), None);
       var lo, arr := EvalE(w, it.factor.lo, sc), EvalE(w, IndexedArray(it.factor).value, sc);
       && lo.Ok? && lo.value.Int? && lo.value.i <= 1
       && arr.Ok? && (arr.value.Array? || arr.value.Null?)
  }

  lemma SeriesRows(w: World, it: FromItem, f: Frame, env: Env)
    requires Walks(w, it, f, env) && ArrayFunctions(w, it.factor)
    ensures var sc := Scope(Push(env, f), None);
      var lo, arr := EvalE(w, it.factor.lo, sc).value.i, EvalE(w, IndexedArray(it.factor).value, sc).value;
      JoinOne(w, it, f, env) == Ok(if UpperBound(arr).Int? then Indexed(f, it.factor.given, lo, Last(arr)) else [])
  {
    var sc := Scope(Push(env, f), None);
    var lo, arr := EvalE(w, it.factor.lo, sc).value.i, EvalE(w, IndexedArray(it.factor).value, sc).value;
    var s := it.factor.given;
    BoundValue(w, it.factor, sc);
    assert EvalE(w, it.factor.hi, sc) == Ok(UpperBound(arr)) && EvalE(w, it.factor.lo, sc) == Ok(Int(lo));
    if UpperBound(arr).Int? {
      assert EvalFactor(w, it.factor, f, env) == Ok(SeriesRecs(lo, Last(arr), s));
      MatchSeries(w, f, s, lo, Last(arr), env);
    } else {
      assert EvalFactor(w, it.factor, f, env) == Ok([]);
      assert Matching(w, TrueLit, s, [], f, env) == Ok([]);
    }
  }

  // --- the condition -------------------------------------------------------------------------

  /** The array a comparison subscripts. */
  function ComparedArray(e: Expr, s: string): Expr
    requires Compared(e, s).Some?
  {
    if SubscriptBy(e.right, s) then e.right.arr else e.left.arr
  }

  /** A conjunction in which one comparison walks the array, on the very array that bounds the
      series, and nothing else mentions the series. */
  predicate OneWalk(cond: Expr, s: string, arr: Expr) {
    match cond
    case And(l, r) =>
      || (OneWalk(l, s, arr) && AllE(Silent({s}), r, Truth))
      || (AllE(Silent({s}), l, Truth) && OneWalk(r, s, arr))
    case Nested(x) => OneWalk(x, s, arr)
    case Cmp(_, _, _) =>
      && Compared(cond, s).Some? && ComparedArray(cond, s) == arr
      && AllE(Silent({s}), Compared(cond, s).value, Exact) && AllE(Silent({s}), arr, Exact)
    case _ => false
  }

  /** The value walked for. */
  function Sought(cond: Expr, s: string, arr: Expr): Expr
    requires OneWalk(cond, s, arr)
  {
    match cond
    case And(l, r) => if OneWalk(l, s, arr) then Sought(l, s, arr) else Sought(r, s, arr)
    case Nested(x) => Sought(x, s, arr)
    case Cmp(_, _, _) => Compared(cond, s).value
  }

  /** The condition with the walk replaced by a membership test. */
  function AnyForm(cond: Expr, s: string, arr: Expr): Expr
    requires OneWalk(cond, s, arr)
  {
    match cond
    case And(l, r) => if OneWalk(l, s, arr) then And(AnyForm(l, s, arr), r) else And(l, AnyForm(r, s, arr))
    case Nested(x) => Nested(AnyForm(x, s, arr))
    case Cmp(_, _, _) => AnyOf(Compared(cond, s).value, arr)
  }

  function Unwalked(s: string): Check {
    (e: Expr, p: Pos) => Compared(e, s).None?
  }

  lemma SilentUntouched(s: string, arr: Expr, e: Expr, p: Pos, k: nat)
    requires AllE(Silent({s}), e, p)
    ensures VisitE(ToAny(s, arr), e, k) == (e, k)
  {
    forall x: Expr, j: nat, q: Pos | AllE(Silent({s}), x, q) ensures CarriesAt(Same, Unwalked(s), x, j, q) {
      assert VisitKids(Same, x, j) == VisitE(Same, x, j);
      SameE(Same, x, j);
      NoWalk(s, x, q);
    }
    CarryE(Same, Silent({s}), Unwalked(s), e, k, p);
    SameE(Same, e, k);
    KeptE(ToAny(s, arr), Unwalked(s), e, p, k);
  }

  lemma NoWalk(s: string, e: Expr, p: Pos)
    requires AllE(Silent({s}), e, p)
    ensures Compared(e, s).None?
  {
    if e.Cmp? {
      assert AllKids(Silent({s}), e, p);
      NoSubscript(s, e.left);
      NoSubscript(s, e.right);
    }
  }

  lemma NoSubscript(s: string, e: Expr)
    requires AllE(Silent({s}), e, Exact)
    ensures !SubscriptBy(e, s)
  {
    if e.Index? {
      assert AllE(Silent({s}), e.idx, Exact);
      assert e.idx.Bare? ==> e.idx.name != s;
    }
  }

  lemma {:induction false} WalkNotSilent(cond: Expr, s: string, arr: Expr)
    requires OneWalk(cond, s, arr)
    ensures !AllE(Silent({s}), cond, Truth)
  {
    match cond
    case And(l, r) => if OneWalk(l, s, arr) { WalkNotSilent(l, s, arr); } else { WalkNotSilent(r, s, arr); }
    case Nested(x) => WalkNotSilent(x, s, arr);
    case Cmp(_, l, r) => if SubscriptBy(r, s) { SubscriptSpeaks(r, s); } else { SubscriptSpeaks(l, s); }
  }

  lemma SubscriptSpeaks(e: Expr, s: string)
    requires SubscriptBy(e, s)
    ensures !AllE(Silent({s}), e, Exact)
  {
    assert !AllE(Silent({s}), Bare(s), Exact);
  }

  /** What the pass makes of such a condition, and that it counts one replacement. */
  lemma {:induction false} Replaced(cond: Expr, s: string, arr: Expr, k: nat)
    requires OneWalk(cond, s, arr)
    ensures VisitE(ToAny(s, arr), cond, k) == (AnyForm(cond, s, arr), k + 1)
    decreases cond
  {
    var f := ToAny(s, arr);
    match cond
    case And(l, r) =>
      if OneWalk(l, s, arr) {
        Replaced(l, s, arr, k);
        WalkNotSilent(l, s, arr);
        SilentUntouched(s, arr, r, Truth, k + 1);
      } else {
        SilentUntouched(s, arr, l, Truth, k);
        Replaced(r, s, arr, k);
      }
    case Nested(x) => Replaced(x, s, arr, k);
    case Cmp(_, l, r) =>
      var v := Compared(cond, s).value;
      SilentUntouched(s, arr, v, Exact, k);
      SilentUntouched(s, arr, arr, Exact, k);
      SubscriptKept(s, arr, k);
      assert VisitKids(f, cond, k) == (cond, k);
  }

  lemma SubscriptKept(s: string, arr: Expr, k: nat)
    requires AllE(Silent({s}), arr, Exact)
    ensures VisitE(ToAny(s, arr), Index(arr, Bare(s)), k) == (Index(arr, Bare(s)), k)
  {
    SilentUntouched(s, arr, arr, Exact, k);
    assert VisitE(ToAny(s, arr), Bare(s), k) == (Bare(s), k);
  }

  // --- one row -------------------------------------------------------------------------------

  predicate Hit(v: Result<Value>, a: Value, k: int) {
    v.Ok? && IsTrue(EqV(v.value, Subscripted(a, Int(k))))
  }

  /** Two environments alike but for the series. */
  ghost predicate AlikeBut(s: string, refs: set<Ref>, env1: Env, env2: Env) {
    forall r :: r in refs && r.qual != s ==> Found(map[], env1, r) == Found(map[], env2, r)
  }

  lemma SilentAlike(w: World, s: string, e: Expr, p: Pos, refs: set<Ref>, env1: Env, env2: Env)
    requires AllE(Silent({s}), e, p) && FreeE(e) <= refs && AlikeBut(s, refs, env1, env2)
    ensures EvalE(w, e, Scope(env1, None)) == EvalE(w, e, Scope(env2, None))
    ensures EvalCond(w, e, Scope(env1, None)) == EvalCond(w, e, Scope(env2, None))
  {
    SaidE(Outside({s}), e, p);
    assert SameView(map[], FreeE(e), env1, env2);
    Coincide(w, w, e, Scope(env1, None), Scope(env2, None));
  }

  /** For each index the walk's condition holds when the membership test does and that index hits;
      and the test holds only if some index of the array hits. */
  lemma {:induction false} WalkStep(w: World, cond: Expr, s: string, arr: Expr, refs: set<Ref>, env1: Env, env2: Env, a: Value, k: int)
    requires OneWalk(cond, s, arr) && FreeE(cond) <= refs && AlikeBut(s, refs, env1, env2)
    requires Look(env1, s, s) == Ok(Int(k)) && EvalE(w, arr, Scope(env2, None)) == Ok(a) && (a.Array? || a.Null?)
    requires EvalCond(w, cond, Scope(env1, None)).Ok? && EvalCond(w, AnyForm(cond, s, arr), Scope(env2, None)).Ok?
    ensures var v, t := EvalE(w, Sought(cond, s, arr), Scope(env2, None)), EvalCond(w, AnyForm(cond, s, arr), Scope(env2, None)).value;
      EvalCond(w, cond, Scope(env1, None)) == Ok(t && Hit(v, a, k))
    decreases cond, 1
  {
    match cond
    case And(l, r) =>
      if OneWalk(l, s, arr) {
        WalkLeft(w, cond, s, arr, refs, env1, env2, a, k);
      } else {
        WalkRight(w, cond, s, arr, refs, env1, env2, a, k);
      }
    case Nested(x) => WalkStep(w, x, s, arr, refs, env1, env2, a, k);
    case Cmp(_, _, _) => WalkLeaf(w, cond, s, arr, refs, env1, env2, a, k);
  }

  lemma {:induction false} WalkLeft(w: World, cond: Expr, s: string, arr: Expr, refs: set<Ref>, env1: Env, env2: Env, a: Value, k: int)
    requires OneWalk(cond, s, arr) && FreeE(cond) <= refs && AlikeBut(s, refs, env1, env2) && cond.And? && OneWalk(cond.left, s, arr)
    requires Look(env1, s, s) == Ok(Int(k)) && EvalE(w, arr, Scope(env2, None)) == Ok(a) && (a.Array? || a.Null?)
    requires EvalCond(w, cond, Scope(env1, None)).Ok? && EvalCond(w, AnyForm(cond, s, arr), Scope(env2, None)).Ok?
    ensures var v, t := EvalE(w, Sought(cond, s, arr), Scope(env2, None)), EvalCond(w, AnyForm(cond, s, arr), Scope(env2, None)).value;
      EvalCond(w, cond, Scope(env1, None)) == Ok(t && Hit(v, a, k))
    decreases cond, 0
  {
    var l, r := cond.left, cond.right;
    AndStep(w, l, r, Scope(env1, None));
    AndStep(w, AnyForm(l, s, arr), r, Scope(env2, None));
    WalkNotSilent(l, s, arr);
    WalkStep(w, l, s, arr, refs, env1, env2, a, k);
    SilentAlike(w, s, r, Truth, refs, env1, env2);
  }

  lemma {:induction false} WalkRight(w: World, cond: Expr, s: string, arr: Expr, refs: set<Ref>, env1: Env, env2: Env, a: Value, k: int)
    requires OneWalk(cond, s, arr) && FreeE(cond) <= refs && AlikeBut(s, refs, env1, env2) && cond.And? && !OneWalk(cond.left, s, arr)
    requires Look(env1, s, s) == Ok(Int(k)) && EvalE(w, arr, Scope(env2, None)) == Ok(a) && (a.Array? || a.Null?)
    requires EvalCond(w, cond, Scope(env1, None)).Ok? && EvalCond(w, AnyForm(cond, s, arr), Scope(env2, None)).Ok?
    ensures var v, t := EvalE(w, Sought(cond, s, arr), Scope(env2, None)), EvalCond(w, AnyForm(cond, s, arr), Scope(env2, None)).value;
      EvalCond(w, cond, Scope(env1, None)) == Ok(t && Hit(v, a, k))
    decreases cond, 0
  {
    var l, r := cond.left, cond.right;
    AndStep(w, l, r, Scope(env1, None));
    AndStep(w, l, AnyForm(r, s, arr), Scope(env2, None));
    SilentAlike(w, s, l, Truth, refs, env1, env2);
    if EvalCond(w, l, Scope(env2, None)) == Ok(true) {
      WalkStep(w, r, s, arr, refs, env1, env2, a, k);
    }
  }

  lemma WalkLeaf(w: World, cond: Expr, s: string, arr: Expr, refs: set<Ref>, env1: Env, env2: Env, a: Value, k: int)
    requires cond.Cmp? && OneWalk(cond, s, arr) && FreeE(cond) <= refs && AlikeBut(s, refs, env1, env2)
    requires Look(env1, s, s) == Ok(Int(k)) && EvalE(w, arr, Scope(env2, None)) == Ok(a) && (a.Array? || a.Null?)
    requires EvalCond(w, cond, Scope(env1, None)).Ok? && EvalCond(w, AnyForm(cond, s, arr), Scope(env2, None)).Ok?
    ensures var v, t := EvalE(w, Compared(cond, s).value, Scope(env2, None)), EvalCond(w, AnyForm(cond, s, arr), Scope(env2, None)).value;
      EvalCond(w, cond, Scope(env1, None)) == Ok(t && Hit(v, a, k))
  {
    var v := Compared(cond, s).value;
    var s1, s2 := Scope(env1, None), Scope(env2, None);
    LeafValues(w, cond, s, arr, refs, env1, env2, a, k);
    PlainCond(w, cond, s1);
    var x := EvalE(w, v, s1);
    SoughtValue(w, cond, s, arr, s1);
    LeafCompares(w, cond, s, arr, s1, x.value, a, k);
    LeafTests(w, v, arr, x.value, a, k, s2);
  }

  lemma {:induction false} LeafValues(w: World, cond: Expr, s: string, arr: Expr, refs: set<Ref>, env1: Env, env2: Env, a: Value, k: int)
    requires cond.Cmp? && OneWalk(cond, s, arr) && FreeE(cond) <= refs && AlikeBut(s, refs, env1, env2)
    requires Look(env1, s, s) == Ok(Int(k)) && EvalE(w, arr, Scope(env2, None)) == Ok(a)
    ensures EvalE(w, Compared(cond, s).value, Scope(env1, None)) == EvalE(w, Compared(cond, s).value, Scope(env2, None))
    ensures EvalE(w, Index(arr, Bare(s)), Scope(env1, None)) == Ok(Subscripted(a, Int(k)))
  {
    LeafParts(cond, s, arr);
    SilentAlike(w, s, Compared(cond, s).value, Exact, refs, env1, env2);
    SilentAlike(w, s, arr, Exact, refs, env1, env2);
    SubscriptValue(w, arr, s, Scope(env1, None), a, k);
  }

  lemma {:induction false} SubscriptValue(w: World, arr: Expr, s: string, sc: Scope, a: Value, k: int)
    requires EvalE(w, arr, sc) == Ok(a) && Look(sc.env, s, s) == Ok(Int(k))
    ensures EvalE(w, Index(arr, Bare(s)), sc) == Ok(Subscripted(a, Int(k)))
  {
    assert EvalE(w, Bare(s), sc) == Ok(Int(k));
  }

  lemma LeafParts(cond: Expr, s: string, arr: Expr)
    requires cond.Cmp? && OneWalk(cond, s, arr)
    ensures FreeE(Compared(cond, s).value) <= FreeE(cond) && FreeE(arr) <= FreeE(cond)
    ensures AllE(Silent({s}), Compared(cond, s).value, Exact) && AllE(Silent({s}), arr, Exact)
  {
  }

  lemma SoughtValue(w: World, cond: Expr, s: string, arr: Expr, sc: Scope)
    requires cond.Cmp? && OneWalk(cond, s, arr) && EvalE(w, cond, sc).Ok?
    ensures EvalE(w, Compared(cond, s).value, sc).Ok?
  {
  }

  lemma LeafTests(w: World, v: Expr, arr: Expr, x: Value, a: Value, k: int, sc: Scope)
    requires EvalE(w, v, sc) == Ok(x) && EvalE(w, arr, sc) == Ok(a) && (a.Array? || a.Null?)
    ensures EvalCond(w, AnyOf(v, arr), sc).Ok? && (Hit(Ok(x), a, k) ==> EvalCond(w, AnyOf(v, arr), sc).value)
  {
    PlainCond(w, AnyOf(v, arr), sc);
    AnyHits(w, v, arr, x, a, sc);
    if Hit(Ok(x), a, k) {
      assert a.Array? && 1 <= k <= |a.elems|;
    }
  }

  /** Either way round, the comparison holds when the element is the value sought. */
  lemma LeafCompares(w: World, cond: Expr, s: string, arr: Expr, sc: Scope, x: Value, a: Value, k: int)
    requires cond.Cmp? && OneWalk(cond, s, arr) && EvalE(w, Compared(cond, s).value, sc) == Ok(x)
    requires EvalE(w, Index(arr, Bare(s)), sc) == Ok(Subscripted(a, Int(k)))
    ensures EvalE(w, cond, sc).Ok? && (IsTrue(EvalE(w, cond, sc).value) <==> Hit(Ok(x), a, k))
  {
    EqSymmetric(x, Subscripted(a, Int(k)));
  }

  lemma AnyHeld(x: Value, a: Value)
    requires a.Array?
    ensures IsTrue(AnyEqual(x, a.elems)) <==> exists k :: 1 <= k <= |a.elems| && IsTrue(EqV(x, Subscripted(a, Int(k))))
  {
    AnyEqualIsTrue(x, a.elems);
    if k :| 0 <= k < |a.elems| && IsTrue(EqV(x, a.elems[k])) {
      assert Subscripted(a, Int(k + 1)) == a.elems[k];
    }
    if k :| 1 <= k <= |a.elems| && IsTrue(EqV(x, Subscripted(a, Int(k)))) {
      assert Subscripted(a, Int(k)) == a.elems[k - 1];
    }
  }

  lemma {:induction false} AnyHits(w: World, v: Expr, arr: Expr, x: Value, a: Value, sc: Scope)
    requires EvalE(w, v, sc) == Ok(x) && EvalE(w, arr, sc) == Ok(a)
    ensures EvalE(w, AnyOf(v, arr), sc).Ok?
    ensures IsTrue(EvalE(w, AnyOf(v, arr), sc).value) <==>
      a.Array? && exists k :: 1 <= k <= |a.elems| && IsTrue(EqV(x, Subscripted(a, Int(k))))
  {
    assert EvalE(w, AnyOf(v, arr), sc) == Ok(if a.Array? then AnyEqual(x, a.elems) else Null);
    if a.Array? {
      AnyHeld(x, a);
    }
  }
}

/** How often each row comes: once for every index that holds the value sought. */
module ArrayRows {
  import opened Wrappers
  import opened SqlValues
  import opened SqlAst
  import opened SqlEval
  import opened SqlVisit
  import opened SqlScope
  import opened FrameViews
  import opened SqlMentions
  import opened LateralAggregate
  import opened ArrayIteration

  // --- FROM rows over concatenated starts ----------------------------------------------------

  lemma {:induction false} JoinAllAppend(w: World, it: FromItem, a: seq<Frame>, b: seq<Frame>, env: Env)
    ensures JoinAll(w, it, a + b, env)
         == if JoinAll(w, it, a, env).Ok? && JoinAll(w, it, b, env).Ok?
            then Ok(JoinAll(w, it, a, env).value + JoinAll(w, it, b, env).value) else Error
    decreases |a|
  {
    if a == [] {
      assert a + b == b;
      assert JoinAll(w, it, b, env).Ok? ==> [] + JoinAll(w, it, b, env).value == JoinAll(w, it, b, env).value;
    } else {
      JoinAllAppend(w, it, a[1..], b, env);
      assert (a + b)[0] == a[0] && (a + b)[1..] == a[1..] + b;
      var here, mid, last := JoinOne(w, it, a[0], env), JoinAll(w, it, a[1..], env), JoinAll(w, it, b, env);
      if here.Ok? && mid.Ok? && last.Ok? {
        assert here.value + (mid.value + last.value) == (here.value + mid.value) + last.value;
      }
    }
  }

  lemma {:induction false} JoinRestAppend(w: World, rest: seq<FromItem>, a: seq<Frame>, b: seq<Frame>, env: Env)
    ensures JoinRest(w, rest, a + b, env)
         == if JoinRest(w, rest, a, env).Ok? && JoinRest(w, rest, b, env).Ok?
            then Ok(JoinRest(w, rest, a, env).value + JoinRest(w, rest, b, env).value) else Error
    decreases |rest|
  {
    if rest != [] {
      JoinAllAppend(w, rest[0], a, b, env);
      var x, y := JoinAll(w, rest[0], a, env), JoinAll(w, rest[0], b, env);
      if x.Ok? && y.Ok? {
        JoinRestAppend(w, rest[1..], x.value, y.value, env);
      }
    }
  }

  /** The rows a SELECT without aggregates makes of these FROM rows. */
  function RowsOf(w: World, cond: Expr, items: seq<Item>, frames: seq<Frame>, env: Env): Result<seq<Rec>> {
    var kept :- Filter(w, cond, frames, env);
    EvalRows(w, items, kept, env)
  }

  lemma {:induction false} RowsStep(w: World, cond: Expr, items: seq<Item>, frames: seq<Frame>, env: Env)
    requires frames != []
    ensures var s := Scope(Push(env, frames[0]), None);
      var holds, row, rest := EvalCond(w, cond, s), EvalItems(w, items, frames[0], s), RowsOf(w, cond, items, frames[1..], env);
      RowsOf(w, cond, items, frames, env)
        == if !holds.Ok? || !rest.Ok? || (holds.value && !row.Ok?) then Error
           else Ok((if holds.value then [row.value] else []) + rest.value)
  {
    FilterStep(w, cond, frames, env);
    var kept := Filter(w, cond, frames[1..], env);
    if kept.Ok? {
      RowThenRows(w, items, frames[0], kept.value, env);
    }
  }

  lemma RowThenRows(w: World, items: seq<Item>, f: Frame, kept: seq<Frame>, env: Env)
    ensures var row, rest := EvalItems(w, items, f, Scope(Push(env, f), None)), EvalRows(w, items, kept, env);
      EvalRows(w, items, [f] + kept, env) == if row.Ok? && rest.Ok? then Ok([row.value] + rest.value) else Error
    ensures EvalRows(w, items, kept, env).Ok? ==> [] + EvalRows(w, items, kept, env).value == EvalRows(w, items, kept, env).value
  {
    assert ([f] + kept)[1..] == kept;
  }

  lemma {:induction false} RowsAppend(w: World, cond: Expr, items: seq<Item>, a: seq<Frame>, b: seq<Frame>, env: Env)
    ensures RowsOf(w, cond, items, a + b, env)
         == if RowsOf(w, cond, items, a, env).Ok? && RowsOf(w, cond, items, b, env).Ok?
            then Ok(RowsOf(w, cond, items, a, env).value + RowsOf(w, cond, items, b, env).value) else Error
    decreases |a|
  {
    if a == [] {
      assert a + b == b;
      assert RowsOf(w, cond, items, [], env) == Ok([]);
      assert RowsOf(w, cond, items, b, env).Ok? ==> [] + RowsOf(w, cond, items, b, env).value == RowsOf(w, cond, items, b, env).value;
    } else {
      RowsAppend(w, cond, items, a[1..], b, env);
      assert (a + b)[0] == a[0] && (a + b)[1..] == a[1..] + b;
      RowsStep(w, cond, items, a, env);
      RowsStep(w, cond, items, a + b, env);
      var mid, last := RowsOf(w, cond, items, a[1..], env), RowsOf(w, cond, items, b, env);
      if mid.Ok? && last.Ok? {
        RowsAssociate(mid.value, last.value);
      }
    }
  }

  lemma RowsAssociate(mid: seq<Rec>, last: seq<Rec>)
    ensures forall first: seq<Rec> :: first + (mid + last) == (first + mid) + last
  {
  }

  // --- one outer row -------------------------------------------------------------------------

  /** A FROM row that continues `g` by rows of these items. */
  predicate Grown(g: Frame, from: seq<FromItem>, h: Frame) {
    |g| <= |h| && h[..|g|] == g && Binds(h[|g|..], from)
  }

  lemma GrowOne(g: Frame, done: seq<FromItem>, it: FromItem, h: Frame, rec: Rec)
    requires Grown(g, done, h)
    ensures Grown(g, done + [it], h + [Bound(FactorName(it.factor), rec)])
  {
    var b := Bound(FactorName(it.factor), rec);
    assert (h + [b])[..|g|] == h[..|g|] && (h + [b])[|g|..] == h[|g|..] + [b];
  }

  lemma {:induction false} MatchingGrown(w: World, it: FromItem, g: Frame, done: seq<FromItem>, recs: seq<Rec>, h: Frame, env: Env)
    requires Grown(g, done, h) && Matching(w, it.on, FactorName(it.factor), recs, h, env).Ok?
    ensures forall x :: x in Matching(w, it.on, FactorName(it.factor), recs, h, env).value ==> Grown(g, done + [it], x)
    decreases |recs|
  {
    if recs != [] {
      MatchingStep(w, it.on, FactorName(it.factor), recs, h, env);
      MatchingGrown(w, it, g, done, recs[1..], h, env);
      GrowOne(g, done, it, h, recs[0]);
    }
  }

  lemma JoinOneGrown(w: World, it: FromItem, g: Frame, done: seq<FromItem>, h: Frame, env: Env)
    requires Grown(g, done, h) && JoinOne(w, it, h, env).Ok?
    ensures forall x :: x in JoinOne(w, it, h, env).value ==> Grown(g, done + [it], x)
  {
    MatchingGrown(w, it, g, done, EvalFactor(w, it.factor, h, env).value, h, env);
    GrowOne(g, done, it, h, NullRec(FactorCols(w.tables, it.factor)));
  }

  lemma {:induction false} JoinAllGrown(w: World, it: FromItem, g: Frame, done: seq<FromItem>, frames: seq<Frame>, env: Env)
    requires (forall h :: h in frames ==> Grown(g, done, h)) && JoinAll(w, it, frames, env).Ok?
    ensures forall x :: x in JoinAll(w, it, frames, env).value ==> Grown(g, done + [it], x)
    decreases |frames|
  {
    if frames != [] {
      JoinOneGrown(w, it, g, done, frames[0], env);
      JoinAllGrown(w, it, g, done, frames[1..], env);
    }
  }

  lemma {:induction false} JoinRestGrown(w: World, rest: seq<FromItem>, g: Frame, done: seq<FromItem>, frames: seq<Frame>, env: Env)
    requires (forall h :: h in frames ==> Grown(g, done, h)) && JoinRest(w, rest, frames, env).Ok?
    ensures forall x :: x in JoinRest(w, rest, frames, env).value ==> Grown(g, done + rest, x)
    decreases |rest|
  {
    if rest == [] {
      assert done + rest == done;
    } else {
      JoinAllGrown(w, rest[0], g, done, frames, env);
      JoinRestGrown(w, rest[1..], g, done + [rest[0]], JoinAll(w, rest[0], frames, env).value, env);
      assert done + [rest[0]] + rest[1..] == done + rest;
    }
  }

  lemma {:induction false} PushMore(env: Env, f: Frame, more: Frame)
    ensures Push(env, f + more) == Push(Push(env, f), more)
    decreases |more|
  {
    if more == [] {
      assert f + more == f;
    } else {
      var n := |more| - 1;
      assert f + more == (f + more[..n]) + [more[n]] && more == more[..n] + [more[n]];
      PushMore(env, f, more[..n]);
      PushOne(env, f + more[..n], more[n]);
      PushOne(Push(env, f), more[..n], more[n]);
    }
  }

  /** References the later items do not bind find in a grown row what they find in its start. */
  lemma GrownFinds(refs: set<Ref>, env: Env, g: Frame, rest: seq<FromItem>, h: Frame)
    requires Grown(g, rest, h) && Without(refs, Names(rest)) == refs
    ensures SameView(map[], refs, Push(env, g), Push(env, h))
  {
    assert h == g + h[|g|..];
    PushMore(env, g, h[|g|..]);
    OutsideFrame(refs, Push(env, g), h[|g|..], rest);
  }

  function Pick(rows: seq<Rec>, keep: seq<bool>): seq<Rec>
    requires |keep| == |rows|
  {
    if rows == [] then [] else (if keep[0] then [rows[0]] else []) + Pick(rows[1..], keep[1..])
  }

  function ValueAt(w: World, v: Expr, g: Frame, env: Env): Result<Value> {
    EvalE(w, v, Scope(Push(env, g), None))
  }

  function HitsAt(w: World, v: Expr, a: Value, kept: seq<Frame>, env: Env, k: int): seq<bool> {
    seq(|kept|, j requires 0 <= j < |kept| => Hit(ValueAt(w, v, kept[j], env), a, k))
  }

  /** A row with the index and the same row without it. */
  ghost predicate Twins(w: World, s: string, arr: Expr, refs: set<Ref>, env: Env, x: Frame, y: Frame, a: Value, k: int) {
    && AlikeBut(s, refs, Push(env, x), Push(env, y))
    && Look(Push(env, x), s, s) == Ok(Int(k)) && EvalE(w, arr, Scope(Push(env, y), None)) == Ok(a)
  }

  lemma TwinItems(w: World, s: string, items: seq<Item>, arr: Expr, refs: set<Ref>, env: Env, x: Frame, y: Frame, a: Value, k: int)
    requires Twins(w, s, arr, refs, env, x, y, a, k) && NoWildcard(items)
    requires FreeItems(items) <= refs && Avoid(FreeItems(items), {s})
    ensures EvalItems(w, items, x, Scope(Push(env, x), None)) == EvalItems(w, items, y, Scope(Push(env, y), None))
  {
    assert SameView(map[], FreeItems(items), Push(env, x), Push(env, y));
    ItemsViews(w, items, x, y, Scope(Push(env, x), None), Scope(Push(env, y), None));
  }

  /** The rows kept for one index are those of the membership test that this index hits. */
  lemma {:induction false} PickRows(w: World, cond: Expr, s: string, arr: Expr, items: seq<Item>, refs: set<Ref>,
                                    xs: seq<Frame>, ys: seq<Frame>, env: Env, a: Value, k: int)
    requires OneWalk(cond, s, arr) && NoWildcard(items) && Avoid(FreeItems(items), {s}) && (a.Array? || a.Null?)
    requires FreeE(cond) + FreeItems(items) <= refs && |xs| == |ys|
    requires forall i :: 0 <= i < |xs| ==> Twins(w, s, arr, refs, env, xs[i], ys[i], a, k)
    requires RowsOf(w, cond, items, xs, env).Ok? && RowsOf(w, AnyForm(cond, s, arr), items, ys, env).Ok?
    ensures Picked(w, cond, AnyForm(cond, s, arr), Sought(cond, s, arr), items, xs, ys, env, a, k)
    decreases |xs|
  {
    var test, v := AnyForm(cond, s, arr), Sought(cond, s, arr);
    if xs != [] {
      RowsStep(w, cond, items, xs, env);
      RowsStep(w, test, items, ys, env);
      PickRows(w, cond, s, arr, items, refs, xs[1..], ys[1..], env, a, k);
      assert Twins(w, s, arr, refs, env, xs[0], ys[0], a, k);
      TwinCond(w, cond, s, arr, refs, env, xs[0], ys[0], a, k);
      TwinItems(w, s, items, arr, refs, env, xs[0], ys[0], a, k);
      PickStep(w, cond, test, v, items, xs, ys, env, a, k);
    } else {
      assert RowsOf(w, cond, items, xs, env) == Ok([]) && RowsOf(w, test, items, ys, env) == Ok([]);
      assert Filter(w, test, ys, env) == Ok([]);
    }
  }

  lemma {:induction false} TwinCond(w: World, cond: Expr, s: string, arr: Expr, refs: set<Ref>, env: Env, x: Frame, y: Frame, a: Value, k: int)
    requires Twins(w, s, arr, refs, env, x, y, a, k) && OneWalk(cond, s, arr) && FreeE(cond) <= refs && (a.Array? || a.Null?)
    requires EvalCond(w, cond, Scope(Push(env, x), None)).Ok? && EvalCond(w, AnyForm(cond, s, arr), Scope(Push(env, y), None)).Ok?
    ensures EvalCond(w, cond, Scope(Push(env, x), None))
         == Ok(EvalCond(w, AnyForm(cond, s, arr), Scope(Push(env, y), None)).value && Hit(ValueAt(w, Sought(cond, s, arr), y, env), a, k))
  {
    var ex, ey := Push(env, x), Push(env, y);
    WalkStep(w, cond, s, arr, refs, ex, ey, a, k);
  }

  /** What the rows of a list come to, from those of its first frame and of the rest. */
  lemma PickStep(w: World, cond: Expr, test: Expr, v: Expr, items: seq<Item>, xs: seq<Frame>, ys: seq<Frame>, env: Env, a: Value, k: int)
    requires xs != [] && ys != [] && RowsOf(w, cond, items, xs, env).Ok? && RowsOf(w, test, items, ys, env).Ok?
    requires EvalCond(w, test, Scope(Push(env, ys[0]), None)).Ok?
    requires EvalCond(w, cond, Scope(Push(env, xs[0]), None))
          == Ok(EvalCond(w, test, Scope(Push(env, ys[0]), None)).value && Hit(ValueAt(w, v, ys[0], env), a, k))
    requires EvalItems(w, items, xs[0], Scope(Push(env, xs[0]), None)) == EvalItems(w, items, ys[0], Scope(Push(env, ys[0]), None))
    requires Picked(w, cond, test, v, items, xs[1..], ys[1..], env, a, k)
    ensures Picked(w, cond, test, v, items, xs, ys, env, a, k)
  {
    RowsStep(w, cond, items, xs, env);
    RowsStep(w, test, items, ys, env);
    FilterStep(w, test, ys, env);
    var rest, more := Filter(w, test, ys[1..], env).value, RowsOf(w, test, items, ys[1..], env).value;
    if EvalCond(w, test, Scope(Push(env, ys[0]), None)).value {
      PickHead(w, v, EvalItems(w, items, ys[0], Scope(Push(env, ys[0]), None)).value, more, ys[0], rest, env, a, k);
    }
  }

  predicate Picked(w: World, cond: Expr, test: Expr, v: Expr, items: seq<Item>, xs: seq<Frame>, ys: seq<Frame>, env: Env, a: Value, k: int) {
    var kept, rows := Filter(w, test, ys, env), RowsOf(w, test, items, ys, env);
    && kept.Ok? && rows.Ok? && |rows.value| == |kept.value|
    && RowsOf(w, cond, items, xs, env) == Ok(Pick(rows.value, HitsAt(w, v, a, kept.value, env, k)))
  }

  /** Picking from a list that starts with one more kept row. */
  lemma PickHead(w: World, v: Expr, row: Rec, more: seq<Rec>, first: Frame, rest: seq<Frame>, env: Env, a: Value, k: int)
    requires |more| == |rest|
    ensures Pick([row] + more, HitsAt(w, v, a, [first] + rest, env, k))
         == (if Hit(ValueAt(w, v, first, env), a, k) then [row] else []) + Pick(more, HitsAt(w, v, a, rest, env, k))
  {
    HitsHead(w, v, a, first, rest, env, k);
    PickCons(row, more, Hit(ValueAt(w, v, first, env), a, k), HitsAt(w, v, a, rest, env, k));
  }

  lemma HitsHead(w: World, v: Expr, a: Value, first: Frame, rest: seq<Frame>, env: Env, k: int)
    ensures HitsAt(w, v, a, [first] + rest, env, k) == [Hit(ValueAt(w, v, first, env), a, k)] + HitsAt(w, v, a, rest, env, k)
  {
  }

  lemma PickCons(row: Rec, more: seq<Rec>, hit: bool, hits: seq<bool>)
    requires |more| == |hits|
    ensures Pick([row] + more, [hit] + hits) == (if hit then [row] else []) + Pick(more, hits)
  {
    assert ([row] + more)[1..] == more && ([hit] + hits)[1..] == hits;
  }

  // --- counting ------------------------------------------------------------------------------

  function Copies(r: Rec, n: nat): multiset<Rec> {
    if n == 0 then multiset{} else multiset{r} + Copies(r, n - 1)
  }

  /** Each row as often as its count says. */
  function Weighted(rows: seq<Rec>, counts: seq<nat>): multiset<Rec>
    requires |counts| == |rows|
  {
    if rows == [] then multiset{} else Copies(rows[0], counts[0]) + Weighted(rows[1..], counts[1..])
  }

  /** How many of the indexes from `lo` to `hi` hold the value. */
  function CountHits(v: Result<Value>, a: Value, lo: int, hi: int): nat
    decreases hi - lo
  {
    if lo > hi then 0 else (if Hit(v, a, lo) then 1 else 0) + CountHits(v, a, lo + 1, hi)
  }

  function Counts(w: World, v: Expr, a: Value, kept: seq<Frame>, env: Env, lo: int, hi: int): seq<nat> {
    seq(|kept|, j requires 0 <= j < |kept| => CountHits(ValueAt(w, v, kept[j], env), a, lo, hi))
  }

  lemma Regroup(a: multiset<Rec>, b: multiset<Rec>, c: multiset<Rec>, d: multiset<Rec>)
    ensures (a + b) + (c + d) == (a + c) + (b + d)
  {
  }

  lemma PickBag(rows: seq<Rec>, keep: seq<bool>)
    requires rows != [] && |keep| == |rows|
    ensures multiset(Pick(rows, keep)) == (if keep[0] then multiset{rows[0]} else multiset{}) + multiset(Pick(rows[1..], keep[1..]))
  {
  }

  lemma {:induction false} PickWeighted(rows: seq<Rec>, keep: seq<bool>, counts: seq<nat>, more: seq<nat>)
    requires |keep| == |rows| == |counts| == |more|
    requires forall j :: 0 <= j < |rows| ==> more[j] == (if keep[j] then 1 else 0) + counts[j]
    ensures multiset(Pick(rows, keep)) + Weighted(rows, counts) == Weighted(rows, more)
  {
    if rows != [] {
      PickWeighted(rows[1..], keep[1..], counts[1..], more[1..]);
      var first := if keep[0] then multiset{rows[0]} else multiset{};
      PickBag(rows, keep);
      Regroup(first, multiset(Pick(rows[1..], keep[1..])), Copies(rows[0], counts[0]), Weighted(rows[1..], counts[1..]));
      assert first + Copies(rows[0], counts[0]) == Copies(rows[0], more[0]);
    }
  }

  lemma {:induction false} NoCounts(rows: seq<Rec>, counts: seq<nat>)
    requires |counts| == |rows| && forall j :: 0 <= j < |rows| ==> counts[j] == 0
    ensures Weighted(rows, counts) == multiset{}
  {
    if rows != [] {
      NoCounts(rows[1..], counts[1..]);
    }
  }

  lemma RowBag(rows: seq<Rec>)
    requires rows != []
    ensures multiset(rows) == multiset{rows[0]} + multiset(rows[1..])
  {
    assert rows == [rows[0]] + rows[1..];
  }

  lemma {:induction false} WeightedAtLeast(rows: seq<Rec>, counts: seq<nat>)
    requires |counts| == |rows| && forall j :: 0 <= j < |rows| ==> counts[j] >= 1
    ensures multiset(rows) <= Weighted(rows, counts)
  {
    if rows != [] {
      WeightedAtLeast(rows[1..], counts[1..]);
      CopiesOf(rows[0], counts[0]);
      RowBag(rows);
    }
  }

  lemma {:induction false} WeightedOnly(rows: seq<Rec>, counts: seq<nat>, x: Rec)
    requires |counts| == |rows| && x in Weighted(rows, counts)
    ensures x in rows
  {
    CopiesOf(rows[0], counts[0]);
    if x != rows[0] {
      WeightedOnly(rows[1..], counts[1..], x);
    }
  }

  lemma {:induction false} WeightedOnce(rows: seq<Rec>, counts: seq<nat>)
    requires |counts| == |rows| && forall j :: 0 <= j < |rows| ==> counts[j] == 1
    ensures Weighted(rows, counts) == multiset(rows)
  {
    if rows != [] {
      WeightedOnce(rows[1..], counts[1..]);
      RowBag(rows);
      assert Copies(rows[0], 1) == multiset{rows[0]} + Copies(rows[0], 0);
    }
  }

  lemma {:induction false} CopiesOf(r: Rec, n: nat)
    ensures forall x :: Copies(r, n)[x] == if x == r then n else 0
  {
    if n > 0 {
      CopiesOf(r, n - 1);
    }
  }

  lemma {:induction false} SomeHit(v: Result<Value>, a: Value, lo: int, hi: int, k: int)
    requires lo <= k <= hi && Hit(v, a, k)
    ensures CountHits(v, a, lo, hi) >= 1
    decreases hi - lo
  {
    if lo < k {
      SomeHit(v, a, lo + 1, hi, k);
    }
  }

  predicate DistinctElements(a: Value) {
    a.Array? ==> forall i, j :: 0 <= i < j < |a.elems| ==> a.elems[i] != a.elems[j]
  }

  lemma OneHit(v: Result<Value>, a: Value, i: int, j: int)
    requires DistinctElements(a) && Hit(v, a, i) && Hit(v, a, j)
    ensures i == j
  {
    EqTrueIsSame(v.value, Subscripted(a, Int(i)));
    EqTrueIsSame(v.value, Subscripted(a, Int(j)));
    assert a.Array? && 1 <= i <= |a.elems| && 1 <= j <= |a.elems|;
  }

  lemma {:induction false} NoMoreHits(v: Result<Value>, a: Value, lo: int, hi: int, k: int)
    requires DistinctElements(a) && Hit(v, a, k) && k < lo
    ensures CountHits(v, a, lo, hi) == 0
    decreases hi - lo
  {
    if lo <= hi {
      if Hit(v, a, lo) {
        OneHit(v, a, k, lo);
      }
      NoMoreHits(v, a, lo + 1, hi, k);
    }
  }

  lemma {:induction false} AtMostOneHit(v: Result<Value>, a: Value, lo: int, hi: int)
    requires DistinctElements(a)
    ensures CountHits(v, a, lo, hi) <= 1
    decreases hi - lo
  {
    if lo <= hi {
      if Hit(v, a, lo) {
        NoMoreHits(v, a, lo + 1, hi, lo);
      }
      AtMostOneHit(v, a, lo + 1, hi);
    }
  }

  // --- one outer row, all indexes ------------------------------------------------------------

  /** The parts of the SELECT around the series. */
  datatype Walk = Walk(it: FromItem, rest: seq<FromItem>, cond: Expr, items: seq<Item>)

  function Name(k: Walk): string
    requires k.it.factor.Series?
  {
    k.it.factor.given
  }

  /** Nothing after the series names it, hides it or hides the array. */
  predicate Separate(k: Walk) {
    && IndexedArray(k.it.factor).Some?
    && var s, arr := k.it.factor.given, IndexedArray(k.it.factor).value;
       && OneWalk(k.cond, s, arr) && NoWildcard(k.items)
       && Avoid(FreeItems(k.items), {s}) && Avoid(AllUses(k.rest), {s})
       && s !in Names(k.rest) && Without(FreeE(arr), Names(k.rest)) == FreeE(arr)
  }

  function Refs(k: Walk): set<Ref> {
    FreeE(k.cond) + FreeItems(k.items) + AllUses(k.rest)
  }

  function Arr(k: Walk): Expr
    requires Separate(k)
  {
    IndexedArray(k.it.factor).value
  }

  function Test(k: Walk): Expr
    requires Separate(k)
  {
    AnyForm(k.cond, k.it.factor.given, Arr(k))
  }

  function SoughtIn(k: Walk): Expr
    requires Separate(k)
  {
    Sought(k.cond, k.it.factor.given, Arr(k))
  }

  lemma StartsAlike(k: Walk, f: Frame, env: Env, i: int)
    requires Separate(k)
    ensures var s := k.it.factor.given;
      SameView(map[], Without(Refs(k), {s}), Push(env, f + [Bound(s, [Cell(s, Int(i))])]), Push(env, f))
      && Look(Push(env, f + [Bound(s, [Cell(s, Int(i))])]), s, s) == Ok(Int(i))
  {
    var s := k.it.factor.given;
    PushOne(env, f, Bound(s, [Cell(s, Int(i))]));
  }

  lemma GrownFrom(w: World, rest: seq<FromItem>, g: Frame, env: Env)
    requires JoinRest(w, rest, [g], env).Ok?
    ensures forall x :: x in JoinRest(w, rest, [g], env).value ==> Grown(g, rest, x)
  {
    assert Grown(g, [], g) && [] + rest == rest;
    JoinRestGrown(w, rest, g, [], [g], env);
  }

  lemma StartsViews(w: World, k: Walk, f: Frame, env: Env, i: int)
    requires Separate(k)
    ensures var s := k.it.factor.given;
      ViewsOk(Without(Refs(k), {s}), env, JoinRest(w, k.rest, [f + [Bound(s, [Cell(s, Int(i))])]], env), JoinRest(w, k.rest, [f], env))
  {
    var s := k.it.factor.given;
    StartsAlike(k, f, env, i);
    assert AllUses(k.rest) <= Without(Refs(k), {s});
    JoinRestViews(w, Without(Refs(k), {s}), k.rest, [f + [Bound(s, [Cell(s, Int(i))])]], [f], env);
  }

  lemma RowsTwins(w: World, k: Walk, f: Frame, env: Env, a: Value, i: int)
    requires Separate(k) && ValueAt(w, Arr(k), f, env) == Ok(a)
    requires JoinRest(w, k.rest, [f + [Bound(k.it.factor.given, [Cell(k.it.factor.given, Int(i))])]], env).Ok?
    ensures var s := k.it.factor.given;
      var xs := JoinRest(w, k.rest, [f + [Bound(s, [Cell(s, Int(i))])]], env);
      var ys := JoinRest(w, k.rest, [f], env);
      && ys.Ok? && |xs.value| == |ys.value|
      && forall j :: 0 <= j < |xs.value| ==> Twins(w, s, Arr(k), Refs(k), env, xs.value[j], ys.value[j], a, i)
  {
    var s := k.it.factor.given;
    var g := f + [Bound(s, [Cell(s, Int(i))])];
    StartsViews(w, k, f, env, i);
    GrownFrom(w, k.rest, g, env);
    GrownFrom(w, k.rest, f, env);
    var xs, ys := JoinRest(w, k.rest, [g], env).value, JoinRest(w, k.rest, [f], env).value;
    forall j | 0 <= j < |xs| ensures Twins(w, s, Arr(k), Refs(k), env, xs[j], ys[j], a, i) {
      assert xs[j] in xs && ys[j] in ys;
      TwinRow(w, k, f, env, a, i, xs[j], ys[j]);
    }
  }

  lemma {:induction false} TwinRow(w: World, k: Walk, f: Frame, env: Env, a: Value, i: int, x: Frame, y: Frame)
    requires Separate(k) && ValueAt(w, Arr(k), f, env) == Ok(a)
    requires var s := k.it.factor.given;
      && Grown(f + [Bound(s, [Cell(s, Int(i))])], k.rest, x) && Grown(f, k.rest, y)
      && SameView(map[], Without(Refs(k), {s}), Push(env, x), Push(env, y))
    ensures Twins(w, k.it.factor.given, Arr(k), Refs(k), env, x, y, a, i)
  {
    var s := k.it.factor.given;
    var g := f + [Bound(s, [Cell(s, Int(i))])];
    StartsAlike(k, f, env, i);
    GrownFinds({Whole(s)}, env, g, k.rest, x);
    assert Found(map[], Push(env, x), Whole(s)) == Found(map[], Push(env, g), Whole(s));
    GrownFinds(FreeE(Arr(k)), env, f, k.rest, y);
    Coincide(w, w, Arr(k), Scope(Push(env, f), None), Scope(Push(env, y), None));
  }

  /** The rows of all indexes from `lo` on: each row of the membership test as often as an index in
      that range hits. */
  lemma {:induction false} IndexRows(w: World, k: Walk, f: Frame, env: Env, a: Value, lo: int, hi: int)
    requires Separate(k) && ValueAt(w, Arr(k), f, env) == Ok(a) && (a.Array? || a.Null?)
    requires JoinRest(w, k.rest, Indexed(f, k.it.factor.given, lo, hi), env).Ok? && JoinRest(w, k.rest, [f], env).Ok?
    requires RowsOf(w, k.cond, k.items, JoinRest(w, k.rest, Indexed(f, k.it.factor.given, lo, hi), env).value, env).Ok?
    requires RowsOf(w, Test(k), k.items, JoinRest(w, k.rest, [f], env).value, env).Ok?
    ensures var ys := JoinRest(w, k.rest, [f], env).value;
      var kept, rows := Filter(w, Test(k), ys, env), RowsOf(w, Test(k), k.items, ys, env).value;
      && kept.Ok? && |rows| == |kept.value|
      && multiset(RowsOf(w, k.cond, k.items, JoinRest(w, k.rest, Indexed(f, k.it.factor.given, lo, hi), env).value, env).value)
         == Weighted(rows, Counts(w, SoughtIn(k), a, kept.value, env, lo, hi))
    decreases hi - lo
  {
    var s := k.it.factor.given;
    var ys := JoinRest(w, k.rest, [f], env).value;
    var kept := Filter(w, Test(k), ys, env).value;
    var rows := RowsOf(w, Test(k), k.items, ys, env).value;
    RowsLength(w, k.items, kept, env);
    if lo > hi {
      NothingIndexed(w, k.rest, k.cond, k.items, env);
      NoCounts(rows, Counts(w, SoughtIn(k), a, kept, env, lo, hi));
    } else {
      var g := f + [Bound(s, [Cell(s, Int(lo))])];
      JoinRestAppend(w, k.rest, [g], Indexed(f, s, lo + 1, hi), env);
      var xs, more := JoinRest(w, k.rest, [g], env).value, JoinRest(w, k.rest, Indexed(f, s, lo + 1, hi), env).value;
      RowsAppend(w, k.cond, k.items, xs, more, env);
      IndexRows(w, k, f, env, a, lo + 1, hi);
      RowsTwins(w, k, f, env, a, lo);
      PickRows(w, k.cond, s, Arr(k), k.items, Refs(k), xs, ys, env, a, lo);
      PickWeighted(rows, HitsAt(w, SoughtIn(k), a, kept, env, lo), Counts(w, SoughtIn(k), a, kept, env, lo + 1, hi),
                   Counts(w, SoughtIn(k), a, kept, env, lo, hi));
    }
  }

  lemma {:induction false} NothingIndexed(w: World, rest: seq<FromItem>, cond: Expr, items: seq<Item>, env: Env)
    ensures JoinRest(w, rest, [], env) == Ok([]) && RowsOf(w, cond, items, [], env) == Ok([])
    decreases |rest|
  {
    if rest != [] {
      NothingIndexed(w, rest[1..], cond, items, env);
    }
  }

  lemma {:induction false} KeptHolds(w: World, cond: Expr, frames: seq<Frame>, env: Env, g: Frame)
    requires Filter(w, cond, frames, env).Ok? && g in Filter(w, cond, frames, env).value
    ensures g in frames && EvalCond(w, cond, Scope(Push(env, g), None)) == Ok(true)
    decreases |frames|
  {
    if g in Filter(w, cond, frames[1..], env).value {
      KeptHolds(w, cond, frames[1..], env, g);
    }
  }

  predicate SomeIndexHits(v: Result<Value>, a: Value) {
    a.Array? && exists i :: 1 <= i <= |a.elems| && Hit(v, a, i)
  }

  /** The membership test holds only where an index of the array holds the value. */
  lemma {:induction false} TestHits(w: World, cond: Expr, s: string, arr: Expr, sc: Scope, a: Value)
    requires OneWalk(cond, s, arr) && EvalCond(w, AnyForm(cond, s, arr), sc) == Ok(true) && EvalE(w, arr, sc) == Ok(a)
    ensures SomeIndexHits(EvalE(w, Sought(cond, s, arr), sc), a)
    decreases cond
  {
    match cond
    case And(l, r) => if OneWalk(l, s, arr) { TestHits(w, l, s, arr, sc, a); } else { TestHits(w, r, s, arr, sc, a); }
    case Nested(x) => TestHits(w, x, s, arr, sc, a);
    case Cmp(_, _, _) =>
      var v := Compared(cond, s).value;
      PlainCond(w, AnyOf(v, arr), sc);
      AnyHits(w, v, arr, EvalE(w, v, sc).value, a, sc);
      var i :| 1 <= i <= |a.elems| && IsTrue(EqV(EvalE(w, v, sc).value, Subscripted(a, Int(i))));
      assert Hit(EvalE(w, v, sc), a, i);
  }

  lemma KeptRowHits(w: World, k: Walk, f: Frame, env: Env, a: Value, g: Frame)
    requires Separate(k) && ValueAt(w, Arr(k), f, env) == Ok(a) && JoinRest(w, k.rest, [f], env).Ok?
    requires Filter(w, Test(k), JoinRest(w, k.rest, [f], env).value, env).Ok?
    requires g in Filter(w, Test(k), JoinRest(w, k.rest, [f], env).value, env).value
    ensures SomeIndexHits(ValueAt(w, SoughtIn(k), g, env), a)
  {
    KeptHolds(w, Test(k), JoinRest(w, k.rest, [f], env).value, env, g);
    assert Grown(f, [], f) && [] + k.rest == k.rest;
    JoinRestGrown(w, k.rest, f, [], [f], env);
    GrownFinds(FreeE(Arr(k)), env, f, k.rest, g);
    Coincide(w, w, Arr(k), Scope(Push(env, f), None), Scope(Push(env, g), None));
    TestHits(w, k.cond, k.it.factor.given, Arr(k), Scope(Push(env, g), None), a);
  }

  /** The same rows, at least as often; as often when this holds of the array. */
  ghost predicate SameRows(before: seq<Rec>, after: seq<Rec>, distinct: bool) {
    && (forall x :: x in before <==> x in after)
    && multiset(after) <= multiset(before)
    && (distinct ==> multiset(before) == multiset(after))
  }

  lemma WeightedSame(before: seq<Rec>, rows: seq<Rec>, counts: seq<nat>, distinct: bool)
    requires |counts| == |rows| && multiset(before) == Weighted(rows, counts)
    requires forall j :: 0 <= j < |rows| ==> counts[j] >= 1 && (distinct ==> counts[j] <= 1)
    ensures SameRows(before, rows, distinct)
  {
    WeightedAtLeast(rows, counts);
    forall x ensures x in before <==> x in rows {
      if x in before {
        assert x in multiset(before);
        WeightedOnly(rows, counts, x);
      }
      if x in rows {
        assert x in multiset(rows) && multiset(rows)[x] <= multiset(before)[x];
      }
    }
    if distinct {
      WeightedOnce(rows, counts);
    }
  }

  function WalkedRows(w: World, k: Walk, outer: seq<Frame>, env: Env): Result<seq<Rec>> {
    var starts :- JoinAll(w, k.it, outer, env);
    var frames :- JoinRest(w, k.rest, starts, env);
    RowsOf(w, k.cond, k.items, frames, env)
  }

  function TestedRows(w: World, k: Walk, outer: seq<Frame>, env: Env): Result<seq<Rec>>
    requires Separate(k)
  {
    var frames :- JoinRest(w, k.rest, outer, env);
    RowsOf(w, Test(k), k.items, frames, env)
  }

  lemma OneOuterRow(w: World, k: Walk, f: Frame, env: Env)
    requires Separate(k) && ArrayFunctions(w, k.it.factor) && Walks(w, k.it, f, env)
    requires WalkedRows(w, k, [f], env).Ok? && TestedRows(w, k, [f], env).Ok?
    ensures SameRows(WalkedRows(w, k, [f], env).value, TestedRows(w, k, [f], env).value,
                     DistinctElements(ValueAt(w, Arr(k), f, env).value))
  {
    var a, lo := ValueAt(w, Arr(k), f, env).value, EvalE(w, k.it.factor.lo, Scope(Push(env, f), None)).value.i;
    var ys := JoinRest(w, k.rest, [f], env).value;
    var kept, rows := Filter(w, Test(k), ys, env).value, RowsOf(w, Test(k), k.items, ys, env).value;
    RowsLength(w, k.items, kept, env);
    SeriesRows(w, k.it, f, env);
    OneStart(w, k.it, f, env);
    if UpperBound(a).Int? {
      IndexRows(w, k, f, env, a, lo, Last(a));
      var counts := Counts(w, SoughtIn(k), a, kept, env, lo, Last(a));
      forall j | 0 <= j < |kept| ensures counts[j] >= 1 && (DistinctElements(a) ==> counts[j] <= 1) {
        KeptRowHits(w, k, f, env, a, kept[j]);
        var i :| 1 <= i <= |a.elems| && Hit(ValueAt(w, SoughtIn(k), kept[j], env), a, i);
        SomeHit(ValueAt(w, SoughtIn(k), kept[j], env), a, lo, Last(a), i);
        if DistinctElements(a) {
          AtMostOneHit(ValueAt(w, SoughtIn(k), kept[j], env), a, lo, Last(a));
        }
      }
      WeightedSame(WalkedRows(w, k, [f], env).value, rows, counts, DistinctElements(a));
    } else {
      NothingIndexed(w, k.rest, k.cond, k.items, env);
      if kept != [] {
        KeptRowHits(w, k, f, env, a, kept[0]);
      }
    }
  }

  lemma OneStart(w: World, it: FromItem, f: Frame, env: Env)
    ensures JoinAll(w, it, [f], env) == JoinOne(w, it, f, env)
  {
    assert [f][1..] == [] && JoinAll(w, it, [], env) == Ok([]);
    var here := JoinOne(w, it, f, env);
    if here.Ok? {
      assert here.value + [] == here.value;
    }
  }

  // --- every outer row -----------------------------------------------------------------------

  ghost predicate AllWalk(w: World, k: Walk, outer: seq<Frame>, env: Env) {
    forall f :: f in outer ==> Walks(w, k.it, f, env)
  }

  /** Every array walked holds each of its values once. */
  ghost predicate AllDistinct(w: World, k: Walk, outer: seq<Frame>, env: Env)
    requires Separate(k)
  {
    forall f :: f in outer && ValueAt(w, Arr(k), f, env).Ok? ==> DistinctElements(ValueAt(w, Arr(k), f, env).value)
  }

  lemma WalkedSplits(w: World, k: Walk, a: seq<Frame>, b: seq<Frame>, env: Env)
    ensures WalkedRows(w, k, a + b, env)
         == if WalkedRows(w, k, a, env).Ok? && WalkedRows(w, k, b, env).Ok?
            then Ok(WalkedRows(w, k, a, env).value + WalkedRows(w, k, b, env).value) else Error
  {
    JoinAllAppend(w, k.it, a, b, env);
    var x, y := JoinAll(w, k.it, a, env), JoinAll(w, k.it, b, env);
    if x.Ok? && y.Ok? {
      JoinRestAppend(w, k.rest, x.value, y.value, env);
      var u, v := JoinRest(w, k.rest, x.value, env), JoinRest(w, k.rest, y.value, env);
      if u.Ok? && v.Ok? {
        RowsAppend(w, k.cond, k.items, u.value, v.value, env);
      }
    }
  }

  lemma TestedSplits(w: World, k: Walk, a: seq<Frame>, b: seq<Frame>, env: Env)
    requires Separate(k)
    ensures TestedRows(w, k, a + b, env)
         == if TestedRows(w, k, a, env).Ok? && TestedRows(w, k, b, env).Ok?
            then Ok(TestedRows(w, k, a, env).value + TestedRows(w, k, b, env).value) else Error
  {
    JoinRestAppend(w, k.rest, a, b, env);
    var u, v := JoinRest(w, k.rest, a, env), JoinRest(w, k.rest, b, env);
    if u.Ok? && v.Ok? {
      RowsAppend(w, Test(k), k.items, u.value, v.value, env);
    }
  }

  lemma SameRowsAppend(b1: seq<Rec>, a1: seq<Rec>, d1: bool, b2: seq<Rec>, a2: seq<Rec>, d2: bool)
    requires SameRows(b1, a1, d1) && SameRows(b2, a2, d2)
    ensures SameRows(b1 + b2, a1 + a2, d1 && d2)
  {
    forall x ensures x in b1 + b2 <==> x in a1 + a2 {
      assert x in b1 <==> x in a1;
      assert x in b2 <==> x in a2;
    }
  }

  lemma {:induction false} OuterRows(w: World, k: Walk, outer: seq<Frame>, env: Env)
    requires Separate(k) && ArrayFunctions(w, k.it.factor) && AllWalk(w, k, outer, env)
    requires WalkedRows(w, k, outer, env).Ok? && TestedRows(w, k, outer, env).Ok?
    ensures SameRows(WalkedRows(w, k, outer, env).value, TestedRows(w, k, outer, env).value, AllDistinct(w, k, outer, env))
    decreases |outer|
  {
    if outer == [] {
      NothingIndexed(w, k.rest, k.cond, k.items, env);
      NothingIndexed(w, k.rest, Test(k), k.items, env);
    } else {
      var f, more := outer[0], outer[1..];
      assert outer == [f] + more;
      WalkedSplits(w, k, [f], more, env);
      TestedSplits(w, k, [f], more, env);
      OneOuterRow(w, k, f, env);
      OuterRows(w, k, more, env);
      var d1, d2 := DistinctElements(ValueAt(w, Arr(k), f, env).value), AllDistinct(w, k, more, env);
      SameRowsAppend(WalkedRows(w, k, [f], env).value, TestedRows(w, k, [f], env).value, d1,
                     WalkedRows(w, k, more, env).value, TestedRows(w, k, more, env).value, d2);
      assert AllDistinct(w, k, outer, env) ==> d1 && d2;
    }
  }

  // --- the SELECT ----------------------------------------------------------------------------

  /** What the pass does not look at: the comparison subscripts the array that bounds the series and
      stands in a conjunction; later items hide neither the series nor the array. */
  predicate Walkable(b: Body, p: nat) {
    && b.Select? && p < |b.from| && IndexedArray(b.from[p].factor).Some? && b.selection.Some?
    && var s, arr := b.from[p].factor.given, IndexedArray(b.from[p].factor).value;
       && OneWalk(b.selection.value, s, arr)
       && s !in Names(b.from[p + 1..]) && Without(FreeE(arr), Names(b.from[p + 1..])) == FreeE(arr)
  }

  /** A SELECT that lists plain columns of its rows; see `ArrayAggregates` for the others. */
  predicate Iterable(b: Body, p: nat) {
    Walkable(b, p) && !Aggregated(b) && !b.distinct && NoWildcard(b.proj)
  }

  function WalkOf(b: Body, p: nat): Walk
    requires Walkable(b, p)
  {
    Walk(b.from[p], b.from[p + 1..], b.selection.value, b.proj)
  }

  /** The pass's own last check gives the rest: nothing else names the series. */
  lemma CheckSeparates(b: Body, p: nat)
    requires Iterable(b, p) && AllB(Silent({b.from[p].factor.given}), Candidate(b, p))
    ensures Separate(WalkOf(b, p))
    ensures Candidate(b, p) == b.(from := b.from[..p] + b.from[p + 1..], selection := Some(Test(WalkOf(b, p))))
  {
    var s, c := b.from[p].factor.given, Candidate(b, p);
    Replaced(b.selection.value, s, IndexedArray(b.from[p].factor).value, 0);
    assert AllItems(Silent({s}), c.proj) && AllFrom(Silent({s}), c.from);
    SaidItems(Outside({s}), c.proj);
    EachItem(Silent({s}), c.from);
    var rest := b.from[p + 1..];
    forall i | 0 <= i < |rest| ensures AllFromItem(Silent({s}), rest[i]) {
      assert c.from[p + i] == rest[i];
    }
    SilentUses({s}, rest);
  }

  lemma SelectRows(w: World, b: Body, frames: seq<Frame>, env: Env)
    requires b.Select? && b.selection.Some? && !Aggregated(b) && !b.distinct && EvalFrom(w, b.from, env) == Ok(frames)
    ensures EvalB(w, b, env) == RowsOf(w, b.selection.value, b.proj, frames, env)
  {
    PlainSelect(w, b, env);
    SourceOf(w, b, frames, env);
  }

  lemma BodyWalked(w: World, b: Body, p: nat, env: Env)
    requires Iterable(b, p) && EvalB(w, b, env).Ok?
    ensures EvalFrom(w, b.from[..p], env).Ok?
    ensures EvalB(w, b, env) == WalkedRows(w, WalkOf(b, p), EvalFrom(w, b.from[..p], env).value, env)
  {
    var it, before, rest := b.from[p], b.from[..p], b.from[p + 1..];
    assert b.from == before + ([it] + rest);
    FromSplits(w, before, [it] + rest, env);
    PlainSelect(w, b, env);
    assert EvalFrom(w, b.from, env).Ok?;
    SelectRows(w, b, EvalFrom(w, b.from, env).value, env);
    assert ([it] + rest)[0] == it && ([it] + rest)[1..] == rest;
  }

  lemma BodyTested(w: World, b: Body, p: nat, env: Env)
    requires Iterable(b, p) && Separate(WalkOf(b, p))
    requires var c := b.(from := b.from[..p] + b.from[p + 1..], selection := Some(Test(WalkOf(b, p)))); EvalB(w, c, env).Ok?
    ensures EvalFrom(w, b.from[..p], env).Ok?
    ensures var c := b.(from := b.from[..p] + b.from[p + 1..], selection := Some(Test(WalkOf(b, p))));
      EvalB(w, c, env) == TestedRows(w, WalkOf(b, p), EvalFrom(w, b.from[..p], env).value, env)
  {
    var c := b.(from := b.from[..p] + b.from[p + 1..], selection := Some(Test(WalkOf(b, p))));
    FromSplits(w, b.from[..p], b.from[p + 1..], env);
    PlainSelect(w, c, env);
    assert EvalFrom(w, c.from, env).Ok?;
    SelectRows(w, c, EvalFrom(w, c.from, env).value, env);
  }

  /** The rewritten SELECT returns the same rows, each at most as often as the original - once for
      every index holding the value - and exactly as often when no array repeats a value. */
  lemma CandidateKeepsRows(w: World, b: Body, p: nat, env: Env)
    requires Iterable(b, p) && AllB(Silent({b.from[p].factor.given}), Candidate(b, p)) && ArrayFunctions(w, b.from[p].factor)
    requires EvalB(w, b, env).Ok? && EvalB(w, Candidate(b, p), env).Ok?
    requires EvalFrom(w, b.from[..p], env).Ok? ==> AllWalk(w, WalkOf(b, p), EvalFrom(w, b.from[..p], env).value, env)
    ensures Separate(WalkOf(b, p)) && EvalFrom(w, b.from[..p], env).Ok?
    ensures SameRows(EvalB(w, b, env).value, EvalB(w, Candidate(b, p), env).value,
                     AllDistinct(w, WalkOf(b, p), EvalFrom(w, b.from[..p], env).value, env))
  {
    CheckSeparates(b, p);
    BodyWalked(w, b, p, env);
    BodyTested(w, b, p, env);
    OuterRows(w, WalkOf(b, p), EvalFrom(w, b.from[..p], env).value, env);
  }

  /** The pass has changed this SELECT, at the series in place `p`. */
  predicate Changed(b: Body, p: nat) {
    b.Select? && IndexToAny(b) != b && FirstSeries(b.from, 0) == Some(p)
  }

  /** What the pass has checked when it changes a SELECT. */
  lemma PassRewrites(b: Body, p: nat)
    requires Changed(b, p)
    ensures p < |b.from| && IndexedArray(b.from[p].factor).Some? && b.selection.Some? && IndexToAny(b) == Candidate(b, p)
    ensures AllB(Silent({b.from[p].factor.given}), Candidate(b, p))
  {
  }

  /** Main theorem: whenever the pass changes a SELECT of this kind, the rewritten one has the same
      set of rows, none oftener than before, and the same bag when no array repeats an element. */
  lemma IndexToAnyKeepsRows(w: World, b: Body, p: nat, env: Env)
    requires Changed(b, p) && Iterable(b, p) && ArrayFunctions(w, b.from[p].factor)
    requires EvalB(w, b, env).Ok? && EvalB(w, IndexToAny(b), env).Ok?
    requires EvalFrom(w, b.from[..p], env).Ok? ==> AllWalk(w, WalkOf(b, p), EvalFrom(w, b.from[..p], env).value, env)
    ensures Separate(WalkOf(b, p)) && EvalFrom(w, b.from[..p], env).Ok?
    ensures SameRows(EvalB(w, b, env).value, EvalB(w, IndexToAny(b), env).value,
                     AllDistinct(w, WalkOf(b, p), EvalFrom(w, b.from[..p], env).value, env))
  {
    PassRewrites(b, p);
    CandidateKeepsRows(w, b, p, env);
  }

  /** So EXISTS over it keeps its truth, and a scalar subquery its value whenever the original had
      one: neither asks that the arrays repeat nothing. */
  lemma IndexToAnyKeepsScalar(w: World, b: Body, p: nat, site: nat, s: Scope)
    requires Changed(b, p) && Iterable(b, p) && ArrayFunctions(w, b.from[p].factor)
    requires EvalB(w, b, s.env).Ok? && EvalB(w, IndexToAny(b), s.env).Ok?
    requires EvalFrom(w, b.from[..p], s.env).Ok? ==> AllWalk(w, WalkOf(b, p), EvalFrom(w, b.from[..p], s.env).value, s.env)
    ensures var before, after := Query(b, None, 0, site), Query(IndexToAny(b), None, 0, site);
      && EvalE(w, Exists(after, false), s) == EvalE(w, Exists(before, false), s)
      && (EvalE(w, Scalar(before), s).Ok? ==> EvalE(w, Scalar(after), s) == EvalE(w, Scalar(before), s))
  {
    IndexToAnyKeepsRows(w, b, p, s.env);
    var distinct := AllDistinct(w, WalkOf(b, p), EvalFrom(w, b.from[..p], s.env).value, s.env);
    SameAnswers(w, b, IndexToAny(b), site, s, distinct);
  }

  lemma SameAnswers(w: World, b: Body, c: Body, site: nat, s: Scope, distinct: bool)
    requires EvalB(w, b, s.env).Ok? && EvalB(w, c, s.env).Ok?
    requires SameRows(EvalB(w, b, s.env).value, EvalB(w, c, s.env).value, distinct)
    ensures var before, after := Query(b, None, 0, site), Query(c, None, 0, site);
      && EvalE(w, Exists(after, false), s) == EvalE(w, Exists(before, false), s)
      && (EvalE(w, Scalar(before), s).Ok? ==> EvalE(w, Scalar(after), s) == EvalE(w, Scalar(before), s))
  {
    var rows, kept := EvalB(w, b, s.env).value, EvalB(w, c, s.env).value;
    FewRows(rows, kept, distinct);
    assert EvalQ(w, Query(b, None, 0, site), s.env) == Ok(rows);
    assert EvalQ(w, Query(c, None, 0, site), s.env) == Ok(kept);
  }

  lemma FewRows(rows: seq<Rec>, kept: seq<Rec>, distinct: bool)
    requires SameRows(rows, kept, distinct)
    ensures (rows == []) == (kept == [])
    ensures |rows| <= 1 ==> kept == rows
  {
    var more := multiset(rows) - multiset(kept);
    assert multiset(rows) == multiset(kept) + more;
    assert |multiset(rows)| == |multiset(kept)| + |more|;
    if rows != [] {
      assert rows[0] in rows;
      assert rows[0] in kept;
    }
    if |rows| == 1 {
      assert kept[0] in kept;
      assert kept[0] in rows;
    }
  }
}
