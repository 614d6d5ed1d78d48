/** Row constructors: a multi-column IN becomes EXISTS, and a row equality a conjunction. */
module TupleRewrites {
  import opened Wrappers
  import opened SqlValues
  import opened SqlAst
  import opened SqlEval
  import opened SqlVisit
  import opened SqlCarry
  import opened SqlCongruence
  import opened SqlScope
  import opened SqlMentions

  lemma {:induction false} EqSymmetric(a: Value, b: Value)
    ensures EqV(a, b) == EqV(b, a)
    decreases a
  {
    if a.Composite? && b.Composite? && |a.cells| == |b.cells| {
      EqAllSymmetric(a.cells, b.cells);
    }
  }

  lemma {:induction false} EqAllSymmetric(xs: seq<Value>, ys: seq<Value>)
    requires |xs| == |ys|
    ensures EqAll(xs, ys) == EqAll(ys, xs)
    decreases xs
  {
    if xs != [] {
      EqSymmetric(xs[0], ys[0]);
      EqAllSymmetric(xs[1..], ys[1..]);
    }
  }

  // --- (a, b, ...) = (c, d, ...) -------------------------------------------------------------

  /** `acc AND l[0] = r[0] AND l[1] = r[1] ...`, associated to the left. */
  function Conjoined(acc: Expr, ls: seq<Expr>, rs: seq<Expr>): Expr
    requires |ls| == |rs|
    decreases |ls|
  {
    if ls == [] then acc else Conjoined(And(acc, Cmp(Eq, ls[0], rs[0])), ls[1..], rs[1..])
  }

  /** The loop both passes build their conjunction with. */
  method Conjoin(start: Option<Expr>, ls: seq<Expr>, rs: seq<Expr>) returns (cond: Option<Expr>)
    requires |ls| == |rs|
    ensures cond == WithEqualities(start, ls, rs)
  {
    cond := start;
    var i := 0;
    while i < |ls|
      invariant 0 <= i <= |ls|
      invariant WithEqualities(cond, ls[i..], rs[i..]) == WithEqualities(start, ls, rs)
    {
      assert ls[i..][1..] == ls[i + 1..] && rs[i..][1..] == rs[i + 1..];
      var equality := Cmp(Eq, ls[i], rs[i]);
      cond := Some(if cond.Some? then And(cond.value, equality) else equality);
      i := i + 1;
    }
  }

  function WithEqualities(start: Option<Expr>, ls: seq<Expr>, rs: seq<Expr>): Option<Expr>
    requires |ls| == |rs|
  {
    match start
    case Some(e) => Some(Conjoined(e, ls, rs))
    case None => if ls == [] then None else Some(Conjoined(Cmp(Eq, ls[0], rs[0]), ls[1..], rs[1..]))
  }

  predicate RowEquality(e: Expr) {
    e.Cmp? && e.op == Eq && e.left.Tuple? && e.right.Tuple?
    && |e.left.elems| == |e.right.elems| && e.left.elems != []
  }

  function TupleEquality(e: Expr, k: nat): (Expr, nat) {
    if RowEquality(e) then (WithEqualities(None, e.left.elems, e.right.elems).value, k) else (e, k)
  }

  lemma {:induction false} ConjoinedValue(w: World, acc: Expr, ls: seq<Expr>, rs: seq<Expr>, s: Scope)
    requires |ls| == |rs| && EvalE(w, acc, s).Ok?
    requires EvalEs(w, ls, s).Ok? && EvalEs(w, rs, s).Ok?
    ensures |EvalEs(w, ls, s).value| == |EvalEs(w, rs, s).value|
    ensures EvalE(w, Conjoined(acc, ls, rs), s)
         == Ok(AndV(EvalE(w, acc, s).value, EqAll(EvalEs(w, ls, s).value, EvalEs(w, rs, s).value)))
         || (ls == [] && EvalE(w, Conjoined(acc, ls, rs), s) == EvalE(w, acc, s))
    decreases |ls|
  {
    if ls != [] {
      var acc' := And(acc, Cmp(Eq, ls[0], rs[0]));
      var x, y := EvalE(w, ls[0], s).value, EvalE(w, rs[0], s).value;
      var xs, ys := EvalEs(w, ls[1..], s).value, EvalEs(w, rs[1..], s).value;
      assert EvalE(w, Cmp(Eq, ls[0], rs[0]), s) == Ok(EqV(x, y));
      assert EvalE(w, acc', s) == Ok(AndV(EvalE(w, acc, s).value, EqV(x, y)));
      ConjoinedValue(w, acc', ls[1..], rs[1..], s);
      assert EvalEs(w, ls, s).value == [x] + xs && EvalEs(w, rs, s).value == [y] + ys;
      assert ([x] + xs)[1..] == xs && ([y] + ys)[1..] == ys;
      AndAssociates(EvalE(w, acc, s).value, EqV(x, y), EqAll(xs, ys));
    }
  }

  lemma {:induction false} ConjoinedAgg(acc: Expr, ls: seq<Expr>, rs: seq<Expr>)
    requires |ls| == |rs|
    ensures HasAgg(Conjoined(acc, ls, rs)) == (HasAgg(acc) || AnyHasAgg(ls) || AnyHasAgg(rs))
    ensures ls != [] || acc.Cmp? ==> OutName(Conjoined(acc, ls, rs)) == "?column?"
    decreases |ls|
  {
    if ls != [] {
      ConjoinedAgg(And(acc, Cmp(Eq, ls[0], rs[0])), ls[1..], rs[1..]);
    }
  }

  /** The conjunction has the row equality's value, NULLs included. */
  lemma TupleEqualityValue(w: World, e: Expr, s: Scope)
    requires RowEquality(e) && EvalE(w, e, s).Ok?
    ensures EvalE(w, TupleEquality(e, 0).0, s) == EvalE(w, e, s)
  {
    var ls, rs := e.left.elems, e.right.elems;
    assert EvalEs(w, ls, s).Ok? && EvalEs(w, rs, s).Ok?;
    var xs, ys := EvalEs(w, ls, s).value, EvalEs(w, rs, s).value;
    var first := Cmp(Eq, ls[0], rs[0]);
    var x, y := EvalE(w, ls[0], s).value, EvalE(w, rs[0], s).value;
    assert EvalE(w, first, s) == Ok(EqV(x, y));
    ConjoinedValue(w, first, ls[1..], rs[1..], s);
    assert xs == [x] + EvalEs(w, ls[1..], s).value && ys == [y] + EvalEs(w, rs[1..], s).value;
    assert xs[1..] == EvalEs(w, ls[1..], s).value && ys[1..] == EvalEs(w, rs[1..], s).value;
    assert EqV(Composite(xs), Composite(ys)) == AndV(EqV(x, y), EqAll(xs[1..], ys[1..]));
    assert ls[1..] == [] ==> xs[1..] == [] && EqAll(xs[1..], ys[1..]) == TRUE;
    assert TupleEquality(e, 0).0 == Conjoined(first, ls[1..], rs[1..]);
    assert EvalE(w, e.left, s) == Ok(Composite(xs)) && EvalE(w, e.right, s) == Ok(Composite(ys));
    EqIsLogical(x, y);
  }

  lemma {:induction false} EqIsLogical(a: Value, b: Value)
    ensures AndV(EqV(a, b), TRUE) == EqV(a, b)
  {
    if a.Composite? && b.Composite? && |a.cells| == |b.cells| && a.cells != [] {
      assert EqV(a, b) == AndV(EqV(a.cells[0], b.cells[0]), EqAll(a.cells[1..], b.cells[1..]));
    }
  }

  lemma TupleEqualityShape(kids: Expr)
    requires RowEquality(kids)
    ensures var done := TupleEquality(kids, 0).0;
            HasAgg(done) == HasAgg(kids) && OutName(done) == OutName(kids)
  {
    var ls, rs := kids.left.elems, kids.right.elems;
    ConjoinedAgg(Cmp(Eq, ls[0], rs[0]), ls[1..], rs[1..]);
    assert HasAgg(kids.left) == AnyHasAgg(ls) && HasAgg(kids.right) == AnyHasAgg(rs);
  }

  lemma TupleEqualityStep(w: World)
    ensures StepSound(w, TupleEquality, Always)
  {
    forall e: Expr, k: nat, p: Pos ensures StepShapeAt(TupleEquality, e, k, p) {
      var kids := VisitKids(TupleEquality, e, k).0;
      assert VisitE(TupleEquality, e, k).0 == TupleEquality(kids, 0).0;
      if RowEquality(kids) {
        TupleEqualityShape(kids);
      }
    }
    forall e: Expr, k: nat, p: Pos ensures StepSoundAt(w, TupleEquality, e, k, p) {
      var kids := VisitKids(TupleEquality, e, k).0;
      assert VisitE(TupleEquality, e, k).0 == TupleEquality(kids, 0).0;
      forall s: Scope ensures RefinesAt(w, p, kids, TupleEquality(kids, 0).0, s) {
        if RowEquality(kids) {
          TupleEqualityRefines(w, p, kids, s);
        }
      }
    }
  }

  lemma TupleEqualityRefines(w: World, p: Pos, e: Expr, s: Scope)
    requires RowEquality(e)
    ensures RefinesAt(w, p, e, TupleEquality(e, 0).0, s)
  {
    if EvalE(w, e, s).Ok? {
      TupleEqualityValue(w, e, s);
      CondOfValue(w, TupleEquality(e, 0).0, s);
    }
  }

  /** The whole pass, with no condition: every statement returns what it returned as written. */
  lemma TupleEqualityKeepsRows(w: World, q: Query, env: Env)
    ensures Refines(EvalQ(w, q, env), EvalQ(w, VisitQ(TupleEquality, q, 0).0, env))
  {
    TupleEqualityStep(w);
    AlwaysB(q.body);
    VisitSoundQ(w, TupleEquality, Always, q, 0, env);
  }

  // --- (a, b, ...) IN (SELECT c, d, ...) -----------------------------------------------------

  /** The shape the pass accepts. Grouping, DISTINCT, LIMIT and scope are not looked at. */
  predicate TupleMembership(e: Expr) {
    && e.InQuery? && e.e.Tuple? && |e.e.elems| > 1 && e.q.body.Select?
    && |e.q.body.proj| == |e.e.elems|
    && forall i :: 0 <= i < |e.q.body.proj| ==> e.q.body.proj[i].Item?
  }

  function Projected(items: seq<Item>): seq<Expr>
    requires forall i :: 0 <= i < |items| ==> items[i].Item?
  {
    seq(|items|, i requires 0 <= i < |items| => items[i].e)
  }

  /** The kept WHERE is not parenthesised; see `Precedence`. */
  function MatchBody(b: Body, elems: seq<Expr>): Body
    requires b.Select? && |b.proj| == |elems| && forall i :: 0 <= i < |b.proj| ==> b.proj[i].Item?
  {
    b.(proj := [Item(Lit(Int(1)), None)], selection := WithEqualities(b.selection, Projected(b.proj), elems))
  }

  function TupleInToExists(e: Expr, k: nat): (Expr, nat) {
    if TupleMembership(e) then (Exists(e.q.(body := MatchBody(e.q.body, e.e.elems)), e.negated), k) else (e, k)
  }

  /** What a caller checks: the subquery is a plain SELECT without LIMIT or OFFSET, neither side
      aggregates, and no name the tuple uses is hidden by the subquery's own FROM. */
  predicate Movable(e: Expr)
    requires TupleMembership(e)
  {
    && e.q.limit.None? && e.q.offset == 0
    && !Aggregated(e.q.body) && !AnyHasAgg(e.e.elems)
    && Without(FreeEs(e.e.elems), Names(e.q.body.from)) == FreeEs(e.e.elems)
  }

  /** Whether a row of the FROM matches, decided as the built WHERE decides it. */
  lemma {:induction false} ConjoinedCond(w: World, acc: Expr, c: bool, ls: seq<Expr>, rs: seq<Expr>, s: Scope)
    requires |ls| == |rs| && EvalCond(w, acc, s) == Ok(c)
    requires c ==> EvalEs(w, ls, s).Ok? && EvalEs(w, rs, s).Ok?
    ensures c ==> |EvalEs(w, ls, s).value| == |EvalEs(w, rs, s).value|
    ensures EvalCond(w, Conjoined(acc, ls, rs), s)
         == Ok(c && IsTrue(EqAll(EvalEs(w, ls, s).value, EvalEs(w, rs, s).value)))
    decreases |ls|
  {
    EvalEsLength(w, ls, s);
    EvalEsLength(w, rs, s);
    if ls != [] {
      var eq := Cmp(Eq, ls[0], rs[0]);
      if c {
        var x, y := EvalE(w, ls[0], s).value, EvalE(w, rs[0], s).value;
        var xs, ys := EvalEs(w, ls[1..], s).value, EvalEs(w, rs[1..], s).value;
        assert EvalE(w, eq, s) == Ok(EqV(x, y));
        PlainCond(w, eq, s);
        assert EvalEs(w, ls, s).value == [x] + xs && EvalEs(w, rs, s).value == [y] + ys;
        assert ([x] + xs)[1..] == xs && ([y] + ys)[1..] == ys;
        EvalEsLength(w, ls[1..], s);
        EvalEsLength(w, rs[1..], s);
        ConjoinedCond(w, And(acc, eq), IsTrue(EqV(x, y)), ls[1..], rs[1..], s);
        assert EqAll([x] + xs, [y] + ys) == AndV(EqV(x, y), EqAll(xs, ys));
      } else {
        ConjoinedCond(w, And(acc, eq), false, ls[1..], rs[1..], s);
      }
    }
  }

  lemma {:induction false} ItemsAsValues(w: World, items: seq<Item>, f: Frame, s: Scope)
    requires forall i :: 0 <= i < |items| ==> items[i].Item?
    requires EvalItems(w, items, f, s).Ok?
    ensures EvalEs(w, Projected(items), s) == Ok(Vals(EvalItems(w, items, f, s).value))
    ensures |EvalItems(w, items, f, s).value| == |items|
    decreases |items|
  {
    if items != [] {
      ItemsAsValues(w, items[1..], f, s);
      assert Projected(items)[1..] == Projected(items[1..]);
      var row, rest := EvalItems(w, items, f, s).value, EvalItems(w, items[1..], f, s).value;
      assert row[1..] == rest;
      assert Vals(row) == [row[0].v] + Vals(rest);
    } else {
      assert Projected(items) == [] && Vals([]) == [];
    }
  }

  /** The built WHERE on one row of FROM: the kept condition, then the row comparison. */
  lemma MatchOne(w: World, b: Body, elems: seq<Expr>, vals: seq<Value>, c: bool, s: Scope)
    requires b.Select? && |b.proj| == |elems| > 1 && forall i :: 0 <= i < |b.proj| ==> b.proj[i].Item?
    requires EvalEs(w, elems, s) == Ok(vals)
    requires if b.selection.Some? then EvalCond(w, b.selection.value, s) == Ok(c) else c
    requires c ==> EvalEs(w, Projected(b.proj), s).Ok?
    ensures WithEqualities(b.selection, Projected(b.proj), elems).Some?
    ensures c ==> |EvalEs(w, Projected(b.proj), s).value| == |vals|
    ensures EvalCond(w, WithEqualities(b.selection, Projected(b.proj), elems).value, s)
         == Ok(c && IsTrue(EqAll(EvalEs(w, Projected(b.proj), s).value, vals)))
  {
    var ps := Projected(b.proj);
    if b.selection.Some? {
      ConjoinedCond(w, b.selection.value, c, ps, elems, s);
    } else {
      var first := Cmp(Eq, ps[0], elems[0]);
      var x, y := EvalE(w, ps[0], s).value, EvalE(w, elems[0], s).value;
      assert EvalE(w, first, s) == Ok(EqV(x, y));
      PlainCond(w, first, s);
      ConjoinedCond(w, first, IsTrue(EqV(x, y)), ps[1..], elems[1..], s);
      var xs, ys := EvalEs(w, ps[1..], s).value, EvalEs(w, elems[1..], s).value;
      EvalEsLength(w, ps[1..], s);
      EvalEsLength(w, elems[1..], s);
      assert EvalEs(w, ps, s).value == [x] + xs && vals == [y] + ys;
      assert EqAll([x] + xs, [y] + ys) == AndV(EqV(x, y), EqAll(xs, ys)) by {
        assert ([x] + xs)[1..] == xs && ([y] + ys)[1..] == ys;
      }
    }
  }

  /** Over all rows of FROM: one matches exactly when the tuple is among the rows of the subquery. */
  lemma {:induction false} MatchFrames(w: World, b: Body, elems: seq<Expr>, vals: seq<Value>, frames: seq<Frame>, env: Env)
    requires b.Select? && |b.proj| == |elems| > 1 && forall i :: 0 <= i < |b.proj| ==> b.proj[i].Item?
    requires forall i :: 0 <= i < |frames| ==> EvalEs(w, elems, Scope(Push(env, frames[i]), None)) == Ok(vals)
    requires FilterOpt(w, b.selection, frames, env).Ok?
    requires EvalRows(w, b.proj, FilterOpt(w, b.selection, frames, env).value, env).Ok?
    ensures WithEqualities(b.selection, Projected(b.proj), elems).Some?
    ensures var matched := Filter(w, WithEqualities(b.selection, Projected(b.proj), elems).value, frames, env);
            var rows := EvalRows(w, b.proj, FilterOpt(w, b.selection, frames, env).value, env).value;
            && matched.Ok?
            && (matched.value != [] <==> IsTrue(AnyEqual(Composite(vals), RecValues(rows))))
    decreases |frames|
  {
    if frames != [] {
      var s := Scope(Push(env, frames[0]), None);
      var c := b.selection.None? || EvalCond(w, b.selection.value, s).value;
      var kept := FilterOpt(w, b.selection, frames, env).value;
      var kept' := FilterOpt(w, b.selection, frames[1..], env).value;
      assert kept == if c then [frames[0]] + kept' else kept';
      if c {
        assert kept[1..] == kept';
        ItemsAsValues(w, b.proj, frames[0], s);
      }
      MatchFrames(w, b, elems, vals, frames[1..], env);
      MatchOne(w, b, elems, vals, c, s);
      if c {
        var row := EvalItems(w, b.proj, frames[0], s).value;
        var rest := EvalRows(w, b.proj, kept', env).value;
        RowFirst(Composite(vals), row, rest);
        EqAllSymmetric(Vals(row), vals);
      }
    }
  }

  lemma RowFirst(a: Value, row: Rec, rest: seq<Rec>)
    requires |row| > 1
    ensures AnyEqual(a, RecValues([row] + rest))
         == OrV(EqV(a, Composite(Vals(row))), AnyEqual(a, RecValues(rest)))
  {
    var ys := RecValues([row] + rest);
    assert ys[1..] == RecValues(rest);
  }

  /** The tuple has inside the subquery the value it has outside. */
  lemma TupleInside(w: World, e: Expr, s: Scope, f: Frame)
    requires TupleMembership(e) && Movable(e) && Binds(f, e.q.body.from)
    ensures EvalEs(w, e.e.elems, Scope(Push(s.env, f), None)) == EvalEs(w, e.e.elems, s)
  {
    var t := e.e;
    assert !HasAgg(t) && FreeE(t) == FreeEs(t.elems);
    OutsideFrame(FreeE(t), s.env, f, e.q.body.from);
    GroupUnusedEs(w, t.elems, s);
    CoincideEs(w, t.elems, Scope(s.env, None), Scope(Push(s.env, f), None));
  }

  /** Moving a reference into a FROM leaves it reading the same record, whatever the data. */
  ghost predicate ReadsTheSameInside(from: seq<FromItem>, r: Ref) {
    forall env: Env, f: Frame | Binds(f, from) :: Found(map[], env, r) == Found(map[], Push(env, f), r)
  }

  lemma {:induction false} OneRecord(f: Frame, rec: Rec)
    requires forall i :: 0 <= i < |f| ==> f[i].rec == rec
    ensures forall x :: x in FrameEnv(f) ==> FrameEnv(f)[x] == rec
  {
    if f != [] {
      OneRecord(f[..|f| - 1], rec);
    }
  }

  /** It does exactly when the FROM binds no item under the reference's name. */
  lemma MovedReadsExactly(from: seq<FromItem>, r: Ref)
    ensures ReadsTheSameInside(from, r) <==> r.qual !in Names(from)
  {
    if r.qual !in Names(from) {
      forall env: Env, f: Frame | Binds(f, from) ensures Found(map[], env, r) == Found(map[], Push(env, f), r) {
        OutsideFrame({r}, env, f, from);
        assert SameView(map[], {r}, env, Push(env, f)) && r in {r};
      }
    } else {
      var rec := [Cell(if r.Ref? then r.name else r.qual, Null)];
      var f := seq(|from|, i requires 0 <= i < |from| => Bound(FactorName(from[i].factor), rec));
      FrameKeys(f, from);
      OneRecord(f, rec);
      assert Binds(f, from) && Found(map[], map[], r) == Error && Found(map[], Push(map[], f), r) == Ok(Null);
    }
  }

  lemma {:induction false} CoincideEs(w: World, es: seq<Expr>, s1: Scope, s2: Scope)
    requires SameScope(map[], FreeEs(es), s1, s2)
    ensures EvalEs(w, es, s1) == EvalEs(w, es, s2)
  {
    if es != [] {
      Coincide(w, w, es[0], s1, s2);
      CoincideEs(w, es[1..], s1, s2);
    }
  }

  /** Replacing one tuple membership: the EXISTS holds exactly when the membership is true. */
  lemma TupleInValue(w: World, e: Expr, s: Scope)
    requires TupleMembership(e) && Movable(e) && EvalE(w, InQuery(e.e, e.q, false), s).Ok?
    ensures EvalE(w, TupleInToExists(e, 0).0, s)
         == Ok(Bool(IsTrue(EvalE(w, InQuery(e.e, e.q, false), s).value) != e.negated))
  {
    var b := e.q.body;
    var vals := EvalEs(w, e.e.elems, s).value;
    assert EvalE(w, e.e, s) == Ok(Composite(vals));
    assert EvalQ(w, e.q, s.env) == EvalB(w, b, s.env);
    PlainRows(w, b, s.env);
    var frames := EvalFrom(w, b.from, s.env).value;
    FromBinds(w, b.from, s.env);
    forall i | 0 <= i < |frames|
      ensures EvalEs(w, e.e.elems, Scope(Push(s.env, frames[i]), None)) == Ok(vals)
    {
      TupleInside(w, e, s, frames[i]);
    }
    MatchFrames(w, b, e.e.elems, vals, frames, s.env);
    var rows := EvalRows(w, b.proj, Source(w, b, s.env).value, s.env).value;
    SameMembers(Composite(vals), rows);
    var b' := MatchBody(b, e.e.elems);
    assert Source(w, b', s.env) == Filter(w, b'.selection.value, frames, s.env);
    ExistsOfOnes(w, e.q.(body := b'), e.negated, s);
  }

  /** DISTINCT does not change what is a member. */
  lemma SameMembers(a: Value, rows: seq<Rec>)
    ensures IsTrue(AnyEqual(a, RecValues(Distinct(rows)))) == IsTrue(AnyEqual(a, RecValues(rows)))
  {
    AnyEqualIsTrue(a, RecValues(rows));
    AnyEqualIsTrue(a, RecValues(Distinct(rows)));
    DistinctKeeps(rows);
    if k :| 0 <= k < |rows| && IsTrue(EqV(a, RecValues(rows)[k])) {
      assert rows[k] in Distinct(rows);
      var j :| 0 <= j < |Distinct(rows)| && Distinct(rows)[j] == rows[k];
      assert IsTrue(EqV(a, RecValues(Distinct(rows))[j]));
    }
    if k :| 0 <= k < |Distinct(rows)| && IsTrue(EqV(a, RecValues(Distinct(rows))[k])) {
      assert Distinct(rows)[k] in rows;
      var j :| 0 <= j < |rows| && rows[j] == Distinct(rows)[k];
      assert IsTrue(EqV(a, RecValues(rows)[j]));
    }
  }

  lemma {:induction false} MemberLogical(a: Value, ys: seq<Value>)
    ensures AnyEqual(a, ys) in {TRUE, FALSE, Null}
  {
    if ys != [] {
      MemberLogical(a, ys[1..]);
    }
  }

  /** As a value the replacement is exact unless the membership is unknown. A negated one counts
      as true where it was unknown. */
  lemma TupleInExact(w: World, e: Expr, s: Scope)
    requires TupleMembership(e) && Movable(e) && EvalE(w, e, s).Ok?
    ensures EvalE(w, TupleInToExists(e, 0).0, s) == EvalE(w, e, s) <==> EvalE(w, e, s).value != Null
    ensures EvalCond(w, TupleInToExists(e, 0).0, s) == EvalCond(w, e, s)
       <==> !e.negated || EvalE(w, e, s).value != Null
  {
    assert EvalE(w, InQuery(e.e, e.q, false), s).Ok?;
    TupleInValue(w, e, s);
    MemberLogical(EvalE(w, e.e, s).value, RecValues(EvalQ(w, e.q, s.env).value));
    PlainCond(w, e, s);
    PlainCond(w, TupleInToExists(e, 0).0, s);
  }

  /** Without NULLs and nested rows among the compared values the membership is never unknown. */
  predicate Known(v: Value) {
    !v.Null? && !v.Composite?
  }

  lemma {:induction false} KnownEqAll(xs: seq<Value>, ys: seq<Value>)
    requires |xs| == |ys|
    requires forall i :: 0 <= i < |xs| ==> Known(xs[i]) && Known(ys[i])
    ensures EqAll(xs, ys) in {TRUE, FALSE}
  {
    if xs != [] {
      KnownEqAll(xs[1..], ys[1..]);
    }
  }

  lemma {:induction false} KnownMember(xs: seq<Value>, rows: seq<Rec>)
    requires |xs| > 1 && forall i :: 0 <= i < |xs| ==> Known(xs[i])
    requires forall r :: 0 <= r < |rows| ==>
      |rows[r]| == |xs| && forall i :: 0 <= i < |xs| ==> Known(rows[r][i].v)
    ensures AnyEqual(Composite(xs), RecValues(rows)) != Null
  {
    if rows != [] {
      KnownEqAll(xs, Vals(rows[0]));
      KnownMember(xs, rows[1..]);
      assert RecValues(rows)[1..] == RecValues(rows[1..]);
      MemberLogical(Composite(xs), RecValues(rows[1..]));
    }
  }

  /** So where no compared value is NULL the replacement is exact, negated or not. */
  lemma TupleInKnown(w: World, e: Expr, s: Scope)
    requires TupleMembership(e) && Movable(e) && EvalE(w, e, s).Ok?
    requires EvalEs(w, e.e.elems, s).Ok? && EvalQ(w, e.q, s.env).Ok?
    requires var xs, rows := EvalEs(w, e.e.elems, s).value, EvalQ(w, e.q, s.env).value;
      && |xs| > 1 && (forall i :: 0 <= i < |xs| ==> Known(xs[i]))
      && forall r :: 0 <= r < |rows| ==> |rows[r]| == |xs| && forall i :: 0 <= i < |xs| ==> Known(rows[r][i].v)
    ensures EvalE(w, TupleInToExists(e, 0).0, s) == EvalE(w, e, s)
  {
    var xs, rows := EvalEs(w, e.e.elems, s).value, EvalQ(w, e.q, s.env).value;
    KnownMember(xs, rows);
    TupleInExact(w, e, s);
    MembershipOf(w, e, s, xs, rows);
    MemberLogical(Composite(xs), RecValues(rows));
  }

  lemma MembershipOf(w: World, e: Expr, s: Scope, xs: seq<Value>, rows: seq<Rec>)
    requires TupleMembership(e) && EvalEs(w, e.e.elems, s) == Ok(xs) && EvalQ(w, e.q, s.env) == Ok(rows)
    ensures var member := AnyEqual(Composite(xs), RecValues(rows));
      EvalE(w, e, s) == Ok(if e.negated then NotV(member) else member)
  {
    assert EvalE(w, e.e, s) == Ok(Composite(xs));
  }

  // --- the pass as a whole -------------------------------------------------------------------

  /** What a caller checks of a membership the pass accepts: it is movable, no reference written in
      the tuple, inside a subquery or not, uses a name of the other side's FROM, and it stands
      unnegated where only its truth matters. */
  predicate MovablePlace(e: Expr, p: Pos) {
    TupleMembership(e) ==>
      Movable(e) && AllEs(Silent(Names(e.q.body.from)), e.e.elems) && p == Truth && !e.negated
  }

  lemma {:induction false} ConjoinedSays(ok: Check, acc: Expr, ls: seq<Expr>, rs: seq<Expr>)
    requires |ls| == |rs| && AllE(ok, acc, Truth) && AllEs(ok, ls) && AllEs(ok, rs) && LeavesConnectives(ok)
    ensures AllE(ok, Conjoined(acc, ls, rs), Truth)
    decreases |ls|
  {
    if ls != [] {
      EqualitySays(ok, ls[0], rs[0]);
      ConjoinedSays(ok, And(acc, Cmp(Eq, ls[0], rs[0])), ls[1..], rs[1..]);
    }
  }

  ghost predicate LeavesConnectives(ok: Check) {
    forall e: Expr, p: Pos :: e.Cmp? || e.And? ==> ok(e, p)
  }

  lemma EqualitySays(ok: Check, l: Expr, r: Expr)
    requires AllE(ok, l, Exact) && AllE(ok, r, Exact) && LeavesConnectives(ok)
    ensures AllE(ok, Cmp(Eq, l, r), Truth)
  {
    assert ok(Cmp(Eq, l, r), Truth);
  }

  lemma {:induction false} ProjectedSays(ok: Check, items: seq<Item>)
    requires AllItems(ok, items) && forall i :: 0 <= i < |items| ==> items[i].Item?
    ensures AllEs(ok, Projected(items))
  {
    if items != [] {
      ProjectedSays(ok, items[1..]);
      assert AllItem(ok, items[0]) && Projected(items)[1..] == Projected(items[1..]);
    }
  }

  /** What the built EXISTS is made of meets a check that the membership's parts met. */
  lemma ExistsKeeps(ok: Check, e: Expr, p: Pos)
    requires TupleMembership(e) && AllKids(ok, e, p) && LeavesConnectives(ok)
    requires forall x: Expr, q: Pos :: x.Lit? || x.Exists? ==> ok(x, q)
    ensures AllE(ok, TupleInToExists(e, 0).0, p)
  {
    var b, elems, ps := e.q.body, e.e.elems, Projected(e.q.body.proj);
    assert AllE(ok, e.e, Exact) && AllQ(ok, e.q) && AllB(ok, b);
    assert AllKids(ok, e.e, Exact) && AllEs(ok, elems) && AllItems(ok, b.proj) && AllOpt(ok, b.selection);
    ProjectedSays(ok, b.proj);
    var one := [Item(Lit(Int(1)), None)];
    assert one[1..] == [] && ok(Lit(Int(1)), Exact) && AllE(ok, Lit(Int(1)), Exact) && AllItems(ok, one);
    if b.selection.Some? {
      ConjoinedSays(ok, b.selection.value, ps, elems);
    } else {
      EqualitySays(ok, ps[0], elems[0]);
      ConjoinedSays(ok, Cmp(Eq, ps[0], elems[0]), ps[1..], elems[1..]);
    }
    assert AllOpt(ok, WithEqualities(b.selection, ps, elems));
    assert AllB(ok, MatchBody(b, elems));
  }

  lemma TupleInSays(test: RefTest)
    ensures StepCarries(TupleInToExists, Saying(test), Saying(test))
  {
    forall e: Expr, k: nat, p: Pos | AllE(Saying(test), e, p)
      ensures CarriesAt(TupleInToExists, Saying(test), e, k, p)
    {
      var kids := VisitKids(TupleInToExists, e, k).0;
      assert VisitE(TupleInToExists, e, k).0 == TupleInToExists(kids, 0).0;
      if TupleMembership(kids) && AllKids(Saying(test), kids, p) {
        ExistsKeeps(Saying(test), kids, p);
      }
    }
  }

  /** No aggregate appears where there was none. */
  lemma {:induction false} NoNewAgg(e: Expr, k: nat)
    requires !HasAgg(e)
    ensures !HasAgg(VisitE(TupleInToExists, e, k).0)
    decreases e, 1
  {
    if e.Cmp? || e.And? || e.Or? {
      NoNewAgg(e.left, k);
      NoNewAgg(e.right, VisitE(TupleInToExists, e.left, k).1);
    } else {
      NoNewAggKids(e, k);
    }
    assert !HasAgg(VisitKids(TupleInToExists, e, k).0);
  }

  lemma {:induction false} NoNewAggKids(e: Expr, k: nat)
    requires !HasAgg(e) && !e.Cmp? && !e.And? && !e.Or?
    ensures !HasAgg(VisitKids(TupleInToExists, e, k).0)
    decreases e, 0
  {
    var f := TupleInToExists;
    match e
    case Not(x) => NoNewAgg(x, k);
    case Nested(x) => NoNewAgg(x, k);
    case Case(c, t, g) =>
      NoNewAgg(c, k);
      NoNewAgg(t, VisitE(f, c, k).1);
      NoNewAgg(g, VisitE(f, t, VisitE(f, c, k).1).1);
    case Call(_, args) => NoNewAggs(args, k);
    case Tuple(es) => NoNewAggs(es, k);
    case InQuery(x, _, _) => NoNewAgg(x, k);
    case AnyOf(x, a) => NoNewAgg(x, k); NoNewAgg(a, VisitE(f, x, k).1);
    case Index(a, i) => NoNewAgg(a, k); NoNewAgg(i, VisitE(f, a, k).1);
    case _ =>
  }

  lemma {:induction false} NoNewAggs(es: seq<Expr>, k: nat)
    requires !AnyHasAgg(es)
    ensures !AnyHasAgg(VisitEs(TupleInToExists, es, k).0)
    decreases es, 0
  {
    if es != [] {
      NoNewAgg(es[0], k);
      NoNewAggs(es[1..], VisitE(TupleInToExists, es[0], k).1);
    }
  }

  /** The tuple after its own subqueries have been rewritten. */
  lemma TupleStays(e: Expr, k: nat, p: Pos)
    requires AllE(MovablePlace, e, p) && TupleMembership(e)
    ensures var t := VisitE(TupleInToExists, e.e, k).0;
      t.Tuple? && !AnyHasAgg(t.elems) && Without(FreeEs(t.elems), Names(e.q.body.from)) == FreeEs(t.elems)
  {
    var test := Outside(Names(e.q.body.from));
    assert MovablePlace(e, p) && AllE(MovablePlace, e.e, Exact);
    assert AllE(Saying(test), e.e, Exact);
    TupleInSays(test);
    CarryE(TupleInToExists, Saying(test), Saying(test), e.e, k, Exact);
    StaysTuple(e.e, k);
    NoNewAgg(e.e, k);
    var t := VisitE(TupleInToExists, e.e, k).0;
    SaidEs(test, t.elems);
  }

  lemma StaysMembership(e: Expr, k: nat)
    requires e.InQuery?
    ensures var kids := VisitKids(TupleInToExists, e, k).0;
      TupleMembership(kids) ==> TupleMembership(e)
  {
    var f := TupleInToExists;
    var kids := VisitKids(f, e, k).0;
    if TupleMembership(kids) {
      var t := VisitE(f, e.e, k).0;
      StaysTuple(e.e, k);
      var k1 := VisitE(f, e.e, k).1;
      assert kids == InQuery(t, VisitQ(f, e.q, k1).0, e.negated);
      assert kids.q.body == VisitB(f, e.q.body, k1).0;
      VisitKeepsClauses(f, e.q.body, k1);
      ItemsStay(f, e.q.body.proj, k1);
    }
  }

  lemma StaysTuple(e: Expr, k: nat)
    ensures VisitE(TupleInToExists, e, k).0.Tuple? == e.Tuple?
    ensures e.Tuple? ==> |VisitE(TupleInToExists, e, k).0.elems| == |e.elems|
  {
    var kids := VisitKids(TupleInToExists, e, k);
    assert kids.0.Tuple? == e.Tuple? && kids.0.InQuery? == e.InQuery?;
    assert VisitE(TupleInToExists, e, k) == TupleInToExists(kids.0, kids.1);
  }

  lemma {:induction false} ItemsStay(f: Callback, items: seq<Item>, k: nat)
    ensures forall i :: 0 <= i < |items| ==> VisitItems(f, items, k).0[i].Item? == items[i].Item?
  {
    if items != [] {
      var first := VisitItem(f, items[0], k);
      ItemsStay(f, items[1..], first.1);
      assert VisitItems(f, items, k).0 == [first.0] + VisitItems(f, items[1..], first.1).0;
    }
  }

  lemma TupleInShape()
    ensures StepShape(TupleInToExists, MovablePlace)
  {
    forall e: Expr, k: nat, p: Pos | AllE(MovablePlace, e, p) ensures StepShapeAt(TupleInToExists, e, k, p) {
      if e.InQuery? {
        StaysMembership(e, k);
        if TupleMembership(VisitKids(TupleInToExists, e, k).0) {
          TupleStays(e, k, p);
        }
      }
    }
  }

  /** A checked membership stays movable while the subquery's expressions are rewritten. */
  lemma StaysMovable(e: Expr, k: nat, p: Pos)
    requires AllE(MovablePlace, e, p) && e.InQuery?
    requires TupleMembership(VisitKids(TupleInToExists, e, k).0)
    ensures Movable(VisitKids(TupleInToExists, e, k).0) && p == Truth && !e.negated
  {
    StaysMembership(e, k);
    assert MovablePlace(e, p) && AllQ(MovablePlace, e.q) && AllB(MovablePlace, e.q.body);
    TupleStays(e, k, p);
    TupleInShape();
    var j := VisitE(TupleInToExists, e.e, k).1;
    ShapeSelect(TupleInToExists, MovablePlace, e.q.body, j);
    VisitKeepsNames(TupleInToExists, e.q.body.from, VisitItems(TupleInToExists, e.q.body.proj, j).1);
    assert VisitKids(TupleInToExists, e, k).0.q.body == VisitB(TupleInToExists, e.q.body, j).0;
  }

  lemma TupleInStep(w: World)
    ensures StepSound(w, TupleInToExists, MovablePlace)
  {
    TupleInShape();
    forall e: Expr, k: nat, p: Pos | AllE(MovablePlace, e, p) ensures StepSoundAt(w, TupleInToExists, e, k, p) {
      if e.InQuery? && TupleMembership(VisitKids(TupleInToExists, e, k).0) {
        TupleInNode(w, e, k, p);
      }
    }
  }

  lemma TupleInNode(w: World, e: Expr, k: nat, p: Pos)
    requires AllE(MovablePlace, e, p) && e.InQuery?
    requires TupleMembership(VisitKids(TupleInToExists, e, k).0)
    ensures StepSoundAt(w, TupleInToExists, e, k, p)
  {
    var kids := VisitKids(TupleInToExists, e, k).0;
    StaysMovable(e, k, p);
    assert VisitE(TupleInToExists, e, k).0 == TupleInToExists(kids, 0).0;
    forall s: Scope ensures RefinesAt(w, p, kids, TupleInToExists(kids, 0).0, s) {
      PlainCond(w, kids, s);
      if EvalE(w, kids, s).Ok? {
        TupleInExact(w, kids, s);
      }
    }
  }

  /** The whole pass: memberships nested to any depth, the statement returns what it returned. */
  lemma TupleInKeepsRows(w: World, q: Query, env: Env)
    requires AllQ(MovablePlace, q)
    ensures Refines(EvalQ(w, q, env), EvalQ(w, VisitQ(TupleInToExists, q, 0).0, env))
  {
    TupleInStep(w);
    VisitSoundQ(w, TupleInToExists, MovablePlace, q, 0, env);
  }
}
