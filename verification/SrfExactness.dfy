/** Which columns still read what they read once the FROM has moved into the derived table. */
module UnnestedColumns {
  import opened Wrappers
  import opened SqlValues
  import opened SqlAst
  import opened SqlEval
  import opened SqlScope
  import opened ProjectionSrf
  import opened UnnestedProjection

  /** Wherever a column has a value, the rewritten one has that value beside any element. */
  ghost predicate ReadsAlike(m: Functions, from: seq<FromItem>, q: string, c: string) {
    forall env: Env, f: Frame, v: Value | Binds(f, from) && PlainRow(RowOf(env, f)) && Look(Push(env, f), q, c).Ok? ::
      EvalP(DataFusion, m, Requalified(Column(q, c), FromQualifiers(from)), ElementRow(env, FrameCells(f), v), 0)
      == Look(Push(env, f), q, c)
  }

  lemma {:induction false} CellsSnoc(f: Frame, b: Bound)
    ensures FrameCells(f + [b]) == FrameCells(f) + b.rec
    decreases |f|
  {
    if f == [] {
      assert ([] + [b])[1..] == [] && b.rec + FrameCells([]) == b.rec;
    } else {
      CellsSnoc(f[1..], b);
      assert (f + [b])[1..] == f[1..] + [b];
    }
  }

  /** A row of the FROM without columns. */
  function Blank(from: seq<FromItem>): Frame {
    seq(|from|, i requires 0 <= i < |from| => Bound(FactorName(from[i].factor), []))
  }

  lemma {:induction false} BlankCells(from: seq<FromItem>)
    ensures Binds(Blank(from), from) && FrameCells(Blank(from)) == []
    decreases |from|
  {
    if from != [] {
      var n := |from| - 1;
      BlankCells(from[..n]);
      CellsSnoc(Blank(from[..n]), Bound(FactorName(from[n].factor), []));
      assert Blank(from) == Blank(from[..n]) + [Bound(FactorName(from[n].factor), [])];
    }
  }

  /** A row of the FROM from a row of its front and a record of its last item. */
  lemma {:induction false} Extended(from: seq<FromItem>, front: Frame, last: Bound)
    requires from != [] && Binds(front, from[..|from| - 1]) && last.qual == FactorName(from[|from| - 1].factor)
    ensures Binds(front + [last], from) && FrameCells(front + [last]) == FrameCells(front) + last.rec
    ensures FrameEnv(front + [last]) == FrameEnv(front)[last.qual := last.rec]
  {
    CellsSnoc(front, last);
    assert (front + [last])[..|front|] == front;
    forall i | 0 <= i < |front| ensures front[i].qual == FactorName(from[i].factor) {
      assert from[..|from| - 1][i] == from[i];
    }
  }

  /** A row of the FROM whose one column is the one `q` finds. */
  lemma {:induction false} OneColumn(from: seq<FromItem>, q: string, rec: Rec) returns (f: Frame)
    requires q in Names(from)
    ensures Binds(f, from) && FrameCells(f) == rec && q in FrameEnv(f) && FrameEnv(f)[q] == rec
    decreases |from|
  {
    var n := |from| - 1;
    var name := FactorName(from[n].factor);
    if name == q {
      BlankCells(from[..n]);
      f := Blank(from[..n]) + [Bound(q, rec)];
      Extended(from, Blank(from[..n]), Bound(q, rec));
      assert [] + rec == rec;
    } else {
      var i :| 0 <= i < |from| && q == FactorName(from[i].factor);
      assert from[..n][i] == from[i];
      var front := OneColumn(from[..n], q, rec);
      f := front + [Bound(name, [])];
      Extended(from, front, Bound(name, []));
      assert rec + [] == rec;
    }
  }

  /** A derived table's own column, still under the derived table's name: nothing answers to it. */
  lemma UnreachableIsLost(m: Functions, from: seq<FromItem>, q: string, c: string)
    requires q in Names(from) && q !in FromQualifiers(from) && q != SOURCE && c != COLUMN
    ensures !ReadsAlike(m, from, q, c)
  {
    var rec := [Cell(c, Null)];
    var f := OneColumn(from, q, rec);
    var empty: Env := map[];
    assert PlainRow(RowOf(empty, f)) && Look(Push(empty, f), q, c) == Ok(Null);
    assert EvalP(DataFusion, m, Requalified(Column(q, c), FromQualifiers(from)), ElementRow(empty, FrameCells(f), Null), 0) == Error;
  }

  /** An enclosing `__srf_src`: the derived table of the same name hides it. */
  lemma EnclosingIsHidden(m: Functions, from: seq<FromItem>, c: string)
    requires SOURCE !in Names(from) && SOURCE !in FromQualifiers(from)
    ensures !ReadsAlike(m, from, SOURCE, c)
  {
    var f, env: Env := Blank(from), map[SOURCE := [Cell(c, Int(1))]];
    BlankCells(from);
    FrameKeys(f, from);
    assert PlainRow(RowOf(env, f)) && Look(Push(env, f), SOURCE, c) == Ok(Int(1));
    var there := ElementRow(env, [], Int(2));
    var element := [Cell(COLUMN, Int(2))];
    assert [] + element == element && element[1..] == [];
    assert there.env[SOURCE] == element && FieldOf(element, c) == if c == COLUMN then Ok(Int(2)) else Error;
    assert Requalified(Column(SOURCE, c), FromQualifiers(from)) == Column(SOURCE, c);
    assert EvalP(DataFusion, m, Column(SOURCE, c), there, 0) == FieldOf(element, c);
    assert ElementRow(env, FrameCells(f), Int(2)) == there;
  }

  /** A qualified column reads alike on all data exactly when it names a table of the FROM, or an
      enclosing query's table, and not the new name; or no row can have it, because it is the new
      column's name. */
  lemma ColumnReadsExactly(m: Functions, from: seq<FromItem>, q: string, c: string)
    ensures ReadsAlike(m, from, q, c)
       <==> Reachable(q, FromQualifiers(from), Names(from)) || (q in Names(from) && c == COLUMN)
  {
    var quals, bound := FromQualifiers(from), Names(from);
    QualifiersAreNames(from);
    if Reachable(q, quals, bound) || (q in bound && c == COLUMN) {
      forall env: Env, f: Frame, v: Value | Binds(f, from) && PlainRow(RowOf(env, f)) && Look(Push(env, f), q, c).Ok?
        ensures EvalP(DataFusion, m, Requalified(Column(q, c), quals), ElementRow(env, FrameCells(f), v), 0) == Look(Push(env, f), q, c)
      {
        FrameKeys(f, from);
        if Reachable(q, quals, bound) {
          ColumnMoves(m, q, c, RowOf(env, f), env, f, quals, bound, v, 0);
        } else {
          var k := FrameRecord(f, q);
          FieldOfFrame(f, k, c);
          NoField(FrameCells(f), COLUMN);
          assert false;
        }
      }
    } else if q in bound {
      UnreachableIsLost(m, from, q, c);
    } else {
      EnclosingIsHidden(m, from, c);
    }
  }
}

/** Whole SELECTs the unnesting pass changes. */
module UnnestingStatements {
  import opened Wrappers
  import opened SqlValues
  import opened SqlAst
  import opened SqlEval
  import opened ProjectionSrf
  import opened UnnestedProjection
  import AliasCaptures

  function Expanding(): PExpr {
    Srf("_pg_expandarray", [])
  }

  function FieldItem(): PItem {
    Out(Dot(Expanding(), "n"))
  }

  /** SELECT first, (_pg_expandarray()).n FROM t */
  function Beside(first: PItem, t: Factor): Listing {
    Listing([first, FieldItem()], Written([FromItem(Comma, t, TrueLit)], None), false)
  }

  lemma BesideUsage(first: PItem)
    requires first.Star? || first.e.Column?
    ensures UsageOf(AccessesItems([first, FieldItem()])) == Single(Expanding())
  {
    assert [first, FieldItem()] == [first] + [FieldItem()];
    AccessesCons(first, [FieldItem()]);
    AccessesSnoc([], FieldItem());
    assert [] + [FieldItem()] == [FieldItem()] && ItemAccesses(first) == [];
    assert AccessesItems([first, FieldItem()]) == [Expanding()];
  }

  /** One step over one row of the FROM. */
  lemma OneResult(g: Engine, m: Functions, items: seq<PItem>, row: Row, ns: seq<nat>, vs: seq<Value>)
    requires SpansItems(g, m, items, row) == Ok(ns) && Steps(ns) == 1 && ItemsAt(g, m, items, row, 0) == Ok(vs)
    ensures Results(g, m, items, [row]) == Ok([vs])
  {
    assert StepRows(g, m, items, row, 1, 1) == Ok([]) && [vs] + [] == [vs];
    assert StepRows(g, m, items, row, 0, 1) == Ok([vs]) && RowResults(g, m, items, row) == Ok([vs]);
    assert [row][1..] == [] && Results(g, m, items, []) == Ok([]);
  }

  /** The call has one element, and the FROM one row: the written SELECT has one row too. */
  ghost predicate OneEach(m: Functions, w: World, l: Listing, f: Frame, v: Value) {
    m.srf("_pg_expandarray", []) == [v] && l.src.Written? && l.src.selection.None? && EvalFrom(w, l.src.from, map[]) == Ok([f])
  }

  lemma PairAt(g: Engine, m: Functions, first: PItem, second: PExpr, row: Row, i: nat)
    ensures ItemsAt(g, m, [first, Out(second)], row, i)
         == if ItemAt(g, m, first, row, i).Ok? && EvalP(g, m, second, row, i).Ok?
            then Ok(ItemAt(g, m, first, row, i).value + [EvalP(g, m, second, row, i).value]) else Error
  {
    var last := [Out(second)];
    assert [first, Out(second)][1..] == last && last[1..] == [];
    var v := EvalP(g, m, second, row, i);
    assert ItemsAt(g, m, [], row, i) == Ok([]);
    if v.Ok? {
      assert [v.value] + [] == [v.value] && ItemsAt(g, m, last, row, i) == Ok([v.value]);
    } else {
      assert ItemsAt(g, m, last, row, i) == Error;
    }
  }

  lemma PairSpans(g: Engine, m: Functions, first: PItem, second: PExpr, row: Row, ns: seq<nat>)
    requires first.Star? || first.e.Column?
    requires Spans(g, m, second, row) == Ok(ns)
    ensures SpansItems(g, m, [first, Out(second)], row) == Ok(ns)
  {
    var last := [Out(second)];
    assert [first, Out(second)][1..] == last && last[1..] == [];
    assert ns + [] == ns && [] + ns == ns;
    assert SpansItems(g, m, last, row) == Ok(ns);
  }

  lemma WrittenAnswer(m: Functions, w: World, first: PItem, t: Factor, f: Frame, v: Value, vs: seq<Value>)
    requires (first.Star? || first.e.Column?) && OneEach(m, w, Beside(first, t), f, v)
    requires ItemAt(Postgres, m, first, RowOf(map[], f), 0) == Ok(vs)
    ensures EvalListing(Postgres, m, w, Beside(first, t), map[]) == Ok([vs + [m.field(v, "n")]])
  {
    var row, call := RowOf(map[], f), Expanding();
    CallExpands(m, call, row, 0);
    assert ListOf(m, call, row) == Ok([v]) && Nth([v], 0) == v;
    PairAt(Postgres, m, first, Dot(call, "n"), row, 0);
    PairSpans(Postgres, m, first, Dot(call, "n"), row, [1]);
    OneSpan(1);
    OneResult(Postgres, m, [first, FieldItem()], row, [1], vs + [m.field(v, "n")]);
    assert RowsOfFrames(map[], [f]) == [row];
  }

  /** What is left to the outer SELECT of the rewritten statement: one row, with the element. */
  lemma RewrittenAnswer(m: Functions, w: World, first: PItem, t: Factor, f: Frame, v: Value)
    requires (first.Star? || first.e.Column?) && OneEach(m, w, Beside(first, t), f, v)
    ensures var l := RewriteListing(Beside(first, t));
      EvalListing(DataFusion, m, w, l, map[]) == Results(DataFusion, m, l.items, [ElementRow(map[], FrameCells(f), v)])
  {
    var row, call := RowOf(map[], f), Expanding();
    BesideUsage(first);
    RewrittenSource(m, w, Beside(first, t), map[]);
    assert ListOf(m, call, row) == Ok([v]);
    ElementResults(m, call, row);
    DerivedAreElements(map[], row.cells, [v]);
    var there := ElementRow(map[], row.cells, v);
    assert ElementRows(map[], row.cells, [v]) == [there] && [there] + [] == [there];
    assert RowsOfFrames(map[], [f]) == [row] && [row][1..] == [];
    assert Unnested(DataFusion, m, call, map[], [row]) == Ok([there]);
  }

  /** What the rewritten items are. */
  lemma RewrittenPair(first: PItem, t: Factor)
    requires first.Star? || first.e.Column?
    ensures var l := Beside(first, t);
      RewriteListing(l).items
      == [RewrittenItem(first, Expanding(), FromQualifiers(l.src.from)), Out(Bracket(Name(COLUMN), "n"))]
  {
    BesideUsage(first);
    assert RedirectedEach([], Expanding()) == [] && Redirected(Expanding(), Expanding()) == Expanding();
    assert Redirected(Dot(Expanding(), "n"), Expanding()) == Bracket(Name(COLUMN), "n");
  }

  /** `SELECT *, (_pg_expandarray()).n FROM t` over one row and one element: the element itself comes
      out as one more column. */
  lemma StarGainsColumn(m: Functions, w: World, t: string, n: int, v: Value)
    requires TableOf(w.tables, None, t) == Ok(AliasCaptures.One(n)) && m.srf("_pg_expandarray", []) == [v]
    ensures var l := Beside(Star, Table(None, t, None));
      && EvalListing(Postgres, m, w, l, map[]) == Ok([[Int(n), m.field(v, "n")]])
      && EvalListing(DataFusion, m, w, RewriteListing(l), map[]) == Ok([[Int(n), v, m.field(v, "n")]])
  {
    var table, f := Table(None, t, None), [Bound(t, [Cell("c", Int(n))])];
    AliasCaptures.OneFrom(w, table, n, map[]);
    assert f[1..] == [] && FrameCells(f) == [Cell("c", Int(n))] + [] && FrameCells(f) == [Cell("c", Int(n))];
    assert Vals(FrameCells(f)) == [Int(n)];
    WrittenAnswer(m, w, Star, table, f, v, [Int(n)]);
    RewrittenAnswer(m, w, Star, table, f, v);
    RewrittenPair(Star, table);
    StarOfElement(m, FrameCells(f), v);
    assert [Int(n)] + [m.field(v, "n")] == [Int(n), m.field(v, "n")];
    assert [Int(n)] + [v, m.field(v, "n")] == [Int(n), v, m.field(v, "n")];
  }

  /** `*` and a field over a row that carries its element. */
  lemma StarOfElement(m: Functions, cells: Rec, v: Value)
    requires Without(cells, COLUMN)
    ensures Results(DataFusion, m, [Star, Out(Bracket(Name(COLUMN), "n"))], [ElementRow(map[], cells, v)])
         == Ok([Vals(cells) + [v, m.field(v, "n")]])
  {
    var there, read := ElementRow(map[], cells, v), Bracket(Name(COLUMN), "n");
    ReadsElement(cells, v);
    assert EvalP(DataFusion, m, read, there, 0) == Ok(m.field(v, "n"));
    PairAt(DataFusion, m, Star, read, there, 0);
    PairSpans(DataFusion, m, Star, read, there, []);
    assert Vals(there.cells) + [m.field(v, "n")] == Vals(cells) + [v, m.field(v, "n")];
    OneResult(DataFusion, m, [Star, Out(read)], there, [], Vals(cells) + [v, m.field(v, "n")]);
  }

  /** `(SELECT t.c FROM t) d` */
  function Sub(t: string): Factor {
    Derived(AliasCaptures.Pick(Col(t, "c"), Table(None, t, None)), "d", false)
  }

  lemma SubFrom(w: World, t: string, n: int)
    requires TableOf(w.tables, None, t) == Ok(AliasCaptures.One(n))
    ensures EvalFrom(w, [FromItem(Comma, Sub(t), TrueLit)], map[]) == Ok([[Bound("d", [Cell("c", Int(n))])]])
  {
    var it, rec := FromItem(Comma, Sub(t), TrueLit), [Cell("c", Int(n))];
    AliasCaptures.Sees(map[], t, n);
    AliasCaptures.PickOne(w, Col(t, "c"), Table(None, t, None), n, map[], Int(n));
    OneTable(w, it, map[]);
    MatchingStep(w, TrueLit, "d", [rec], [], map[]);
    assert [rec][1..] == [] && [] + [Bound("d", rec)] == [Bound("d", rec)] && [[Bound("d", rec)]] + [] == [[Bound("d", rec)]];
    assert EvalFactor(w, it.factor, [], map[]) == Ok([rec]);
  }

  /** `SELECT d.c, (_pg_expandarray()).n FROM (SELECT t.c FROM t) d`: a derived table's column keeps
      its qualifier, which nothing binds any more. */
  lemma DerivedAliasIsLost(m: Functions, w: World, t: string, n: int, v: Value)
    requires TableOf(w.tables, None, t) == Ok(AliasCaptures.One(n)) && m.srf("_pg_expandarray", []) == [v]
    ensures var l := Beside(Out(Column("d", "c")), Sub(t));
      && EvalListing(Postgres, m, w, l, map[]) == Ok([[Int(n), m.field(v, "n")]])
      && EvalListing(DataFusion, m, w, RewriteListing(l), map[]) == Error
  {
    var first, f := Out(Column("d", "c")), [Bound("d", [Cell("c", Int(n))])];
    SubFrom(w, t, n);
    AliasCaptures.Sees(map[], "d", n);
    WrittenAnswer(m, w, first, Sub(t), f, v, [Int(n)]);
    RewrittenAnswer(m, w, first, Sub(t), f, v);
    RewrittenPair(first, Sub(t));
    assert [Int(n)] + [m.field(v, "n")] == [Int(n), m.field(v, "n")];
    ColumnKept(Beside(first, Sub(t)).src.from);
    QualifierIsLost(m, ElementRow(map[], FrameCells(f), v));
  }

  lemma ColumnKept(from: seq<FromItem>)
    requires |from| == 1 && from[0].factor.Derived?
    ensures RewrittenItem(Out(Column("d", "c")), Expanding(), FromQualifiers(from)) == Out(Column("d", "c"))
  {
    assert FromQualifiers(from) == {};
    assert Redirected(Column("d", "c"), Expanding()) == Column("d", "c");
  }

  lemma QualifierIsLost(m: Functions, there: Row)
    requires "d" !in there.env
    ensures Results(DataFusion, m, [Out(Column("d", "c")), Out(Bracket(Name(COLUMN), "n"))], [there]) == Error
  {
    var first, items := Out(Column("d", "c")), [Out(Column("d", "c")), Out(Bracket(Name(COLUMN), "n"))];
    assert ItemAt(DataFusion, m, first, there, 0) == Error;
    PairAt(DataFusion, m, first, Bracket(Name(COLUMN), "n"), there, 0);
    PairSpans(DataFusion, m, first, Bracket(Name(COLUMN), "n"), there, []);
    assert StepRows(DataFusion, m, items, there, 0, 1) == Error && Steps([]) == 1;
    assert [there][0] == there && RowResults(DataFusion, m, items, there) == Error;
  }
}
