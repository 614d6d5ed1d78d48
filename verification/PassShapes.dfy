/** Which written shapes no longer occur anywhere in the statement a pass returns. Each shape is
    written out here on the tree, apart from the pass that looks for it. */
module SubqueryShapes {
  import opened Wrappers
  import opened SqlValues
  import opened SqlAst
  import opened SqlVisit
  import opened SqlCarry
  import opened ExistsRewrites
  import opened BooleanSubquery
  import opened TupleRewrites
  import opened LimitToMax
  import ExistsPipeline
  import PassText

  // --- EXISTS --------------------------------------------------------------------------------

  /** No EXISTS over a SELECT without GROUP BY and HAVING. */
  predicate NoPlainExists(e: Expr, p: Pos) {
    !(e.Exists? && e.q.body.Select? && e.q.body.having.None? && e.q.body.groupBy == [])
  }

  lemma CountMeets(q: Query, negated: bool, p: Pos)
    requires Simple(q.body) && AllQ(NoPlainExists, q)
    ensures AllE(NoPlainExists, CountTest(q, negated), p)
  {
    var items := [Item(CountStar, None)];
    assert items[1..] == [] && AllE(NoPlainExists, CountStar, Exact);
    assert AllB(NoPlainExists, q.body);
    assert AllB(NoPlainExists, CountBody(q.body));
    assert AllE(NoPlainExists, Scalar(q.(body := CountBody(q.body))), Exact);
    assert AllE(NoPlainExists, Lit(Int(0)), Exact);
  }

  lemma CountLeaves()
    ensures StepCarries(ExistsToCount, Always, NoPlainExists)
  {
    forall e: Expr, k: nat, p: Pos | AllE(Always, e, p) ensures CarriesAt(ExistsToCount, NoPlainExists, e, k, p) {
      var kids := VisitKids(ExistsToCount, e, k).0;
      if kids.Exists? && Simple(kids.q.body) && AllKids(NoPlainExists, kids, p) {
        CountMeets(kids.q, kids.negated, p);
      }
    }
  }

  /** After the count pass, at any depth. */
  lemma EveryExistsIsCounted(q: Query)
    ensures AllQ(NoPlainExists, VisitQ(ExistsToCount, q, 0).0)
  {
    CountLeaves();
    AlwaysB(q.body);
    CarryQ(ExistsToCount, Always, NoPlainExists, q, 0);
  }

  /** No scalar subquery that selects one comparison, without GROUP BY, HAVING and DISTINCT. */
  predicate NoScalarTest(e: Expr, p: Pos) {
    !(e.Scalar? && e.q.body.Select? && |e.q.body.proj| == 1 && e.q.body.proj[0].Item? && e.q.body.proj[0].e.Cmp?
      && e.q.body.having.None? && e.q.body.groupBy == [] && !e.q.body.distinct)
  }

  lemma FoldedMeets(q: Query, p: Pos)
    requires PredicateBody(q.body) && AllQ(NoScalarTest, q)
    ensures AllE(NoScalarTest, PredicateExists(q), p)
  {
    var b, pred := q.body, q.body.proj[0].e;
    assert AllB(NoScalarTest, b);
    assert AllItems(NoScalarTest, b.proj) && AllOpt(NoScalarTest, b.selection) && AllItem(NoScalarTest, b.proj[0]);
    assert AllE(NoScalarTest, pred, Exact) && AllKids(NoScalarTest, pred, Truth) == AllKids(NoScalarTest, pred, Exact);
    var one := [Item(Lit(Int(1)), None)];
    assert one[1..] == [] && AllE(NoScalarTest, Lit(Int(1)), Exact) && AllItems(NoScalarTest, one);
    assert AllE(NoScalarTest, FoldedWhere(b), Truth) by {
      if b.selection.Some? {
        assert AllE(NoScalarTest, b.selection.value, Truth);
        assert AllE(NoScalarTest, Nested(b.selection.value), Truth) && AllE(NoScalarTest, Nested(pred), Truth);
      }
    }
    assert AllB(NoScalarTest, PredicateExists(q).q.body);
  }

  lemma TestLeaves()
    ensures StepCarries(BooleanToExists, Always, NoScalarTest)
  {
    forall e: Expr, k: nat, p: Pos | AllE(Always, e, p) ensures CarriesAt(BooleanToExists, NoScalarTest, e, k, p) {
      var kids := VisitKids(BooleanToExists, e, k).0;
      if kids.Scalar? && PredicateBody(kids.q.body) && AllKids(NoScalarTest, kids, p) {
        FoldedMeets(kids.q, p);
      }
    }
  }

  /** After the first pass no comparison stands as a scalar subquery, and after both no plain EXISTS
      is left, at any depth. */
  lemma PipelineLeaves(q: Query)
    ensures AllQ(NoScalarTest, VisitQ(BooleanToExists, q, 0).0)
    ensures AllQ(NoPlainExists, ExistsPipeline.Pipeline(q))
  {
    TestLeaves();
    AlwaysB(q.body);
    CarryQ(BooleanToExists, Always, NoScalarTest, q, 0);
    EveryExistsIsCounted(VisitQ(BooleanToExists, q, 0).0);
  }

  // --- rows in parentheses -------------------------------------------------------------------

  /** No membership of a row of several columns, negated or not, among plain columns. */
  predicate NoRowMembership(e: Expr, p: Pos) {
    !(e.InQuery? && e.e.Tuple? && |e.e.elems| > 1 && e.q.body.Select? && |e.q.body.proj| == |e.e.elems|
      && forall i :: 0 <= i < |e.q.body.proj| ==> e.q.body.proj[i].Item?)
  }

  lemma MembershipLeaves()
    ensures StepCarries(TupleInToExists, Always, NoRowMembership)
  {
    forall e: Expr, k: nat, p: Pos | AllE(Always, e, p) ensures CarriesAt(TupleInToExists, NoRowMembership, e, k, p) {
      var kids := VisitKids(TupleInToExists, e, k).0;
      if TupleMembership(kids) && AllKids(NoRowMembership, kids, p) {
        ExistsKeeps(NoRowMembership, kids, p);
      }
    }
  }

  /** After the pass, at any depth. */
  lemma EveryMembershipIsExists(q: Query)
    ensures AllQ(NoRowMembership, VisitQ(TupleInToExists, q, 0).0)
  {
    MembershipLeaves();
    AlwaysB(q.body);
    CarryQ(TupleInToExists, Always, NoRowMembership, q, 0);
  }

  /** No equality of two rows of the same length. */
  predicate NoRowEquality(e: Expr, p: Pos) {
    !(e.Cmp? && e.op == Eq && e.left.Tuple? && e.right.Tuple? && |e.left.elems| == |e.right.elems| && e.left.elems != [])
  }

  /** No row as an element of another. */
  predicate FlatRows(e: Expr, p: Pos) {
    e.Tuple? ==> NoTuples(e.elems)
  }

  predicate NoTuples(es: seq<Expr>) {
    forall i :: 0 <= i < |es| ==> !es[i].Tuple?
  }

  lemma {:induction false} StayFlat(es: seq<Expr>, k: nat)
    requires NoTuples(es)
    ensures NoTuples(VisitEs(TupleEquality, es, k).0)
    decreases |es|
  {
    if es != [] {
      PassText.TupleStays(es[0], k);
      StayFlat(es[1..], VisitE(TupleEquality, es[0], k).1);
    }
  }

  lemma {:induction false} ConjoinedMeets(acc: Expr, ls: seq<Expr>, rs: seq<Expr>, p: Pos)
    requires |ls| == |rs| && NoTuples(ls) && AllE(NoRowEquality, acc, p) && AllEs(NoRowEquality, ls) && AllEs(NoRowEquality, rs)
    ensures AllE(NoRowEquality, Conjoined(acc, ls, rs), p)
    decreases |ls|
  {
    if ls != [] {
      assert AllE(NoRowEquality, Cmp(Eq, ls[0], rs[0]), p);
      ConjoinedMeets(And(acc, Cmp(Eq, ls[0], rs[0])), ls[1..], rs[1..], p);
    }
  }

  lemma EqualityMeets(e: Expr, p: Pos)
    requires RowEquality(e) && NoTuples(e.left.elems) && AllKids(NoRowEquality, e, p)
    ensures AllE(NoRowEquality, TupleEquality(e, 0).0, p)
  {
    var ls, rs := e.left.elems, e.right.elems;
    assert AllE(NoRowEquality, e.left, Exact) && AllE(NoRowEquality, e.right, Exact);
    assert AllKids(NoRowEquality, e.left, Exact) && AllKids(NoRowEquality, e.right, Exact);
    assert AllEs(NoRowEquality, ls) && AllEs(NoRowEquality, rs);
    assert AllE(NoRowEquality, Cmp(Eq, ls[0], rs[0]), p);
    ConjoinedMeets(Cmp(Eq, ls[0], rs[0]), ls[1..], rs[1..], p);
  }

  lemma EqualityLeaves()
    ensures StepCarries(TupleEquality, FlatRows, NoRowEquality)
  {
    forall e: Expr, k: nat, p: Pos | AllE(FlatRows, e, p) ensures CarriesAt(TupleEquality, NoRowEquality, e, k, p) {
      var kids := VisitKids(TupleEquality, e, k).0;
      if RowEquality(kids) && AllKids(NoRowEquality, kids, p) {
        PassText.RowStays(e, k);
        PassText.TupleStays(e.left, k);
        assert RowEquality(e) && AllKids(FlatRows, e, p);
        assert AllE(FlatRows, e.left, Exact) && FlatRows(e.left, Exact);
        StayFlat(e.left.elems, k);
        EqualityMeets(kids, p);
      }
    }
  }

  /** After the pass, at any depth, when no row stands inside another. */
  lemma EveryRowIsCompared(q: Query)
    requires AllQ(FlatRows, q)
    ensures AllQ(NoRowEquality, VisitQ(TupleEquality, q, 0).0)
  {
    EqualityLeaves();
    CarryQ(TupleEquality, FlatRows, NoRowEquality, q, 0);
  }

  /** `((1, 2), 3) = ((4, 5), 6)` keeps `(1, 2) = (4, 5)`: the new equalities are not visited. */
  lemma RowInRowIsLeft(k: nat)
    ensures var inner, other := Tuple([Lit(Int(1)), Lit(Int(2))]), Tuple([Lit(Int(4)), Lit(Int(5))]);
            var e := Cmp(Eq, Tuple([inner, Lit(Int(3))]), Tuple([other, Lit(Int(6))]));
      && TupleEquality(e, k).0 == And(Cmp(Eq, inner, other), Cmp(Eq, Lit(Int(3)), Lit(Int(6))))
      && !AllE(NoRowEquality, TupleEquality(e, k).0, Truth)
  {
    var inner, other := Tuple([Lit(Int(1)), Lit(Int(2))]), Tuple([Lit(Int(4)), Lit(Int(5))]);
    var ls, rs := [inner, Lit(Int(3))], [other, Lit(Int(6))];
    assert ls[1..] == [Lit(Int(3))] && rs[1..] == [Lit(Int(6))] && ls[1..][1..] == [] && rs[1..][1..] == [];
    var first, second := Cmp(Eq, inner, other), Cmp(Eq, Lit(Int(3)), Lit(Int(6)));
    assert Conjoined(And(first, second), [], []) == And(first, second);
    assert !NoRowEquality(first, Truth) && !AllE(NoRowEquality, first, Truth);
  }
}

/** Which LIMIT 1 subqueries become `max`, told by the references they make. */
module LimitShapes {
  import opened Wrappers
  import opened SqlValues
  import opened SqlAst
  import opened SqlVisit
  import opened SqlCarry
  import opened SqlScope
  import opened SqlMentions
  import opened SqlOccurrences
  import opened SqlSayings
  import opened LimitToMax

  /** `LIMIT 1` without OFFSET over a SELECT of one item that holds no aggregate, without GROUP BY,
      HAVING and DISTINCT. */
  predicate PlainLimitOne(q: Query) {
    && q.limit == Some(1) && q.offset == 0 && q.body.Select?
    && q.body.groupBy == [] && q.body.having.None? && !q.body.distinct
    && |q.body.proj| == 1 && q.body.proj[0].Item?
    && AllE((e: Expr, p: Pos) => !e.CountStar? && !e.Agg?, q.body.proj[0].e, Exact)
  }

  /** A column whose qualifier, whatever its case, no item of the FROM answers to. */
  predicate Outward(from: seq<FromItem>, r: Ref) {
    r.Ref? && forall i :: 0 <= i < |from| ==> Lower(FactorName(from[i].factor)) != Lower(r.qual)
  }

  /** Everything the WHERE and the item refer to, at any depth. */
  function Mentioned(b: Body): set<Occurrence>
    requires b.Select?
  {
    SeenOpt(b.selection, {}) + SeenItems(b.proj, {})
  }

  predicate MentionsOuter(b: Body)
    requires b.Select?
  {
    exists o :: o in Mentioned(b) && Outward(b.from, o.ref)
  }

  function Inward(from: seq<FromItem>): RefTest {
    (r: Ref) => !Outward(from, r)
  }

  lemma SameTest(from: seq<FromItem>, e: Expr, p: Pos)
    ensures LocalColumn(LocalNames(from))(e, p) <==> Saying(Inward(from))(e, p)
  {
    if e.Col? && Lower(e.qual) in LocalNames(from) {
      var i :| 0 <= i < |from| && Lower(FactorName(from[i].factor)) == Lower(e.qual);
    }
  }

  /** The pass's own test is about these references. */
  lemma GuardExactly(b: Body)
    requires b.Select? && |b.proj| == 1 && b.proj[0].Item?
    ensures ReferencesOuter(b) <==> MentionsOuter(b)
  {
    var local, inward := LocalColumn(LocalNames(b.from)), Saying(Inward(b.from));
    forall e: Expr, p: Pos ensures local(e, p) <==> inward(e, p) {
      SameTest(b.from, e, p);
    }
    Weaken(local, inward);
    Weaken(inward, local);
    assert b.proj[1..] == [];
    assert AllItems(local, b.proj) <==> AllE(local, b.proj[0].e, Exact);
    assert AllItems(inward, b.proj) <==> AllE(inward, b.proj[0].e, Exact);
    SayOpt(Inward(b.from), b.selection, {});
    SayItems(Inward(b.from), b.proj, {});
    if MentionsOuter(b) {
      var o :| o in Mentioned(b) && Outward(b.from, o.ref);
      assert !Inward(b.from)(o.ref);
    }
  }

  /** One scalar subquery: replaced by its `max`, the LIMIT gone, exactly when it is a plain LIMIT 1
      and mentions an outer column; otherwise returned unchanged. */
  lemma LimitExactly(q: Query, k: nat)
    ensures LimitOneToMax(Scalar(q), k)
         == (if PlainLimitOne(q) && MentionsOuter(q.body) then
               Scalar(Query(Select([Item(Agg(Max, q.body.proj[0].e), None)], q.body.from, q.body.selection, [], None, false),
                            None, 0, q.site))
             else Scalar(q), k)
  {
    if q.body.Select? && |q.body.proj| == 1 && q.body.proj[0].Item? {
      GuardExactly(q.body);
      NoAggregates(q.body.proj[0].e);
    }
  }

  lemma NoAggregates(e: Expr)
    ensures AllE(NotAggregate, e, Exact) <==> AllE((x: Expr, p: Pos) => !x.CountStar? && !x.Agg?, e, Exact)
  {
    var plain := (x: Expr, p: Pos) => !x.CountStar? && !x.Agg?;
    Weaken(NotAggregate, plain);
    Weaken(plain, NotAggregate);
  }

  /** A reference that reaches outside the subquery is one of those it mentions: correlated plain
      LIMIT 1 subqueries are replaced. */
  lemma CorrelatedIsReplaced(q: Query, r: Ref, k: nat)
    requires PlainLimitOne(q) && r in FreeOpt(q.body.selection) + FreeItems(q.body.proj) && Outward(q.body.from, r)
    ensures LimitOneToMax(Scalar(q), k).0.Scalar?
    ensures var m := LimitOneToMax(Scalar(q), k).0.q;
      m.limit.None? && m.body.Select? && m.body.proj == [Item(Agg(Max, q.body.proj[0].e), None)]
  {
    VisibleOpt(q.body.selection, {});
    VisibleItems(q.body.proj, {});
    assert r in Without(FreeOpt(q.body.selection), {}) + Without(FreeItems(q.body.proj), {});
    var o :| o in Mentioned(q.body) && o.ref == r;
    LimitExactly(q, k);
  }

  /** One whose columns, at any depth, are all its own FROM's is returned as it was. */
  lemma UncorrelatedIsKept(q: Query, k: nat)
    requires q.body.Select? && forall o :: o in Mentioned(q.body) && o.ref.Ref? ==>
      exists i :: 0 <= i < |q.body.from| && Lower(FactorName(q.body.from[i].factor)) == Lower(o.ref.qual)
    ensures LimitOneToMax(Scalar(q), k) == (Scalar(q), k)
  {
    LimitExactly(q, k);
  }

  // --- the whole pass ------------------------------------------------------------------------

  predicate NoOuterLimit(e: Expr, p: Pos) {
    !(e.Scalar? && PlainLimitOne(e.q) && MentionsOuter(e.q.body))
  }

  lemma MaxMeets(q: Query, p: Pos)
    requires CorrelatedLimitOne(q) && AllQ(NoOuterLimit, q)
    ensures AllE(NoOuterLimit, Scalar(MaxOf(q)), p)
  {
    var b, m := q.body, MaxOf(q).body;
    assert AllB(NoOuterLimit, b) && AllItems(NoOuterLimit, b.proj) && AllItem(NoOuterLimit, b.proj[0]);
    assert m.proj[1..] == [] && AllE(NoOuterLimit, Agg(Max, b.proj[0].e), Exact) && AllItem(NoOuterLimit, m.proj[0]);
    assert AllItems(NoOuterLimit, m.proj) && AllB(NoOuterLimit, m);
  }

  /** After the pass no correlated plain LIMIT 1 is left, at any depth. */
  lemma EveryLimitIsMax(q: Query)
    ensures AllQ(NoOuterLimit, VisitQ(LimitOneToMax, q, 0).0)
  {
    forall e: Expr, k: nat, p: Pos | AllE(Always, e, p) ensures CarriesAt(LimitOneToMax, NoOuterLimit, e, k, p) {
      var (kids, k1) := VisitKids(LimitOneToMax, e, k);
      if kids.Scalar? && AllKids(NoOuterLimit, kids, p) {
        LimitExactly(kids.q, k1);
        if CorrelatedLimitOne(kids.q) {
          MaxMeets(kids.q, p);
        }
      }
    }
    AlwaysB(q.body);
    CarryQ(LimitOneToMax, Always, NoOuterLimit, q, 0);
  }
}

/** Every lateral aggregate joined into a FROM clause is replaced, whichever side names the table. */
module LateralShapes {
  import opened Wrappers
  import opened SqlValues
  import opened SqlAst
  import opened LateralAggregate
  import opened LateralSelect
  import Decimal

  /** An aggregate call, alone or under parentheses, comparisons, connectives, casts and operators. */
  predicate Computes(e: Expr) {
    match e
    case CountStar => true
    case Agg(_, _) => true
    case Nested(x) => Computes(x)
    case Not(x) => Computes(x)
    case Cmp(_, l, r) => Computes(l) || Computes(r)
    case And(l, r) => Computes(l) || Computes(r)
    case Or(l, r) => Computes(l) || Computes(r)
    case Call(fn, args) => fn != "" && fn[0] in ":+-*/<>=~!@#%^&|`?" && exists i :: 0 <= i < |args| && Computes(args[i])
    case _ => false
  }

  /** `[LEFT] JOIN LATERAL (SELECT ... FROM t WHERE l = r) d ON true` with an aggregate among the
      items, where one of l and r, and not the other, is a column of t. */
  predicate Lateral(it: FromItem) {
    && (it.kind.Inner? || it.kind.Left?) && it.on == Lit(TRUE) && it.factor.Derived? && it.factor.lateral
    && var b := it.factor.q.body;
      && b.Select? && b.groupBy == [] && |b.from| == 1
      && b.from[0].kind.Comma? && b.from[0].on == Lit(TRUE) && b.from[0].factor.Table?
      && b.selection.Some? && b.selection.value.Cmp? && b.selection.value.op == Eq
      && (KeyedLeft(b) || KeyedRight(b))
      && exists i :: 0 <= i < |b.proj| && b.proj[i].Item? && Computes(b.proj[i].e)
  }

  predicate OwnColumn(e: Expr, t: Factor)
    requires t.Table?
  {
    e.Col? && e.qual == if t.alias.Some? then t.alias.value else t.name
  }

  predicate KeyedLeft(b: Body)
    requires b.Select? && |b.from| == 1 && b.from[0].factor.Table? && b.selection.Some? && b.selection.value.Cmp?
  {
    OwnColumn(b.selection.value.left, b.from[0].factor) && !OwnColumn(b.selection.value.right, b.from[0].factor)
  }

  predicate KeyedRight(b: Body)
    requires b.Select? && |b.from| == 1 && b.from[0].factor.Table? && b.selection.Some? && b.selection.value.Cmp?
  {
    !OwnColumn(b.selection.value.left, b.from[0].factor) && OwnColumn(b.selection.value.right, b.from[0].factor)
  }

  /** The grouped join in its place. */
  function Grouped(it: FromItem, key: Expr, outer: Expr, name: string): FromItem
    requires it.factor.Derived? && it.factor.q.body.Select?
  {
    var q, d := it.factor.q, it.factor.given;
    var b := q.body.(proj := [Item(key, Some(name))] + q.body.proj, selection := None, groupBy := [key]);
    FromItem(it.kind, Derived(q.(body := b), d, false), Cmp(Eq, Col(d, name), outer))
  }

  lemma {:induction false} ComputesTriggers(e: Expr)
    requires Computes(e)
    ensures Triggers(e)
    decreases e
  {
    match e
    case Nested(x) => ComputesTriggers(x);
    case Not(x) => ComputesTriggers(x);
    case Cmp(_, l, r) => if Computes(l) { ComputesTriggers(l); } else { ComputesTriggers(r); }
    case And(l, r) => if Computes(l) { ComputesTriggers(l); } else { ComputesTriggers(r); }
    case Or(l, r) => if Computes(l) { ComputesTriggers(l); } else { ComputesTriggers(r); }
    case Call(_, args) =>
      var i :| 0 <= i < |args| && Computes(args[i]);
      ComputesTriggers(args[i]);
    case _ =>
  }

  lemma LateralIsSeen(it: FromItem, name: string)
    requires Lateral(it)
    ensures LateralShape(it)
    ensures var cmp := it.factor.q.body.selection.value;
      GroupedJoin(it, name) == (if KeyedLeft(it.factor.q.body) then Grouped(it, cmp.left, cmp.right, name)
                                else Grouped(it, cmp.right, cmp.left, name))
  {
    var b := it.factor.q.body;
    var i :| 0 <= i < |b.proj| && b.proj[i].Item? && Computes(b.proj[i].e);
    ComputesTriggers(b.proj[i].e);
  }

  lemma {:induction false} ItemAt(from: seq<FromItem>, k: nat, i: nat)
    requires i < |from|
    ensures var n := DecorrelateFrom(from[..i], k).1;
      && DecorrelateFrom(from, k).0[i] == (if LateralShape(from[i]) then GroupedJoin(from[i], KeyName(n)) else from[i])
      && DecorrelateFrom(from[..i + 1], k).1 == (if LateralShape(from[i]) then n + 1 else n)
      && DecorrelateFrom(from[..i + 1], k).1 <= DecorrelateFrom(from, k).1
    decreases |from|
  {
    var n := |from| - 1;
    assert from[..i + 1][..i] == from[..i];
    if i < n {
      ItemAt(from[..n], k, i);
      assert from[..n][..i] == from[..i] && from[..n][..i + 1] == from[..i + 1];
    } else {
      assert from[..i + 1] == from;
    }
  }

  /** Each lateral aggregate of the clause comes out as the grouped join under the next key, grouped
      by its own column and joined on the other side. */
  lemma LateralIsGrouped(from: seq<FromItem>, k: nat, i: nat)
    requires i < |from| && Lateral(from[i])
    ensures var b, name := from[i].factor.q.body, KEY + Decimal.OfNat(DecorrelateFrom(from[..i], k).1);
      && b.Select? && b.selection.Some? && b.selection.value.Cmp?
      && DecorrelateFrom(from, k).0[i]
         == (if KeyedLeft(b) then Grouped(from[i], b.selection.value.left, b.selection.value.right, name)
             else Grouped(from[i], b.selection.value.right, b.selection.value.left, name))
  {
    ItemAt(from, k, i);
    LateralIsSeen(from[i], KeyName(DecorrelateFrom(from[..i], k).1));
  }

  /** No two share a key. */
  lemma KeysDiffer(from: seq<FromItem>, k: nat, i: nat, j: nat)
    requires i < j < |from| && Lateral(from[i])
    ensures KEY + Decimal.OfNat(DecorrelateFrom(from[..i], k).1) != KEY + Decimal.OfNat(DecorrelateFrom(from[..j], k).1)
  {
    var a, b := DecorrelateFrom(from[..i], k).1, DecorrelateFrom(from[..j], k).1;
    LateralIsSeen(from[i], "");
    ItemAt(from[..j], k, i);
    assert from[..j][..i] == from[..i] && from[..j][..i + 1] == from[..i + 1];
    if KEY + Decimal.OfNat(a) == KEY + Decimal.OfNat(b) {
      assert (KEY + Decimal.OfNat(a))[|KEY|..] == Decimal.OfNat(a) && (KEY + Decimal.OfNat(b))[|KEY|..] == Decimal.OfNat(b);
      Decimal.NatInjective(a, b);
    }
  }

  /** None is left. */
  lemma NoLateralIsLeft(from: seq<FromItem>, k: nat, i: nat)
    requires i < |from|
    ensures !Lateral(DecorrelateFrom(from, k).0[i])
  {
    ItemAt(from, k, i);
    var out := DecorrelateFrom(from, k).0[i];
    if Lateral(out) {
      LateralIsSeen(out, "");
    }
  }
}

/** An array walk by its indexes is always replaced, under any casts and either way round. */
module ArrayShapes {
  import opened Wrappers
  import opened SqlValues
  import opened SqlAst
  import opened SqlVisit
  import opened SqlMentions
  import opened ArrayIteration

  /** An expression in parentheses and casts around `core`. */
  predicate Around(e: Expr, core: Expr) {
    || e == core
    || (e.Nested? && Around(e.e, core))
    || (e.Call? && IsCast(e.fn) && |e.args| == 1 && Around(e.args[0], core))
  }

  /** Not itself in parentheses or a cast. */
  predicate Core(e: Expr) {
    !e.Nested? && !(e.Call? && IsCast(e.fn) && |e.args| == 1)
  }

  /** `array_upper(arr, 1)` or `array_length(arr, 1)`, in parentheses and casts at every place. */
  predicate Bounds(e: Expr, arr: Expr) {
    || (e.Nested? && Bounds(e.e, arr))
    || (e.Call? && IsCast(e.fn) && |e.args| == 1 && Bounds(e.args[0], arr))
    || (e.Call? && (e.fn == "array_upper" || e.fn == "array_length") && |e.args| == 2
        && Around(e.args[0], arr) && Around(e.args[1], Lit(Int(1))))
  }

  /** A conjunction with one equation, either way round, between a value and a subscript by `s`. */
  predicate WalksIn(cond: Expr, s: string) {
    match cond
    case And(l, r) => (WalksIn(l, s) && AllE(Silent({s}), r, Truth)) || (AllE(Silent({s}), l, Truth) && WalksIn(r, s))
    case Nested(x) => WalksIn(x, s)
    case Cmp(op, l, r) => op == Eq && (Steps(r, l, s) || Steps(l, r, s))
    case _ => false
  }

  predicate Steps(e: Expr, v: Expr, s: string) {
    && e.Index? && !e.arr.Index? && e.idx == Bare(s)
    && AllE(Silent({s}), e.arr, Exact) && AllE(Silent({s}), v, Exact)
  }

  /** The same condition with the equation turned into `value = ANY(arr)`. */
  function Membership(cond: Expr, s: string, arr: Expr): Expr
    requires WalksIn(cond, s)
  {
    match cond
    case And(l, r) => if WalksIn(l, s) then And(Membership(l, s, arr), r) else And(l, Membership(r, s, arr))
    case Nested(x) => Nested(Membership(x, s, arr))
    case Cmp(_, l, r) => if Steps(r, l, s) then AnyOf(l, arr) else AnyOf(r, arr)
  }

  lemma {:induction false} Peels(e: Expr, core: Expr)
    requires Around(e, core) && Core(core)
    ensures Uncast(e) == core
    decreases e
  {
    if e != core {
      if e.Nested? {
        Peels(e.e, core);
      } else {
        Peels(e.args[0], core);
      }
    }
  }

  lemma {:induction false} BoundSeen(e: Expr, arr: Expr)
    requires Bounds(e, arr) && Core(arr)
    ensures var b := Uncast(e);
      && b.Call? && b.fn in {"array_upper", "array_length"} && |b.args| == 2
      && Uncast(b.args[0]) == arr && Uncast(b.args[1]) == Lit(Int(1))
    decreases e
  {
    if e.Nested? {
      BoundSeen(e.e, arr);
    } else if IsCast(e.fn) && |e.args| == 1 {
      BoundSeen(e.args[0], arr);
    } else {
      Peels(e.args[0], arr);
      Peels(e.args[1], Lit(Int(1)));
    }
  }

  lemma {:induction false} FirstIs(from: seq<FromItem>, q: nat, p: nat)
    requires q <= p < |from| && Alone(from, p) && IndexedArray(from[p].factor).Some?
    requires forall i :: q <= i < p ==> !from[i].factor.Series?
    ensures FirstSeries(from, q) == Some(p)
    decreases p - q
  {
    if q < p {
      FirstIs(from, q + 1, p);
    }
  }

  lemma {:induction false} WalkSpeaks(cond: Expr, s: string)
    requires WalksIn(cond, s)
    ensures !AllE(Silent({s}), cond, Truth)
  {
    match cond
    case And(l, r) => if WalksIn(l, s) { WalkSpeaks(l, s); } else { WalkSpeaks(r, s); }
    case Nested(x) => WalkSpeaks(x, s);
    case Cmp(_, l, r) => if Steps(r, l, s) { SubscriptSpeaks(r, s); } else { SubscriptSpeaks(l, s); }
  }

  /** What the visit makes of it: one replacement, and nothing names the series any more. */
  lemma {:induction false} WalkReplaced(cond: Expr, s: string, arr: Expr, k: nat)
    requires WalksIn(cond, s) && AllE(Silent({s}), arr, Exact)
    ensures VisitE(ToAny(s, arr), cond, k) == (Membership(cond, s, arr), k + 1)
    ensures AllE(Silent({s}), Membership(cond, s, arr), Truth)
    decreases cond
  {
    match cond
    case And(l, r) =>
      if WalksIn(l, s) {
        WalkReplaced(l, s, arr, k);
        WalkSpeaks(l, s);
        SilentUntouched(s, arr, r, Truth, k + 1);
      } else {
        SilentUntouched(s, arr, l, Truth, k);
        WalkReplaced(r, s, arr, k);
      }
    case Nested(x) => WalkReplaced(x, s, arr, k);
    case Cmp(_, l, r) =>
      if Steps(r, l, s) {
        EquationReplaced(cond, l, r, s, arr, k);
      } else {
        EquationReplaced(cond, r, l, s, arr, k);
      }
  }

  lemma EquationReplaced(cond: Expr, v: Expr, e: Expr, s: string, arr: Expr, k: nat)
    requires cond.Cmp? && cond.op == Eq && ((cond.left == v && cond.right == e) || (cond.left == e && cond.right == v))
    requires Steps(e, v, s) && AllE(Silent({s}), arr, Exact)
    ensures VisitE(ToAny(s, arr), cond, k) == (AnyOf(v, arr), k + 1)
    ensures AllE(Silent({s}), AnyOf(v, arr), Truth)
  {
    SilentUntouched(s, arr, v, Exact, k);
    SilentUntouched(s, arr, e.arr, Exact, k);
    assert VisitE(ToAny(s, arr), Bare(s), k) == (Bare(s), k);
    assert VisitE(ToAny(s, arr), e, k) == (e, k);
    assert VisitKids(ToAny(s, arr), cond, k) == (cond, k);
    NoSubscript(s, v);
  }

  /** One SELECT: a FROM entry of its own `generate_series(lo, array_upper(arr, 1)) s`, the first
      series of the FROM and not its only item, and a WHERE that walks by `s`, which nothing else
      names: the series goes and the equation becomes a membership test. */
  lemma WalkIsMembership(b: Body, p: nat, s: string, arr: Expr)
    requires b.Select? && |b.from| >= 2 && p < |b.from| && (forall i :: 0 <= i < p ==> !b.from[i].factor.Series?)
    requires (p == 0 || b.from[p].kind.Comma?) && (p + 1 == |b.from| || b.from[p + 1].kind.Comma?)
    requires b.from[p].factor.Series? && b.from[p].factor.given == s && Bounds(b.from[p].factor.hi, arr) && Core(arr)
    requires b.selection.Some? && WalksIn(b.selection.value, s) && AllE(Silent({s}), arr, Exact)
    requires AllItems(Silent({s}), b.proj) && AllEs(Silent({s}), b.groupBy) && AllOpt(Silent({s}), b.having)
    requires forall i :: 0 <= i < |b.from| && i != p ==> AllFromItem(Silent({s}), b.from[i])
    ensures IndexToAny(b) == b.(from := b.from[..p] + b.from[p + 1..], selection := Some(Membership(b.selection.value, s, arr)))
  {
    BoundSeen(b.from[p].factor.hi, arr);
    FirstIs(b.from, 0, p);
    WalkReplaced(b.selection.value, s, arr, 0);
    RestIsSilent(Silent({s}), b.from, p);
    assert AllB(Silent({s}), Candidate(b, p));
  }

  lemma RestIsSilent(ok: Check, from: seq<FromItem>, p: nat)
    requires p < |from| && forall i :: 0 <= i < |from| && i != p ==> AllFromItem(ok, from[i])
    ensures AllFrom(ok, from[..p] + from[p + 1..])
  {
    var rest := from[..p] + from[p + 1..];
    EachItem(ok, rest);
    forall i | 0 <= i < |rest| ensures AllFromItem(ok, rest[i]) {
      assert rest[i] == if i < p then from[i] else from[i + 1];
    }
  }

  /** A series that an item of the SELECT still names is left where it is. */
  lemma NamedSeriesStays(b: Body, p: nat)
    requires b.Select? && FirstSeries(b.from, 0) == Some(p) && !AllItems(Silent({b.from[p].factor.given}), b.proj)
    ensures IndexToAny(b) == b
  {
    if b.selection.Some? {
      assert Candidate(b, p).proj == b.proj;
    }
  }
}

/** Set-returning calls of a projection: what is left of them after the rewrite. */
module SrfShapes {
  import opened Wrappers
  import opened SqlAst
  import opened ProjectionSrf
  import opened UnnestedProjection

  /** `(call).field` for this call occurs in the expression, at any depth. */
  predicate Reads(e: PExpr, call: PExpr)
    decreases e, 0
  {
    match e
    case Apply(_, args) => ReadsEach(args, call)
    case Srf(_, args) => ReadsEach(args, call)
    case Dot(x, _) => (x.Srf? && x == call) || Reads(x, call)
    case Bracket(x, _) => Reads(x, call)
    case Unnest(x) => Reads(x, call)
    case _ => false
  }

  predicate ReadsEach(es: seq<PExpr>, call: PExpr)
    decreases es, 0
  {
    es != [] && (Reads(es[0], call) || ReadsEach(es[1..], call))
  }

  /** Every `(some call).field` in the expression passes the test. */
  predicate OnlyReads(e: PExpr, test: PExpr -> bool)
    decreases e, 0
  {
    match e
    case Apply(_, args) => OnlyReadsEach(args, test)
    case Srf(_, args) => OnlyReadsEach(args, test)
    case Dot(x, _) => (x.Srf? ==> test(x)) && OnlyReads(x, test)
    case Bracket(x, _) => OnlyReads(x, test)
    case Unnest(x) => OnlyReads(x, test)
    case _ => true
  }

  predicate OnlyReadsEach(es: seq<PExpr>, test: PExpr -> bool)
    decreases es, 0
  {
    es == [] || (OnlyReads(es[0], test) && OnlyReadsEach(es[1..], test))
  }

  function Is(call: PExpr): PExpr -> bool { (x: PExpr) => x == call }

  function None(): PExpr -> bool { (x: PExpr) => false }

  lemma {:induction false} ReadIsListed(e: PExpr, call: PExpr)
    requires call.Srf?
    ensures call in Accesses(e) <==> Reads(e, call)
    decreases e, 0
  {
    match e
    case Apply(_, args) => ReadsAreListed(args, call);
    case Srf(_, args) => ReadsAreListed(args, call);
    case Dot(x, _) => ReadIsListed(x, call);
    case Bracket(x, _) => ReadIsListed(x, call);
    case Unnest(x) => ReadIsListed(x, call);
    case _ =>
  }

  lemma {:induction false} ReadsAreListed(es: seq<PExpr>, call: PExpr)
    requires call.Srf?
    ensures call in AccessesEach(es) <==> ReadsEach(es, call)
    decreases es, 0
  {
    if es != [] {
      ReadIsListed(es[0], call);
      ReadsAreListed(es[1..], call);
    }
  }

  lemma {:induction false} ListedAreCalls(e: PExpr, test: PExpr -> bool)
    ensures OnlyReads(e, test) <==> forall x :: x in Accesses(e) ==> test(x)
    ensures forall x :: x in Accesses(e) ==> x.Srf?
    decreases e, 0
  {
    match e
    case Apply(_, args) => AllListedAreCalls(args, test);
    case Srf(_, args) => AllListedAreCalls(args, test);
    case Dot(x, _) => ListedAreCalls(x, test);
    case Bracket(x, _) => ListedAreCalls(x, test);
    case Unnest(x) => ListedAreCalls(x, test);
    case _ =>
  }

  lemma {:induction false} AllListedAreCalls(es: seq<PExpr>, test: PExpr -> bool)
    ensures OnlyReadsEach(es, test) <==> forall x :: x in AccessesEach(es) ==> test(x)
    ensures forall x :: x in AccessesEach(es) ==> x.Srf?
    decreases es, 0
  {
    if es != [] {
      ListedAreCalls(es[0], test);
      AllListedAreCalls(es[1..], test);
    }
  }

  /** Some item reads a field of the call; none reads one of a call that fails the test. */
  predicate SomeReads(items: seq<PItem>, call: PExpr) {
    exists i :: 0 <= i < |items| && items[i].Out? && Reads(items[i].e, call)
  }

  predicate AllRead(items: seq<PItem>, test: PExpr -> bool) {
    forall i :: 0 <= i < |items| && items[i].Out? ==> OnlyReads(items[i].e, test)
  }

  lemma {:induction false} ItemsListed(items: seq<PItem>, call: PExpr, test: PExpr -> bool)
    requires call.Srf?
    ensures call in AccessesItems(items) <==> SomeReads(items, call)
    ensures AllRead(items, test) <==> forall x :: x in AccessesItems(items) ==> test(x)
  {
    if items != [] {
      var n := |items| - 1;
      var front, last := items[..n], items[n];
      ItemsListed(front, call, test);
      assert forall i :: 0 <= i < n ==> front[i] == items[i];
      if last.Out? {
        ReadIsListed(last.e, call);
        ListedAreCalls(last.e, test);
      }
      if SomeReads(items, call) && !SomeReads(front, call) {
        var i :| 0 <= i < |items| && items[i].Out? && Reads(items[i].e, call);
        assert i == n;
      }
    }
  }

  lemma UsageIs(items: seq<PItem>, call: PExpr)
    requires call.Srf? && SomeReads(items, call) && AllRead(items, Is(call))
    ensures UsageOf(AccessesItems(items)) == Single(call)
  {
    ItemsListed(items, call, Is(call));
    var all := AccessesItems(items);
    forall i | 0 <= i < |all| ensures all[i] == call {
      assert all[i] in all;
    }
  }

  // --- what the redirection leaves -----------------------------------------------------------

  lemma {:induction false} NoneRedirected(e: PExpr, call: PExpr)
    requires OnlyReads(e, None())
    ensures Redirected(e, call) == e
    decreases e, 0
  {
    match e
    case Apply(_, args) => NoneRedirectedEach(args, call);
    case Srf(_, args) => NoneRedirectedEach(args, call);
    case Dot(x, _) => NoneRedirected(x, call);
    case Bracket(x, _) => NoneRedirected(x, call);
    case Unnest(x) => NoneRedirected(x, call);
    case _ =>
  }

  lemma {:induction false} NoneRedirectedEach(es: seq<PExpr>, call: PExpr)
    requires OnlyReadsEach(es, None())
    ensures RedirectedEach(es, call) == es
    decreases es, 0
  {
    if es != [] {
      NoneRedirected(es[0], call);
      NoneRedirectedEach(es[1..], call);
      assert [es[0]] + es[1..] == es;
    }
  }

  /** No field of a call is read any more. */
  lemma {:induction false} Gone(e: PExpr, call: PExpr, quals: set<string>)
    requires OnlyReads(e, Is(call)) && call.Srf? && OnlyReads(call, None())
    ensures OnlyReads(Redirected(e, call), None()) && OnlyReads(Requalified(Redirected(e, call), quals), None())
    ensures e.Srf? == Redirected(e, call).Srf? && Requalified(Redirected(e, call), quals).Srf? == e.Srf?
    decreases e, 0
  {
    match e
    case Apply(_, args) => GoneEach(args, call, quals);
    case Srf(_, args) => GoneEach(args, call, quals);
    case Dot(x, _) =>
      Gone(x, call, quals);
      NoneRedirected(call, call);
    case Bracket(x, _) => Gone(x, call, quals);
    case Unnest(x) => Gone(x, call, quals);
    case _ =>
  }

  lemma {:induction false} GoneEach(es: seq<PExpr>, call: PExpr, quals: set<string>)
    requires OnlyReadsEach(es, Is(call)) && call.Srf? && OnlyReads(call, None())
    ensures OnlyReadsEach(RedirectedEach(es, call), None()) && OnlyReadsEach(RequalifiedEach(RedirectedEach(es, call), quals), None())
    decreases es, 0
  {
    if es != [] {
      Gone(es[0], call, quals);
      GoneEach(es[1..], call, quals);
      assert RedirectedEach(es, call)[1..] == RedirectedEach(es[1..], call);
      assert RequalifiedEach(RedirectedEach(es, call), quals)
          == [Requalified(Redirected(es[0], call), quals)] + RequalifiedEach(RedirectedEach(es[1..], call), quals);
    }
  }

  /** A SELECT whose field accesses are all on one call, however often and however deep: the call is
      unnested in the new derived table, and no item reads a field of a call or is that call. */
  lemma OneCallIsUnnested(l: Listing, call: PExpr)
    requires l.src.Written? && call.Srf? && SomeReads(l.items, call) && AllRead(l.items, Is(call)) && OnlyReads(call, None())
    ensures var r := RewriteListing(l);
      && r.src == Unnesting(l.src.from, l.src.selection, call) && |r.items| == |l.items| && r.distinct == l.distinct
      && forall i :: 0 <= i < |r.items| ==>
           r.items[i].Star? == l.items[i].Star?
           && (r.items[i].Out? ==> OnlyReads(r.items[i].e, None()) && (l.items[i].e == call ==> r.items[i].e == Name(COLUMN)))
  {
    UsageIs(l.items, call);
    var quals := FromQualifiers(l.src.from);
    forall i | 0 <= i < |l.items| && l.items[i].Out?
      ensures OnlyReads(RewrittenItem(l.items[i], call, quals).e, None())
    {
      Gone(l.items[i].e, call, quals);
    }
  }

  /** One without field accesses: every item that is a call is wrapped, everything else stays. */
  lemma WholeCallsAreWrapped(l: Listing)
    requires l.src.Written? && AllRead(l.items, None())
    ensures var r := RewriteListing(l);
      && r.src == l.src && |r.items| == |l.items| && r.distinct == l.distinct
      && forall i :: 0 <= i < |r.items| ==>
           r.items[i] == if l.items[i].Out? && l.items[i].e.Srf? then Out(Unnest(l.items[i].e)) else l.items[i]
  {
    ItemsListed(l.items, Srf("", []), None());
    FirstMeets(AccessesItems(l.items), None());
  }

  lemma FirstMeets<T>(xs: seq<T>, test: T -> bool)
    requires forall x :: x in xs ==> test(x)
    ensures xs == [] || test(xs[0])
  {
  }

  /** One that reads fields of two different calls is left as written. */
  lemma TwoCallsAreLeft(l: Listing, a: PExpr, b: PExpr)
    requires a.Srf? && b.Srf? && a != b && SomeReads(l.items, a) && SomeReads(l.items, b)
    ensures RewriteListing(l) == l
  {
    ItemsListed(l.items, a, None());
    ItemsListed(l.items, b, None());
    var all := AccessesItems(l.items);
    var i :| 0 <= i < |all| && all[i] == a;
    var j :| 0 <= j < |all| && all[j] == b;
  }
}
