/** Run-time values of a query, with PostgreSQL's three-valued logic on them. */
module SqlValues {
  import opened Wrappers

  /** `Int` stands for every ordered scalar type; `Composite` is a row constructor's value. */
  datatype Value =
    | Null
    | Bool(b: bool)
    | Int(i: int)
    | Array(elems: seq<Value>)
    | Composite(cells: seq<Value>)

  const TRUE := Bool(true)
  const FALSE := Bool(false)

  /** A WHERE, HAVING or ON clause keeps a row exactly when its value is true. */
  predicate IsTrue(v: Value) {
    v == TRUE
  }

  function AndV(a: Value, b: Value): Value {
    if a == FALSE || b == FALSE then FALSE
    else if a == TRUE && b == TRUE then TRUE
    else Null
  }

  function OrV(a: Value, b: Value): Value {
    if a == TRUE || b == TRUE then TRUE
    else if a == FALSE && b == FALSE then FALSE
    else Null
  }

  function NotV(a: Value): Value {
    if a == TRUE then FALSE else if a == FALSE then TRUE else Null
  }

  /** `=`: unknown on NULL, element by element on two row constructors. */
  function EqV(a: Value, b: Value): Value {
    if a.Null? || b.Null? then Null
    else if a.Composite? && b.Composite? then
      if |a.cells| == |b.cells| then EqAll(a.cells, b.cells) else Null
    else Bool(a == b)
  }

  /** The conjunction of the pairwise equalities of two equally long rows. */
  function EqAll(xs: seq<Value>, ys: seq<Value>): Value
    requires |xs| == |ys|
  {
    if xs == [] then TRUE else AndV(EqV(xs[0], ys[0]), EqAll(xs[1..], ys[1..]))
  }

  /** The order `<`, `max` and `min` use: arrays and rows element by element, NULL inside them after
      every value. How it ranks values of different types is immaterial. */
  predicate Less(a: Value, b: Value) {
    if a.Bool? && b.Bool? then !a.b && b.b
    else if a.Int? && b.Int? then a.i < b.i
    else if a.Array? && b.Array? then LessSeq(a.elems, b.elems)
    else if a.Composite? && b.Composite? then LessSeq(a.cells, b.cells)
    else TypeRank(a) < TypeRank(b)
  }

  predicate LessSeq(xs: seq<Value>, ys: seq<Value>) {
    ys != [] && (xs == [] || Less(xs[0], ys[0]) || (xs[0] == ys[0] && LessSeq(xs[1..], ys[1..])))
  }

  function TypeRank(v: Value): nat {
    match v
    case Bool(_) => 0
    case Int(_) => 1
    case Array(_) => 2
    case Composite(_) => 3
    case Null => 4
  }

  /** The order is total: values neither of which comes first are the same. */
  lemma {:induction false} LessIsTotal(a: Value, b: Value)
    requires !Less(a, b) && !Less(b, a)
    ensures a == b
  {
    if a.Array? && b.Array? {
      LessSeqIsTotal(a.elems, b.elems);
    } else if a.Composite? && b.Composite? {
      LessSeqIsTotal(a.cells, b.cells);
    }
  }

  lemma {:induction false} LessSeqIsTotal(xs: seq<Value>, ys: seq<Value>)
    requires !LessSeq(xs, ys) && !LessSeq(ys, xs)
    ensures xs == ys
  {
    if xs != [] && ys != [] {
      LessIsTotal(xs[0], ys[0]);
      assert xs[0] == ys[0];
      LessSeqIsTotal(xs[1..], ys[1..]);
      assert xs == [xs[0]] + xs[1..] && ys == [ys[0]] + ys[1..];
    }
  }

  lemma {:induction false} LessIsOneWay(a: Value, b: Value)
    requires Less(a, b)
    ensures !Less(b, a)
  {
    if a.Array? && b.Array? {
      LessSeqIsOneWay(a.elems, b.elems);
    } else if a.Composite? && b.Composite? {
      LessSeqIsOneWay(a.cells, b.cells);
    }
  }

  lemma {:induction false} LessSeqIsOneWay(xs: seq<Value>, ys: seq<Value>)
    requires LessSeq(xs, ys)
    ensures !LessSeq(ys, xs)
  {
    if xs != [] {
      if Less(xs[0], ys[0]) {
        LessIsOneWay(xs[0], ys[0]);
      } else {
        LessSeqIsOneWay(xs[1..], ys[1..]);
      }
    }
  }

  lemma {:induction false} LessCarries(a: Value, b: Value, c: Value)
    requires !Less(a, b) && !Less(b, c)
    ensures !Less(a, c)
  {
    if a.Array? && b.Array? && c.Array? {
      LessSeqCarries(a.elems, b.elems, c.elems);
    } else if a.Composite? && b.Composite? && c.Composite? {
      LessSeqCarries(a.cells, b.cells, c.cells);
    }
  }

  lemma {:induction false} LessSeqCarries(xs: seq<Value>, ys: seq<Value>, zs: seq<Value>)
    requires !LessSeq(xs, ys) && !LessSeq(ys, zs)
    ensures !LessSeq(xs, zs)
  {
    if zs != [] && ys != [] && xs != [] {
      LessCarries(xs[0], ys[0], zs[0]);
      if xs[0] == zs[0] {
        LessIsTotal(xs[0], ys[0]);
        LessSeqCarries(xs[1..], ys[1..], zs[1..]);
      }
    }
  }

  datatype CmpOp = Eq | NotEq | Lt | LtEq | Gt | GtEq

  function Compare(op: CmpOp, a: Value, b: Value): Value {
    match op
    case Eq => EqV(a, b)
    case NotEq => NotV(EqV(a, b))
    case Lt => if a.Null? || b.Null? then Null else Bool(Less(a, b))
    case LtEq => if a.Null? || b.Null? then Null else Bool(!Less(b, a))
    case Gt => if a.Null? || b.Null? then Null else Bool(Less(b, a))
    case GtEq => if a.Null? || b.Null? then Null else Bool(!Less(a, b))
  }

  /** `x IN (...)` and `x = ANY(...)`: the disjunction of the equalities. */
  function AnyEqual(x: Value, ys: seq<Value>): Value {
    if ys == [] then FALSE else OrV(EqV(x, ys[0]), AnyEqual(x, ys[1..]))
  }

  /** `array[index]`: one-based, NULL outside the array's bounds. */
  function Subscripted(arr: Value, idx: Value): Value {
    if arr.Array? && idx.Int? && 1 <= idx.i <= |arr.elems| then arr.elems[idx.i - 1] else Null
  }

  /** The aggregates the passes recognise, over the values of one group. */
  datatype AggFn = Count | Sum | Max | Min

  function NonNull(vs: seq<Value>): seq<Value> {
    if vs == [] then [] else (if vs[0].Null? then [] else [vs[0]]) + NonNull(vs[1..])
  }

  function SumOf(vs: seq<Value>): int {
    if vs == [] then 0 else (if vs[0].Int? then vs[0].i else 0) + SumOf(vs[1..])
  }

  /** The position of the first largest value of a non-empty list. */
  function MaxAt(vs: seq<Value>): (k: nat)
    requires vs != []
    ensures k < |vs|
  {
    if |vs| == 1 then 0
    else
      var rest := 1 + MaxAt(vs[1..]);
      if Less(vs[0], vs[rest]) then rest else 0
  }

  function MinAt(vs: seq<Value>): (k: nat)
    requires vs != []
    ensures k < |vs|
  {
    if |vs| == 1 then 0
    else
      var rest := 1 + MinAt(vs[1..]);
      if Less(vs[rest], vs[0]) then rest else 0
  }

  function Aggregate(fn: AggFn, vs: seq<Value>): Value {
    var known := NonNull(vs);
    match fn
    case Count => Int(|known|)
    case Sum => if known == [] then Null else Int(SumOf(known))
    case Max => if known == [] then Null else known[MaxAt(known)]
    case Min => if known == [] then Null else known[MinAt(known)]
  }

  /** Folding the equalities from the left, as the passes write them, gives the row equality. */
  lemma {:induction false} AndAssociates(a: Value, b: Value, c: Value)
    ensures AndV(AndV(a, b), c) == AndV(a, AndV(b, c))
  {
  }

  /** A membership test is true exactly when one of the equalities is. */
  lemma {:induction false} AnyEqualIsTrue(x: Value, ys: seq<Value>)
    ensures IsTrue(AnyEqual(x, ys)) <==> exists k :: 0 <= k < |ys| && IsTrue(EqV(x, ys[k]))
  {
    if ys != [] {
      AnyEqualIsTrue(x, ys[1..]);
      if IsTrue(AnyEqual(x, ys[1..])) {
        var k :| 0 <= k < |ys[1..]| && IsTrue(EqV(x, ys[1..][k]));
        assert ys[k + 1] == ys[1..][k];
      }
      if k :| 0 <= k < |ys| && IsTrue(EqV(x, ys[k])) {
        if k > 0 {
          assert ys[1..][k - 1] == ys[k];
        }
      }
    }
  }
}
