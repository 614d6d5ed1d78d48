/** Sequences up to order and repetition, and what functions of their elements keep of that. */
module Bags {
  import opened SqlValues
  import opened LimitToMax
  import opened Flats

  /** The same elements; as often, too, when `exact`. */
  ghost predicate Same<T(!new)>(exact: bool, xs: seq<T>, ys: seq<T>) {
    && (forall x :: x in xs <==> x in ys)
    && (exact ==> multiset(xs) == multiset(ys))
  }

  lemma {:induction false} FlatMembers<T, U>(f: T -> seq<U>, xs: seq<T>, u: U)
    ensures u in Flat(f, xs) <==> exists x :: x in xs && u in f(x)
  {
    if xs != [] {
      FlatMembers(f, xs[1..], u);
      assert xs == [xs[0]] + xs[1..];
    }
  }

  /** A list without the element at one position. */
  function Dropped<T>(ys: seq<T>, i: nat): seq<T>
    requires i < |ys|
  {
    ys[..i] + ys[i + 1..]
  }

  lemma DroppedBag<T>(ys: seq<T>, i: nat)
    requires i < |ys|
    ensures multiset(ys) == multiset{ys[i]} + multiset(Dropped(ys, i))
  {
    assert ys == ys[..i] + [ys[i]] + ys[i + 1..];
  }

  lemma FlatDropped<T, U>(f: T -> seq<U>, ys: seq<T>, i: nat)
    requires i < |ys|
    ensures multiset(Flat(f, ys)) == multiset(f(ys[i])) + multiset(Flat(f, Dropped(ys, i)))
  {
    SplitAt(ys, i);
    FlatAround(f, ys[..i], ys[i], ys[i + 1..]);
  }

  lemma SplitAt<T>(ys: seq<T>, i: nat)
    requires i < |ys|
    ensures ys == (ys[..i] + [ys[i]]) + ys[i + 1..] && Dropped(ys, i) == ys[..i] + ys[i + 1..]
  {
  }

  lemma FlatAround<T, U>(f: T -> seq<U>, before: seq<T>, x: T, after: seq<T>)
    ensures multiset(Flat(f, (before + [x]) + after)) == multiset(f(x)) + multiset(Flat(f, before + after))
  {
    FlatAppend(f, before + [x], after);
    FlatAppend(f, before, [x]);
    FlatAppend(f, before, after);
    FlatOne(f, x);
    MiddleBag(Flat(f, before), f(x), Flat(f, after));
  }

  lemma MiddleBag<U>(a: seq<U>, x: seq<U>, b: seq<U>)
    ensures multiset((a + x) + b) == multiset(x) + multiset(a + b)
  {
  }

  lemma HeadElsewhere<T>(xs: seq<T>, ys: seq<T>) returns (i: nat)
    requires xs != [] && multiset(xs) == multiset(ys)
    ensures i < |ys| && ys[i] == xs[0] && multiset(xs[1..]) == multiset(Dropped(ys, i))
  {
    assert xs == [xs[0]] + xs[1..];
    assert xs[0] in multiset(ys);
    i :| i < |ys| && ys[i] == xs[0];
    DroppedBag(ys, i);
    assert multiset(xs[1..]) == multiset(xs) - multiset{xs[0]};
    assert multiset(Dropped(ys, i)) == multiset(ys) - multiset{ys[i]};
  }

  lemma {:induction false} FlatBag<T, U>(f: T -> seq<U>, xs: seq<T>, ys: seq<T>)
    requires multiset(xs) == multiset(ys)
    ensures multiset(Flat(f, xs)) == multiset(Flat(f, ys))
    decreases |xs|
  {
    if xs == [] {
      assert |multiset(ys)| == |ys|;
    } else {
      var i := HeadElsewhere(xs, ys);
      FlatBag(f, xs[1..], Dropped(ys, i));
      FlatDropped(f, ys, i);
      assert Flat(f, xs) == f(xs[0]) + Flat(f, xs[1..]);
    }
  }

  /** Lists alike stay alike element by element. */
  lemma FlatSame<T(!new), U(!new)>(exact: bool, f: T -> seq<U>, xs: seq<T>, ys: seq<T>)
    requires Same(exact, xs, ys)
    ensures Same(exact, Flat(f, xs), Flat(f, ys))
  {
    forall u ensures u in Flat(f, xs) <==> u in Flat(f, ys) {
      FlatMembers(f, xs, u);
      FlatMembers(f, ys, u);
    }
    if exact {
      FlatBag(f, xs, ys);
    }
  }

  // --- aggregates ----------------------------------------------------------------------------

  function Known(): Value -> seq<Value> {
    (v: Value) => if v.Null? then [] else [v]
  }

  lemma {:induction false} NonNullIsFlat(vs: seq<Value>)
    ensures NonNull(vs) == Flat(Known(), vs)
  {
    if vs != [] {
      NonNullIsFlat(vs[1..]);
    }
  }

  lemma {:induction false} SumDropped(vs: seq<Value>, i: nat)
    requires i < |vs|
    ensures SumOf(vs) == SumOf([vs[i]]) + SumOf(Dropped(vs, i))
  {
    assert [vs[i]][1..] == [];
    if i == 0 {
      assert Dropped(vs, 0) == vs[1..];
    } else {
      SumDropped(vs[1..], i - 1);
      assert Dropped(vs, i)[1..] == Dropped(vs[1..], i - 1) && Dropped(vs, i)[0] == vs[0];
    }
  }

  lemma {:induction false} SumOfBag(xs: seq<Value>, ys: seq<Value>)
    requires multiset(xs) == multiset(ys)
    ensures SumOf(xs) == SumOf(ys)
    decreases |xs|
  {
    if xs == [] {
      assert |multiset(ys)| == |ys|;
    } else {
      var i := HeadElsewhere(xs, ys);
      SumOfBag(xs[1..], Dropped(ys, i));
      SumDropped(ys, i);
      SumDropped(xs, 0);
      assert Dropped(xs, 0) == xs[1..];
    }
  }

  lemma {:induction false} MinAtIsLeast(vs: seq<Value>)
    requires vs != []
    ensures forall i :: 0 <= i < |vs| ==> !Less(vs[i], vs[MinAt(vs)])
  {
    if |vs| > 1 {
      MinAtIsLeast(vs[1..]);
      var rest := 1 + MinAt(vs[1..]);
      forall i | 0 <= i < |vs| ensures !Less(vs[i], vs[MinAt(vs)]) {
        assert i > 0 ==> vs[1..][i - 1] == vs[i] && !Less(vs[i], vs[rest]);
        assert MinAt(vs) == if Less(vs[rest], vs[0]) then rest else 0;
        if Less(vs[rest], vs[0]) {
          LessIsOneWay(vs[rest], vs[0]);
        } else if i > 0 {
          LessCarries(vs[i], vs[rest], vs[0]);
        } else if Less(vs[0], vs[0]) {
          LessIsOneWay(vs[0], vs[0]);
        }
      }
    } else if Less(vs[0], vs[0]) {
      LessIsOneWay(vs[0], vs[0]);
    }
  }

  lemma SameExtremes(xs: seq<Value>, ys: seq<Value>)
    requires xs != [] && ys != [] && forall v :: v in xs <==> v in ys
    ensures xs[MaxAt(xs)] == ys[MaxAt(ys)] && xs[MinAt(xs)] == ys[MinAt(ys)]
  {
    MaxAtIsLargest(xs);
    MaxAtIsLargest(ys);
    assert xs[MaxAt(xs)] in ys && ys[MaxAt(ys)] in xs;
    LessIsTotal(xs[MaxAt(xs)], ys[MaxAt(ys)]);
    MinAtIsLeast(xs);
    MinAtIsLeast(ys);
    assert xs[MinAt(xs)] in ys && ys[MinAt(ys)] in xs;
    LessIsTotal(xs[MinAt(xs)], ys[MinAt(ys)]);
  }

  /** An aggregate does not look at the order of its values; `max` and `min` not at repetitions. */
  lemma AggregateAgrees(exact: bool, fn: AggFn, xs: seq<Value>, ys: seq<Value>)
    requires Same(exact, xs, ys) && (exact || fn == Max || fn == Min)
    ensures Aggregate(fn, xs) == Aggregate(fn, ys)
  {
    var a, b := NonNull(xs), NonNull(ys);
    NonNullIsFlat(xs);
    NonNullIsFlat(ys);
    FlatSame(exact, Known(), xs, ys);
    assert (a == [] || a[0] in b) && (b == [] || b[0] in a);
    if a != [] {
      SameExtremes(a, b);
    }
    if exact {
      assert |multiset(a)| == |multiset(b)|;
      SumOfBag(a, b);
    }
  }

  // --- DISTINCT ------------------------------------------------------------------------------

  /** One of each. */
  predicate Single<T(==)>(xs: seq<T>) {
    forall i, j :: 0 <= i < j < |xs| ==> xs[i] != xs[j]
  }

  lemma SingleCounts<T>(xs: seq<T>)
    requires Single(xs)
    ensures forall x :: multiset(xs)[x] == if x in xs then 1 else 0
  {
    forall x ensures multiset(xs)[x] == if x in xs then 1 else 0 {
      SingleCount(xs, x);
    }
  }

  lemma {:induction false} SingleCount<T>(xs: seq<T>, x: T)
    requires Single(xs)
    ensures multiset(xs)[x] == if x in xs then 1 else 0
  {
    if xs != [] {
      SingleCount(xs[1..], x);
      assert xs == [xs[0]] + xs[1..];
      assert xs[0] !in xs[1..];
    }
  }

  lemma SingleSame<T>(xs: seq<T>, ys: seq<T>)
    requires Single(xs) && Single(ys) && forall x :: x in xs <==> x in ys
    ensures multiset(xs) == multiset(ys)
  {
    SingleCounts(xs);
    SingleCounts(ys);
  }
}
