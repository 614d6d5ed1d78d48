/** Lists put together from the lists their elements stand for. */
module Flats {
  function Flat<T, U>(f: T -> seq<U>, xs: seq<T>): seq<U> {
    if xs == [] then [] else f(xs[0]) + Flat(f, xs[1..])
  }

  lemma FlatStep<T, U>(f: T -> seq<U>, x: T, xs: seq<T>)
    ensures Flat(f, [x] + xs) == f(x) + Flat(f, xs)
  {
    assert ([x] + xs)[1..] == xs;
  }

  lemma Regroup<U>(a: seq<U>, b: seq<U>, c: seq<U>)
    ensures a + (b + c) == (a + b) + c
  {
  }

  lemma {:induction false} FlatAppend<T, U>(f: T -> seq<U>, xs: seq<T>, ys: seq<T>)
    ensures Flat(f, xs + ys) == Flat(f, xs) + Flat(f, ys)
  {
    if xs == [] {
      assert xs + ys == ys;
    } else {
      var x, rest := xs[0], xs[1..];
      assert xs == [x] + rest && xs + ys == [x] + (rest + ys);
      FlatAppend(f, rest, ys);
      FlatStep(f, x, rest);
      FlatStep(f, x, rest + ys);
      Regroup(f(x), Flat(f, rest), Flat(f, ys));
    }
  }

  lemma FlatOne<T, U>(f: T -> seq<U>, x: T)
    ensures Flat(f, [x]) == f(x)
  {
    FlatStep(f, x, []);
    assert [x] + [] == [x] && f(x) + [] == f(x);
  }
}
