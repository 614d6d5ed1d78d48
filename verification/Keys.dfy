/** Rows with a key: the keys they use, and whether any is used twice. */
module Keys {
  function KeysOf<T, K(==)>(key: T -> K, xs: seq<T>): set<K> {
    set i | 0 <= i < |xs| :: key(xs[i])
  }

  predicate DistinctKeys<T, K(==)>(key: T -> K, xs: seq<T>) {
    forall i, j :: 0 <= i < j < |xs| ==> key(xs[i]) != key(xs[j])
  }

  lemma KeysAppend<T, K>(key: T -> K, xs: seq<T>, ys: seq<T>)
    ensures KeysOf(key, xs + ys) == KeysOf(key, xs) + KeysOf(key, ys)
  {
    forall k | k in KeysOf(key, xs + ys) ensures k in KeysOf(key, xs) + KeysOf(key, ys) {
      var i :| 0 <= i < |xs + ys| && key((xs + ys)[i]) == k;
      if i < |xs| {
        assert key(xs[i]) == k;
      } else {
        assert key(ys[i - |xs|]) == k;
      }
    }
    forall k | k in KeysOf(key, xs) ensures k in KeysOf(key, xs + ys) {
      var i :| 0 <= i < |xs| && key(xs[i]) == k;
      assert key((xs + ys)[i]) == k;
    }
    forall k | k in KeysOf(key, ys) ensures k in KeysOf(key, xs + ys) {
      var i :| 0 <= i < |ys| && key(ys[i]) == k;
      assert key((xs + ys)[|xs| + i]) == k;
    }
  }

  lemma DistinctAppend<T, K>(key: T -> K, xs: seq<T>, ys: seq<T>)
    ensures DistinctKeys(key, xs + ys) <==>
      DistinctKeys(key, xs) && DistinctKeys(key, ys) && KeysOf(key, xs) !! KeysOf(key, ys)
  {
    var zs := xs + ys;
    if DistinctKeys(key, zs) {
      forall i, j | 0 <= i < j < |ys| ensures key(ys[i]) != key(ys[j]) {
        assert zs[|xs| + i] == ys[i] && zs[|xs| + j] == ys[j];
      }
      forall i, j | 0 <= i < j < |xs| ensures key(xs[i]) != key(xs[j]) {
        assert zs[i] == xs[i] && zs[j] == xs[j];
      }
      forall k | k in KeysOf(key, xs) ensures k !in KeysOf(key, ys) {
        var i :| 0 <= i < |xs| && key(xs[i]) == k;
        forall j | 0 <= j < |ys| ensures key(ys[j]) != k {
          assert zs[i] == xs[i] && zs[|xs| + j] == ys[j];
        }
      }
    }
    if DistinctKeys(key, xs) && DistinctKeys(key, ys) && KeysOf(key, xs) !! KeysOf(key, ys) {
      forall i, j | 0 <= i < j < |zs| ensures key(zs[i]) != key(zs[j]) {
        if i < |xs| <= j {
          assert key(xs[i]) in KeysOf(key, xs) && key(ys[j - |xs|]) in KeysOf(key, ys);
        }
      }
    }
  }

  lemma {:induction false} Twice<T>(xs: seq<T>, x: T)
    requires multiset(xs)[x] >= 2
    ensures exists i, j :: 0 <= i < j < |xs| && xs[i] == x && xs[j] == x
  {
    var n := |xs| - 1;
    assert xs == xs[..n] + [xs[n]];
    if xs[n] == x {
      assert x in multiset(xs[..n]);
      var i :| 0 <= i < n && xs[..n][i] == x;
      assert xs[i] == x && xs[n] == x;
    } else {
      Twice(xs[..n], x);
      var i, j :| 0 <= i < j < n && xs[..n][i] == x && xs[..n][j] == x;
      assert xs[i] == x && xs[j] == x;
    }
  }

  lemma CountTwo<T>(xs: seq<T>, i: nat, j: nat)
    requires i < j < |xs| && xs[i] == xs[j]
    ensures multiset(xs)[xs[i]] >= 2
  {
    assert xs == xs[..j] + xs[j..];
    assert xs[..j][i] in multiset(xs[..j]) && xs[j..][0] in multiset(xs[j..]);
  }

  /** Whether keys repeat does not depend on the order. */
  lemma PermutedKeys<T, K>(key: T -> K, xs: seq<T>, ys: seq<T>)
    requires multiset(xs) == multiset(ys) && DistinctKeys(key, xs)
    ensures DistinctKeys(key, ys)
  {
    forall i, j | 0 <= i < j < |ys| ensures key(ys[i]) != key(ys[j]) {
      if ys[i] == ys[j] {
        CountTwo(ys, i, j);
        Twice(xs, ys[i]);
      } else {
        assert ys[i] in multiset(ys) && ys[j] in multiset(ys);
        var a :| 0 <= a < |xs| && xs[a] == ys[i];
        var b :| 0 <= b < |xs| && xs[b] == ys[j];
        assert key(xs[a]) != key(xs[b]);
      }
    }
  }
}
