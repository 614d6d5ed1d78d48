/** When one subquery's aliases leave a reference reading the same record, whatever the data. */
module AliasExactness {
  import opened Wrappers
  import opened SqlValues
  import opened SqlAst
  import opened SqlEval
  import opened SqlScope
  import opened SqlOccurrences
  import opened AliasTables
  import opened AliasedFrom
  import opened AliasChecks
  import opened AliasRenaming

  /** The items of a FROM a place sees, under their old and their new names. */
  ghost predicate Moves(m: Renaming, own: seq<string>, moved: seq<string>) {
    && |own| == |moved| && DistinctStrings(own) && DistinctStrings(moved)
    && (forall i :: 0 <= i < |own| ==> moved[i] == Rn(m, own[i]) && own[i] !in m.Values)
    && (forall x :: x in m ==> m[x] != x)
  }

  /** Under those items stands `outer`, over them `inner`, all that the FROM clauses between the
      place and the reference bind: these keep their names. */
  ghost predicate FindsTheSame(m: Renaming, own: seq<string>, moved: seq<string>, between: set<string>, r: Ref) {
    forall outer: Env, f: Frame, inner: Env | |f| == |own| && Quals(f, own) && inner.Keys == between ::
      Found(map[], Push(outer, f) + inner, r) == Found(m, Push(outer, Rebind(f, moved)) + inner, r)
  }

  /** The old or the new name of an item that gets another. */
  predicate Touched(own: seq<string>, moved: seq<string>, x: string) {
    exists i :: 0 <= i < |own| && i < |moved| && own[i] != moved[i] && (x == own[i] || x == moved[i])
  }

  /** A renamed reference sees its item and meets neither its old nor its new name in between; one
      that is left as written, and would now meet a given alias or no longer meet its table, is
      bound in between. */
  predicate Unhidden(m: Renaming, own: seq<string>, moved: seq<string>, between: set<string>, r: Ref) {
    if r.Ref? && r.qual in m then r.qual in own && r.qual !in between && m[r.qual] !in between
    else Touched(own, moved, r.qual) ==> r.qual in between
  }

  /** A name of the frame is found in it, any other outside. */
  lemma PushLooks(outer: Env, f: Frame, names: seq<string>, x: string)
    requires Quals(f, names) && DistinctStrings(names) && |f| == |names|
    ensures x !in names ==> (x in Push(outer, f) <==> x in outer) && (x in outer ==> Push(outer, f)[x] == outer[x])
    ensures forall i :: 0 <= i < |names| && names[i] == x ==> x in Push(outer, f) && Push(outer, f)[x] == f[i].rec
  {
    if i :| 0 <= i < |names| && names[i] == x {
      FrameLooks(f, names, i);
    } else {
      FrameMisses(f, names, x);
    }
  }

  lemma UnhiddenFinds(m: Renaming, own: seq<string>, moved: seq<string>, r: Ref, outer: Env, f: Frame, inner: Env)
    requires Moves(m, own, moved) && |f| == |own| && Quals(f, own) && Unhidden(m, own, moved, inner.Keys, r)
    ensures Found(map[], Push(outer, f) + inner, r) == Found(m, Push(outer, Rebind(f, moved)) + inner, r)
  {
    var g, to := Rebind(f, moved), if r.Ref? then Rn(m, r.qual) else r.qual;
    PushLooks(outer, f, own, r.qual);
    PushLooks(outer, g, moved, to);
    if r.Ref? && r.qual in m {
      var i :| 0 <= i < |own| && own[i] == r.qual;
      assert moved[i] == to && g[i].rec == f[i].rec;
    } else if r.qual !in inner {
      assert !Touched(own, moved, r.qual);
      if i :| 0 <= i < |own| && (own[i] == r.qual || moved[i] == r.qual) {
        assert own[i] == moved[i] && g[i].rec == f[i].rec;
      }
    }
  }

  /** Data that tells the names apart: zero in the items themselves, three under the reference's name
      around them, and in between one under the reference's name and two under every other. */
  function Own(own: seq<string>, c: string): Frame {
    seq(|own|, i requires 0 <= i < |own| => Bound(own[i], [Cell(c, Int(0))]))
  }

  function Around(x: string, c: string): Env {
    map[x := [Cell(c, Int(3))]]
  }

  function Between(between: set<string>, x: string, c: string): Env {
    map y | y in between :: [Cell(c, Int(if y == x then 1 else 2))]
  }

  /** What a place then reads under a name. */
  lemma ReadAt(names: seq<string>, f: Frame, between: set<string>, x: string, c: string, y: string)
    requires DistinctStrings(names) && |f| == |names| && Quals(f, names)
    requires forall i :: 0 <= i < |f| ==> f[i].rec == [Cell(c, Int(0))]
    ensures Look(Push(Around(x, c), f) + Between(between, x, c), y, c)
         == if y in between then Ok(Int(if y == x then 1 else 2))
            else if y in names then Ok(Int(0)) else if y == x then Ok(Int(3)) else Error
  {
    PushLooks(Around(x, c), f, names, y);
    if i :| 0 <= i < |names| && names[i] == y {
      assert Push(Around(x, c), f)[y] == f[i].rec;
    }
  }

  lemma HiddenDiffers(m: Renaming, own: seq<string>, moved: seq<string>, between: set<string>, r: Ref, c: string)
    requires Moves(m, own, moved) && !Unhidden(m, own, moved, between, r) && c == (if r.Ref? then r.name else r.qual)
    ensures var f, outer, inner := Own(own, c), Around(r.qual, c), Between(between, r.qual, c);
      Found(map[], Push(outer, f) + inner, r) != Found(m, Push(outer, Rebind(f, moved)) + inner, r)
  {
    var f, to := Own(own, c), if r.Ref? then Rn(m, r.qual) else r.qual;
    ReadAt(own, f, between, r.qual, c, r.qual);
    ReadAt(moved, Rebind(f, moved), between, r.qual, c, to);
    if !(r.Ref? && r.qual in m) {
      var i :| 0 <= i < |own| && own[i] != moved[i] && (r.qual == own[i] || r.qual == moved[i]);
      MovedOnce(m, own, moved, i);
    }
  }

  /** An item with a new name leaves its old name to nobody, and takes its new one from nobody. */
  lemma MovedOnce(m: Renaming, own: seq<string>, moved: seq<string>, i: nat)
    requires Moves(m, own, moved) && i < |own| && own[i] != moved[i]
    ensures own[i] !in moved && moved[i] !in own && own[i] in m
  {
    assert m[own[i]] in m.Values;
    forall j | 0 <= j < |moved| ensures moved[j] != own[i] {
      assert own[j] in m ==> m[own[j]] in m.Values;
    }
  }

  /** A reference always finds the same exactly when nothing hides its item. */
  lemma ReadsExactly(m: Renaming, own: seq<string>, moved: seq<string>, between: set<string>, r: Ref)
    requires Moves(m, own, moved)
    ensures FindsTheSame(m, own, moved, between, r) <==> Unhidden(m, own, moved, between, r)
  {
    if Unhidden(m, own, moved, between, r) {
      forall outer: Env, f: Frame, inner: Env | |f| == |own| && Quals(f, own) && inner.Keys == between
        ensures Found(map[], Push(outer, f) + inner, r) == Found(m, Push(outer, Rebind(f, moved)) + inner, r)
      {
        UnhiddenFinds(m, own, moved, r, outer, f, inner);
      }
    } else {
      var c := if r.Ref? then r.name else r.qual;
      HiddenDiffers(m, own, moved, between, r, c);
      assert Quals(Own(own, c), own) && Between(between, r.qual, c).Keys == between;
    }
  }

  // --- in the names of one FROM clause -------------------------------------------------------

  /** The aliases a FROM clause is given, with the counter at `k`. */
  function GivenAliases(from: seq<FromItem>, k: nat): set<string> {
    Pairs(from, k).Values
  }

  /** Written names that differ, none of the form of a generated one. */
  predicate Plain(from: seq<FromItem>) {
    DistinctStrings(OwnNames(from)) && forall i :: 0 <= i < |from| ==> !Generated(OwnNames(from)[i])
  }

  lemma BareAreRenamed(from: seq<FromItem>, k: nat)
    requires DistinctStrings(OwnNames(from))
    ensures Pairs(from, k).Keys == BareNames(from)
  {
    PairsOnlyOwn(from, k);
    forall x | x in BareNames(from) ensures x in Pairs(from, k) {
      var i :| 0 <= i < |from| && Unaliased(from[i]) && from[i].factor.name == x;
      PairAt(from, k, i);
      assert OwnNames(from)[i] == x;
    }
  }

  /** A place that sees the first `n` items. */
  lemma PrefixMoves(m: Renaming, own: seq<string>, moved: seq<string>, n: nat)
    requires Renames(m, own, moved) && n <= |own|
    ensures Moves(m, own[..n], moved[..n])
  {
  }

  /** The new name of an item is another one exactly when the item is a bare table. */
  lemma BareChanges(from: seq<FromItem>, k: nat, i: nat)
    requires Plain(from) && i < |from|
    ensures OwnNames(from)[i] != NewNames(from, k)[i] <==> Unaliased(from[i])
    ensures Unaliased(from[i]) ==> OwnNames(from)[i] == from[i].factor.name
    ensures Unaliased(from[i]) ==> NewNames(from, k)[i] == SubName(AliasFrom(from[..i], k).1)
  {
    NewNameAt(from, k, i);
    SubNameGenerated(AliasFrom(from[..i], k).1);
  }

  lemma GivenAt(from: seq<FromItem>, k: nat, n: nat, i: nat)
    requires Plain(from) && i < n <= |from| && Unaliased(from[i])
    ensures NewNames(from, k)[i] in GivenAliases(from[..n], k) && OwnNames(from)[i] in BareNames(from[..n])
  {
    BareChanges(from, k, i);
    assert OwnNames(from[..n]) == OwnNames(from)[..n];
    PairAt(from[..n], k, i);
    assert from[..n][..i] == from[..i] && from[..n][i] == from[i];
    assert Pairs(from[..n], k)[OwnNames(from)[i]] == NewNames(from, k)[i];
  }

  lemma GivenComes(from: seq<FromItem>, k: nat, n: nat, x: string) returns (i: nat)
    requires Plain(from) && n <= |from| && x in BareNames(from[..n]) + GivenAliases(from[..n], k)
    ensures i < n && Unaliased(from[i]) && (x == OwnNames(from)[i] || x == NewNames(from, k)[i])
  {
    var own := OwnNames(from);
    assert OwnNames(from[..n]) == own[..n];
    BareAreRenamed(from[..n], k);
    var key := if x in BareNames(from[..n]) then x else var y :| y in Pairs(from[..n], k) && Pairs(from[..n], k)[y] == x; y;
    i :| 0 <= i < n && Unaliased(from[..n][i]) && from[..n][i].factor.name == key;
    assert from[..n][i] == from[i] && from[..n][..i] == from[..i];
    BareChanges(from, k, i);
    PairAt(from[..n], k, i);
  }

  lemma TouchedIsBare(from: seq<FromItem>, k: nat, n: nat, x: string)
    requires Plain(from) && n <= |from|
    ensures Touched(OwnNames(from)[..n], NewNames(from, k)[..n], x) <==> x in BareNames(from[..n]) + GivenAliases(from[..n], k)
  {
    var own, moved := OwnNames(from)[..n], NewNames(from, k)[..n];
    if i :| 0 <= i < |own| && i < |moved| && own[i] != moved[i] && (x == own[i] || x == moved[i]) {
      BareChanges(from, k, i);
      GivenAt(from, k, n, i);
    }
    if x in BareNames(from[..n]) + GivenAliases(from[..n], k) {
      var i := GivenComes(from, k, n, x);
      BareChanges(from, k, i);
      assert own[i] != moved[i];
    }
  }

  /** A reference at a place that sees the first `n` items, with `between` bound in between. */
  predicate Reached(from: seq<FromItem>, k: nat, n: nat, between: set<string>, r: Ref)
    requires n <= |from|
  {
    if r.Ref? && r.qual in BareNames(from)
    then r.qual in BareNames(from[..n]) && r.qual !in between && Rn(Pairs(from, k), r.qual) !in between
    else r.qual in BareNames(from[..n]) + GivenAliases(from[..n], k) ==> r.qual in between
  }

  ghost predicate StaysAt(from: seq<FromItem>, k: nat, n: nat, between: set<string>, r: Ref)
    requires n <= |from|
  {
    FindsTheSame(Pairs(from, k), OwnNames(from)[..n], NewNames(from, k)[..n], between, r)
  }

  lemma BareIsOwn(from: seq<FromItem>, n: nat, x: string)
    requires DistinctStrings(OwnNames(from)) && n <= |from| && x in BareNames(from)
    ensures x in OwnNames(from)[..n] <==> x in BareNames(from[..n])
  {
    var i :| 0 <= i < |from| && Unaliased(from[i]) && from[i].factor.name == x;
    assert OwnNames(from)[i] == x;
    if i < n {
      assert from[..n][i] == from[i] && OwnNames(from)[..n][i] == x;
    }
    if x in BareNames(from[..n]) {
      var j :| 0 <= j < n && Unaliased(from[..n][j]) && from[..n][j].factor.name == x;
      assert OwnNames(from)[j] == x;
    }
  }

  /** The pass at one FROM clause of distinct written names: a reference to a bare table must see it,
      past the names in between, old and new; any other must not run into a given alias. */
  lemma AliasedReadsExactly(from: seq<FromItem>, k: nat, n: nat, between: set<string>, r: Ref)
    requires Plain(from) && n <= |from|
    ensures StaysAt(from, k, n, between, r) <==> Reached(from, k, n, between, r)
  {
    var m, own, moved := Pairs(from, k), OwnNames(from), NewNames(from, k);
    AliasesRename(from, k);
    BareAreRenamed(from, k);
    PrefixMoves(m, own, moved, n);
    TouchedIsBare(from, k, n, r.qual);
    if r.qual in BareNames(from) {
      BareIsOwn(from, n, r.qual);
    }
    ReadsExactly(m, own[..n], moved[..n], between, r);
  }

  lemma TouchedIsRenamed(m: Renaming, own: seq<string>, moved: seq<string>, x: string)
    requires Renames(m, own, moved)
    ensures Touched(own, moved, x) <==> x in m || x in m.Values
    ensures x in m ==> x in own && x !in m.Values
  {
    if x in m.Keys + m.Values {
      var y := if x in m then x else var z :| z in m && m[z] == x; z;
      var i :| 0 <= i < |own| && own[i] == y;
      assert m[y] in m.Values && moved[i] == m[y] && own[i] != moved[i];
    }
  }

  /** Where the whole FROM is seen and nothing stands in between, this is the condition the
      whole-pass theorem puts on references. */
  lemma CarriedExactly(m: Renaming, own: seq<string>, moved: seq<string>, r: Ref)
    requires Renames(m, own, moved)
    ensures FindsTheSame(m, own, moved, {}, r) <==> Carried(m, own, |own|, {r})
  {
    PrefixMoves(m, own, moved, |own|);
    assert own[..|own|] == own && moved[..|moved|] == moved;
    ReadsExactly(m, own, moved, {}, r);
    TouchedIsRenamed(m, own, moved, r.qual);
  }

  // --- one whole subquery --------------------------------------------------------------------

  /** Every reference of the subquery that its own FROM may answer, at any depth: those of the
      clauses, which see all items, and those of each item and its ON condition. */
  ghost predicate EveryReference(b: Body, good: (nat, Occurrence) -> bool)
    requires b.Select?
  {
    && (forall o :: o in SeenClauses(b, {}) ==> good(|b.from|, o))
    && (forall i, o :: 0 <= i < |b.from| && o in SeenE(b.from[i].on, {}) ==> good(i + 1, o))
    && (forall i, o :: 0 <= i < |b.from| && o in SeenFactor(b.from[i].factor, {}, {}) ==> good(SeesTo(b.from[i].factor, i), o))
  }

  /** Giving an unqualified table the catalog's schema keeps what it stands for, found or not. */
  ghost predicate StandsForTheSame(ts: Tables, t: Factor, k: nat) {
    t.Table? ==> TableOf(ts, t.schema, t.name) == TableOf(ts, AliasFactor(t, k).0.schema, t.name)
  }

  /** One subquery: whatever rows the FROM items have, every reference reads the record it read and
      every table is the table it was, exactly when each reference reaches its item and each
      unqualified table is the catalog's or found nowhere. */
  lemma OneStepExactly(ts: Tables, b: Body, k: nat)
    requires b.Select? && Plain(b.from)
    ensures && EveryReference(b, (n: nat, o: Occurrence) => n <= |b.from| && StaysAt(b.from, k, n, o.between, o.ref))
            && (forall i :: 0 <= i < |b.from| ==> StandsForTheSame(ts, b.from[i].factor, k))
       <==> && EveryReference(b, (n: nat, o: Occurrence) => n <= |b.from| && Reached(b.from, k, n, o.between, o.ref))
            && (forall i :: 0 <= i < |b.from| ==> InCatalog(ts, b.from[i].factor))
  {
    forall n: nat, o: Occurrence | n <= |b.from|
      ensures StaysAt(b.from, k, n, o.between, o.ref) <==> Reached(b.from, k, n, o.between, o.ref)
    {
      AliasedReadsExactly(b.from, k, n, o.between, o.ref);
    }
    forall i | 0 <= i < |b.from| ensures StandsForTheSame(ts, b.from[i].factor, k) <==> InCatalog(ts, b.from[i].factor) {
    }
  }
}
