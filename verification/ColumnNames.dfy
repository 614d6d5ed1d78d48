/** Unique aliases for the client's columns and their way back, and the renaming of duplicate
    columns inside nested SELECTs. */
module ColumnNames {
  import opened Wrappers
  import opened SqlValues
  import opened SqlAst
  import opened Keys
  import Decimal

  function Alias(n: nat): string {
    "alias_" + Decimal.OfNat(n)
  }

  lemma AliasInjective(a: nat, b: nat)
    requires Alias(a) == Alias(b)
    ensures a == b
  {
    assert Alias(a)[6..] == Decimal.OfNat(a) && Alias(b)[6..] == Decimal.OfNat(b);
    Decimal.NatInjective(a, b);
  }

  function AggName(f: AggFn): string {
    match f
    case Count => "count"
    case Sum => "sum"
    case Max => "max"
    case Min => "min"
  }

  /** A call written with an operator of these characters rather than with a name. */
  predicate IsOperator(fn: string) {
    fn != "" && fn[0] in "+-*/<>=~!@#%^&|`?"
  }

  /** The name PostgreSQL reports for a column without an alias: a cast's is its type's, and an
      operator has none. */
  function PgName(e: Expr): string {
    match e
    case Col(_, c) => c
    case Bare(x) => x
    case Call(fn, args) => if IsCast(fn) && |args| == 1 then fn[2..] else if IsOperator(fn) then "?column?" else fn
    case CountStar => "count"
    case Agg(f, _) => AggName(f)
    case _ => "?column?"
  }

  /** Which name that is, case by case. */
  lemma ReportedNames()
    ensures forall q, c :: PgName(Col(q, c)) == c
    ensures forall name, x :: PgName(Call("::" + name, [x])) == name
    ensures forall fn: string, args: seq<Expr> :: fn != "" && ('a' <= fn[0] <= 'z' || fn[0] == '_') ==> PgName(Call(fn, args)) == fn
    ensures PgName(CountStar) == "count"
    ensures forall x :: PgName(Agg(Count, x)) == "count" && PgName(Agg(Sum, x)) == "sum" && PgName(Agg(Max, x)) == "max" && PgName(Agg(Min, x)) == "min"
    ensures forall e: Expr :: !e.Col? && !e.Bare? && !e.Call? && !e.CountStar? && !e.Agg? ==> PgName(e) == "?column?"
  {
    forall name: string, x ensures PgName(Call("::" + name, [x])) == name {
      assert ("::" + name)[..2] == "::" && ("::" + name)[2..] == name;
    }
    forall fn: string, args | fn != "" && ('a' <= fn[0] <= 'z' || fn[0] == '_') ensures PgName(Call(fn, args)) == fn {
      assert "::"[0] == ':' && (|fn| >= 2 ==> fn[..2][0] == fn[0]);
      NoOperatorLetter(fn[0]);
    }
  }

  lemma NoOperatorLetter(c: char)
    requires 'a' <= c <= 'z' || c == '_'
    ensures c !in "+-*/<>=~!@#%^&|`?"
  {
  }

  /** The next number and the names recorded so far. */
  datatype Tally = Tally(next: nat, names: map<string, string>)

  // --- aliasing ------------------------------------------------------------------------------

  function AliasItem(it: Item, t: Tally): (Item, Tally) {
    if it.Wildcard? || it.alias.Some? then (it, t)
    else (Item(it.e, Some(Alias(t.next))), Tally(t.next + 1, t.names[Alias(t.next) := PgName(it.e)]))
  }

  function AliasItems(items: seq<Item>, t: Tally): (seq<Item>, Tally) {
    if items == [] then ([], t)
    else
      var (front, t1) := AliasItems(items[..|items| - 1], t);
      var (last, t2) := AliasItem(items[|items| - 1], t1);
      (front + [last], t2)
  }

  method AliasProjection(items: seq<Item>, t: Tally) returns (aliased: seq<Item>, next: nat, names: map<string, string>)
    ensures (aliased, Tally(next, names)) == AliasItems(items, t)
  {
    aliased, next, names := [], t.next, t.names;
    for i := 0 to |items|
      invariant (aliased, Tally(next, names)) == AliasItems(items[..i], t)
    {
      assert items[..i + 1][..i] == items[..i];
      var it := items[i];
      if it.Item? && it.alias.None? {
        var alias := Alias(next);
        next := next + 1;
        names := names[alias := PgName(it.e)];
        aliased := aliased + [Item(it.e, Some(alias))];
      } else {
        aliased := aliased + [it];
      }
    }
    assert items[..|items|] == items;
  }

  /** Only projections at depth 0 are aliased; parentheses and set operations keep the depth, and
      of a FROM only the first relation of each comma-separated entry is entered. */
  function AliasB(b: Body, t: Tally, depth: nat): (Body, Tally)
    decreases b, 0
  {
    match b
    case Select(proj, from, selection, groupBy, having, distinct) =>
      var (proj1, t1) := if depth == 0 then AliasItems(proj, t) else (proj, t);
      var (from1, t2) := AliasFrom(from, t1, depth + 1);
      (Select(proj1, from1, selection, groupBy, having, distinct), t2)
    case Union(l, r, all) =>
      var (l1, t1) := AliasB(l, t, depth);
      var (r1, t2) := AliasB(r, t1, depth);
      (Union(l1, r1, all), t2)
    case Paren(q) =>
      var (q1, t1) := AliasQ(q, t, depth);
      (Paren(q1), t1)
  }

  function AliasQ(q: Query, t: Tally, depth: nat): (Query, Tally)
    decreases q, 0
  {
    var (body, t1) := AliasB(q.body, t, depth);
    (q.(body := body), t1)
  }

  function AliasFrom(from: seq<FromItem>, t: Tally, depth: nat): (seq<FromItem>, Tally)
    decreases from, 0
  {
    if from == [] then ([], t)
    else
      var n := |from| - 1;
      var (front, t1) := AliasFrom(from[..n], t, depth);
      var (last, t2) := AliasFromItem(from[n], n == 0, t1, depth);
      (front + [last], t2)
  }

  function AliasFromItem(it: FromItem, first: bool, t: Tally, depth: nat): (FromItem, Tally)
    decreases it, 0
  {
    if first || it.kind.Comma? then
      var (factor, t1) := AliasFactor(it.factor, t, depth);
      (it.(factor := factor), t1)
    else (it, t)
  }

  function AliasFactor(f: Factor, t: Tally, depth: nat): (Factor, Tally)
    decreases f, 0
  {
    match f
    case Derived(q, given, lateral) =>
      var (q1, t1) := AliasQ(q, t, depth);
      (Derived(q1, given, lateral), t1)
    case Table(_, _, _) => (f, t)
    case Series(_, _, _) => (f, t)
  }

  /** Nothing below the client's own projections changes. */
  lemma {:induction false} NestedUntouched(b: Body, t: Tally, depth: nat)
    requires depth > 0
    ensures AliasB(b, t, depth) == (b, t)
    decreases b, 0
  {
    match b
    case Select(_, from, _, _, _, _) => FromUntouched(from, t, depth + 1);
    case Union(l, r, _) => NestedUntouched(l, t, depth); NestedUntouched(r, t, depth);
    case Paren(q) => NestedUntouched(q.body, t, depth);
  }

  lemma {:induction false} FromUntouched(from: seq<FromItem>, t: Tally, depth: nat)
    requires depth > 0
    ensures AliasFrom(from, t, depth) == (from, t)
    decreases from, 0
  {
    if from != [] {
      var n := |from| - 1;
      FromUntouched(from[..n], t, depth);
      FromItemUntouched(from[n], n == 0, t, depth);
      assert from[..n] + [from[n]] == from;
    }
  }

  lemma {:induction false} FromItemUntouched(it: FromItem, first: bool, t: Tally, depth: nat)
    requires depth > 0
    ensures AliasFromItem(it, first, t, depth) == (it, t)
    decreases it, 0
  {
    FactorUntouched(it.factor, t, depth);
  }

  lemma {:induction false} FactorUntouched(f: Factor, t: Tally, depth: nat)
    requires depth > 0
    ensures AliasFactor(f, t, depth) == (f, t)
    decreases f, 0
  {
    if f.Derived? {
      NestedUntouched(f.q.body, t, depth);
    }
  }

  // --- restoring -----------------------------------------------------------------------------

  function RestoreItem(it: Item, names: map<string, string>): Item {
    if it.Item? && it.alias.Some? && it.alias.value in names then Item(it.e, Some(names[it.alias.value])) else it
  }

  function RestoreItems(items: seq<Item>, names: map<string, string>): seq<Item> {
    seq(|items|, i requires 0 <= i < |items| => RestoreItem(items[i], names))
  }

  function Restore(b: Body, names: map<string, string>): Body {
    match b
    case Select(proj, _, _, _, _, _) => b.(proj := RestoreItems(proj, names))
    case Union(l, r, all) => Union(Restore(l, names), Restore(r, names), all)
    case Paren(q) => Paren(q.(body := Restore(q.body, names)))
  }

  /** What a client should see: every unnamed column under the name PostgreSQL reports. */
  function NamedItem(it: Item): Item {
    if it.Item? && it.alias.None? then Item(it.e, Some(PgName(it.e))) else it
  }

  function Named(b: Body): Body {
    match b
    case Select(proj, _, _, _, _, _) => b.(proj := seq(|proj|, i requires 0 <= i < |proj| => NamedItem(proj[i])))
    case Union(l, r, all) => Union(Named(l), Named(r), all)
    case Paren(q) => Paren(q.(body := Named(q.body)))
  }

  /** The client's own columns, in order. */
  function Outer(b: Body): seq<Item> {
    match b
    case Select(proj, _, _, _, _, _) => proj
    case Union(l, r, _) => Outer(l) + Outer(r)
    case Paren(q) => Outer(q.body)
  }

  ghost predicate TallyOk(t: Tally) {
    t.next >= 1 && forall s :: s in t.names <==> exists k :: 1 <= k < t.next && s == Alias(k)
  }

  ghost predicate Extends(t: Tally, u: Tally) {
    t.next <= u.next && forall s :: s in t.names ==> s in u.names && u.names[s] == t.names[s]
  }

  /** The aliases given to columns that had none, in order. */
  function Given(before: seq<Item>, after: seq<Item>): seq<string>
    requires |after| == |before|
  {
    if before == [] then []
    else
      var n := |before| - 1;
      Given(before[..n], after[..n])
      + if before[n].Item? && before[n].alias.None? && after[n].Item? && after[n].alias.Some? then [after[n].alias.value] else []
  }

  function AliasRange(from: nat, to: nat): seq<string>
    requires from <= to
  {
    seq(to - from, i requires 0 <= i < to - from => Alias(from + i))
  }

  lemma NewAlias(t: Tally, name: string)
    requires TallyOk(t)
    ensures Alias(t.next) !in t.names
    ensures TallyOk(Tally(t.next + 1, t.names[Alias(t.next) := name]))
    ensures Extends(t, Tally(t.next + 1, t.names[Alias(t.next) := name]))
  {
    if Alias(t.next) in t.names {
      var k :| 1 <= k < t.next && Alias(t.next) == Alias(k);
      AliasInjective(t.next, k);
    }
    var u := Tally(t.next + 1, t.names[Alias(t.next) := name]);
    forall s ensures s in u.names <==> exists k :: 1 <= k < u.next && s == Alias(k) {
      if s in t.names {
        var k :| 1 <= k < t.next && s == Alias(k);
      }
    }
  }

  /** What one item's aliasing does to the tally and to the aliases given. */
  lemma ItemTally(it: Item, t: Tally)
    requires TallyOk(t)
    ensures var (after, u) := AliasItem(it, t);
      && TallyOk(u) && Extends(t, u) && ItemAliased(it, after, u)
      && AliasRange(t.next, u.next) == if it.Item? && it.alias.None? then [Alias(t.next)] else []
  {
    if it.Item? && it.alias.None? {
      NewAlias(t, PgName(it.e));
    }
  }

  /** What aliasing one projection does: fresh aliases in order, each recorded with its name. */
  lemma {:induction false} ItemsAliased(items: seq<Item>, t: Tally)
    requires TallyOk(t)
    ensures var (aliased, u) := AliasItems(items, t);
      && TallyOk(u) && Extends(t, u) && |aliased| == |items|
      && Given(items, aliased) == AliasRange(t.next, u.next)
      && forall i :: 0 <= i < |items| ==> ItemAliased(items[i], aliased[i], u)
  {
    if items == [] {
      assert AliasRange(t.next, t.next) == [];
    } else {
      var n := |items| - 1;
      ItemsAliased(items[..n], t);
      var (front, t1) := AliasItems(items[..n], t);
      var (last, u) := AliasItem(items[n], t1);
      ItemTally(items[n], t1);
      GivenSnoc(items, front, last);
      RangeSplits(t.next, t1.next, u.next);
      forall i | 0 <= i < n ensures ItemAliased(items[i], front[i], t1) {
        assert ItemAliased(items[..n][i], front[i], t1);
      }
      AliasedSnoc(items, front, last, t1, u);
    }
  }

  lemma RangeSplits(from: nat, mid: nat, to: nat)
    requires from <= mid <= to
    ensures AliasRange(from, to) == AliasRange(from, mid) + AliasRange(mid, to)
  {
  }

  lemma GivenSnoc(items: seq<Item>, front: seq<Item>, last: Item)
    requires items != [] && |front| == |items| - 1
    ensures var it := items[|items| - 1];
      Given(items, front + [last]) == Given(items[..|items| - 1], front)
        + if it.Item? && it.alias.None? && last.Item? && last.alias.Some? then [last.alias.value] else []
  {
    assert (front + [last])[..|front|] == front;
  }

  lemma AliasedSnoc(items: seq<Item>, front: seq<Item>, last: Item, t1: Tally, u: Tally)
    requires items != [] && |front| == |items| - 1 && Extends(t1, u)
    requires ItemAliased(items[|items| - 1], last, u)
    requires forall i :: 0 <= i < |front| ==> ItemAliased(items[i], front[i], t1)
    ensures forall i :: 0 <= i < |items| ==> ItemAliased(items[i], (front + [last])[i], u)
  {
    forall i | 0 <= i < |items| ensures ItemAliased(items[i], (front + [last])[i], u) {
      if i < |front| {
        assert ItemAliased(items[i], front[i], t1);
      }
    }
  }

  /** A column that had no alias got a recorded one; the others are as written. */
  predicate ItemAliased(before: Item, after: Item, t: Tally) {
    if before.Item? && before.alias.None? then
      && after.Item? && after.e == before.e && after.alias.Some?
      && after.alias.value in t.names && t.names[after.alias.value] == PgName(before.e)
    else after == before
  }

  /** A written alias the map does not rename. */
  predicate KeepsAlias(it: Item, names: map<string, string>) {
    it.Item? && it.alias.Some? && it.alias.value in names ==> names[it.alias.value] == it.alias.value
  }

  lemma ItemRestored(before: Item, after: Item, t: Tally, u: Tally)
    requires ItemAliased(before, after, t) && Extends(t, u)
    ensures RestoreItem(after, u.names) == NamedItem(before) <==> KeepsAlias(before, u.names)
  {
  }

  lemma {:induction false} GivenAppend(a: seq<Item>, b: seq<Item>, a': seq<Item>, b': seq<Item>)
    requires |a| == |a'| && |b| == |b'|
    ensures Given(a + b, a' + b') == Given(a, a') + Given(b, b')
    decreases |b|
  {
    if b == [] {
      assert a + b == a && a' + b' == a';
    } else {
      var n := |b| - 1;
      assert (a + b)[..|a| + n] == a + b[..n] && (a' + b')[..|a| + n] == a' + b'[..n];
      GivenAppend(a, b[..n], a', b'[..n]);
    }
  }

  /** The whole query: fresh aliases in order over every set-operation branch and parenthesis. */
  lemma {:induction false} BodyAliased(b: Body, t: Tally)
    requires TallyOk(t)
    ensures var (aliased, u) := AliasB(b, t, 0);
      && TallyOk(u) && Extends(t, u) && |Outer(aliased)| == |Outer(b)|
      && Given(Outer(b), Outer(aliased)) == AliasRange(t.next, u.next)
    decreases b
  {
    match b
    case Select(proj, from, _, _, _, _) =>
      ItemsAliased(proj, t);
      FromUntouched(from, AliasItems(proj, t).1, 1);
    case Union(l, r, _) =>
      var (l1, t1) := AliasB(l, t, 0);
      var (r1, u) := AliasB(r, t1, 0);
      BodyAliased(l, t);
      BodyAliased(r, t1);
      GivenAppend(Outer(l), Outer(r), Outer(l1), Outer(r1));
      RangeSplits(t.next, t1.next, u.next);
    case Paren(q) => BodyAliased(q.body, t);
  }

  predicate AllKeep(items: seq<Item>, names: map<string, string>) {
    forall i :: 0 <= i < |items| ==> KeepsAlias(items[i], names)
  }

  lemma KeepAppend(a: seq<Item>, b: seq<Item>, names: map<string, string>)
    ensures AllKeep(a + b, names) <==> AllKeep(a, names) && AllKeep(b, names)
  {
    var c := a + b;
    assert forall i :: 0 <= i < |a| ==> c[i] == a[i];
    assert forall i :: 0 <= i < |b| ==> c[|a| + i] == b[i];
    if AllKeep(c, names) {
      forall i | 0 <= i < |b| ensures KeepsAlias(b[i], names) {
        assert KeepsAlias(c[|a| + i], names);
      }
      forall i | 0 <= i < |a| ensures KeepsAlias(a[i], names) {
        assert KeepsAlias(c[i], names);
      }
    }
  }

  lemma SelectRestored(b: Body, t: Tally, final: Tally)
    requires b.Select? && TallyOk(t) && Extends(AliasItems(b.proj, t).1, final)
    ensures Restore(AliasB(b, t, 0).0, final.names) == Named(b) <==> AllKeep(b.proj, final.names)
  {
    var (proj, u) := AliasItems(b.proj, t);
    ItemsAliased(b.proj, t);
    FromUntouched(b.from, u, 1);
    var restored, named := RestoreItems(proj, final.names), Named(b).proj;
    forall i | 0 <= i < |b.proj| ensures restored[i] == named[i] <==> KeepsAlias(b.proj[i], final.names) {
      ItemRestored(b.proj[i], proj[i], u, final);
    }
    if restored == named {
      assert forall i :: 0 <= i < |b.proj| ==> restored[i] == named[i];
    }
    assert Restore(AliasB(b, t, 0).0, final.names) == b.(proj := restored);
    assert b.(proj := restored).proj == restored && Named(b) == b.(proj := named);
  }

  lemma {:induction false} BodyRestored(b: Body, t: Tally, final: Tally)
    requires TallyOk(t) && Extends(AliasB(b, t, 0).1, final)
    ensures Restore(AliasB(b, t, 0).0, final.names) == Named(b) <==> AllKeep(Outer(b), final.names)
    decreases b
  {
    match b
    case Select(proj, from, _, _, _, _) =>
      FromUntouched(from, AliasItems(proj, t).1, 1);
      SelectRestored(b, t, final);
    case Union(l, r, _) =>
      var t1 := AliasB(l, t, 0).1;
      BodyAliased(l, t);
      BodyAliased(r, t1);
      BodyRestored(l, t, final);
      BodyRestored(r, t1, final);
      KeepAppend(Outer(l), Outer(r), final.names);
    case Paren(q) =>
      assert AliasB(b, t, 0).1 == AliasB(q.body, t, 0).1;
      BodyRestored(q.body, t, final);
  }

  const Start := Tally(1, map[])

  /** Aliasing and then restoring gives each unnamed column its recorded name and leaves the rest of
      the query as written, exactly when no written alias is one the map renames. */
  lemma AliasThenRestore(b: Body)
    ensures var (aliased, t) := AliasB(b, Start, 0);
      Restore(aliased, t.names) == Named(b) <==> AllKeep(Outer(b), t.names)
  {
    BodyRestored(b, Start, AliasB(b, Start, 0).1);
  }

  /** The map's keys are exactly the aliases written, each written once. */
  lemma KeysAreAliases(b: Body)
    ensures var (aliased, t) := AliasB(b, Start, 0);
      && |Outer(aliased)| == |Outer(b)|
      && (forall s :: s in t.names <==> s in Given(Outer(b), Outer(aliased)))
      && (forall i, j :: 0 <= i < j < |Given(Outer(b), Outer(aliased))| ==>
            Given(Outer(b), Outer(aliased))[i] != Given(Outer(b), Outer(aliased))[j])
  {
    BodyAliased(b, Start);
    RangeKeys(AliasB(b, Start, 0).1);
  }

  lemma RangeKeys(t: Tally)
    requires TallyOk(t)
    ensures forall s :: s in t.names <==> s in AliasRange(1, t.next)
    ensures forall i, j :: 0 <= i < j < |AliasRange(1, t.next)| ==> AliasRange(1, t.next)[i] != AliasRange(1, t.next)[j]
  {
    var given := AliasRange(1, t.next);
    forall s ensures s in t.names <==> s in given {
      if s in t.names {
        var k :| 1 <= k < t.next && s == Alias(k);
        assert given[k - 1] == s;
      }
    }
    forall i, j | 0 <= i < j < |given| ensures given[i] != given[j] {
      if given[i] == given[j] {
        AliasInjective(1 + i, 1 + j);
      }
    }
  }

  // --- the same, without running the pass ----------------------------------------------------

  /** The name of an item that has no alias. */
  function UnnamedOf(it: Item): seq<string> {
    if it.Item? && it.alias.None? then [PgName(it.e)] else []
  }

  /** The names PostgreSQL reports for the columns without an alias, in order. */
  function Unnamed(items: seq<Item>): seq<string> {
    if items == [] then []
    else
      Unnamed(items[..|items| - 1]) + UnnamedOf(items[|items| - 1])
  }

  lemma {:induction false} UnnamedAppend(a: seq<Item>, b: seq<Item>)
    ensures Unnamed(a + b) == Unnamed(a) + Unnamed(b)
    decreases |b|
  {
    if b == [] {
      assert a + b == a;
    } else {
      var n := |b| - 1;
      assert (a + b)[..|a| + n] == a + b[..n];
      UnnamedAppend(a, b[..n]);
    }
  }

  /** The tally after these names: `alias_1` for the first, `alias_2` for the second, and so on. */
  ghost predicate Tallies(t: Tally, reported: seq<string>) {
    && TallyOk(t) && t.next == |reported| + 1
    && forall k :: 1 <= k < t.next ==> Alias(k) in t.names && t.names[Alias(k)] == reported[k - 1]
  }

  lemma TalliesOne(t: Tally, reported: seq<string>, name: string)
    requires Tallies(t, reported)
    ensures Tallies(Tally(t.next + 1, t.names[Alias(t.next) := name]), reported + [name])
  {
    NewAlias(t, name);
    assert forall k :: 1 <= k < t.next ==> Alias(k) in t.names && Alias(k) != Alias(t.next);
    assert (reported + [name])[t.next - 1] == name;
  }

  lemma ItemTallies(it: Item, t: Tally, reported: seq<string>)
    requires Tallies(t, reported)
    ensures Tallies(AliasItem(it, t).1, reported + UnnamedOf(it))
  {
    if it.Item? && it.alias.None? {
      TalliesOne(t, reported, PgName(it.e));
    } else {
      assert reported + [] == reported;
    }
  }

  lemma {:induction false} ItemsTally(items: seq<Item>, t: Tally, reported: seq<string>)
    requires Tallies(t, reported)
    ensures Tallies(AliasItems(items, t).1, reported + Unnamed(items))
  {
    if items == [] {
      assert reported + [] == reported;
    } else {
      var n := |items| - 1;
      ItemsTally(items[..n], t, reported);
      ItemTallies(items[n], AliasItems(items[..n], t).1, reported + Unnamed(items[..n]));
      assert reported + Unnamed(items[..n]) + UnnamedOf(items[n]) == reported + Unnamed(items);
    }
  }

  lemma {:induction false} BodyTally(b: Body, t: Tally, reported: seq<string>)
    requires Tallies(t, reported)
    ensures Tallies(AliasB(b, t, 0).1, reported + Unnamed(Outer(b)))
    decreases b
  {
    match b
    case Select(proj, from, _, _, _, _) =>
      ItemsTally(proj, t, reported);
      FromUntouched(from, AliasItems(proj, t).1, 1);
    case Union(l, r, _) =>
      BodyTally(l, t, reported);
      BodyTally(r, AliasB(l, t, 0).1, reported + Unnamed(Outer(l)));
      UnnamedAppend(Outer(l), Outer(r));
      assert reported + Unnamed(Outer(l)) + Unnamed(Outer(r)) == reported + (Unnamed(Outer(l)) + Unnamed(Outer(r)));
    case Paren(q) => BodyTally(q.body, t, reported);
  }

  /** No column carries a written `alias_k` with k from 1 to the number of unnamed columns, other
      than where the k-th unnamed column is itself reported under that very name. */
  predicate Restorable(items: seq<Item>, reported: seq<string>) {
    forall i, k :: 0 <= i < |items| && 1 <= k <= |reported| && items[i].Item? && items[i].alias == Some(Alias(k))
      ==> reported[k - 1] == Alias(k)
  }

  lemma KeepIsRestorable(items: seq<Item>, t: Tally, reported: seq<string>)
    requires Tallies(t, reported)
    ensures AllKeep(items, t.names) <==> Restorable(items, reported)
  {
    if Restorable(items, reported) {
      forall i | 0 <= i < |items| ensures KeepsAlias(items[i], t.names) {
      }
    } else {
      var i, k :| 0 <= i < |items| && 1 <= k <= |reported| && items[i].Item? && items[i].alias == Some(Alias(k)) && reported[k - 1] != Alias(k);
      assert !KeepsAlias(items[i], t.names);
    }
  }

  /** The round trip in the written query's own terms. */
  lemma RestoredExactly(b: Body)
    ensures var (aliased, t) := AliasB(b, Start, 0);
      Restore(aliased, t.names) == Named(b) <==> Restorable(Outer(b), Unnamed(Outer(b)))
  {
    AliasThenRestore(b);
    BodyTally(b, Start, []);
    assert [] + Unnamed(Outer(b)) == Unnamed(Outer(b));
    KeepIsRestorable(Outer(b), AliasB(b, Start, 0).1, Unnamed(Outer(b)));
  }

  /** A column the client itself calls `alias_1` comes back under another column's name. */
  lemma WrittenAliasIsLost()
    ensures var b := Select([Item(Lit(Int(7)), Some("alias_1")), Item(Col("t", "c"), None)], [], None, [], None, false);
      var (aliased, t) := AliasB(b, Start, 0);
      Restore(aliased, t.names) != Named(b)
  {
    var b := Select([Item(Lit(Int(7)), Some("alias_1")), Item(Col("t", "c"), None)], [], None, [], None, false);
    assert Decimal.OfNat(1) == "1" && Alias(1) == "alias_1";
    var first, second := b.proj[0], b.proj[1];
    assert b.proj[..1] == [first] && [first][..0] == [];
    assert [] + [first] == [first] && AliasItems([], Start) == ([], Start);
    assert AliasItems([first], Start) == ([first], Start);
    var (aliased, t) := AliasB(b, Start, 0);
    assert t.names == map["alias_1" := "c"];
    AliasThenRestore(b);
    assert !KeepsAlias(Outer(b)[0], t.names);
  }

  // --- duplicate columns of nested SELECTs ---------------------------------------------------

  /** The name of a plain or aliased column; other expressions are left alone. */
  function OutputName(it: Item): Option<string> {
    if it.Wildcard? then None
    else if it.alias.Some? then it.alias
    else if it.e.Col? || it.e.Bare? then Some(it.e.name)
    else None
  }

  lemma OutputNames()
    ensures forall e: Expr, a: string :: OutputName(Item(e, Some(a))) == Some(a)
    ensures forall q, c :: OutputName(Item(Col(q, c), None)) == Some(c)
    ensures forall x :: OutputName(Item(Bare(x), None)) == Some(x)
    ensures forall e: Expr :: !e.Col? && !e.Bare? ==> OutputName(Item(e, None)) == None
  {
  }

  function Suffixed(name: string, k: nat): string {
    name + "_" + Decimal.OfNat(k)
  }

  function Uses(items: seq<Item>, name: string): nat {
    if items == [] then 0
    else Uses(items[..|items| - 1], name) + if OutputName(items[|items| - 1]) == Some(name) then 1 else 0
  }

  /** The item after `before`: the second and later uses of a name are numbered. */
  function DedupItem(before: seq<Item>, it: Item): Item {
    var name := OutputName(it);
    if name.None? || Uses(before, name.value) == 0 then it
    else Item(it.e, Some(Suffixed(name.value, Uses(before, name.value) + 1)))
  }

  function Dedup(items: seq<Item>): seq<Item> {
    seq(|items|, i requires 0 <= i < |items| => DedupItem(items[..i], items[i]))
  }

  method DedupProjection(items: seq<Item>) returns (out: seq<Item>)
    ensures out == Dedup(items)
  {
    var seen: map<string, nat> := map[];
    out := [];
    for i := 0 to |items|
      invariant out == Dedup(items[..i])
      invariant forall s :: (if s in seen then seen[s] else 0) == Uses(items[..i], s)
    {
      assert items[..i + 1][..i] == items[..i];
      assert forall j :: 0 <= j < i ==> items[..i + 1][..j] == items[..i][..j];
      var it := items[i];
      var name := OutputName(it);
      if name.Some? {
        var count := (if name.value in seen then seen[name.value] else 0) + 1;
        seen := seen[name.value := count];
        if count > 1 {
          it := Item(it.e, Some(Suffixed(name.value, count)));
        }
      }
      out := out + [it];
    }
    assert items[..|items|] == items;
  }

  /** A number holds no underscore, so the stem of a generated name ends at its last one. */
  lemma LastUnderscore(x: string, k: nat)
    ensures Suffixed(x, k)[|x|] == '_'
    ensures forall p :: |x| < p < |Suffixed(x, k)| ==> Suffixed(x, k)[p] != '_'
  {
    assert '_' !in Decimal.DIGITS;
    forall p | |x| < p < |Suffixed(x, k)| ensures Suffixed(x, k)[p] != '_' {
      assert Suffixed(x, k)[p] == Decimal.OfNat(k)[p - |x| - 1];
    }
  }

  lemma SuffixInjective(x: string, k: nat, y: string, j: nat)
    requires Suffixed(x, k) == Suffixed(y, j)
    ensures x == y && k == j
  {
    LastUnderscore(x, k);
    LastUnderscore(y, j);
    var s := Suffixed(x, k);
    assert |x| == |y|;
    assert x == s[..|x|] && y == s[..|y|];
    assert s[|x| + 1..] == Decimal.OfNat(k) && s[|y| + 1..] == Decimal.OfNat(j);
    Decimal.NatInjective(k, j);
  }

  lemma {:induction false} UsesGrow(items: seq<Item>, name: string, i: nat, j: nat)
    requires i < j <= |items|
    ensures Uses(items[..i], name) + (if OutputName(items[i]) == Some(name) then 1 else 0) <= Uses(items[..j], name)
  {
    assert items[..j][..j - 1] == items[..j - 1];
    if i < j - 1 {
      UsesGrow(items, name, i, j - 1);
    }
  }

  lemma {:induction false} FirstUse(items: seq<Item>, name: string, i: nat) returns (f: nat)
    requires i < |items| && OutputName(items[i]) == Some(name)
    ensures f <= i && OutputName(items[f]) == Some(name) && Uses(items[..f], name) == 0
  {
    f := i;
    while Uses(items[..f], name) > 0
      invariant f <= i && OutputName(items[f]) == Some(name)
      decreases f
    {
      f := EarlierUse(items[..f], name);
    }
  }

  lemma {:induction false} EarlierUse(items: seq<Item>, name: string) returns (f: nat)
    requires Uses(items, name) > 0
    ensures f < |items| && OutputName(items[f]) == Some(name)
  {
    var n := |items| - 1;
    if OutputName(items[n]) == Some(name) {
      f := n;
    } else {
      f := EarlierUse(items[..n], name);
    }
  }

  predicate DistinctNames(items: seq<Item>) {
    forall i, j :: 0 <= i < j < |items| && OutputName(items[i]).Some? ==> OutputName(items[i]) != OutputName(items[j])
  }

  /** The name the renaming makes for the j-th item, when an earlier one has its name. */
  function Generated(items: seq<Item>, j: nat): Option<string>
    requires j < |items|
  {
    var name := OutputName(items[j]);
    if name.None? || Uses(items[..j], name.value) == 0 then None
    else Some(Suffixed(name.value, Uses(items[..j], name.value) + 1))
  }

  /** No written name is one that the renaming makes. */
  predicate NoReuse(items: seq<Item>) {
    forall i, j :: 0 <= i < |items| && 0 <= j < |items| && Generated(items, j).Some? ==>
      OutputName(items[i]) != Generated(items, j)
  }

  lemma DedupedName(items: seq<Item>, i: nat)
    requires i < |items|
    ensures OutputName(Dedup(items)[i]) == if Generated(items, i).Some? then Generated(items, i) else OutputName(items[i])
  {
  }

  lemma GeneratedDiffer(items: seq<Item>, i: nat, j: nat)
    requires i < j < |items| && Generated(items, i).Some? && Generated(items, j).Some?
    ensures Generated(items, i) != Generated(items, j)
  {
    var x, y := OutputName(items[i]).value, OutputName(items[j]).value;
    if Generated(items, i) == Generated(items, j) {
      SuffixInjective(x, Uses(items[..i], x) + 1, y, Uses(items[..j], y) + 1);
      UsesGrow(items, x, i, j);
    }
  }

  lemma ReuseFree(items: seq<Item>)
    requires NoReuse(items)
    ensures DistinctNames(Dedup(items))
  {
    var out := Dedup(items);
    forall i, j | 0 <= i < j < |out| && OutputName(out[i]).Some? ensures OutputName(out[i]) != OutputName(out[j]) {
      DedupedName(items, i);
      DedupedName(items, j);
      if Generated(items, i).Some? && Generated(items, j).Some? {
        GeneratedDiffer(items, i, j);
      } else if Generated(items, i).None? && Generated(items, j).None? && OutputName(items[i]) == OutputName(items[j]) {
        UsesGrow(items, OutputName(items[i]).value, i, j);
      }
    }
  }

  lemma ReuseClashes(items: seq<Item>, i: nat, j: nat)
    requires i < |items| && j < |items| && Generated(items, j).Some? && OutputName(items[i]) == Generated(items, j)
    ensures !DistinctNames(Dedup(items))
  {
    var f := FirstUse(items, OutputName(items[i]).value, i);
    DedupedName(items, f);
    DedupedName(items, j);
    var a, b := if f < j then f else j, if f < j then j else f;
    assert a < b && OutputName(Dedup(items)[a]) == OutputName(Dedup(items)[b]);
  }

  /** The renaming makes the plain names of a SELECT distinct exactly when it makes no name that is
      already written there. */
  lemma DedupExactly(items: seq<Item>)
    ensures DistinctNames(Dedup(items)) <==> NoReuse(items)
  {
    if NoReuse(items) {
      ReuseFree(items);
    } else {
      var i, j :| 0 <= i < |items| && 0 <= j < |items| && Generated(items, j).Some? && OutputName(items[i]) == Generated(items, j);
      ReuseClashes(items, i, j);
    }
  }

  /** `SELECT x, x_2, x` comes out with `x_2` twice. */
  lemma WrittenSuffixClashes()
    ensures !DistinctNames(Dedup([Item(Col("t", "x"), None), Item(Col("t", "x_2"), None), Item(Col("u", "x"), None)]))
  {
    var items := [Item(Col("t", "x"), None), Item(Col("t", "x_2"), None), Item(Col("u", "x"), None)];
    assert items[..2][..1] == items[..1] && items[..1][..0] == [];
    assert Decimal.OfNat(2) == "2" && Suffixed("x", 2) == "x_2";
    assert OutputName(items[1]) == Some("x_2") && "x_2" != "x";
    assert items[..2][1] == items[1] && items[..1][0] == items[0];
    assert Uses(items[..1], "x") == Uses(items[..1][..0], "x") + 1;
    assert Uses(items[..2], "x") == 1;
    assert Generated(items, 2) == Some("x_2");
    ReuseClashes(items, 1, 2);
  }

  // --- through the whole query ---------------------------------------------------------------

  /** Parentheses count as one level here, unlike in aliasing. */
  function DedupB(b: Body, depth: nat): Body
    decreases b, 0
  {
    match b
    case Select(proj, from, selection, groupBy, having, distinct) =>
      Select(if depth > 0 then Dedup(proj) else proj, DedupFrom(from, depth + 1), selection, groupBy, having, distinct)
    case Union(l, r, all) => Union(DedupB(l, depth), DedupB(r, depth), all)
    case Paren(q) => Paren(q.(body := DedupB(q.body, depth + 1)))
  }

  function DedupFrom(from: seq<FromItem>, depth: nat): seq<FromItem>
    decreases from, 0
  {
    if from == [] then []
    else DedupFrom(from[..|from| - 1], depth) + [DedupFromItem(from[|from| - 1], depth)]
  }

  function DedupFromItem(it: FromItem, depth: nat): FromItem
    decreases it, 0
  {
    it.(factor := DedupFactor(it.factor, depth))
  }

  function DedupFactor(f: Factor, depth: nat): Factor
    decreases f, 0
  {
    match f
    case Derived(q, given, lateral) => Derived(q.(body := DedupB(q.body, depth)), given, lateral)
    case Table(_, _, _) => f
    case Series(_, _, _) => f
  }

  /** A property of the projection of every nested SELECT. */
  predicate Nested(p: seq<Item> -> bool, b: Body, depth: nat)
    decreases b, 0
  {
    match b
    case Select(proj, from, _, _, _, _) => (depth > 0 ==> p(proj)) && NestedFrom(p, from, depth + 1)
    case Union(l, r, _) => Nested(p, l, depth) && Nested(p, r, depth)
    case Paren(q) => Nested(p, q.body, depth + 1)
  }

  predicate NestedFrom(p: seq<Item> -> bool, from: seq<FromItem>, depth: nat)
    decreases from, 0
  {
    from == [] || (NestedFrom(p, from[..|from| - 1], depth) && NestedFromItem(p, from[|from| - 1], depth))
  }

  predicate NestedFromItem(p: seq<Item> -> bool, it: FromItem, depth: nat)
    decreases it, 0
  {
    NestedFactor(p, it.factor, depth)
  }

  predicate NestedFactor(p: seq<Item> -> bool, f: Factor, depth: nat)
    decreases f, 0
  {
    f.Derived? ==> Nested(p, f.q.body, depth)
  }

  /** After the pass every nested SELECT has distinct column names, exactly when each could be
      renamed without meeting a written name. */
  lemma {:induction false} NestedDedupExactly(b: Body, depth: nat)
    ensures Nested(DistinctNames, DedupB(b, depth), depth) <==> Nested(NoReuse, b, depth)
    decreases b, 0
  {
    match b
    case Select(proj, from, _, _, _, _) =>
      DedupExactly(proj);
      NestedFromExactly(from, depth + 1);
    case Union(l, r, _) => NestedDedupExactly(l, depth); NestedDedupExactly(r, depth);
    case Paren(q) => NestedDedupExactly(q.body, depth + 1);
  }

  lemma {:induction false} NestedFromExactly(from: seq<FromItem>, depth: nat)
    ensures NestedFrom(DistinctNames, DedupFrom(from, depth), depth) <==> NestedFrom(NoReuse, from, depth)
    decreases from, 0
  {
    if from != [] {
      var n := |from| - 1;
      NestedFromExactly(from[..n], depth);
      NestedItemExactly(from[n], depth);
      var out := DedupFrom(from, depth);
      assert out[..|out| - 1] == DedupFrom(from[..n], depth) && out[|out| - 1] == DedupFromItem(from[n], depth);
    }
  }

  lemma {:induction false} NestedItemExactly(it: FromItem, depth: nat)
    ensures NestedFromItem(DistinctNames, DedupFromItem(it, depth), depth) <==> NestedFromItem(NoReuse, it, depth)
    decreases it, 0
  {
    NestedFactorExactly(it.factor, depth);
  }

  lemma {:induction false} NestedFactorExactly(f: Factor, depth: nat)
    ensures NestedFactor(DistinctNames, DedupFactor(f, depth), depth) <==> NestedFactor(NoReuse, f, depth)
    decreases f, 0
  {
    if f.Derived? {
      NestedDedupExactly(f.q.body, depth);
    }
  }
}
