/** Several sources answering as one: the union of their answers in order, where a database or
    relation named twice is refused, and otherwise the first object of a key stays. */
module CombinedSource {
  import opened Wrappers
  import opened CatalogSource
  import opened Keys

  /** What stays of `xs` when every key in `seen`, and every later use of a key, is dropped. */
  function Kept<T, K(==)>(key: T -> K, seen: set<K>, xs: seq<T>): seq<T>
    decreases |xs|
  {
    if xs == [] then []
    else if key(xs[0]) in seen then Kept(key, seen, xs[1..])
    else [xs[0]] + Kept(key, seen + {key(xs[0])}, xs[1..])
  }

  /** All rows of all sources, in source order. */
  function AllRows<T>(replies: seq<Reply<T>>): Result<seq<T>> {
    if replies == [] then Ok([])
    else
      var here :- Rows(replies[0]);
      var rest :- AllRows(replies[1..]);
      Ok(here + rest)
  }

  /** The union that refuses a key reported twice. */
  function Refusing<T, K(==)>(key: T -> K, replies: seq<Reply<T>>): Result<seq<T>> {
    var rows :- AllRows(replies);
    if DistinctKeys(key, rows) then Ok(rows) else Error
  }

  /** The union in which the first object of a key stays. */
  function Retaining<T, K(==)>(key: T -> K, replies: seq<Reply<T>>): Result<seq<T>> {
    var rows :- AllRows(replies);
    Ok(Kept(key, {}, rows))
  }

  /** The whole answer of the first source that has one. */
  function FirstAnswer<T>(replies: seq<Reply<T>>): Result<seq<T>> {
    if replies == [] then Ok([])
    else
      var rows :- Rows(replies[0]);
      if rows != [] then Ok(rows) else FirstAnswer(replies[1..])
  }

  // --- the key sets and what stays -----------------------------------------------------------

  lemma {:induction false} KeptAppend<T, K>(key: T -> K, seen: set<K>, xs: seq<T>, ys: seq<T>)
    ensures Kept(key, seen, xs + ys) == Kept(key, seen, xs) + Kept(key, seen + KeysOf(key, xs), ys)
    decreases |xs|
  {
    if xs == [] {
      assert xs + ys == ys && seen + KeysOf(key, xs) == seen;
    } else {
      assert xs == [xs[0]] + xs[1..] && (xs + ys)[1..] == xs[1..] + ys;
      KeysAppend(key, [xs[0]], xs[1..]);
      assert KeysOf(key, [xs[0]]) == {key(xs[0])} by {
        assert key([xs[0]][0]) in KeysOf(key, [xs[0]]);
      }
      if key(xs[0]) in seen {
        KeptAppend(key, seen, xs[1..], ys);
        assert seen + KeysOf(key, xs) == seen + KeysOf(key, xs[1..]);
      } else {
        KeptAppend(key, seen + {key(xs[0])}, xs[1..], ys);
        assert seen + KeysOf(key, xs) == seen + {key(xs[0])} + KeysOf(key, xs[1..]);
      }
    }
  }

  /** First wins: one object of each key stays, the earliest, and the order is kept. */
  lemma {:induction false} FirstWins<T, K>(key: T -> K, xs: seq<T>, x: T)
    ensures Kept(key, {}, xs + [x]) == Kept(key, {}, xs) + if key(x) in KeysOf(key, xs) then [] else [x]
    ensures DistinctKeys(key, Kept(key, {}, xs)) && KeysOf(key, Kept(key, {}, xs)) == KeysOf(key, xs)
  {
    KeptAppend(key, {}, xs, [x]);
    assert {} + KeysOf(key, xs) == KeysOf(key, xs);
    assert [x][1..] == [] && [x] + [] == [x];
    KeptKeys(key, {}, xs);
    assert KeysOf(key, xs) - {} == KeysOf(key, xs);
  }

  lemma {:induction false} KeptKeys<T, K>(key: T -> K, seen: set<K>, xs: seq<T>)
    ensures DistinctKeys(key, Kept(key, seen, xs)) && KeysOf(key, Kept(key, seen, xs)) == KeysOf(key, xs) - seen
    decreases |xs|
  {
    if xs != [] {
      assert xs == [xs[0]] + xs[1..];
      KeysAppend(key, [xs[0]], xs[1..]);
      assert KeysOf(key, [xs[0]]) == {key(xs[0])} by {
        assert key([xs[0]][0]) in KeysOf(key, [xs[0]]);
      }
      if key(xs[0]) in seen {
        KeptKeys(key, seen, xs[1..]);
      } else {
        var rest := Kept(key, seen + {key(xs[0])}, xs[1..]);
        KeptKeys(key, seen + {key(xs[0])}, xs[1..]);
        KeysAppend(key, [xs[0]], rest);
        assert forall j :: 0 <= j < |rest| ==> key(rest[j]) in KeysOf(key, rest);
      }
    }
  }

  /** Dropping keys already dropped changes nothing. */
  lemma {:induction false} KeptTwice<T, K>(key: T -> K, small: set<K>, seen: set<K>, xs: seq<T>)
    requires small <= seen
    ensures Kept(key, seen, Kept(key, small, xs)) == Kept(key, seen, xs)
    decreases |xs|
  {
    if xs != [] {
      var k := key(xs[0]);
      if k in small {
        KeptTwice(key, small, seen, xs[1..]);
      } else {
        var rest := Kept(key, small + {k}, xs[1..]);
        assert ([xs[0]] + rest)[1..] == rest;
        if k in seen {
          assert small + {k} <= seen;
          KeptTwice(key, small + {k}, seen, xs[1..]);
        } else {
          KeptTwice(key, small + {k}, seen + {k}, xs[1..]);
        }
      }
    }
  }

  lemma {:induction false} AllRowsAppend<T>(a: seq<Reply<T>>, b: seq<Reply<T>>)
    ensures AllRows(a + b) == if AllRows(a).Ok? && AllRows(b).Ok? then Ok(AllRows(a).value + AllRows(b).value) else Error
    decreases |a|
  {
    if a == [] {
      assert a + b == b;
      assert AllRows(b).Ok? ==> [] + AllRows(b).value == AllRows(b).value;
    } else {
      AllRowsAppend(a[1..], b);
      assert (a + b)[1..] == a[1..] + b;
      if AllRows(a).Ok? && AllRows(b).Ok? {
        var here, rest := Rows(a[0]).value, AllRows(a[1..]).value;
        assert (here + rest) + AllRows(b).value == here + (rest + AllRows(b).value);
      }
    }
  }

  lemma AllRowsOne<T>(reply: Reply<T>)
    ensures AllRows([reply]) == Rows(reply)
  {
    assert [reply][1..] == [];
    if Rows(reply).Ok? {
      assert Rows(reply).value + [] == Rows(reply).value;
    }
  }

  // --- the loops -----------------------------------------------------------------------------

  /** One source's rows against the keys seen so far; stops at the first repeated one. */
  method SeenBefore<T, K(==)>(key: T -> K, defs: seq<T>, seen: set<K>) returns (repeated: bool, now: set<K>)
    ensures repeated <==> !DistinctKeys(key, defs) || !(seen !! KeysOf(key, defs))
    ensures !repeated ==> now == seen + KeysOf(key, defs)
  {
    now := seen;
    var i := 0;
    while i < |defs|
      invariant 0 <= i <= |defs|
      invariant DistinctKeys(key, defs[..i]) && seen !! KeysOf(key, defs[..i])
      invariant now == seen + KeysOf(key, defs[..i])
    {
      assert defs[..i + 1] == defs[..i] + [defs[i]];
      DistinctAppend(key, defs[..i], [defs[i]]);
      KeysAppend(key, defs[..i], [defs[i]]);
      assert key([defs[i]][0]) in KeysOf(key, [defs[i]]);
      if key(defs[i]) in now {
        assert defs == defs[..i + 1] + defs[i + 1..];
        DistinctAppend(key, defs[..i + 1], defs[i + 1..]);
        assert key(defs[i]) in KeysOf(key, defs);
        return true, now;
      }
      now := now + {key(defs[i])};
      i := i + 1;
    }
    assert defs[..i] == defs;
    repeated := false;
  }

  /** databases and relations. */
  method UnionRefusing<T, K(==)>(key: T -> K, replies: seq<Reply<T>>) returns (out: Reply<T>)
    ensures Rows(out) == Refusing(key, replies)
  {
    var seen: set<K> := {};
    var batches: seq<seq<T>> := [];
    var n := 0;
    while n < |replies|
      invariant 0 <= n <= |replies|
      invariant AllRows(replies[..n]) == Ok(Flatten(batches))
      invariant DistinctKeys(key, Flatten(batches)) && seen == KeysOf(key, Flatten(batches))
    {
      ghost var soFar := Flatten(batches);
      assert replies == replies[..n + 1] + replies[n + 1..] && replies[..n + 1] == replies[..n] + [replies[n]];
      AllRowsAppend(replies[..n + 1], replies[n + 1..]);
      AllRowsAppend(replies[..n], [replies[n]]);
      AllRowsOne(replies[n]);
      var defs := Collect(replies[n]);
      if defs.Error? {
        return Error;
      }
      var repeated;
      DistinctAppend(key, soFar, defs.value);
      KeysAppend(key, soFar, defs.value);
      repeated, seen := SeenBefore(key, defs.value, seen);
      if repeated {
        if AllRows(replies).Ok? {
          DistinctAppend(key, soFar + defs.value, AllRows(replies[n + 1..]).value);
        }
        return Error;
      }
      FlattenSnoc(batches, defs.value);
      batches := batches + [defs.value];
      n := n + 1;
    }
    assert replies[..n] == replies;
    return Ok(batches);
  }

  /** The rows of one source whose keys are new, noting their keys. */
  method Retain<T, K(==)>(key: T -> K, defs: seq<T>, seen: set<K>) returns (kept: seq<T>, now: set<K>)
    ensures kept == Kept(key, seen, defs) && now == seen + KeysOf(key, defs)
  {
    kept, now := [], seen;
    var i := 0;
    while i < |defs|
      invariant 0 <= i <= |defs|
      invariant kept == Kept(key, seen, defs[..i]) && now == seen + KeysOf(key, defs[..i])
    {
      assert defs[..i + 1] == defs[..i] + [defs[i]];
      KeptAppend(key, seen, defs[..i], [defs[i]]);
      KeysAppend(key, defs[..i], [defs[i]]);
      assert [defs[i]][1..] == [] && [defs[i]] + [] == [defs[i]];
      assert KeysOf(key, [defs[i]]) == {key(defs[i])} by {
        assert key([defs[i]][0]) in KeysOf(key, [defs[i]]);
      }
      if key(defs[i]) !in now {
        kept := kept + [defs[i]];
      }
      now := now + {key(defs[i])};
      i := i + 1;
    }
    assert defs[..i] == defs;
  }

  /** schemas, indexes, constraints, config and settings. */
  method UnionRetaining<T, K(==)>(key: T -> K, replies: seq<Reply<T>>) returns (out: Reply<T>)
    ensures Rows(out) == Retaining(key, replies)
  {
    var seen: set<K> := {};
    var batches: seq<seq<T>> := [];
    ghost var rows: seq<T> := [];
    var n := 0;
    while n < |replies|
      invariant 0 <= n <= |replies|
      invariant AllRows(replies[..n]) == Ok(rows)
      invariant Flatten(batches) == Kept(key, {}, rows) && seen == KeysOf(key, rows)
    {
      assert replies == replies[..n + 1] + replies[n + 1..] && replies[..n + 1] == replies[..n] + [replies[n]];
      AllRowsAppend(replies[..n + 1], replies[n + 1..]);
      AllRowsAppend(replies[..n], [replies[n]]);
      AllRowsOne(replies[n]);
      var defs := Collect(replies[n]);
      if defs.Error? {
        return Error;
      }
      KeptAppend(key, {}, rows, defs.value);
      KeysAppend(key, rows, defs.value);
      assert {} + KeysOf(key, rows) == KeysOf(key, rows);
      var kept;
      kept, seen := Retain(key, defs.value, seen);
      FlattenSnoc(batches, kept);
      batches := batches + [kept];
      rows := rows + defs.value;
      n := n + 1;
    }
    assert replies[..n] == replies;
    return Ok(batches);
  }

  /** columns. */
  method UnionFirst<T>(replies: seq<Reply<T>>) returns (out: Reply<T>)
    ensures Rows(out) == FirstAnswer(replies)
  {
    var n := 0;
    while n < |replies|
      invariant 0 <= n <= |replies|
      invariant FirstAnswer(replies) == FirstAnswer(replies[n..])
    {
      var specs := Collect(replies[n]);
      if specs.Error? {
        return Error;
      }
      if specs.value != [] {
        FlattenOne(specs.value);
        return Ok([specs.value]);
      }
      n := n + 1;
    }
    return Ok([]);
  }

  // --- a combined source inside another ------------------------------------------------------

  function Once<T>(rows: Result<seq<T>>): Reply<T> {
    var xs :- rows;
    Ok([xs])
  }

  lemma OnceRows<T>(rows: Result<seq<T>>)
    ensures Rows(Once(rows)) == rows
  {
    if rows.Ok? {
      FlattenOne(rows.value);
    }
  }

  function Datname(d: DatabaseDef): string { d.datname }
  function SchemaName(d: SchemaDef): string { d.name }
  function RelationName(d: RelationDef): string { d.name }
  function IndexOid(d: IndexDef): int { d.oid }
  function ConstraintOid(d: ConstraintDef): int { d.oid }
  function SettingName(d: Setting): string { d.name }

  function AskDatabases(): Source -> Reply<DatabaseDef> { (s: Source) => s.databases }
  function AskSchemas(db: string): Source -> Reply<SchemaDef> { (s: Source) => s.schemas(db) }
  function AskRelations(db: string, schema: string): Source -> Reply<RelationDef> { (s: Source) => s.relations(db, schema) }
  function AskColumns(db: string, schema: string, rel: string): Source -> Reply<ColumnSpec> {
    (s: Source) => s.columns(db, schema, rel)
  }
  function AskIndexes(db: string, schema: string): Source -> Reply<IndexDef> { (s: Source) => s.indexes(db, schema) }
  function AskConstraints(db: string, schema: string): Source -> Reply<ConstraintDef> {
    (s: Source) => s.constraints(db, schema)
  }
  function AskConfig(): Source -> Reply<Setting> { (s: Source) => s.config }
  function AskSettings(): Source -> Reply<Setting> { (s: Source) => s.settings }

  function AskAll<T>(ask: Source -> Reply<T>, sources: seq<Source>): seq<Reply<T>> {
    seq(|sources|, i requires 0 <= i < |sources| => ask(sources[i]))
  }

  /** The combined source; each method's answer is what its loop collects. */
  function Combined(sources: seq<Source>): Source {
    Source(
      Once(Refusing(Datname, AskAll(AskDatabases(), sources))),
      db => Once(Retaining(SchemaName, AskAll(AskSchemas(db), sources))),
      (db, schema) => Once(Refusing(RelationName, AskAll(AskRelations(db, schema), sources))),
      (db, schema, rel) => Once(FirstAnswer(AskAll(AskColumns(db, schema, rel), sources))),
      (db, schema) => Once(Retaining(IndexOid, AskAll(AskIndexes(db, schema), sources))),
      (db, schema) => Once(Retaining(ConstraintOid, AskAll(AskConstraints(db, schema), sources))),
      Once(Retaining(SettingName, AskAll(AskConfig(), sources))),
      Once(Retaining(SettingName, AskAll(AskSettings(), sources))))
  }

  lemma RefusingNested<T, K>(key: T -> K, before: seq<Reply<T>>, inner: seq<Reply<T>>, after: seq<Reply<T>>)
    ensures Refusing(key, before + [Once(Refusing(key, inner))] + after) == Refusing(key, before + inner + after)
  {
    var one := Once(Refusing(key, inner));
    OnceRows(Refusing(key, inner));
    AllRowsOne(one);
    AllRowsAppend(before + [one], after);
    AllRowsAppend(before, [one]);
    AllRowsAppend(before + inner, after);
    AllRowsAppend(before, inner);
    if AllRows(before + inner + after).Ok? {
      var a, b, c := AllRows(before).value, AllRows(inner).value, AllRows(after).value;
      DistinctAppend(key, a + b, c);
      DistinctAppend(key, a, b);
    }
  }

  lemma RetainingNested<T, K>(key: T -> K, before: seq<Reply<T>>, inner: seq<Reply<T>>, after: seq<Reply<T>>)
    ensures Retaining(key, before + [Once(Retaining(key, inner))] + after) == Retaining(key, before + inner + after)
  {
    var one := Once(Retaining(key, inner));
    OnceRows(Retaining(key, inner));
    AllRowsOne(one);
    AllRowsAppend(before + [one], after);
    AllRowsAppend(before, [one]);
    AllRowsAppend(before + inner, after);
    AllRowsAppend(before, inner);
    if AllRows(before + inner + after).Ok? {
      var a, b, c := AllRows(before).value, AllRows(inner).value, AllRows(after).value;
      KeptMiddle(key, a, b, c);
    }
  }

  lemma KeptMiddle<T, K>(key: T -> K, a: seq<T>, b: seq<T>, c: seq<T>)
    ensures Kept(key, {}, a + Kept(key, {}, b) + c) == Kept(key, {}, a + b + c)
  {
    var mid := Kept(key, {}, b);
    KeptKeys(key, {}, b);
    assert KeysOf(key, b) - {} == KeysOf(key, b);
    KeptAppend(key, {}, a + mid, c);
    KeptAppend(key, {}, a + b, c);
    KeptAppend(key, {}, a, mid);
    KeptAppend(key, {}, a, b);
    KeysAppend(key, a, mid);
    KeysAppend(key, a, b);
    KeptTwice(key, {}, {} + KeysOf(key, a), b);
  }

  lemma {:induction false} FirstAnswerNested<T>(before: seq<Reply<T>>, inner: seq<Reply<T>>, after: seq<Reply<T>>)
    ensures FirstAnswer(before + [Once(FirstAnswer(inner))] + after) == FirstAnswer(before + inner + after)
    decreases |before|
  {
    var one := Once(FirstAnswer(inner));
    if before == [] {
      assert before + [one] + after == [one] + after && ([one] + after)[1..] == after;
      assert before + inner + after == inner + after;
      OnceRows(FirstAnswer(inner));
      FirstAnswerAppend(inner, after);
    } else {
      FirstAnswerNested(before[1..], inner, after);
      assert (before + [one] + after)[1..] == before[1..] + [one] + after;
      assert (before + inner + after)[1..] == before[1..] + inner + after;
    }
  }

  lemma {:induction false} FirstAnswerAppend<T>(a: seq<Reply<T>>, b: seq<Reply<T>>)
    ensures FirstAnswer(a + b) == if FirstAnswer(a) == Ok([]) then FirstAnswer(b) else FirstAnswer(a)
    decreases |a|
  {
    if a == [] {
      assert a + b == b;
    } else {
      FirstAnswerAppend(a[1..], b);
      assert (a + b)[1..] == a[1..] + b;
    }
  }

  lemma AskSplit<T>(ask: Source -> Reply<T>, before: seq<Source>, mid: seq<Source>, after: seq<Source>)
    ensures AskAll(ask, before + mid + after) == AskAll(ask, before) + AskAll(ask, mid) + AskAll(ask, after)
  {
  }

  lemma RefusesAlike<T, K>(key: T -> K, ask: Source -> Reply<T>, before: seq<Source>, inner: seq<Source>, after: seq<Source>)
    requires ask(Combined(inner)) == Once(Refusing(key, AskAll(ask, inner)))
    ensures Refusing(key, AskAll(ask, before + [Combined(inner)] + after)) == Refusing(key, AskAll(ask, before + inner + after))
  {
    AskSplit(ask, before, inner, after);
    AskSplit(ask, before, [Combined(inner)], after);
    assert AskAll(ask, [Combined(inner)]) == [ask(Combined(inner))];
    RefusingNested(key, AskAll(ask, before), AskAll(ask, inner), AskAll(ask, after));
  }

  lemma RetainsAlike<T, K>(key: T -> K, ask: Source -> Reply<T>, before: seq<Source>, inner: seq<Source>, after: seq<Source>)
    requires ask(Combined(inner)) == Once(Retaining(key, AskAll(ask, inner)))
    ensures Retaining(key, AskAll(ask, before + [Combined(inner)] + after)) == Retaining(key, AskAll(ask, before + inner + after))
  {
    AskSplit(ask, before, inner, after);
    AskSplit(ask, before, [Combined(inner)], after);
    assert AskAll(ask, [Combined(inner)]) == [ask(Combined(inner))];
    RetainingNested(key, AskAll(ask, before), AskAll(ask, inner), AskAll(ask, after));
  }

  lemma AnswersAlike<T>(ask: Source -> Reply<T>, before: seq<Source>, inner: seq<Source>, after: seq<Source>)
    requires ask(Combined(inner)) == Once(FirstAnswer(AskAll(ask, inner)))
    ensures FirstAnswer(AskAll(ask, before + [Combined(inner)] + after)) == FirstAnswer(AskAll(ask, before + inner + after))
  {
    AskSplit(ask, before, inner, after);
    AskSplit(ask, before, [Combined(inner)], after);
    assert AskAll(ask, [Combined(inner)]) == [ask(Combined(inner))];
    FirstAnswerNested(AskAll(ask, before), AskAll(ask, inner), AskAll(ask, after));
  }

  /** A combined source nested in another answers every question as the flattened list does:
      the same rows in the same order, or an error in the same cases. */
  lemma NestedIsFlattened(before: seq<Source>, inner: seq<Source>, after: seq<Source>, db: string, schema: string, rel: string)
    ensures var nested, flat := Combined(before + [Combined(inner)] + after), Combined(before + inner + after);
      && nested.databases == flat.databases
      && nested.schemas(db) == flat.schemas(db)
      && nested.relations(db, schema) == flat.relations(db, schema)
      && nested.columns(db, schema, rel) == flat.columns(db, schema, rel)
      && nested.indexes(db, schema) == flat.indexes(db, schema)
      && nested.constraints(db, schema) == flat.constraints(db, schema)
      && nested.config == flat.config && nested.settings == flat.settings
  {
    RefusesAlike(Datname, AskDatabases(), before, inner, after);
    RetainsAlike(SchemaName, AskSchemas(db), before, inner, after);
    RefusesAlike(RelationName, AskRelations(db, schema), before, inner, after);
    AnswersAlike(AskColumns(db, schema, rel), before, inner, after);
    RetainsAlike(IndexOid, AskIndexes(db, schema), before, inner, after);
    RetainsAlike(ConstraintOid, AskConstraints(db, schema), before, inner, after);
    RetainsAlike(SettingName, AskConfig(), before, inner, after);
    RetainsAlike(SettingName, AskSettings(), before, inner, after);
  }

  // --- what each method tells objects apart by -----------------------------------------------

  lemma {:induction false} NothingDropped<T, K>(key: T -> K, seen: set<K>, xs: seq<T>)
    requires DistinctKeys(key, xs) && seen !! KeysOf(key, xs)
    ensures Kept(key, seen, xs) == xs
    decreases |xs|
  {
    if xs != [] {
      assert xs == [xs[0]] + xs[1..];
      DistinctAppend(key, [xs[0]], xs[1..]);
      KeysAppend(key, [xs[0]], xs[1..]);
      assert key([xs[0]][0]) in KeysOf(key, [xs[0]]) && key(xs[0]) in KeysOf(key, xs);
      NothingDropped(key, seen + {key(xs[0])}, xs[1..]);
    }
  }

  /** Indexes and constraints are told apart by OID: a union in which no OID is reported twice loses
      none of them, however they are named. */
  lemma UnionLosesNone(sources: seq<Source>, db: string, schema: string)
    ensures var all := AllRows(AskAll((s: Source) => s.indexes(db, schema), sources));
      all.Ok? && (forall i, j :: 0 <= i < j < |all.value| ==> all.value[i].oid != all.value[j].oid) ==>
        Rows(Combined(sources).indexes(db, schema)) == all
    ensures var all := AllRows(AskAll((s: Source) => s.constraints(db, schema), sources));
      all.Ok? && (forall i, j :: 0 <= i < j < |all.value| ==> all.value[i].oid != all.value[j].oid) ==>
        Rows(Combined(sources).constraints(db, schema)) == all
  {
    var indexes, constraints := AskAll(AskIndexes(db, schema), sources), AskAll(AskConstraints(db, schema), sources);
    assert indexes == AskAll((s: Source) => s.indexes(db, schema), sources);
    assert constraints == AskAll((s: Source) => s.constraints(db, schema), sources);
    OnceRows(Retaining(IndexOid, indexes));
    OnceRows(Retaining(ConstraintOid, constraints));
    if AllRows(indexes).Ok? && DistinctKeys(IndexOid, AllRows(indexes).value) {
      NothingDropped(IndexOid, {}, AllRows(indexes).value);
    }
    if AllRows(constraints).Ok? && DistinctKeys(ConstraintOid, AllRows(constraints).value) {
      NothingDropped(ConstraintOid, {}, AllRows(constraints).value);
    }
  }

  /** Databases and relations by name: the union is refused exactly when a source fails or a name comes
      up twice, and otherwise reports all. */
  lemma UnionRefusesNames(sources: seq<Source>, db: string, schema: string)
    ensures var all := AllRows(AskAll((s: Source) => s.databases, sources));
      Rows(Combined(sources).databases)
      == if all.Ok? && (forall i, j :: 0 <= i < j < |all.value| ==> all.value[i].datname != all.value[j].datname) then all else Error
    ensures var all := AllRows(AskAll((s: Source) => s.relations(db, schema), sources));
      Rows(Combined(sources).relations(db, schema))
      == if all.Ok? && (forall i, j :: 0 <= i < j < |all.value| ==> all.value[i].name != all.value[j].name) then all else Error
  {
    var databases, relations := AskAll(AskDatabases(), sources), AskAll(AskRelations(db, schema), sources);
    assert databases == AskAll((s: Source) => s.databases, sources);
    assert relations == AskAll((s: Source) => s.relations(db, schema), sources);
    OnceRows(Refusing(Datname, databases));
    OnceRows(Refusing(RelationName, relations));
    if AllRows(databases).Ok? {
      var all := AllRows(databases).value;
      assert DistinctKeys(Datname, all) <==> forall i, j :: 0 <= i < j < |all| ==> all[i].datname != all[j].datname;
    }
    if AllRows(relations).Ok? {
      var all := AllRows(relations).value;
      assert DistinctKeys(RelationName, all) <==> forall i, j :: 0 <= i < j < |all| ==> all[i].name != all[j].name;
    }
  }

  /** Of each name one object, and every name reported. */
  predicate OnePerName<T(==)>(name: T -> string, kept: seq<T>, all: seq<T>) {
    && (forall i, j :: 0 <= i < j < |kept| ==> name(kept[i]) != name(kept[j]))
    && (forall j :: 0 <= j < |all| ==> Stays(name, kept, all[j]))
    && forall i :: 0 <= i < |kept| ==> kept[i] in all
  }

  /** Some kept object has the name of this one. */
  predicate Stays<T>(name: T -> string, kept: seq<T>, x: T) {
    exists i :: 0 <= i < |kept| && name(kept[i]) == name(x)
  }

  lemma {:induction false} KeptMembers<T, K>(key: T -> K, seen: set<K>, xs: seq<T>)
    ensures forall x :: x in Kept(key, seen, xs) ==> x in xs
    decreases |xs|
  {
    if xs != [] {
      KeptMembers(key, seen, xs[1..]);
      KeptMembers(key, seen + {key(xs[0])}, xs[1..]);
      assert xs == [xs[0]] + xs[1..];
    }
  }

  lemma KeptPerName<T>(name: T -> string, all: seq<T>)
    ensures OnePerName(name, Kept(name, {}, all), all)
  {
    var kept := Kept(name, {}, all);
    KeptKeys(name, {}, all);
    KeptMembers(name, {}, all);
    forall j | 0 <= j < |all| ensures Stays(name, kept, all[j]) {
      assert name(all[j]) in KeysOf(name, all) - {};
    }
  }

  /** Schemas and settings by name: one of each name stays. */
  lemma UnionKeepsNames(sources: seq<Source>, db: string)
    ensures var all, kept := AllRows(AskAll((s: Source) => s.schemas(db), sources)), Rows(Combined(sources).schemas(db));
      kept.Ok? == all.Ok? && (all.Ok? ==> OnePerName((d: SchemaDef) => d.name, kept.value, all.value))
    ensures var all, kept := AllRows(AskAll((s: Source) => s.config, sources)), Rows(Combined(sources).config);
      kept.Ok? == all.Ok? && (all.Ok? ==> OnePerName((d: Setting) => d.name, kept.value, all.value))
    ensures var all, kept := AllRows(AskAll((s: Source) => s.settings, sources)), Rows(Combined(sources).settings);
      kept.Ok? == all.Ok? && (all.Ok? ==> OnePerName((d: Setting) => d.name, kept.value, all.value))
  {
    KeepsOne(SchemaName, (d: SchemaDef) => d.name, AskSchemas(db), (s: Source) => s.schemas(db), sources);
    KeepsOne(SettingName, (d: Setting) => d.name, AskConfig(), (s: Source) => s.config, sources);
    KeepsOne(SettingName, (d: Setting) => d.name, AskSettings(), (s: Source) => s.settings, sources);
  }

  lemma KeepsOne<T(!new)>(key: T -> string, name: T -> string, ask: Source -> Reply<T>, asked: Source -> Reply<T>, sources: seq<Source>)
    requires (forall x: T :: key(x) == name(x)) && forall s :: ask(s) == asked(s)
    ensures var all, kept := AllRows(AskAll(asked, sources)), Rows(Once(Retaining(key, AskAll(ask, sources))));
      kept.Ok? == all.Ok? && (all.Ok? ==> OnePerName(name, kept.value, all.value))
  {
    SameAsked(ask, asked, sources);
    OnceRows(Retaining(key, AskAll(ask, sources)));
    var all := AllRows(AskAll(ask, sources));
    if all.Ok? {
      KeptPerName(key, all.value);
      SameNames(key, name, Kept(key, {}, all.value), all.value);
    }
  }

  lemma SameAsked<T>(ask: Source -> Reply<T>, asked: Source -> Reply<T>, sources: seq<Source>)
    requires forall s :: ask(s) == asked(s)
    ensures AskAll(ask, sources) == AskAll(asked, sources)
  {
  }

  lemma SameNames<T(!new)>(key: T -> string, name: T -> string, kept: seq<T>, all: seq<T>)
    requires (forall x: T :: key(x) == name(x)) && OnePerName(key, kept, all)
    ensures OnePerName(name, kept, all)
  {
    forall j | 0 <= j < |all| ensures Stays(name, kept, all[j]) {
      assert Stays(key, kept, all[j]);
      var i :| 0 <= i < |kept| && key(kept[i]) == key(all[j]);
      assert name(kept[i]) == name(all[j]);
    }
    forall i, j | 0 <= i < j < |kept| ensures name(kept[i]) != name(kept[j]) {
      assert key(kept[i]) != key(kept[j]);
    }
  }

  /** Columns: the answer is that of the first source that reports any; a source before it must not
      fail, and one after it is not asked. */
  lemma {:induction false} FirstAnswerIsFirst<T>(replies: seq<Reply<T>>, k: nat)
    requires k < |replies| && forall i :: 0 <= i < k ==> Rows(replies[i]) == Ok([])
    ensures Rows(replies[k]) != Ok([]) ==> FirstAnswer(replies) == Rows(replies[k])
    ensures k + 1 == |replies| ==> FirstAnswer(replies) == Rows(replies[k])
  {
    if k > 0 {
      FirstAnswerIsFirst(replies[1..], k - 1);
    } else if |replies| == 1 {
      assert replies[1..] == [] && FirstAnswer(replies[1..]) == Ok([]);
    }
  }
}
