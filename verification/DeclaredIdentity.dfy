/** Declarations and identity: when a declaration set is accepted, which OIDs its objects get, and
    what declaring the same objects again does. */
module DeclaredIdentity {
  import opened Wrappers
  import opened Keys
  import opened OidRegistry
  import opened CatalogSource
  import opened DeclaredSource

  // --- what a declaration set names ----------------------------------------------------------

  predicate NamesSchema(items: seq<Decl>, db: string, name: string) {
    DeclSchema(db, name) in items || exists i :: 0 <= i < |items| && UsesSchema(items[i], db, name)
  }

  predicate UsesSchema(item: Decl, db: string, name: string) {
    item.DeclTable? && item.t.db == db && item.t.schema == name
  }

  predicate NamesRelation(items: seq<Decl>, db: string, schema: string, name: string) {
    exists i :: 0 <= i < |items| && IsRelation(items[i], db, schema, name)
  }

  predicate IsRelation(item: Decl, db: string, schema: string, name: string) {
    item.DeclTable? && item.t.db == db && item.t.schema == schema && item.t.name == name
  }

  /** The registry names a declaration set needs. */
  predicate NeedsName(items: seq<Decl>, r: Request) {
    match r
    case Database(name) => DeclDatabase(name) in items
    case Schema(db, name) => name != "public" && NamesSchema(items, db, name)
    case Relation(db, schema, name) => NamesRelation(items, db, schema, name)
  }

  /** A declaration that may follow others: its database is declared and its name is not taken. */
  predicate Admissible(done: seq<Decl>, item: Decl) {
    match item
    case DeclDatabase(_) => item !in done
    case DeclSchema(db, name) => DeclDatabase(db) in done && !NamesSchema(done, db, name)
    case DeclTable(t) => DeclDatabase(t.db) in done && !NamesRelation(done, t.db, t.schema, t.name)
  }

  /** The declarations `items`, made after `done`, are each admissible in turn. */
  predicate Follow(done: seq<Decl>, items: seq<Decl>)
    decreases |items|
  {
    items == [] || (Admissible(done, items[0]) && Follow(done + [items[0]], items[1..]))
  }

  /** The registry calls one declaration makes. */
  function Calls(done: seq<Decl>, item: Decl): seq<Request> {
    match item
    case DeclDatabase(name) => [Database(name)]
    case DeclSchema(db, name) => if name == "public" then [] else [Schema(db, name)]
    case DeclTable(t) =>
      (if t.schema == "public" || NamesSchema(done, t.db, t.schema) then [] else [Schema(t.db, t.schema)])
      + [Relation(t.db, t.schema, t.name)]
  }

  function CallsOf(done: seq<Decl>, items: seq<Decl>): seq<Request>
    decreases |items|
  {
    if items == [] then [] else Calls(done, items[0]) + CallsOf(done + [items[0]], items[1..])
  }

  predicate AllAnswered(reg: State, calls: seq<Request>) {
    forall i :: 0 <= i < |calls| ==> AnswerTo(reg, calls, i).Ok?
  }

  lemma NamesSnoc(done: seq<Decl>, item: Decl, db: string, schema: string, name: string)
    ensures NamesSchema(done + [item], db, schema) <==>
      NamesSchema(done, db, schema) || item == DeclSchema(db, schema) || UsesSchema(item, db, schema)
    ensures NamesRelation(done + [item], db, schema, name) <==>
      NamesRelation(done, db, schema, name) || IsRelation(item, db, schema, name)
  {
    var all := done + [item];
    assert all[|done|] == item;
    assert forall i :: 0 <= i < |done| ==> all[i] == done[i];
  }

  /** The calls are for exactly the names the declarations need, in whatever order those come. */
  lemma {:induction false} CallsAreNames(done: seq<Decl>, items: seq<Decl>, r: Request)
    ensures NeedsName(done + items, r) <==> NeedsName(done, r) || r in CallsOf(done, items)
    decreases |items|
  {
    if items == [] {
      assert done + items == done;
    } else {
      var item := items[0];
      CallsAreNames(done + [item], items[1..], r);
      assert done + items == done + [item] + items[1..];
      match r
      case Database(_) =>
      case Schema(db, name) => NamesSnoc(done, item, db, name, "");
      case Relation(db, schema, name) => NamesSnoc(done, item, db, schema, name);
    }
  }

  // --- space in the registry -----------------------------------------------------------------

  /** How many new numbers a list of calls takes. */
  function Needed(reg: State, calls: seq<Request>): int {
    if calls == [] then 0
    else
      var n := |calls| - 1;
      Needed(reg, calls[..n]) + if Recorded(reg, calls[n]).Some? || calls[n] in calls[..n] then 0 else Count(calls[n])
  }

  lemma {:induction false} AnsweredPrefix(reg: State, calls: seq<Request>, more: seq<Request>)
    ensures AllAnswered(reg, calls + more) <==> AllAnswered(reg, calls) && AllAnswered(After(reg, calls), more)
    decreases |more|
  {
    var all := calls + more;
    forall i | 0 <= i < |calls| ensures AnswerTo(reg, all, i) == AnswerTo(reg, calls, i) {
      assert all[..i] == calls[..i];
    }
    forall i | 0 <= i < |more| ensures AnswerTo(reg, all, |calls| + i) == AnswerTo(After(reg, calls), more, i) {
      assert all[..|calls| + i] == calls + more[..i];
      AfterSplits(reg, calls, more[..i]);
    }
    if AllAnswered(reg, all) {
      forall i | 0 <= i < |calls| ensures AnswerTo(reg, calls, i).Ok? {
        assert AnswerTo(reg, all, i).Ok?;
      }
      forall i | 0 <= i < |more| ensures AnswerTo(After(reg, calls), more, i).Ok? {
        assert AnswerTo(reg, all, |calls| + i).Ok?;
      }
    } else {
      var i :| 0 <= i < |all| && AnswerTo(reg, all, i).Error?;
      if i < |calls| {
        assert AnswerTo(reg, calls, i).Error?;
      } else {
        assert AnswerTo(After(reg, calls), more, i - |calls|).Error?;
      }
    }
  }

  lemma AnsweredOne(reg: State, r: Request)
    ensures AllAnswered(reg, [r]) <==> Resolve(reg, r).1.Ok?
    ensures After(reg, [r]) == Resolve(reg, r).0
  {
    var calls := [r];
    assert calls[..0] == [] && After(reg, calls[..0]) == reg;
    assert AnswerTo(reg, calls, 0) == Resolve(reg, r).1;
  }

  /** Calls are all answered exactly when the numbers they take still fit. */
  lemma {:induction false} SpaceExact(reg: State, calls: seq<Request>)
    requires NextOid(reg) <= I32_MAX
    ensures AllAnswered(reg, calls) <==> NextOid(reg) + Needed(reg, calls) <= I32_MAX
    ensures AllAnswered(reg, calls) ==> NextOid(After(reg, calls)) == NextOid(reg) + Needed(reg, calls)
    ensures AllAnswered(reg, calls) ==>
      forall r :: Recorded(After(reg, calls), r).Some? <==> Recorded(reg, r).Some? || r in calls
  {
    if calls != [] {
      var n := |calls| - 1;
      var front, last := calls[..n], calls[n];
      SpaceExact(reg, front);
      assert calls == front + [last];
      AnsweredPrefix(reg, front, [last]);
      AnsweredOne(After(reg, front), last);
      forall r {
        ResolveChanges(After(reg, front), last, r);
      }
      ResolveChanges(After(reg, front), last, last);
    }
  }

  // --- the rows a declaration set makes ------------------------------------------------------

  function SchemaOf(reg: State, db: string, name: string): Option<SchemaDef> {
    if name == "public" then Some(SchemaDef(PUBLIC_SCHEMA_OID, name, Some(PUBLIC_SCHEMA_OWNER_OID)))
    else
      match Recorded(reg, Schema(db, name))
      case Some(One(oid)) => Some(SchemaDef(oid, name, None))
      case _ => None
  }

  /** Whether this is the row of one of the declared tables. */
  predicate RowOf(reg: State, item: Decl, x: DeclaredRelation) {
    && item.DeclTable? && x.db == item.t.db && x.schema == item.t.schema && x.def.name == item.t.name && x.def.kind.Table?
    && x.columns == item.t.columns
    && Recorded(reg, Relation(x.db, x.schema, x.def.name)) == Some(Two(x.def.oid, x.def.reltype))
  }

  predicate IsRow(reg: State, items: seq<Decl>, x: DeclaredRelation) {
    exists i :: 0 <= i < |items| && RowOf(reg, items[i], x)
  }

  /** The rows are those of the declared names, their OIDs as the registry records them. */
  ghost predicate Serves(items: seq<Decl>, reg: State, d: Declared) {
    && (forall x :: x in d.databases <==>
          DeclDatabase(x.datname) in items && Recorded(reg, Database(x.datname)) == Some(One(x.oid)))
    && (forall x :: x in d.schemas <==>
          NamesSchema(items, x.db, x.def.name) && SchemaOf(reg, x.db, x.def.name) == Some(x.def))
    && (forall x :: x in d.relations <==> IsRow(reg, items, x))
  }

  ghost predicate AllRecorded(items: seq<Decl>, reg: State) {
    forall r :: NeedsName(items, r) ==> Recorded(reg, r).Some?
  }

  function SchemaKey(x: DeclaredSchema): (string, string) { (x.db, x.def.name) }
  function RelationKey(x: DeclaredRelation): (string, string, string) { (x.db, x.schema, x.def.name) }
  function DatabaseKey(x: DatabaseDef): string { x.datname }

  /** One row a name. */
  predicate OneEach(d: Declared) {
    DistinctKeys(DatabaseKey, d.databases) && DistinctKeys(SchemaKey, d.schemas) && DistinctKeys(RelationKey, d.relations)
  }

  ghost predicate Made(items: seq<Decl>, reg: State, d: Declared) {
    Serves(items, reg, d) && AllRecorded(items, reg) && OneEach(d)
  }

  lemma HasNames(items: seq<Decl>, reg: State, d: Declared, db: string, schema: string, name: string)
    requires Serves(items, reg, d) && AllRecorded(items, reg)
    ensures HasDatabase(d, db) <==> DeclDatabase(db) in items
    ensures HasSchema(d, db, schema) <==> NamesSchema(items, db, schema)
    ensures HasRelation(d, db, schema, name) <==> NamesRelation(items, db, schema, name)
  {
    if DeclDatabase(db) in items {
      assert NeedsName(items, Database(db));
      assert DatabaseDef(Recorded(reg, Database(db)).value.oid, db) in d.databases;
    }
    if NamesSchema(items, db, schema) {
      assert schema != "public" ==> NeedsName(items, Schema(db, schema));
      assert DeclaredSchema(db, SchemaOf(reg, db, schema).value) in d.schemas;
    }
    if NamesRelation(items, db, schema, name) {
      assert NeedsName(items, Relation(db, schema, name));
      var i :| 0 <= i < |items| && IsRelation(items[i], db, schema, name);
      var a := Recorded(reg, Relation(db, schema, name)).value;
      var x := DeclaredRelation(db, schema, RelationDef(a.oid, a.rowtype, name, Table), items[i].t.columns);
      assert RowOf(reg, items[i], x);
      assert x in d.relations;
    }
    RowsAreNamed(items, reg, d);
  }

  lemma RowsAreNamed(items: seq<Decl>, reg: State, d: Declared)
    requires Serves(items, reg, d)
    ensures forall i :: 0 <= i < |d.databases| ==> DeclDatabase(d.databases[i].datname) in items
    ensures forall i :: 0 <= i < |d.schemas| ==> NamesSchema(items, d.schemas[i].db, d.schemas[i].def.name)
    ensures forall i :: 0 <= i < |d.relations| ==>
      NamesRelation(items, d.relations[i].db, d.relations[i].schema, d.relations[i].def.name)
  {
    forall i | 0 <= i < |d.relations|
      ensures NamesRelation(items, d.relations[i].db, d.relations[i].schema, d.relations[i].def.name)
    {
      var x := d.relations[i];
      assert IsRow(reg, items, x);
      var j :| 0 <= j < |items| && RowOf(reg, items[j], x);
      assert IsRelation(items[j], x.db, x.schema, x.def.name);
    }
    assert forall i :: 0 <= i < |d.schemas| ==> d.schemas[i] in d.schemas;
    assert forall i :: 0 <= i < |d.databases| ==> d.databases[i] in d.databases;
  }

  /** Further calls leave the rows what they are. */
  lemma ServesLater(items: seq<Decl>, reg: State, calls: seq<Request>, d: Declared)
    requires Serves(items, reg, d) && AllRecorded(items, reg)
    ensures Serves(items, After(reg, calls), d) && AllRecorded(items, After(reg, calls))
  {
    var later := After(reg, calls);
    forall r | NeedsName(items, r) ensures Recorded(later, r) == Recorded(reg, r) {
      RecordedForever(reg, calls, r);
    }
    forall x ensures x in d.schemas <==>
      NamesSchema(items, x.db, x.def.name) && SchemaOf(later, x.db, x.def.name) == Some(x.def)
    {
      assert NeedsName(items, Schema(x.db, x.def.name)) <==> x.def.name != "public" && NamesSchema(items, x.db, x.def.name);
    }
    forall x: DatabaseDef ensures DeclDatabase(x.datname) in items ==>
      Recorded(later, Database(x.datname)) == Recorded(reg, Database(x.datname))
    {
      assert NeedsName(items, Database(x.datname)) <==> DeclDatabase(x.datname) in items;
    }
    forall x ensures IsRow(later, items, x) <==> IsRow(reg, items, x) {
      forall i | 0 <= i < |items| ensures RowOf(later, items[i], x) <==> RowOf(reg, items[i], x) {
        if IsRelation(items[i], x.db, x.schema, x.def.name) {
          assert NeedsName(items, Relation(x.db, x.schema, x.def.name));
        }
      }
    }
  }

  // --- one declaration -----------------------------------------------------------------------

  lemma SameRows(reg: State, items: seq<Decl>, item: Decl, x: DeclaredRelation)
    ensures IsRow(reg, items + [item], x) <==> IsRow(reg, items, x) || RowOf(reg, item, x)
  {
    var all := items + [item];
    assert all[|items|] == item;
    assert forall i :: 0 <= i < |items| ==> all[i] == items[i];
  }

  /** The registry names one more declaration adds. */
  predicate Introduces(item: Decl, r: Request) {
    match r
    case Database(name) => item == DeclDatabase(name)
    case Schema(db, name) => name != "public" && (item == DeclSchema(db, name) || UsesSchema(item, db, name))
    case Relation(db, schema, name) => IsRelation(item, db, schema, name)
  }

  lemma NamesAll(done: seq<Decl>, item: Decl, reg: State)
    ensures forall r :: NeedsName(done + [item], r) <==> NeedsName(done, r) || Introduces(item, r)
    ensures forall db, name :: NamesSchema(done + [item], db, name) <==>
      NamesSchema(done, db, name) || item == DeclSchema(db, name) || UsesSchema(item, db, name)
    ensures forall x :: IsRow(reg, done + [item], x) <==> IsRow(reg, done, x) || RowOf(reg, item, x)
  {
    forall db, name ensures NamesSchema(done + [item], db, name) <==>
      NamesSchema(done, db, name) || item == DeclSchema(db, name) || UsesSchema(item, db, name)
    {
      NamesSnoc(done, item, db, name, "");
    }
    forall r ensures NeedsName(done + [item], r) <==> NeedsName(done, r) || Introduces(item, r) {
      if r.Relation? {
        NamesSnoc(done, item, r.db, r.schema, r.name);
      }
    }
    forall x ensures IsRow(reg, done + [item], x) <==> IsRow(reg, done, x) || RowOf(reg, item, x) {
      SameRows(reg, done, item, x);
    }
  }

  /** Two declaration sets that name the same objects and describe the same rows. */
  ghost predicate SameNames(a: seq<Decl>, b: seq<Decl>, reg: State) {
    && (forall r :: NeedsName(a, r) <==> NeedsName(b, r))
    && (forall db, name :: NamesSchema(a, db, name) <==> NamesSchema(b, db, name))
    && (forall x :: IsRow(reg, a, x) <==> IsRow(reg, b, x))
  }

  lemma SameNamesSameRows(a: seq<Decl>, b: seq<Decl>, reg: State, d: Declared)
    requires SameNames(a, b, reg) && Made(a, reg, d)
    ensures Made(b, reg, d)
  {
    forall name: string ensures DeclDatabase(name) in a <==> DeclDatabase(name) in b {
      assert NeedsName(a, Database(name)) <==> NeedsName(b, Database(name));
    }
  }

  lemma NewKey<T, K>(key: T -> K, xs: seq<T>, x: T)
    requires DistinctKeys(key, xs) && forall i :: 0 <= i < |xs| ==> key(xs[i]) != key(x)
    ensures DistinctKeys(key, xs + [x])
  {
  }

  lemma AddsDatabase(done: seq<Decl>, reg: State, d: Declared, row: DatabaseDef)
    requires Made(done, reg, d) && DeclDatabase(row.datname) !in done
    requires Recorded(reg, Database(row.datname)) == Some(One(row.oid))
    ensures Made(done + [DeclDatabase(row.datname)], reg, d.(databases := d.databases + [row]))
  {
    var item := DeclDatabase(row.datname);
    RowsAreNamed(done, reg, d);
    NewKey(DatabaseKey, d.databases, row);
    NamesAll(done, item, reg);
  }

  lemma AddsSchema(done: seq<Decl>, reg: State, d: Declared, row: DeclaredSchema)
    requires Made(done, reg, d) && !NamesSchema(done, row.db, row.def.name)
    requires SchemaOf(reg, row.db, row.def.name) == Some(row.def)
    ensures Made(done + [DeclSchema(row.db, row.def.name)], reg, d.(schemas := d.schemas + [row]))
  {
    var item := DeclSchema(row.db, row.def.name);
    RowsAreNamed(done, reg, d);
    NewKey(SchemaKey, d.schemas, row);
    NamesAll(done, item, reg);
  }

  lemma AddsRelation(done: seq<Decl>, reg: State, d: Declared, t: TableDecl, row: DeclaredRelation)
    requires Made(done, reg, d) && NamesSchema(done, t.db, t.schema) && !NamesRelation(done, t.db, t.schema, t.name)
    requires RowOf(reg, DeclTable(t), row)
    ensures Made(done + [DeclTable(t)], reg, d.(relations := d.relations + [row]))
  {
    var item := DeclTable(t);
    RowsAreNamed(done, reg, d);
    NewKey(RelationKey, d.relations, row);
    NamesAll(done, item, reg);
    forall x ensures RowOf(reg, item, x) <==> x == row {
    }
  }

  // --- one declaration -----------------------------------------------------------------------

  lemma DatabaseMade(done: seq<Decl>, reg: State, d: Declared, name: string)
    requires Made(done, reg, d)
    ensures var item := DeclDatabase(name);
      var w := Add(d, reg, item);
      && (w.made.Ok? <==> Admissible(done, item) && AllAnswered(reg, Calls(done, item)))
      && (w.made.Ok? ==> w.reg == After(reg, Calls(done, item)) && Made(done + [item], w.reg, w.made.value))
  {
    HasNames(done, reg, d, name, "", "");
    AnsweredOne(reg, Database(name));
    if DeclDatabase(name) !in done && Resolve(reg, Database(name)).1.Ok? {
      ResolveChanges(reg, Database(name), Database(name));
      ServesLater(done, reg, [Database(name)], d);
      AddsDatabase(done, Resolve(reg, Database(name)).0, d, DatabaseDef(Resolve(reg, Database(name)).1.value.oid, name));
    }
  }

  lemma SchemaMade(done: seq<Decl>, reg: State, d: Declared, db: string, name: string)
    requires Made(done, reg, d) && !NamesSchema(done, db, name)
    ensures var item := DeclSchema(db, name);
      var w := AddSchema(d, reg, db, name);
      && (w.made.Ok? <==> AllAnswered(reg, Calls(done, item)))
      && (w.made.Ok? ==> w.reg == After(reg, Calls(done, item)) && Made(done + [item], w.reg, w.made.value))
  {
    var calls := Calls(done, DeclSchema(db, name));
    AnsweredOne(reg, Schema(db, name));
    ResolveChanges(reg, Schema(db, name), Schema(db, name));
    if AllAnswered(reg, calls) {
      ServesLater(done, reg, calls, d);
      var def := SchemaRow(reg, db, name).1.value;
      AddsSchema(done, After(reg, calls), d, DeclaredSchema(db, def));
    }
  }

  lemma RelationMade(done: seq<Decl>, reg: State, d: Declared, t: TableDecl)
    requires Made(done, reg, d) && NamesSchema(done, t.db, t.schema) && !NamesRelation(done, t.db, t.schema, t.name)
    ensures var call := Relation(t.db, t.schema, t.name);
      var w := AddRelation(d, reg, t);
      && (w.made.Ok? <==> AllAnswered(reg, [call]))
      && (w.made.Ok? ==> w.reg == After(reg, [call]) && Made(done + [DeclTable(t)], w.reg, w.made.value))
  {
    var call := Relation(t.db, t.schema, t.name);
    AnsweredOne(reg, call);
    ResolveChanges(reg, call, call);
    if Resolve(reg, call).1.Ok? {
      ServesLater(done, reg, [call], d);
      var a := Resolve(reg, call).1.value;
      AddsRelation(done, After(reg, [call]), d, t, DeclaredRelation(t.db, t.schema, RelationDef(a.oid, a.rowtype, t.name, Table), t.columns));
    }
  }

  /** A table may name a schema nothing declared; that declares it. */
  lemma TableMade(done: seq<Decl>, reg: State, d: Declared, t: TableDecl)
    requires Made(done, reg, d)
    ensures var item := DeclTable(t);
      var w := Add(d, reg, item);
      && (w.made.Ok? <==> Admissible(done, item) && AllAnswered(reg, Calls(done, item)))
      && (w.made.Ok? ==> w.reg == After(reg, Calls(done, item)) && Made(done + [item], w.reg, w.made.value))
  {
    var item, call := DeclTable(t), Relation(t.db, t.schema, t.name);
    HasNames(done, reg, d, t.db, t.schema, t.name);
    if Admissible(done, item) {
      if NamesSchema(done, t.db, t.schema) {
        assert Calls(done, item) == [call];
        RelationMade(done, reg, d, t);
      } else {
        var first := DeclSchema(t.db, t.schema);
        var before := Calls(done, first);
        assert Calls(done, item) == before + [call];
        AnsweredPrefix(reg, before, [call]);
        AfterSplits(reg, before, [call]);
        SchemaMade(done, reg, d, t.db, t.schema);
        NamesSnoc(done, first, t.db, t.schema, t.name);
        var w := AddSchema(d, reg, t.db, t.schema);
        if w.made.Ok? {
          RelationMade(done + [first], w.reg, w.made.value, t);
          if AllAnswered(w.reg, [call]) {
            ImpliedSchema(done, t, After(w.reg, [call]), AddRelation(w.made.value, w.reg, t).made.value);
          }
        }
      }
    }
  }

  lemma ImpliedSchema(done: seq<Decl>, t: TableDecl, reg: State, d: Declared)
    requires Made(done + [DeclSchema(t.db, t.schema)] + [DeclTable(t)], reg, d)
    ensures Made(done + [DeclTable(t)], reg, d)
  {
    var first, item := DeclSchema(t.db, t.schema), DeclTable(t);
    NamesAll(done, first, reg);
    NamesAll(done + [first], item, reg);
    NamesAll(done, item, reg);
    SameNamesSameRows(done + [first] + [item], done + [item], reg, d);
  }

  lemma ItemMade(done: seq<Decl>, reg: State, d: Declared, item: Decl)
    requires Made(done, reg, d)
    ensures var w := Add(d, reg, item);
      && (w.made.Ok? <==> Admissible(done, item) && AllAnswered(reg, Calls(done, item)))
      && (w.made.Ok? ==> w.reg == After(reg, Calls(done, item)) && Made(done + [item], w.reg, w.made.value))
  {
    match item
    case DeclDatabase(name) => DatabaseMade(done, reg, d, name);
    case DeclSchema(db, name) =>
      HasNames(done, reg, d, db, name, "");
      if !NamesSchema(done, db, name) {
        SchemaMade(done, reg, d, db, name);
      }
    case DeclTable(t) => TableMade(done, reg, d, t);
  }

  // --- whole declaration sets ----------------------------------------------------------------

  lemma {:induction false} AllMade(done: seq<Decl>, reg: State, d: Declared, items: seq<Decl>)
    requires Made(done, reg, d)
    ensures var w, calls := AddAll(Work(reg, Ok(d)), items), CallsOf(done, items);
      && (w.made.Ok? <==> Follow(done, items) && AllAnswered(reg, calls))
      && (w.made.Ok? ==> w.reg == After(reg, calls) && Made(done + items, w.reg, w.made.value))
    decreases |items|
  {
    if items == [] {
      assert done + items == done;
    } else {
      var item, rest := items[0], items[1..];
      assert done + items == done + [item] + rest;
      ItemMade(done, reg, d, item);
      AnsweredPrefix(reg, Calls(done, item), CallsOf(done + [item], rest));
      AfterSplits(reg, Calls(done, item), CallsOf(done + [item], rest));
      var w := Add(d, reg, item);
      if w.made.Ok? {
        AllMade(done + [item], w.reg, w.made.value, rest);
      }
    }
  }

  /** Declarations are accepted exactly when they are admissible in turn and their new names still
      fit; the rows then carry the registry's OIDs. */
  lemma DeclareExactly(reg: State, items: seq<Decl>)
    requires NextOid(reg) <= I32_MAX
    ensures var w := Declare(reg, items);
      && (w.made.Ok? <==> Follow([], items) && NextOid(reg) + Needed(reg, CallsOf([], items)) <= I32_MAX)
      && (w.made.Ok? ==> w.reg == After(reg, CallsOf([], items)) && Made(items, w.reg, w.made.value))
  {
    assert [] + items == items;
    AllMade([], reg, Declared([], [], []), items);
    SpaceExact(reg, CallsOf([], items));
  }

  function TableKey(t: TableDecl): (string, string, string) { (t.db, t.schema, t.name) }
  function Itself<T>(x: T): T { x }

  /** What a host must see to: nothing declared twice, every referenced database declared. */
  predicate Acceptable(databases: seq<string>, schemas: seq<(string, string)>, tables: seq<TableDecl>) {
    && DistinctKeys(Itself, databases) && DistinctKeys(Itself, schemas) && DistinctKeys(TableKey, tables)
    && (forall j :: 0 <= j < |schemas| ==> schemas[j].0 in databases)
    && (forall k :: 0 <= k < |tables| ==> tables[k].db in databases)
  }

  lemma {:induction false} FollowSplits(done: seq<Decl>, a: seq<Decl>, b: seq<Decl>)
    ensures Follow(done, a + b) <==> Follow(done, a) && Follow(done + a, b)
    decreases |a|
  {
    if a == [] {
      assert a + b == b && done + a == done;
    } else {
      FollowSplits(done + [a[0]], a[1..], b);
      assert (a + b)[1..] == a[1..] + b && done + [a[0]] + a[1..] == done + a;
    }
  }

  lemma {:induction false} DatabasesFollow(names: seq<string>)
    ensures Follow([], DatabaseItems(names)) <==> DistinctKeys(Itself, names)
  {
    if names != [] {
      var n := |names| - 1;
      DatabasesFollow(names[..n]);
      assert DatabaseItems(names) == DatabaseItems(names[..n]) + [DeclDatabase(names[n])];
      FollowSplits([], DatabaseItems(names[..n]), [DeclDatabase(names[n])]);
      assert [] + DatabaseItems(names[..n]) == DatabaseItems(names[..n]);
      DatabaseBefore(names[..n], names[n]);
      LastKey(Itself, names);
    }
  }

  lemma DatabaseBefore(names: seq<string>, name: string)
    ensures DeclDatabase(name) in DatabaseItems(names) <==> name in names
  {
    assert forall i :: 0 <= i < |names| ==> DatabaseItems(names)[i] == DeclDatabase(names[i]);
  }

  lemma LastKey<T, K>(key: T -> K, xs: seq<T>)
    requires xs != []
    ensures var n := |xs| - 1;
      DistinctKeys(key, xs) <==> DistinctKeys(key, xs[..n]) && forall i :: 0 <= i < n ==> key(xs[i]) != key(xs[n])
  {
    var n := |xs| - 1;
    if DistinctKeys(key, xs) {
      forall i, j | 0 <= i < j < n ensures key(xs[..n][i]) != key(xs[..n][j]) {
        assert key(xs[i]) != key(xs[j]);
      }
    }
    if DistinctKeys(key, xs[..n]) && forall i :: 0 <= i < n ==> key(xs[i]) != key(xs[n]) {
      forall i, j | 0 <= i < j < |xs| ensures key(xs[i]) != key(xs[j]) {
        if j < n {
          assert key(xs[..n][i]) != key(xs[..n][j]);
        }
      }
    }
  }

  lemma Before(databases: seq<string>, schemas: seq<(string, string)>, db: string, name: string)
    ensures var done := DatabaseItems(databases) + SchemaItems(schemas);
      && (DeclDatabase(db) in done <==> db in databases)
      && (NamesSchema(done, db, name) <==> (db, name) in schemas)
  {
    var done := DatabaseItems(databases) + SchemaItems(schemas);
    assert forall i :: 0 <= i < |databases| ==> done[i] == DeclDatabase(databases[i]);
    assert forall i :: 0 <= i < |schemas| ==> done[|databases| + i] == DeclSchema(schemas[i].0, schemas[i].1);
  }

  lemma {:induction false} SchemasFollow(databases: seq<string>, schemas: seq<(string, string)>)
    ensures Follow(DatabaseItems(databases), SchemaItems(schemas))
       <==> DistinctKeys(Itself, schemas) && forall j :: 0 <= j < |schemas| ==> schemas[j].0 in databases
  {
    if schemas != [] {
      var n := |schemas| - 1;
      var front, last := SchemaItems(schemas[..n]), DeclSchema(schemas[n].0, schemas[n].1);
      SchemasFollow(databases, schemas[..n]);
      assert SchemaItems(schemas) == front + [last];
      FollowSplits(DatabaseItems(databases), front, [last]);
      Before(databases, schemas[..n], schemas[n].0, schemas[n].1);
      LastKey(Itself, schemas);
      assert forall j :: 0 <= j < n ==> schemas[..n][j] == schemas[j];
    }
  }

  lemma {:induction false} TablesFollow(databases: seq<string>, schemas: seq<(string, string)>, tables: seq<TableDecl>)
    ensures Follow(DatabaseItems(databases) + SchemaItems(schemas), TableItems(tables))
       <==> DistinctKeys(TableKey, tables) && forall k :: 0 <= k < |tables| ==> tables[k].db in databases
  {
    if tables != [] {
      var n := |tables| - 1;
      var done, front, last := DatabaseItems(databases) + SchemaItems(schemas), TableItems(tables[..n]), DeclTable(tables[n]);
      TablesFollow(databases, schemas, tables[..n]);
      assert TableItems(tables) == front + [last];
      FollowSplits(done, front, [last]);
      LastKey(TableKey, tables);
      TableBefore(databases, schemas, tables[..n], tables[n]);
      assert forall k :: 0 <= k < n ==> tables[..n][k] == tables[k];
    }
  }

  lemma TableBefore(databases: seq<string>, schemas: seq<(string, string)>, tables: seq<TableDecl>, t: TableDecl)
    ensures var done := DatabaseItems(databases) + SchemaItems(schemas) + TableItems(tables);
      && (DeclDatabase(t.db) in done <==> t.db in databases)
      && (NamesRelation(done, t.db, t.schema, t.name) <==> exists k :: 0 <= k < |tables| && TableKey(tables[k]) == TableKey(t))
  {
    var first := DatabaseItems(databases) + SchemaItems(schemas);
    var done := first + TableItems(tables);
    Before(databases, schemas, t.db, "");
    assert DeclDatabase(t.db) in done <==> DeclDatabase(t.db) in first;
    assert forall k :: 0 <= k < |tables| ==> done[|first| + k] == DeclTable(tables[k]);
    forall k | 0 <= k < |tables| && TableKey(tables[k]) == TableKey(t) ensures NamesRelation(done, t.db, t.schema, t.name) {
      assert IsRelation(done[|first| + k], t.db, t.schema, t.name);
    }
  }

  lemma FollowExactly(databases: seq<string>, schemas: seq<(string, string)>, tables: seq<TableDecl>)
    ensures Follow([], Items(databases, schemas, tables)) <==> Acceptable(databases, schemas, tables)
  {
    var first := DatabaseItems(databases) + SchemaItems(schemas);
    FollowSplits([], first, TableItems(tables));
    FollowSplits([], DatabaseItems(databases), SchemaItems(schemas));
    assert [] + first == first && [] + DatabaseItems(databases) == DatabaseItems(databases);
    DatabasesFollow(databases);
    SchemasFollow(databases, schemas);
    TablesFollow(databases, schemas, tables);
  }

  /** The builder succeeds exactly when nothing is declared twice, every referenced database is
      declared, and the registry has room for the names it has not seen. */
  lemma AcceptedExactly(reg: State, databases: seq<string>, schemas: seq<(string, string)>, tables: seq<TableDecl>)
    requires NextOid(reg) <= I32_MAX
    ensures var items := Items(databases, schemas, tables);
      Declare(reg, items).made.Ok? <==>
        Acceptable(databases, schemas, tables) && NextOid(reg) + Needed(reg, CallsOf([], items)) <= I32_MAX
  {
    DeclareExactly(reg, Items(databases, schemas, tables));
    FollowExactly(databases, schemas, tables);
  }

  // --- declaring the same objects again ------------------------------------------------------

  lemma {:induction false} AllKnown(reg: State, calls: seq<Request>)
    requires forall r :: r in calls ==> Recorded(reg, r).Some?
    ensures AllAnswered(reg, calls) && After(reg, calls) == reg
  {
    if calls != [] {
      var n := |calls| - 1;
      AllKnown(reg, calls[..n]);
      assert calls == calls[..n] + [calls[n]];
      AnsweredPrefix(reg, calls[..n], [calls[n]]);
      AnsweredOne(reg, calls[n]);
    }
  }

  lemma SameMembers(a: seq<Decl>, b: seq<Decl>, reg: State)
    requires forall x :: x in a <==> x in b
    ensures SameNames(a, b, reg)
  {
    MembersName(a, b, reg);
    MembersName(b, a, reg);
  }

  lemma MembersName(a: seq<Decl>, b: seq<Decl>, reg: State)
    requires forall x :: x in a ==> x in b
    ensures forall db, name :: NamesSchema(a, db, name) ==> NamesSchema(b, db, name)
    ensures forall r :: NeedsName(a, r) ==> NeedsName(b, r)
    ensures forall x :: IsRow(reg, a, x) ==> IsRow(reg, b, x)
  {
    forall db, name | NamesSchema(a, db, name) ensures NamesSchema(b, db, name) {
      if DeclSchema(db, name) !in a {
        var i :| 0 <= i < |a| && UsesSchema(a[i], db, name);
        assert a[i] in b;
      var j :| 0 <= j < |b| && b[j] == a[i];
      }
    }
    forall r | NeedsName(a, r) ensures NeedsName(b, r) {
      if r.Relation? {
        var i :| 0 <= i < |a| && IsRelation(a[i], r.db, r.schema, r.name);
        assert a[i] in b;
      var j :| 0 <= j < |b| && b[j] == a[i];
      }
    }
    forall x | IsRow(reg, a, x) ensures IsRow(reg, b, x) {
      var i :| 0 <= i < |a| && RowOf(reg, a[i], x);
      assert a[i] in b;
      var j :| 0 <= j < |b| && b[j] == a[i];
    }
  }

  /** The same rows, possibly in another order. */
  ghost predicate SameObjects(a: Declared, b: Declared) {
    && (forall x :: x in a.databases <==> x in b.databases)
    && (forall x :: x in a.schemas <==> x in b.schemas)
    && (forall x :: x in a.relations <==> x in b.relations)
  }

  predicate Permuted(databases: seq<string>, schemas: seq<(string, string)>, tables: seq<TableDecl>,
                     databases': seq<string>, schemas': seq<(string, string)>, tables': seq<TableDecl>) {
    && multiset(databases) == multiset(databases') && multiset(schemas) == multiset(schemas')
    && multiset(tables) == multiset(tables')
  }

  lemma SameElements<T>(xs: seq<T>, ys: seq<T>)
    requires multiset(xs) == multiset(ys)
    ensures forall x :: x in xs <==> x in ys
  {
    forall x ensures x in xs <==> x in ys {
      assert x in multiset(xs) <==> x in multiset(ys);
    }
  }

  lemma PermutedItems(databases: seq<string>, schemas: seq<(string, string)>, tables: seq<TableDecl>,
                      databases': seq<string>, schemas': seq<(string, string)>, tables': seq<TableDecl>)
    requires Permuted(databases, schemas, tables, databases', schemas', tables')
    ensures forall x :: x in Items(databases, schemas, tables) ==> x in Items(databases', schemas', tables')
  {
    SameElements(databases, databases');
    SameElements(schemas, schemas');
    SameElements(tables, tables');
    forall x | x in Items(databases, schemas, tables) ensures x in Items(databases', schemas', tables') {
      var n, m := |databases'|, |databases'| + |schemas'|;
      match x
      case DeclDatabase(name) =>
        assert name in databases;
        var j :| 0 <= j < n && databases'[j] == name;
        assert Items(databases', schemas', tables')[j] == x;
      case DeclSchema(db, name) =>
        assert (db, name) in schemas;
        var j :| 0 <= j < |schemas'| && schemas'[j] == (db, name);
        assert Items(databases', schemas', tables')[n + j] == x;
      case DeclTable(t) =>
        assert t in tables;
        var j :| 0 <= j < |tables'| && tables'[j] == t;
        assert Items(databases', schemas', tables')[m + j] == x;
    }
  }

  lemma PermutedAcceptable(databases: seq<string>, schemas: seq<(string, string)>, tables: seq<TableDecl>,
                           databases': seq<string>, schemas': seq<(string, string)>, tables': seq<TableDecl>)
    requires Permuted(databases, schemas, tables, databases', schemas', tables')
    requires Acceptable(databases, schemas, tables)
    ensures Acceptable(databases', schemas', tables')
  {
    PermutedKeys(Itself, databases, databases');
    PermutedKeys(Itself, schemas, schemas');
    PermutedKeys(TableKey, tables, tables');
    SameElements(databases, databases');
    SameElements(schemas, schemas');
    SameElements(tables, tables');
    assert forall j :: 0 <= j < |schemas'| ==> schemas'[j] in schemas;
    assert forall k :: 0 <= k < |tables'| ==> tables'[k] in tables;
  }

  /** Declaring any permutation of an accepted set again, after whatever else was registered in
      between, succeeds, leaves the registry as it is, and gives every object its old OIDs. */
  lemma Redeclared(reg: State, databases: seq<string>, schemas: seq<(string, string)>, tables: seq<TableDecl>,
                   between: seq<Request>,
                   databases': seq<string>, schemas': seq<(string, string)>, tables': seq<TableDecl>)
    requires NextOid(reg) <= I32_MAX && Declare(reg, Items(databases, schemas, tables)).made.Ok?
    requires Permuted(databases, schemas, tables, databases', schemas', tables')
    ensures var first := Declare(reg, Items(databases, schemas, tables));
      var later := After(first.reg, between);
      var again := Declare(later, Items(databases', schemas', tables'));
      again.made.Ok? && again.reg == later && SameObjects(first.made.value, again.made.value)
  {
    var items, items' := Items(databases, schemas, tables), Items(databases', schemas', tables');
    var first := Declare(reg, items);
    DeclareExactly(reg, items);
    FollowExactly(databases, schemas, tables);
    PermutedAcceptable(databases, schemas, tables, databases', schemas', tables');
    FollowExactly(databases', schemas', tables');
    ServesLater(items, first.reg, between, first.made.value);
    PermutedItems(databases, schemas, tables, databases', schemas', tables');
    PermutedItems(databases', schemas', tables', databases, schemas, tables);
    DeclareKnown(items, items', After(first.reg, between), first.made.value);
  }

  lemma DeclareKnown(items: seq<Decl>, items': seq<Decl>, reg: State, d: Declared)
    requires Serves(items, reg, d) && AllRecorded(items, reg)
    requires Follow([], items') && forall x :: x in items <==> x in items'
    ensures var again := Declare(reg, items');
      again.made.Ok? && again.reg == reg && SameObjects(d, again.made.value)
  {
    SameMembers(items, items', reg);
    KnownCalls(items', reg);
    AllMade([], reg, Declared([], [], []), items');
    assert [] + items' == items';
    SameServed(items, items', reg, d, Declare(reg, items').made.value);
  }

  lemma KnownCalls(items: seq<Decl>, reg: State)
    requires AllRecorded(items, reg)
    ensures AllAnswered(reg, CallsOf([], items)) && After(reg, CallsOf([], items)) == reg
  {
    forall r | r in CallsOf([], items) ensures Recorded(reg, r).Some? {
      CallsAreNames([], items, r);
      assert [] + items == items;
    }
    AllKnown(reg, CallsOf([], items));
  }

  lemma SameServed(a: seq<Decl>, b: seq<Decl>, reg: State, x: Declared, y: Declared)
    requires SameNames(a, b, reg) && Serves(a, reg, x) && Serves(b, reg, y)
    ensures SameObjects(x, y)
  {
    forall row: DatabaseDef ensures row in x.databases <==> row in y.databases {
      assert NeedsName(a, Database(row.datname)) <==> NeedsName(b, Database(row.datname));
    }
  }

  // --- one number, one object ----------------------------------------------------------------

  /** An object of the source: the name it has in the registry and the numbers it carries. */
  datatype Object = Object(name: Request, oids: set<int>)

  function Objects(d: Declared): seq<Object> {
    seq(|d.databases|, i requires 0 <= i < |d.databases| => Object(Database(d.databases[i].datname), {d.databases[i].oid}))
    + seq(|d.schemas|, i requires 0 <= i < |d.schemas| =>
        Object(Schema(d.schemas[i].db, d.schemas[i].def.name), {d.schemas[i].def.oid}))
    + seq(|d.relations|, i requires 0 <= i < |d.relations| =>
        Object(Relation(d.relations[i].db, d.relations[i].schema, d.relations[i].def.name),
               {d.relations[i].def.oid, d.relations[i].def.reltype}))
  }

  predicate IsPublic(r: Request) {
    r.Schema? && r.name == "public"
  }

  lemma ObjectNumbers(items: seq<Decl>, reg: State, d: Declared, i: nat)
    requires Serves(items, reg, d) && i < |Objects(d)|
    ensures var o := Objects(d)[i];
      o.oids == if IsPublic(o.name) then {PUBLIC_SCHEMA_OID} else Holds(reg, o.name)
  {
    var n, m := |d.databases|, |d.databases| + |d.schemas|;
    if i < n {
      assert d.databases[i] in d.databases;
    } else if i < m {
      assert d.schemas[i - n] in d.schemas;
    } else {
      var x := d.relations[i - m];
      assert IsRow(reg, items, x);
      var j :| 0 <= j < |items| && RowOf(reg, items[j], x);
    }
  }

  lemma ObjectNames(d: Declared, i: nat, j: nat)
    requires OneEach(d) && i < j < |Objects(d)|
    ensures Objects(d)[i].name != Objects(d)[j].name
  {
    var n, m := |d.databases|, |d.databases| + |d.schemas|;
    if j < n {
      assert DatabaseKey(d.databases[i]) != DatabaseKey(d.databases[j]);
    } else if n <= i && j < m {
      assert SchemaKey(d.schemas[i - n]) != SchemaKey(d.schemas[j - n]);
    } else if m <= i {
      assert RelationKey(d.relations[i - m]) != RelationKey(d.relations[j - m]);
    }
  }

  /** Different objects of a declared source never share a number, but for `public`, which is 2200
      in every database. */
  lemma NumbersAreDistinct(reg: State, items: seq<Decl>, i: nat, j: nat)
    requires Inv(reg) && Declare(reg, items).made.Ok?
    requires i < j < |Objects(Declare(reg, items).made.value)|
    ensures var objects := Objects(Declare(reg, items).made.value);
      objects[i].oids !! objects[j].oids || (IsPublic(objects[i].name) && IsPublic(objects[j].name))
  {
    var w := Declare(reg, items);
    DeclareExactly(reg, items);
    AfterKeepsInv(reg, CallsOf([], items));
    ObjectNumbers(items, w.reg, w.made.value, i);
    ObjectNumbers(items, w.reg, w.made.value, j);
    ObjectNames(w.made.value, i, j);
  }

  lemma {:induction false} AfterKeepsInv(reg: State, calls: seq<Request>)
    requires Inv(reg)
    ensures Inv(After(reg, calls))
  {
    if calls != [] {
      AfterKeepsInv(reg, calls[..|calls| - 1]);
      ResolveKeepsInv(After(reg, calls[..|calls| - 1]), calls[|calls| - 1]);
    }
  }
}
