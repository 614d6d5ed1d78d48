/** Every declared object is served: what a declared source answers, and the catalog rows of every
    declared table. */
module DeclaredComplete {
  import opened Wrappers
  import opened Keys
  import opened OidRegistry
  import opened CatalogSource
  import opened DeclaredSource
  import opened DeclaredIdentity
  import opened CatalogRows
  import opened CatalogJoins
  import opened CatalogComplete
  import DC = DeclaredCatalog

  // --- what the source answers ---------------------------------------------------------------

  lemma Regrouped<T>(a: seq<T>, b: seq<T>, c: seq<T>)
    ensures a + (b + c) == (a + b) + c
  {
  }

  lemma {:induction false} RelationsAppend(a: seq<DeclaredRelation>, b: seq<DeclaredRelation>, db: string, schema: string)
    ensures DC.RelationsOf(a + b, db, schema) == DC.RelationsOf(a, db, schema) + DC.RelationsOf(b, db, schema)
    decreases |a|
  {
    if a == [] {
      assert a + b == b;
    } else {
      RelationsAppend(a[1..], b, db, schema);
      assert (a + b)[1..] == a[1..] + b && (a + b)[0] == a[0];
      Regrouped(if a[0].db == db && a[0].schema == schema then [a[0].def] else [],
                DC.RelationsOf(a[1..], db, schema), DC.RelationsOf(b, db, schema));
    }
  }

  /** The relations of a schema are exactly the declared ones, in the order of their declarations: one
      more declaration adds its relation at the end, or nothing. */
  lemma {:induction false} RelationsExactly(rels: seq<DeclaredRelation>, r: DeclaredRelation, db: string, schema: string)
    ensures forall x :: x in DC.RelationsOf(rels, db, schema) <==>
      exists i :: 0 <= i < |rels| && rels[i].db == db && rels[i].schema == schema && rels[i].def == x
    ensures DC.RelationsOf(rels + [r], db, schema)
         == DC.RelationsOf(rels, db, schema) + if r.db == db && r.schema == schema then [r.def] else []
  {
    RelationsAppend(rels, [r], db, schema);
    assert [r][1..] == [];
    RelationsAreDeclared(rels, db, schema);
  }

  lemma {:induction false} RelationsAreDeclared(rels: seq<DeclaredRelation>, db: string, schema: string)
    ensures forall x :: x in DC.RelationsOf(rels, db, schema) <==>
      exists i :: 0 <= i < |rels| && rels[i].db == db && rels[i].schema == schema && rels[i].def == x
  {
    if rels != [] {
      RelationsAreDeclared(rels[1..], db, schema);
      forall x ensures x in DC.RelationsOf(rels, db, schema) <==>
        exists i :: 0 <= i < |rels| && rels[i].db == db && rels[i].schema == schema && rels[i].def == x
      {
        if i :| 0 <= i < |rels| && rels[i].db == db && rels[i].schema == schema && rels[i].def == x {
          assert i > 0 ==> rels[1..][i - 1] == rels[i];
        }
        if x in DC.RelationsOf(rels[1..], db, schema) {
          var i :| 0 <= i < |rels[1..]| && rels[1..][i].db == db && rels[1..][i].schema == schema && rels[1..][i].def == x;
          assert rels[i + 1] == rels[1..][i];
        }
      }
    }
  }

  /** A declared relation's columns are its own. */
  lemma {:induction false} ColumnsExactly(rels: seq<DeclaredRelation>, r: DeclaredRelation)
    requires DistinctKeys(RelationKey, rels) && r in rels
    ensures DC.ColumnsOf(rels, r.db, r.schema, r.def.name) == r.columns
  {
    DC.TailKeys(RelationKey, rels);
    if r != rels[0] {
      var i :| 0 <= i < |rels| && rels[i] == r;
      assert RelationKey(rels[0]) != RelationKey(rels[i]);
      assert rels == [rels[0]] + rels[1..];
      ColumnsExactly(rels[1..], r);
    }
  }

  lemma {:induction false} SchemasAppend(a: seq<DeclaredSchema>, b: seq<DeclaredSchema>, db: string)
    ensures DC.SchemasOf(a + b, db) == DC.SchemasOf(a, db) + DC.SchemasOf(b, db)
    decreases |a|
  {
    if a == [] {
      assert a + b == b;
    } else {
      SchemasAppend(a[1..], b, db);
      assert (a + b)[1..] == a[1..] + b && (a + b)[0] == a[0];
      Regrouped(if a[0].db == db then [a[0].def] else [], DC.SchemasOf(a[1..], db), DC.SchemasOf(b, db));
    }
  }

  /** So are the schemas of a database. */
  lemma SchemasExactly(schemas: seq<DeclaredSchema>, s: DeclaredSchema, db: string)
    requires DistinctKeys(SchemaKey, schemas)
    ensures forall x :: x in DC.SchemasOf(schemas, db) <==> exists i :: 0 <= i < |schemas| && schemas[i].db == db && schemas[i].def == x
    ensures DC.SchemasOf(schemas + [s], db) == DC.SchemasOf(schemas, db) + if s.db == db then [s.def] else []
  {
    SchemasAppend(schemas, [s], db);
    assert [s][1..] == [];
    DC.SchemasServed(schemas, db);
    forall x | DeclaredSchema(db, x) in schemas
      ensures exists i :: 0 <= i < |schemas| && schemas[i].db == db && schemas[i].def == x
    {
      var i :| 0 <= i < |schemas| && schemas[i] == DeclaredSchema(db, x);
    }
    forall x | exists i :: 0 <= i < |schemas| && schemas[i].db == db && schemas[i].def == x ensures DeclaredSchema(db, x) in schemas {
      var i :| 0 <= i < |schemas| && schemas[i].db == db && schemas[i].def == x;
      assert schemas[i] == DeclaredSchema(db, x);
    }
  }

  // --- its OIDs ------------------------------------------------------------------------------

  /** A declared source has no indexes: an OID is used as often as places have it. */
  lemma {:induction false} UsesArePlaces(d: Declared, db: string, schemas: seq<SchemaDef>, oid: int)
    requires PlacesAcross(DC.AsSource(d), db, schemas).Ok?
    ensures Uses(DC.AsSource(d), db, schemas, oid) == PlacesWith(PlacesAcross(DC.AsSource(d), db, schemas).value, oid)
  {
    if schemas != [] {
      var src := DC.AsSource(d);
      UsesArePlaces(d, db, schemas[1..], oid);
      PlacesAreRelations(src, db, schemas[0], Rows(src.relations(db, schemas[0].name)).value, oid);
      PlacesWithBoth(PlacesIn(src, db, schemas[0]).value, PlacesAcross(src, db, schemas[1..]).value, oid);
      assert Rows(src.indexes(db, schemas[0].name)) == Ok([]);
    }
  }

  lemma {:induction false} AtMostOne(places: seq<Place>, oid: int)
    requires DistinctOids(places)
    ensures PlacesWith(places, oid) <= 1
    ensures Avoids(places, oid) ==> PlacesWith(places, oid) == 0
  {
    if places != [] {
      AtMostOne(places[1..], oid);
      if places[0].rel.oid == oid {
        assert Avoids(places[1..], oid);
      }
    }
  }

  lemma DeclaredOids(items: seq<Decl>, reg: State, d: Declared, db: string)
    requires DC.Sound(items, reg, d)
    ensures Places(DC.AsSource(d), db).Ok? && OneOidEach(DC.AsSource(d), db)
  {
    var src, schemas := DC.AsSource(d), DC.SchemasOf(d.schemas, db);
    DC.ServedSchemas(d, db);
    DC.PlacesServed(d, db, schemas);
    var places := Places(src, db).value;
    DC.PlacesDiffer(items, reg, d, db, places);
    FlattenOne(schemas);
    forall oid ensures Uses(src, db, Given(Rows(src.schemas(db))), oid) <= 1 {
      UsesArePlaces(d, db, schemas, oid);
      AtMostOne(places, oid);
    }
  }

  // --- that the tables are built -------------------------------------------------------------

  /** No declared relation has more columns than a number can count. */
  predicate ColumnsFit(d: Declared) {
    forall i :: 0 <= i < |d.relations| ==> |d.relations[i].columns| <= CatalogRows.I32_MAX
  }

  lemma {:induction false} ClassBuilt(d: Declared, db: string, schemas: seq<SchemaDef>)
    requires PlacesAcross(DC.AsSource(d), db, schemas).Ok? && AllCounted(PlacesAcross(DC.AsSource(d), db, schemas).value)
    ensures ClassRowsAcross(DC.AsSource(d), db, schemas).Ok?
  {
    if schemas != [] {
      var src := DC.AsSource(d);
      CountedAppend(PlacesIn(src, db, schemas[0]).value, PlacesAcross(src, db, schemas[1..]).value);
      ClassBuilt(d, db, schemas[1..]);
      assert Rows(src.indexes(db, schemas[0].name)) == Ok([]);
      assert forall i :: 0 <= i < |PlacesIn(src, db, schemas[0]).value| ==> CountFits(PlacesIn(src, db, schemas[0]).value[i]);
    }
  }

  lemma TablesBuilt(items: seq<Decl>, reg: State, d: Declared, db: string)
    requires DC.Sound(items, reg, d) && ColumnsFit(d)
    ensures PgClass(DC.AsSource(d), db).Ok? && PgAttribute(DC.AsSource(d), db).Ok?
  {
    var src, schemas := DC.AsSource(d), DC.SchemasOf(d.schemas, db);
    DC.ServedSchemas(d, db);
    DC.PlacesServed(d, db, schemas);
    var places := Places(src, db).value;
    forall i | 0 <= i < |places| ensures CountFits(places[i]) {
      assert places[i] in places && DC.Placed(d, db, places[i]);
    }
    ClassBuilt(d, db, schemas);
  }

  // --- one declared table --------------------------------------------------------------------

  lemma SchemaServed(d: Declared, db: string, s: SchemaDef)
    requires OneEach(d) && DeclaredSchema(db, s) in d.schemas
    ensures SchemaReported(DC.AsSource(d), db, s)
  {
    DC.SchemasServed(d.schemas, db);
    FlattenOne(DC.SchemasOf(d.schemas, db));
  }

  lemma RelationServed(d: Declared, s: SchemaDef, r: DeclaredRelation)
    requires OneEach(d) && r in d.relations && r.schema == s.name
    ensures r.def in Given(Rows(DC.AsSource(d).relations(r.db, s.name)))
    ensures ColumnsReported(DC.AsSource(d), r.db, s, r.def) == r.columns
  {
    var i :| 0 <= i < |d.relations| && d.relations[i] == r;
    RelationsAreDeclared(d.relations, r.db, r.schema);
    FlattenOne(DC.RelationsOf(d.relations, r.db, r.schema));
    ColumnsExactly(d.relations, r);
    FlattenOne(DC.ColumnsOf(d.relations, r.db, r.schema, r.def.name));
  }

  /** The row a declared table has. */
  lemma TableHasRow(items: seq<Decl>, reg: State, d: Declared, t: TableDecl) returns (r: DeclaredRelation)
    requires Made(items, reg, d) && DeclTable(t) in items
    ensures r in d.relations && r.db == t.db && r.schema == t.schema && r.def.name == t.name && r.def.kind.Table?
    ensures r.columns == t.columns && Recorded(reg, Relation(t.db, t.schema, t.name)) == Some(Two(r.def.oid, r.def.reltype))
  {
    var i :| 0 <= i < |items| && items[i] == DeclTable(t);
    assert IsRelation(items[i], t.db, t.schema, t.name);
    assert NeedsName(items, Relation(t.db, t.schema, t.name));
    var a := Recorded(reg, Relation(t.db, t.schema, t.name)).value;
    r := DeclaredRelation(t.db, t.schema, RelationDef(a.oid, a.rowtype, t.name, Table), t.columns);
    assert RowOf(reg, items[i], r);
  }

  lemma TableHasSchema(items: seq<Decl>, reg: State, d: Declared, t: TableDecl) returns (s: SchemaDef)
    requires Made(items, reg, d) && DeclTable(t) in items
    ensures DeclaredSchema(t.db, s) in d.schemas && s.name == t.schema
  {
    var i :| 0 <= i < |items| && items[i] == DeclTable(t);
    assert UsesSchema(items[i], t.db, t.schema);
    assert t.schema != "public" ==> NeedsName(items, Schema(t.db, t.schema));
    s := SchemaOf(reg, t.db, t.schema).value;
    assert DeclaredSchema(t.db, s) in d.schemas;
  }

  /** What the catalog says of a table that was declared. */
  ghost predicate ServesTable(reg: State, src: Source, t: TableDecl) {
    exists oid, rowtype, namespace ::
      && Recorded(reg, Relation(t.db, t.schema, t.name)) == Some(Two(oid, rowtype))
      && ClassRowFor(src, t, oid, rowtype, namespace) && ColumnRowsFor(src, t, oid)
  }

  /** Exactly one pg_class row has its OID, and describes it. */
  ghost predicate ClassRowFor(src: Source, t: TableDecl, oid: int, rowtype: int, namespace: int) {
    && PgClass(src, t.db).Ok?
    && var rows := Where(PgClass(src, t.db).value, Oid, Number(oid));
      && |rows| == 1 && Col(rows[0], Relname) == Text(t.name) && Col(rows[0], Reltype) == Number(rowtype)
      && Col(rows[0], Relkind) == Text("r") && Col(rows[0], Relnatts) == Number(|t.columns|)
      && Col(rows[0], Relnamespace) == Number(namespace)
      && PgNamespace(src, t.db).Ok? && HasNamespace(PgNamespace(src, t.db).value, namespace, t.schema)
  }

  predicate HasNamespace(rows: seq<Row>, oid: int, name: string) {
    exists i :: 0 <= i < |rows| && Col(rows[i], Oid) == Number(oid) && Col(rows[i], Nspname) == Text(name)
  }

  /** Its pg_attribute rows are its declared columns, one each, in order. */
  ghost predicate ColumnRowsFor(src: Source, t: TableDecl, oid: int) {
    && PgAttribute(src, t.db).Ok?
    && var rows := Where(PgAttribute(src, t.db).value, Attrelid, Number(oid));
      |rows| == |t.columns| && forall i :: 0 <= i < |t.columns| ==> DescribesColumn(rows[i], t.columns[i], i)
  }

  lemma NamespaceServed(src: Source, db: string, s: SchemaDef)
    requires FetchSchemas(src, db).Ok? && SchemaReported(src, db, s)
    ensures PgNamespace(src, db).Ok? && HasNamespace(PgNamespace(src, db).value, s.oid, s.name)
  {
    var schemas := FetchSchemas(src, db).value;
    var i :| 0 <= i < |schemas| && schemas[i] == s;
    assert PgNamespace(src, db).value[i] == NamespaceRow(s);
    assert Col(PgNamespace(src, db).value[i], Oid) == Number(s.oid);
  }

  lemma TableServed(items: seq<Decl>, reg: State, d: Declared, t: TableDecl)
    requires DC.Sound(items, reg, d) && ColumnsFit(d) && DeclTable(t) in items
    ensures ServesTable(reg, DC.AsSource(d), t)
  {
    var src := DC.AsSource(d);
    var r := TableHasRow(items, reg, d, t);
    var s := TableHasSchema(items, reg, d, t);
    SchemaServed(d, t.db, s);
    RelationServed(d, s, r);
    assert RelationReported(src, t.db, s, r.def);
    DeclaredOids(items, reg, d, t.db);
    TablesBuilt(items, reg, d, t.db);
    RelationIsListed(src, t.db, s, r.def);
    ColumnsAreListed(src, t.db, s, r.def);
    NamespaceServed(src, t.db, s);
    assert ClassRowFor(src, t, r.def.oid, r.def.reltype, s.oid) && ColumnRowsFor(src, t, r.def.oid);
  }

  lemma DeclaredFit(items: seq<Decl>, reg: State, d: Declared)
    requires Serves(items, reg, d) && forall i :: 0 <= i < |items| && items[i].DeclTable? ==> |items[i].t.columns| <= CatalogRows.I32_MAX
    ensures ColumnsFit(d)
  {
    forall n | 0 <= n < |d.relations| ensures |d.relations[n].columns| <= CatalogRows.I32_MAX {
      assert d.relations[n] in d.relations && IsRow(reg, items, d.relations[n]);
      var i :| 0 <= i < |items| && RowOf(reg, items[i], d.relations[n]);
    }
  }

  /** From declarations to rows: whatever set is accepted, in whatever state the registry is, every
      declared table has its one pg_class row, under the OID the registry keeps for it and in its
      schema, and one pg_attribute row for each declared column, in order. */
  lemma EveryTableIsServed(reg: State, databases: seq<string>, schemas: seq<(string, string)>, tables: seq<TableDecl>, k: nat)
    requires Inv(reg) && k < |tables| && Declare(reg, Items(databases, schemas, tables)).made.Ok?
    requires forall i :: 0 <= i < |tables| ==> |tables[i].columns| <= CatalogRows.I32_MAX
    ensures var w := Declare(reg, Items(databases, schemas, tables)); ServesTable(w.reg, DC.AsSource(w.made.value), tables[k])
  {
    var items := Items(databases, schemas, tables);
    var w := Declare(reg, items);
    DeclareExactly(reg, items);
    AfterKeepsInv(reg, CallsOf([], items));
    TableIsItem(databases, schemas, tables, k);
    forall i | 0 <= i < |items| && items[i].DeclTable? ensures |items[i].t.columns| <= CatalogRows.I32_MAX {
      assert items[i] in TableItems(tables);
    }
    DeclaredFit(items, w.reg, w.made.value);
    TableServed(items, w.reg, w.made.value, tables[k]);
  }

  lemma TableIsItem(databases: seq<string>, schemas: seq<(string, string)>, tables: seq<TableDecl>, k: nat)
    requires k < |tables|
    ensures DeclTable(tables[k]) in Items(databases, schemas, tables)
  {
    var items, before := Items(databases, schemas, tables), DatabaseItems(databases) + SchemaItems(schemas);
    assert items[|before| + k] == TableItems(tables)[k];
  }

  /** Every declared schema has its pg_namespace row. */
  lemma EverySchemaIsServed(reg: State, databases: seq<string>, schemas: seq<(string, string)>, tables: seq<TableDecl>, k: nat)
    requires Inv(reg) && k < |schemas| && Declare(reg, Items(databases, schemas, tables)).made.Ok?
    ensures var w := Declare(reg, Items(databases, schemas, tables));
            var rows := PgNamespace(DC.AsSource(w.made.value), schemas[k].0);
      rows.Ok? && exists oid :: HasNamespace(rows.value, oid, schemas[k].1)
  {
    var items, db, name := Items(databases, schemas, tables), schemas[k].0, schemas[k].1;
    var w := Declare(reg, items);
    var d := w.made.value;
    DeclareExactly(reg, items);
    assert items[|databases| + k] == DeclSchema(db, name);
    assert name != "public" ==> NeedsName(items, Schema(db, name));
    var s := SchemaOf(w.reg, db, name).value;
    assert DeclaredSchema(db, s) in d.schemas;
    SchemaServed(d, db, s);
    DC.ServedSchemas(d, db);
    NamespaceServed(DC.AsSource(d), db, s);
  }
}
