/** A declared source served through the merge: no scan of it fails on a duplicate. */
module DeclaredCatalog {
  import opened Wrappers
  import opened Keys
  import opened OidRegistry
  import opened CatalogSource
  import opened DeclaredSource
  import opened DeclaredIdentity
  import opened CatalogRows
  import opened CatalogJoins
  import opened InfoSchema
  import opened LazyMerge
  import opened Flats

  // --- what a declared source answers --------------------------------------------------------

  function SchemasOf(schemas: seq<DeclaredSchema>, db: string): seq<SchemaDef> {
    if schemas == [] then []
    else (if schemas[0].db == db then [schemas[0].def] else []) + SchemasOf(schemas[1..], db)
  }

  function RelationsOf(rels: seq<DeclaredRelation>, db: string, schema: string): seq<RelationDef> {
    if rels == [] then []
    else (if rels[0].db == db && rels[0].schema == schema then [rels[0].def] else []) + RelationsOf(rels[1..], db, schema)
  }

  function ColumnsOf(rels: seq<DeclaredRelation>, db: string, schema: string, name: string): seq<ColumnSpec> {
    if rels == [] then []
    else if rels[0].db == db && rels[0].schema == schema && rels[0].def.name == name then rels[0].columns
    else ColumnsOf(rels[1..], db, schema, name)
  }

  /** The source; it leaves indexes, constraints and settings to the defaults, which report none. */
  function AsSource(d: Declared): Source {
    Source(
      Ok([d.databases]),
      db => Ok([SchemasOf(d.schemas, db)]),
      (db, schema) => Ok([RelationsOf(d.relations, db, schema)]),
      (db, schema, name) => Ok([ColumnsOf(d.relations, db, schema, name)]),
      (db, schema) => Ok([]),
      (db, schema) => Ok([]),
      Ok([]),
      Ok([]))
  }

  lemma {:induction false} SchemasServed(schemas: seq<DeclaredSchema>, db: string)
    requires DistinctKeys(SchemaKey, schemas)
    ensures forall x :: x in SchemasOf(schemas, db) <==> DeclaredSchema(db, x) in schemas
    ensures DistinctKeys(SchemaNameOf, SchemasOf(schemas, db))
  {
    if schemas != [] {
      TailKeys(SchemaKey, schemas);
      SchemasServed(schemas[1..], db);
      var rest := SchemasOf(schemas[1..], db);
      forall x | x in rest ensures schemas[0].db == db ==> SchemaNameOf(x) != schemas[0].def.name {
        var i :| 0 <= i < |schemas[1..]| && schemas[1..][i] == DeclaredSchema(db, x);
        assert SchemaKey(schemas[0]) != SchemaKey(schemas[i + 1]);
      }
      if schemas[0].db == db {
        HeadKey(SchemaNameOf, schemas[0].def, rest);
      }
    }
  }

  lemma TailKeys<T, K>(key: T -> K, xs: seq<T>)
    requires xs != [] && DistinctKeys(key, xs)
    ensures DistinctKeys(key, xs[1..])
  {
    forall i, j | 0 <= i < j < |xs[1..]| ensures key(xs[1..][i]) != key(xs[1..][j]) {
      assert key(xs[i + 1]) != key(xs[j + 1]);
    }
  }

  lemma HeadKey<T, K>(key: T -> K, x: T, xs: seq<T>)
    requires DistinctKeys(key, xs) && forall y :: y in xs ==> key(y) != key(x)
    ensures DistinctKeys(key, [x] + xs)
  {
    DistinctAppend(key, [x], xs);
    forall k | k in KeysOf(key, [x]) ensures k !in KeysOf(key, xs) {
    }
  }

  function RelationNameOf(d: RelationDef): string { d.name }

  lemma {:induction false} RelationsServed(rels: seq<DeclaredRelation>, db: string, schema: string)
    requires DistinctKeys(RelationKey, rels)
    ensures forall x :: x in RelationsOf(rels, db, schema) ==>
      DeclaredRelation(db, schema, x, ColumnsOf(rels, db, schema, x.name)) in rels
    ensures DistinctKeys(RelationNameOf, RelationsOf(rels, db, schema))
  {
    if rels != [] {
      TailKeys(RelationKey, rels);
      RelationsServed(rels[1..], db, schema);
      var rest := RelationsOf(rels[1..], db, schema);
      forall x | x in rest ensures rels[0].db == db && rels[0].schema == schema ==> x.name != rels[0].def.name
      {
        var i :| 0 <= i < |rels[1..]|
          && rels[1..][i] == DeclaredRelation(db, schema, x, ColumnsOf(rels[1..], db, schema, x.name));
        assert RelationKey(rels[0]) != RelationKey(rels[i + 1]);
      }
      if rels[0].db == db && rels[0].schema == schema {
        HeadKey(RelationNameOf, rels[0].def, rest);
      }
    }
  }

  // --- the places a walk over it visits ------------------------------------------------------

  /** Everything is where the declarations put it. */
  ghost predicate Placed(d: Declared, db: string, p: Place) {
    DeclaredSchema(db, p.schema) in d.schemas && DeclaredRelation(db, p.schema.name, p.rel, p.columns) in d.relations
  }

  function PlaceKey(p: Place): (string, string) { (p.schema.name, p.rel.name) }

  lemma {:induction false} PlacesOfServed(d: Declared, db: string, schema: SchemaDef, rels: seq<RelationDef>)
    requires DeclaredSchema(db, schema) in d.schemas && DistinctKeys(RelationNameOf, rels)
    requires forall x :: x in rels ==>
      DeclaredRelation(db, schema.name, x, ColumnsOf(d.relations, db, schema.name, x.name)) in d.relations
    ensures var places := PlacesOf(AsSource(d), db, schema, rels);
      && places.Ok? && DistinctKeys(PlaceKey, places.value)
      && forall p :: p in places.value ==> Placed(d, db, p) && p.schema == schema && p.rel in rels
  {
    if rels != [] {
      TailKeys(RelationNameOf, rels);
      PlacesOfServed(d, db, schema, rels[1..]);
      FlattenOne(ColumnsOf(d.relations, db, schema.name, rels[0].name));
      var rest := PlacesOf(AsSource(d), db, schema, rels[1..]).value;
      var p := Place(schema, rels[0], ColumnsOf(d.relations, db, schema.name, rels[0].name));
      forall q | q in rest ensures PlaceKey(q) != PlaceKey(p) {
        var i :| 0 <= i < |rels[1..]| && rels[1..][i] == q.rel;
        assert RelationNameOf(rels[0]) != RelationNameOf(rels[i + 1]);
      }
      HeadKey(PlaceKey, p, rest);
    }
  }

  lemma {:induction false} PlacesServed(d: Declared, db: string, schemas: seq<SchemaDef>)
    requires OneEach(d) && DistinctKeys(SchemaNameOf, schemas)
    requires forall s :: s in schemas ==> DeclaredSchema(db, s) in d.schemas
    ensures var places := PlacesAcross(AsSource(d), db, schemas);
      && places.Ok? && DistinctKeys(PlaceKey, places.value)
      && forall p :: p in places.value ==> Placed(d, db, p) && p.schema in schemas
  {
    if schemas != [] {
      TailKeys(SchemaNameOf, schemas);
      PlacesServed(d, db, schemas[1..]);
      var rels := RelationsOf(d.relations, db, schemas[0].name);
      FlattenOne(rels);
      RelationsServed(d.relations, db, schemas[0].name);
      PlacesOfServed(d, db, schemas[0], rels);
      PlacesApart(schemas, PlacesOf(AsSource(d), db, schemas[0], rels).value, PlacesAcross(AsSource(d), db, schemas[1..]).value);
    }
  }

  lemma PlacesApart(schemas: seq<SchemaDef>, here: seq<Place>, rest: seq<Place>)
    requires schemas != [] && DistinctKeys(SchemaNameOf, schemas) && DistinctKeys(PlaceKey, here) && DistinctKeys(PlaceKey, rest)
    requires (forall p :: p in here ==> p.schema == schemas[0]) && forall q :: q in rest ==> q.schema in schemas[1..]
    ensures DistinctKeys(PlaceKey, here + rest)
  {
    DistinctAppend(PlaceKey, here, rest);
    forall p, q | p in here && q in rest ensures PlaceKey(p) != PlaceKey(q) {
      var i :| 0 <= i < |schemas[1..]| && schemas[1..][i] == q.schema;
      assert SchemaNameOf(schemas[0]) != SchemaNameOf(schemas[i + 1]);
    }
  }

  // --- numbers -------------------------------------------------------------------------------

  lemma SchemaOidsDiffer(items: seq<Decl>, reg: State, d: Declared, db: string, s: SchemaDef, t: SchemaDef)
    requires Serves(items, reg, d) && Inv(reg) && s.name != t.name
    requires DeclaredSchema(db, s) in d.schemas && DeclaredSchema(db, t) in d.schemas
    ensures s.oid != t.oid
  {
    assert SchemaOf(reg, db, DeclaredSchema(db, s).def.name) == Some(s);
    assert SchemaOf(reg, db, DeclaredSchema(db, t).def.name) == Some(t);
    assert s.name != "public" ==> s.oid in Holds(reg, Schema(db, s.name));
    assert t.name != "public" ==> t.oid in Holds(reg, Schema(db, t.name));
    assert Holds(reg, Schema(db, s.name)) !! Holds(reg, Schema(db, t.name));
  }

  lemma RelationOidsDiffer(items: seq<Decl>, reg: State, d: Declared, db: string, p: Place, q: Place)
    requires Serves(items, reg, d) && Inv(reg) && Placed(d, db, p) && Placed(d, db, q) && PlaceKey(p) != PlaceKey(q)
    ensures p.rel.oid != q.rel.oid
  {
    var x, y := DeclaredRelation(db, p.schema.name, p.rel, p.columns), DeclaredRelation(db, q.schema.name, q.rel, q.columns);
    assert IsRow(reg, items, x) && IsRow(reg, items, y);
    var r1, r2 := Relation(x.db, x.schema, x.def.name), Relation(y.db, y.schema, y.def.name);
    assert p.rel.oid in Holds(reg, r1) && q.rel.oid in Holds(reg, r2);
    assert Holds(reg, r1) !! Holds(reg, r2);
  }

  /** No declared OID is one of the built-in range, but for the 2200 of `public`. */
  lemma SchemaOidRange(items: seq<Decl>, reg: State, d: Declared, db: string, s: SchemaDef)
    requires Serves(items, reg, d) && Inv(reg) && DeclaredSchema(db, s) in d.schemas
    ensures if s.name == "public" then s.oid == PUBLIC_SCHEMA_OID else s.oid >= FIRST_USER_OID
  {
    assert SchemaOf(reg, db, DeclaredSchema(db, s).def.name) == Some(s);
    assert s.name != "public" ==> s.oid in Holds(reg, Schema(db, s.name));
  }

  // --- every table's keys --------------------------------------------------------------------

  function ColumnNameOf(c: ColumnSpec): string { c.name }

  predicate DistinctColumns(d: Declared) {
    forall i :: 0 <= i < |d.relations| ==> DistinctKeys(ColumnNameOf, d.relations[i].columns)
  }

  /** What the declarations and the registry give, for one database. */
  ghost predicate Sound(items: seq<Decl>, reg: State, d: Declared) {
    Made(items, reg, d) && Inv(reg)
  }

  lemma ServedSchemas(d: Declared, db: string)
    requires OneEach(d)
    ensures FetchSchemas(AsSource(d), db) == Ok(SchemasOf(d.schemas, db))
    ensures forall s :: s in SchemasOf(d.schemas, db) ==> DeclaredSchema(db, s) in d.schemas
    ensures DistinctKeys(SchemaNameOf, SchemasOf(d.schemas, db))
  {
    FlattenOne(SchemasOf(d.schemas, db));
    SchemasServed(d.schemas, db);
  }

  lemma DatabasesScan(items: seq<Decl>, reg: State, d: Declared, builtin: seq<seq<Row>>)
    requires Sound(items, reg, d)
    ensures PgDatabase(AsSource(d)).Ok? && Scan(TDatabase, PgDatabase(AsSource(d)).value, builtin).Ok?
  {
    FlattenOne(d.databases);
    var rows := PgDatabase(AsSource(d)).value;
    var key := ValueKey(KeyColumns(TDatabase));
    forall i, j | 0 <= i < j < |rows| ensures key(rows[i]) != key(rows[j]) {
      assert DatabaseKey(d.databases[i]) != DatabaseKey(d.databases[j]);
      assert key(rows[i])[0] != key(rows[j])[0];
    }
    NoDuplicates(TDatabase, rows, builtin);
  }

  lemma NamespacesScan(items: seq<Decl>, reg: State, d: Declared, db: string, builtin: seq<seq<Row>>)
    requires Sound(items, reg, d)
    ensures PgNamespace(AsSource(d), db).Ok? && Scan(TNamespace, PgNamespace(AsSource(d), db).value, builtin).Ok?
  {
    ServedSchemas(d, db);
    var schemas, rows := SchemasOf(d.schemas, db), PgNamespace(AsSource(d), db).value;
    var key := ValueKey(KeyColumns(TNamespace));
    forall i, j | 0 <= i < j < |rows| ensures key(rows[i]) != key(rows[j]) {
      assert SchemaNameOf(schemas[i]) != SchemaNameOf(schemas[j]);
      SchemaOidsDiffer(items, reg, d, db, schemas[i], schemas[j]);
      assert key(rows[i])[0] != key(rows[j])[0];
    }
    NoDuplicates(TNamespace, rows, builtin);
  }

  /** Relations of one database differ in namespace or name, and in OID. */
  lemma PlacesDiffer(items: seq<Decl>, reg: State, d: Declared, db: string, places: seq<Place>)
    requires Sound(items, reg, d) && Places(AsSource(d), db) == Ok(places)
    ensures DistinctOids(places)
    ensures forall i, j :: 0 <= i < j < |places| ==>
      places[i].schema.oid != places[j].schema.oid || places[i].rel.name != places[j].rel.name
    ensures forall i :: 0 <= i < |places| ==> Placed(d, db, places[i])
  {
    ServedSchemas(d, db);
    PlacesServed(d, db, SchemasOf(d.schemas, db));
    forall i, j | 0 <= i < j < |places|
      ensures places[i].rel.oid != places[j].rel.oid
      ensures places[i].schema.oid != places[j].schema.oid || places[i].rel.name != places[j].rel.name
    {
      var p, q := places[i], places[j];
      assert p in places && q in places && PlaceKey(p) != PlaceKey(q);
      RelationOidsDiffer(items, reg, d, db, p, q);
      if p.schema.name != q.schema.name {
        SchemaOidsDiffer(items, reg, d, db, p.schema, q.schema);
      }
    }
  }

  lemma {:induction false} ClassesServed(d: Declared, db: string, schemas: seq<SchemaDef>)
    requires ClassRowsAcross(AsSource(d), db, schemas).Ok?
    ensures PlacesAcross(AsSource(d), db, schemas).Ok?
    ensures ClassRowsAcross(AsSource(d), db, schemas).value == ClassRows(PlacesAcross(AsSource(d), db, schemas).value)
  {
    var src := AsSource(d);
    if schemas == [] {
      assert ClassRows([]) == [];
    } else {
      ClassesServed(d, db, schemas[1..]);
      NoIndexRows(d, db, schemas[0]);
      ClassRowsAppend(PlacesIn(src, db, schemas[0]).value, PlacesAcross(src, db, schemas[1..]).value);
    }
  }

  lemma ClassRowsAppend(a: seq<Place>, b: seq<Place>)
    ensures ClassRows(a + b) == ClassRows(a) + ClassRows(b)
  {
  }

  lemma NoIndexRows(d: Declared, db: string, schema: SchemaDef)
    requires ClassRowsIn(AsSource(d), db, schema).Ok?
    ensures ClassRowsIn(AsSource(d), db, schema).value == ClassRows(PlacesIn(AsSource(d), db, schema).value)
  {
    var here := ClassRows(PlacesIn(AsSource(d), db, schema).value);
    assert IndexRows(schema, []) == [] && here + [] == here;
  }

  predicate DifferentlyNamed(places: seq<Place>) {
    forall i, j :: 0 <= i < j < |places| ==>
      places[i].schema.oid != places[j].schema.oid || places[i].rel.name != places[j].rel.name
  }

  lemma ClassKeys(places: seq<Place>, builtin: seq<seq<Row>>)
    requires DifferentlyNamed(places)
    ensures Scan(TClass, ClassRows(places), builtin).Ok?
  {
    var rows, key := ClassRows(places), ValueKey(KeyColumns(TClass));
    forall i, j | 0 <= i < j < |rows| ensures key(rows[i]) != key(rows[j]) {
      assert key(rows[i])[0] != key(rows[j])[0] || key(rows[i])[1] != key(rows[j])[1];
    }
    NoDuplicates(TClass, rows, builtin);
  }

  lemma TypeKeys(places: seq<Place>, builtin: seq<seq<Row>>)
    requires DifferentlyNamed(places)
    ensures Scan(TType, TypesOf(places), builtin).Ok?
  {
    var rows, key := TypesOf(places), ValueKey(KeyColumns(TType));
    forall i, j | 0 <= i < j < |rows| ensures key(rows[i]) != key(rows[j]) {
      assert key(rows[i])[0] != key(rows[j])[0] || key(rows[i])[1] != key(rows[j])[1];
    }
    NoDuplicates(TType, rows, builtin);
  }

  lemma ClassesScan(items: seq<Decl>, reg: State, d: Declared, db: string, builtin: seq<seq<Row>>)
    requires Sound(items, reg, d) && PgClass(AsSource(d), db).Ok?
    ensures Scan(TClass, PgClass(AsSource(d), db).value, builtin).Ok?
  {
    ServedSchemas(d, db);
    ClassesServed(d, db, SchemasOf(d.schemas, db));
    PlacesDiffer(items, reg, d, db, Places(AsSource(d), db).value);
    ClassKeys(Places(AsSource(d), db).value, builtin);
  }

  lemma TypesScan(items: seq<Decl>, reg: State, d: Declared, db: string, builtin: seq<seq<Row>>)
    requires Sound(items, reg, d)
    ensures PgType(AsSource(d), db).Ok? && Scan(TType, PgType(AsSource(d), db).value, builtin).Ok?
  {
    ServedSchemas(d, db);
    PlacesServed(d, db, SchemasOf(d.schemas, db));
    TypesAre(AsSource(d), db, SchemasOf(d.schemas, db));
    PlacesDiffer(items, reg, d, db, Places(AsSource(d), db).value);
    TypeKeys(Places(AsSource(d), db).value, builtin);
  }

  // --- pg_attribute and pg_attrdef -----------------------------------------------------------

  /** Rows all of one relation, told apart by the second key column. */
  predicate OfRelation(rows: seq<Row>, relation: Column, oid: int) {
    forall i :: 0 <= i < |rows| ==> Col(rows[i], relation) == Number(oid)
  }

  lemma Apart(columns: seq<Column>, a: seq<Row>, b: seq<Row>, oid: int)
    requires |columns| == 2 && OfRelation(a, columns[0], oid)
    requires forall i :: 0 <= i < |b| ==> Col(b[i], columns[0]) != Number(oid)
    requires DistinctKeys(ValueKey(columns), a) && DistinctKeys(ValueKey(columns), b)
    ensures DistinctKeys(ValueKey(columns), a + b) && DistinctKeys(ValueKey(columns), b + a)
  {
    var key := ValueKey(columns);
    forall i, j | 0 <= i < |a| && 0 <= j < |b| ensures key(a[i]) != key(b[j]) {
      assert key(a[i])[0] != key(b[j])[0];
    }
    DistinctAppend(key, a, b);
    DistinctAppend(key, b, a);
  }

  lemma {:induction false} AttributeKeys(places: seq<Place>)
    requires DistinctOids(places) && forall i :: 0 <= i < |places| ==> DistinctKeys(ColumnNameOf, places[i].columns)
    ensures DistinctKeys(ValueKey(KeyColumns(TAttribute)), RowsForAttributes(places))
    ensures forall r :: r in RowsForAttributes(places) ==>
      exists i :: 0 <= i < |places| && Col(r, Attrelid) == Number(places[i].rel.oid)
    ensures forall r :: r in RowsForAttributes(places) ==> Filled(KeyColumns(TAttribute), r)
  {
    if places != [] {
      AttributeKeys(places[1..]);
      var oid, columns := places[0].rel.oid, places[0].columns;
      var here, rest := AttributeRows(oid, columns), RowsForAttributes(places[1..]);
      ColumnKeys(oid, columns);
      forall r | r in rest ensures exists i :: 0 <= i < |places| && Col(r, Attrelid) == Number(places[i].rel.oid)
                           ensures Col(r, Attrelid) != Number(oid)
      {
        var i :| 0 <= i < |places[1..]| && Col(r, Attrelid) == Number(places[1..][i].rel.oid);
        assert places[i + 1] == places[1..][i];
      }
      Apart(KeyColumns(TAttribute), here, rest, oid);
    }
  }

  lemma ColumnKeys(rel: int, columns: seq<ColumnSpec>)
    requires DistinctKeys(ColumnNameOf, columns)
    ensures var rows := AttributeRows(rel, columns);
      && OfRelation(rows, Attrelid, rel) && DistinctKeys(ValueKey(KeyColumns(TAttribute)), rows)
      && forall r :: r in rows ==> Filled(KeyColumns(TAttribute), r)
  {
    var rows, key := AttributeRows(rel, columns), ValueKey(KeyColumns(TAttribute));
    forall i, j | 0 <= i < j < |rows| ensures key(rows[i]) != key(rows[j]) {
      assert ColumnNameOf(columns[i]) != ColumnNameOf(columns[j]);
      assert key(rows[i])[1] != key(rows[j])[1];
    }
  }

  lemma AttributesScan(items: seq<Decl>, reg: State, d: Declared, db: string, builtin: seq<seq<Row>>)
    requires Sound(items, reg, d) && DistinctColumns(d) && PgAttribute(AsSource(d), db).Ok?
    ensures Scan(TAttribute, PgAttribute(AsSource(d), db).value, builtin).Ok?
  {
    var places := Places(AsSource(d), db).value;
    PlacesDiffer(items, reg, d, db, places);
    forall i | 0 <= i < |places| ensures DistinctKeys(ColumnNameOf, places[i].columns) {
      assert Placed(d, db, places[i]);
    }
    AttributeKeys(places);
    NoDuplicates(TAttribute, RowsForAttributes(places), builtin);
  }

  predicate Rising(ds: seq<Default>, rel: int, n: int) {
    && (forall i :: 0 <= i < |ds| ==> ds[i].rel == rel && ds[i].num <= n)
    && forall i, j :: 0 <= i < j < |ds| ==> ds[i].num < ds[j].num
  }

  lemma {:induction false} DefaultsRise(rel: int, columns: seq<ColumnSpec>)
    ensures Rising(DefaultsIn(rel, columns), rel, |columns|)
  {
    if columns != [] {
      DefaultsRise(rel, columns[..|columns| - 1]);
    }
  }

  predicate OfPlaces(ds: seq<Default>, places: seq<Place>) {
    forall j :: 0 <= j < |ds| ==> exists i :: 0 <= i < |places| && ds[j].rel == places[i].rel.oid
  }

  /** No column of any relation is listed twice. */
  lemma {:induction false} DefaultsDiffer(places: seq<Place>)
    requires DistinctOids(places)
    ensures OfPlaces(DefaultsAcross(places), places)
    ensures forall i, j :: 0 <= i < j < |DefaultsAcross(places)| ==> DefaultsAcross(places)[i] != DefaultsAcross(places)[j]
  {
    if places != [] {
      var here, rest := DefaultsIn(places[0].rel.oid, places[0].columns), DefaultsAcross(places[1..]);
      DefaultsRise(places[0].rel.oid, places[0].columns);
      DefaultsDiffer(places[1..]);
      forall j | 0 <= j < |rest|
        ensures exists i :: 0 <= i < |places| && rest[j].rel == places[i].rel.oid
        ensures rest[j].rel != places[0].rel.oid
      {
        var i :| 0 <= i < |places[1..]| && rest[j].rel == places[1..][i].rel.oid;
        assert places[i + 1] == places[1..][i];
      }
    }
  }

  lemma DefaultKeys(ds: seq<Default>, oid: int)
    requires forall i, j :: 0 <= i < j < |ds| ==> ds[i] != ds[j]
    ensures DistinctKeys(ValueKey(KeyColumns(TAttrdef)), AttrdefRows(ds, oid))
    ensures forall i :: 0 <= i < |ds| ==> Filled(KeyColumns(TAttrdef), AttrdefRows(ds, oid)[i])
  {
    var rows, key := AttrdefRows(ds, oid), ValueKey(KeyColumns(TAttrdef));
    forall i, j | 0 <= i < j < |rows| ensures key(rows[i]) != key(rows[j]) {
      assert key(rows[i])[0] == Number(ds[i].rel) && key(rows[i])[1] == Number(ds[i].num);
      assert key(rows[j])[0] == Number(ds[j].rel) && key(rows[j])[1] == Number(ds[j].num);
    }
  }

  lemma DefaultsScan(items: seq<Decl>, reg: State, d: Declared, db: string, builtin: seq<seq<Row>>)
    requires Sound(items, reg, d) && PgAttrdef(AsSource(d), db).Ok?
    ensures Scan(TAttrdef, PgAttrdef(AsSource(d), db).value, builtin).Ok?
  {
    var places := Places(AsSource(d), db).value;
    PlacesDiffer(items, reg, d, db, places);
    DefaultsDiffer(places);
    DefaultKeys(DefaultsAcross(places), SYNTHETIC_ATTRDEF_OID_BASE);
    NoDuplicates(TAttrdef, AttrdefRows(DefaultsAcross(places), SYNTHETIC_ATTRDEF_OID_BASE), builtin);
  }

  // --- information_schema --------------------------------------------------------------------

  lemma InfoSchemataScan(items: seq<Decl>, reg: State, d: Declared, db: string, builtin: seq<seq<Row>>)
    requires Sound(items, reg, d)
    ensures InfoSchemata(AsSource(d), db).Ok? && Scan(TInfoSchemata, InfoSchemata(AsSource(d), db).value, builtin).Ok?
  {
    ServedSchemas(d, db);
    var schemas, rows := SchemasOf(d.schemas, db), InfoSchemata(AsSource(d), db).value;
    var key := ValueKey(KeyColumns(TInfoSchemata));
    forall i, j | 0 <= i < j < |rows| ensures key(rows[i]) != key(rows[j]) {
      assert SchemaNameOf(schemas[i]) != SchemaNameOf(schemas[j]);
      assert key(rows[i])[1] != key(rows[j])[1];
    }
    NoDuplicates(TInfoSchemata, rows, builtin);
  }

  function TablesOf(db: string, places: seq<Place>): seq<Row> {
    seq(|places|, i requires 0 <= i < |places| => InfoTableRow(db, places[i].schema.name, places[i].rel))
  }

  lemma {:induction false} PlaceTables(src: Source, db: string, schema: SchemaDef, rels: seq<RelationDef>)
    requires PlacesOf(src, db, schema, rels).Ok?
    ensures TablesOf(db, PlacesOf(src, db, schema, rels).value) == InfoTablesIn(db, schema, rels)
  {
    if rels != [] {
      PlaceTables(src, db, schema, rels[1..]);
      var p, rest := Place(schema, rels[0], Rows(src.columns(db, schema.name, rels[0].name)).value), PlacesOf(src, db, schema, rels[1..]).value;
      assert PlacesOf(src, db, schema, rels) == Ok([p] + rest);
      TablesAppend(db, [p], rest);
      assert InfoTablesIn(db, schema, rels) == [InfoTableRow(db, schema.name, rels[0])] + InfoTablesIn(db, schema, rels[1..]);
    } else {
      assert TablesOf(db, []) == [] && InfoTablesIn(db, schema, rels) == [];
    }
  }

  lemma TablesAppend(db: string, a: seq<Place>, b: seq<Place>)
    ensures TablesOf(db, a + b) == TablesOf(db, a) + TablesOf(db, b)
  {
  }

  lemma {:induction false} TablesAre(src: Source, db: string, schemas: seq<SchemaDef>)
    requires PlacesAcross(src, db, schemas).Ok?
    ensures InfoTablesAcross(src, db, schemas) == Ok(TablesOf(db, PlacesAcross(src, db, schemas).value))
  {
    if schemas != [] {
      TablesAre(src, db, schemas[1..]);
      PlaceTables(src, db, schemas[0], Rows(src.relations(db, schemas[0].name)).value);
      TablesAppend(db, PlacesIn(src, db, schemas[0]).value, PlacesAcross(src, db, schemas[1..]).value);
    } else {
      assert TablesOf(db, []) == [];
    }
  }

  lemma InfoTablesScan(items: seq<Decl>, reg: State, d: Declared, db: string, builtin: seq<seq<Row>>)
    requires Sound(items, reg, d)
    ensures InfoTables(AsSource(d), db).Ok? && Scan(TInfoTables, InfoTables(AsSource(d), db).value, builtin).Ok?
  {
    ServedSchemas(d, db);
    PlacesServed(d, db, SchemasOf(d.schemas, db));
    TablesAre(AsSource(d), db, SchemasOf(d.schemas, db));
    TableKeys(db, Places(AsSource(d), db).value, builtin);
  }

  lemma TableKeys(db: string, places: seq<Place>, builtin: seq<seq<Row>>)
    requires DistinctKeys(PlaceKey, places)
    ensures Scan(TInfoTables, TablesOf(db, places), builtin).Ok?
  {
    var rows, key := TablesOf(db, places), ValueKey(KeyColumns(TInfoTables));
    forall i, j | 0 <= i < j < |rows| ensures key(rows[i]) != key(rows[j]) {
      assert PlaceKey(places[i]) != PlaceKey(places[j]);
      assert key(rows[i])[1] != key(rows[j])[1] || key(rows[i])[2] != key(rows[j])[2];
    }
    NoDuplicates(TInfoTables, rows, builtin);
  }

  /** Rows of the columns of these relations. */
  predicate ColumnsOfPlaces(rows: seq<Row>, places: seq<Place>) {
    forall r :: r in rows ==> exists i :: 0 <= i < |places| && ColumnOf(r, places[i])
  }

  predicate ColumnOf(r: Row, p: Place) {
    Col(r, TableSchema) == Text(p.schema.name) && Col(r, TableName) == Text(p.rel.name)
  }

  lemma PlaceColumnKeys(db: string, p: Place)
    requires DistinctKeys(ColumnNameOf, p.columns)
    ensures var rows := ColumnsAt(db)(p);
      && DistinctKeys(ValueKey(KeyColumns(TInfoColumns)), rows)
      && forall r :: r in rows ==> ColumnOf(r, p) && Filled(KeyColumns(TInfoColumns), r)
  {
    var rows, key := ColumnsAt(db)(p), ValueKey(KeyColumns(TInfoColumns));
    forall i, j | 0 <= i < j < |rows| ensures key(rows[i]) != key(rows[j]) {
      assert ColumnNameOf(p.columns[i]) != ColumnNameOf(p.columns[j]);
      assert key(rows[i])[3] != key(rows[j])[3];
    }
  }

  lemma {:induction false} InfoColumnKeys(db: string, places: seq<Place>)
    requires DistinctKeys(PlaceKey, places) && forall i :: 0 <= i < |places| ==> DistinctKeys(ColumnNameOf, places[i].columns)
    ensures var rows := Flat(ColumnsAt(db), places);
      && DistinctKeys(ValueKey(KeyColumns(TInfoColumns)), rows) && ColumnsOfPlaces(rows, places)
      && forall r :: r in rows ==> Filled(KeyColumns(TInfoColumns), r)
  {
    if places != [] {
      TailKeys(PlaceKey, places);
      PlaceColumnKeys(db, places[0]);
      InfoColumnKeys(db, places[1..]);
      PlaceThenPlaces(ColumnsAt(db)(places[0]), Flat(ColumnsAt(db), places[1..]), places);
    }
  }

  lemma PlaceThenPlaces(here: seq<Row>, rest: seq<Row>, places: seq<Place>)
    requires places != [] && DistinctKeys(PlaceKey, places) && ColumnsOfPlaces(rest, places[1..])
    requires forall r :: r in here ==> ColumnOf(r, places[0])
    requires DistinctKeys(ValueKey(KeyColumns(TInfoColumns)), here) && DistinctKeys(ValueKey(KeyColumns(TInfoColumns)), rest)
    ensures DistinctKeys(ValueKey(KeyColumns(TInfoColumns)), here + rest) && ColumnsOfPlaces(here + rest, places)
  {
    var key := ValueKey(KeyColumns(TInfoColumns));
    forall r | r in rest ensures !ColumnOf(r, places[0]) && exists i :: 0 <= i < |places| && ColumnOf(r, places[i]) {
      var i :| 0 <= i < |places[1..]| && ColumnOf(r, places[1..][i]);
      assert places[i + 1] == places[1..][i] && PlaceKey(places[0]) != PlaceKey(places[i + 1]);
    }
    forall x, y | x in here && y in rest ensures key(x) != key(y) {
      assert key(x)[1] != key(y)[1] || key(x)[2] != key(y)[2];
    }
    DisjointKeys(key, here, rest);
  }

  lemma InfoColumnsScan(items: seq<Decl>, reg: State, d: Declared, db: string, builtin: seq<seq<Row>>)
    requires Sound(items, reg, d) && DistinctColumns(d) && InfoColumns(AsSource(d), db).Ok?
    ensures Scan(TInfoColumns, InfoColumns(AsSource(d), db).value, builtin).Ok?
  {
    var places := Places(AsSource(d), db).value;
    ServedSchemas(d, db);
    PlacesServed(d, db, SchemasOf(d.schemas, db));
    forall i | 0 <= i < |places| ensures DistinctKeys(ColumnNameOf, places[i].columns) {
      assert places[i] in places;
      assert Placed(d, db, places[i]);
    }
    InfoColumnKeys(db, places);
    NoDuplicates(TInfoColumns, Flat(ColumnsAt(db), places), builtin);
  }

  // --- whole scans ---------------------------------------------------------------------------

  lemma {:induction false} NothingListed(d: Declared, db: string, schemas: seq<SchemaDef>)
    ensures IndexesAcross(AsSource(d), db, schemas) == Ok([]) && ConstraintsAcross(AsSource(d), db, schemas) == Ok([])
  {
    if schemas != [] {
      NothingListed(d, db, schemas[1..]);
      var none: seq<IndexDef>, nothing: seq<ConstraintDef> := [], [];
      assert Rows(AsSource(d).indexes(db, schemas[0].name)) == Ok(none) && none + none == none;
      assert Rows(AsSource(d).constraints(db, schemas[0].name)) == Ok(nothing) && nothing + nothing == nothing;
    }
  }

  lemma EmptyScan(t: CatalogTable, builtin: seq<seq<Row>>)
    ensures Scan(t, [], builtin).Ok?
  {
  }

  /** With distinct column names in each table, no scan of a declared source ever finds a duplicate:
      it serves whatever rows its walk builds. */
  lemma DeclaredScans(t: CatalogTable, items: seq<Decl>, reg: State, d: Declared, db: string, builtin: seq<seq<Row>>)
    requires Sound(items, reg, d) && DistinctColumns(d)
    ensures BuildRowsFor(t, AsSource(d), db).Ok? ==> Scan(t, BuildRowsFor(t, AsSource(d), db).value, builtin).Ok?
  {
    if BuildRowsFor(t, AsSource(d), db).Ok? {
      match t
      case TDatabase => DatabasesScan(items, reg, d, builtin);
      case TNamespace => NamespacesScan(items, reg, d, db, builtin);
      case TClass => ClassesScan(items, reg, d, db, builtin);
      case TType => TypesScan(items, reg, d, db, builtin);
      case TAttribute => AttributesScan(items, reg, d, db, builtin);
      case TAttrdef => DefaultsScan(items, reg, d, db, builtin);
      case TIndex => NoneListed(t, d, db, builtin);
      case TConstraint => NoneListed(t, d, db, builtin);
      case TConfig => EmptyScan(t, builtin);
      case TSettings => EmptyScan(t, builtin);
      case TInfoTables => InfoTablesScan(items, reg, d, db, builtin);
      case TInfoColumns => InfoColumnsScan(items, reg, d, db, builtin);
      case TInfoSchemata => InfoSchemataScan(items, reg, d, db, builtin);
    }
  }

  lemma NoneListed(t: CatalogTable, d: Declared, db: string, builtin: seq<seq<Row>>)
    requires (t.TIndex? || t.TConstraint?) && BuildRowsFor(t, AsSource(d), db).Ok?
    ensures Scan(t, BuildRowsFor(t, AsSource(d), db).value, builtin).Ok?
  {
    NothingListed(d, db, FetchSchemas(AsSource(d), db).value);
    assert BuildRowsFor(t, AsSource(d), db).value == [];
    EmptyScan(t, builtin);
  }

  // --- the merged pg_namespace ---------------------------------------------------------------

  function OidOf(r: Row): Value { Col(r, Oid) }
  function NspnameOf(r: Row): Value { Col(r, Nspname) }

  /** The built-in schemas: one row a name and a number, in the built-in range, `public` at 2200. */
  predicate BuiltinNamespaces(rows: seq<Row>) {
    && DistinctKeys(OidOf, rows) && DistinctKeys(NspnameOf, rows)
    && forall i :: 0 <= i < |rows| ==>
         && Col(rows[i], Oid).Number? && Col(rows[i], Oid).n < FIRST_USER_OID
         && (Col(rows[i], Oid) == Number(PUBLIC_SCHEMA_OID) ==> Col(rows[i], Nspname) == Text("public"))
         && TypedRow(ShadowColumns(TNamespace), rows[i])
  }

  lemma {:induction false} UnshadowedPart<K>(key: Row -> K, columns: seq<Column>, user: seq<Row>, rows: seq<Row>)
    requires DistinctKeys(key, rows)
    ensures DistinctKeys(key, Unshadowed(columns, user, rows))
    ensures forall r :: r in Unshadowed(columns, user, rows) ==> r in rows && !Shadowed(columns, user, r)
  {
    if rows != [] {
      TailKeys(key, rows);
      UnshadowedPart(key, columns, user, rows[1..]);
      var rest := Unshadowed(columns, user, rows[1..]);
      forall r | r in rest ensures key(r) != key(rows[0]) {
        var i :| 0 <= i < |rows[1..]| && rows[1..][i] == r;
        assert key(rows[0]) != key(rows[i + 1]);
      }
      if !Shadowed(columns, user, rows[0]) {
        HeadKey(key, rows[0], rest);
      }
    }
  }

  lemma DisjointKeys<K>(key: Row -> K, a: seq<Row>, b: seq<Row>)
    requires DistinctKeys(key, a) && DistinctKeys(key, b) && forall x, y :: x in a && y in b ==> key(x) != key(y)
    ensures DistinctKeys(key, a + b)
  {
    DistinctAppend(key, a, b);
    forall k | k in KeysOf(key, a) ensures k !in KeysOf(key, b) {
      var i :| 0 <= i < |a| && key(a[i]) == k;
      assert a[i] in a;
      assert forall j :: 0 <= j < |b| ==> b[j] in b;
    }
  }

  /** `public` has its fixed number, the others have numbers of their own. */
  predicate UserNamespace(r: Row) {
    && Col(r, Oid).Number? && Col(r, Nspname).Text?
    && if Col(r, Nspname) == Text("public") then Col(r, Oid) == Number(PUBLIC_SCHEMA_OID) else Col(r, Oid).n >= FIRST_USER_OID
  }

  /** The user rows of pg_namespace. */
  lemma UserNamespaces(items: seq<Decl>, reg: State, d: Declared, db: string)
    requires Sound(items, reg, d)
    ensures PgNamespace(AsSource(d), db).Ok?
    ensures var user := PgNamespace(AsSource(d), db).value;
      && DistinctKeys(OidOf, user) && DistinctKeys(NspnameOf, user)
      && forall r :: r in user ==> UserNamespace(r)
  {
    ServedSchemas(d, db);
    var schemas, user := SchemasOf(d.schemas, db), PgNamespace(AsSource(d), db).value;
    forall i, j | 0 <= i < j < |user| ensures OidOf(user[i]) != OidOf(user[j]) && NspnameOf(user[i]) != NspnameOf(user[j]) {
      assert SchemaNameOf(schemas[i]) != SchemaNameOf(schemas[j]);
      SchemaOidsDiffer(items, reg, d, db, schemas[i], schemas[j]);
    }
    forall r | r in user ensures UserNamespace(r) {
      var i :| 0 <= i < |user| && user[i] == r;
      assert schemas[i] in schemas;
      SchemaOidRange(items, reg, d, db, schemas[i]);
      assert r == NamespaceRow(schemas[i]);
    }
  }

  /** Shadowing by name leaves one schema a name and one schema a number. */
  lemma MergedNamespaces(items: seq<Decl>, reg: State, d: Declared, db: string, builtin: seq<Row>)
    requires Sound(items, reg, d) && BuiltinNamespaces(builtin)
    ensures PgNamespace(AsSource(d), db).Ok?
    ensures var merged := Unshadowed(ShadowColumns(TNamespace), PgNamespace(AsSource(d), db).value, builtin)
                          + PgNamespace(AsSource(d), db).value;
      DistinctKeys(OidOf, merged) && DistinctKeys(NspnameOf, merged)
  {
    UserNamespaces(items, reg, d, db);
    var user := PgNamespace(AsSource(d), db).value;
    var columns := ShadowColumns(TNamespace);
    UnshadowedPart(OidOf, columns, user, builtin);
    UnshadowedPart(NspnameOf, columns, user, builtin);
    var kept := Unshadowed(columns, user, builtin);
    forall x, y | x in kept && y in user ensures NspnameOf(x) != NspnameOf(y) && OidOf(x) != OidOf(y) {
      var j :| 0 <= j < |user| && user[j] == y;
      assert !Agree(columns, user[j], x);
      assert x in builtin;
      var i :| 0 <= i < |builtin| && builtin[i] == x;
    }
    DisjointKeys(OidOf, kept, user);
    DisjointKeys(NspnameOf, kept, user);
  }

  /** The same of the rows the scan itself serves, however the built-in rows are batched. */
  lemma NamespaceScanIsUnique(items: seq<Decl>, reg: State, d: Declared, db: string, builtin: seq<seq<Row>>)
    requires Sound(items, reg, d) && BuiltinNamespaces(Flatten(builtin))
    requires forall n :: 0 <= n < |builtin| ==> forall i :: 0 <= i < |builtin[n]| ==> TypedRow([Nspname], builtin[n][i])
    requires forall s :: s in SchemasOf(d.schemas, db) ==> s.name != NULL_KEY && s.name != UNMATCHABLE
    ensures PgNamespace(AsSource(d), db).Ok?
    ensures var scan := Scan(TNamespace, PgNamespace(AsSource(d), db).value, builtin);
      scan.Ok? && DistinctKeys(OidOf, Flatten(scan.value)) && DistinctKeys(NspnameOf, Flatten(scan.value))
  {
    ServedSchemas(d, db);
    NamespacesScan(items, reg, d, db, builtin);
    var user := PgNamespace(AsSource(d), db).value;
    forall i | 0 <= i < |user| ensures TypedRow([Oid], user[i]) && TypedRow([Nspname], user[i]) {
      assert SchemasOf(d.schemas, db)[i] in SchemasOf(d.schemas, db);
      assert user[i] == NamespaceRow(SchemasOf(d.schemas, db)[i]);
    }
    ScanMerges(TNamespace, user, builtin);
    MergedNamespaces(items, reg, d, db, Flatten(builtin));
  }

  // --- from the declarations to the scans ----------------------------------------------------

  /** No declared table names a column twice. */
  predicate TablesDistinct(tables: seq<TableDecl>) {
    forall i :: 0 <= i < |tables| ==> DistinctKeys(ColumnNameOf, tables[i].columns)
  }

  lemma DeclaredColumns(databases: seq<string>, schemas: seq<(string, string)>, tables: seq<TableDecl>, reg: State, d: Declared)
    requires Serves(Items(databases, schemas, tables), reg, d) && TablesDistinct(tables)
    ensures DistinctColumns(d)
  {
    var items := Items(databases, schemas, tables);
    forall n | 0 <= n < |d.relations| ensures DistinctKeys(ColumnNameOf, d.relations[n].columns) {
      assert IsRow(reg, items, d.relations[n]);
      var i :| 0 <= i < |items| && RowOf(reg, items[i], d.relations[n]);
      assert items[i] in TableItems(tables);
    }
  }

  /** Whatever set of declarations is accepted, in whatever state the registry is, every catalog
      table of the source is served without a duplicate, as long as no table repeats a column. */
  lemma AcceptedDeclarationsScan(reg: State, databases: seq<string>, schemas: seq<(string, string)>, tables: seq<TableDecl>,
                                 t: CatalogTable, db: string, builtin: seq<seq<Row>>)
    requires Inv(reg) && TablesDistinct(tables) && Declare(reg, Items(databases, schemas, tables)).made.Ok?
    ensures var source := AsSource(Declare(reg, Items(databases, schemas, tables)).made.value);
      BuildRowsFor(t, source, db).Ok? ==> Scan(t, BuildRowsFor(t, source, db).value, builtin).Ok?
  {
    var items := Items(databases, schemas, tables);
    var w := Declare(reg, items);
    DeclareExactly(reg, items);
    AfterKeepsInv(reg, CallsOf([], items));
    DeclaredColumns(databases, schemas, tables, w.reg, w.made.value);
    DeclaredScans(t, items, w.reg, w.made.value, db, builtin);
  }
}
