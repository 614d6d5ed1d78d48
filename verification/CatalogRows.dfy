/** The rows of the catalog tables, built from what a source reports by one walk a table. */
module CatalogRows {
  import opened Wrappers
  import opened Keys
  import opened Flats
  import opened CatalogSource

  const I32_MAX := 0x7fff_ffff
  const SYNTHETIC_ATTRDEF_OID_BASE := 900000
  const DEFAULT_OWNER_ROLE_OID := 10

  datatype Value = Number(n: int) | Text(s: string) | Flag(b: bool) | Missing | Other(written: string)

  /** The identity, position, count and default columns of the catalog tables. */
  datatype Column =
    | Oid | Datname | Nspname | Nspowner
    | Relname | Relnamespace | Reltype | Relkind | Relnatts
    | Typname | Typnamespace | Typrelid
    | Attrelid | Attname | Atttypid | Attnum | Attnotnull | Atthasdef
    | Adrelid | Adnum | Indexrelid | Indrelid | Indnatts | Conname | Conrelid | Name | SettingValue
    | TableCatalog | TableSchema | TableName | ColumnName | OrdinalPosition | IsNullable | InfoCatalogName | InfoSchemaName

  type Row = map<Column, Value>

  function Col(row: Row, column: Column): Value {
    if column in row then row[column] else Missing
  }

  // --- one row -------------------------------------------------------------------------------

  /** `as i32` keeps the low 32 bits. */
  function AsI32(n: int): int {
    var low := n % 0x1_0000_0000;
    if low > I32_MAX then low - 0x1_0000_0000 else low
  }

  function AttributeCount(count: nat): Result<int> {
    if count <= I32_MAX then Ok(count) else Error
  }

  /** The position, from one, of a list entry. */
  function OneBased(index: nat): Result<int> {
    if index < I32_MAX then Ok(index + 1) else Error
  }

  function NamespaceRow(d: SchemaDef): Row {
    map[Oid := Number(d.oid), Nspname := Text(d.name),
        Nspowner := Number(if d.owner.Some? then d.owner.value else DEFAULT_OWNER_ROLE_OID)]
  }

  function DatabaseRow(d: DatabaseDef): Row {
    map[Oid := Number(d.oid), Datname := Text(d.datname)]
  }

  function RelkindOf(k: RelationKind): string {
    match k
    case Table => "r"
    case View => "v"
    case MaterializedView => "m"
  }

  function ClassRow(d: RelationDef, namespace: int, natts: int): Row {
    map[Oid := Number(d.oid), Relname := Text(d.name), Relnamespace := Number(namespace),
        Reltype := Number(d.reltype), Relkind := Text(RelkindOf(d.kind)), Relnatts := Number(natts)]
  }

  function IndexClassRow(d: IndexDef, namespace: int): Row {
    map[Oid := Number(d.oid), Relname := Text(d.name), Relnamespace := Number(namespace),
        Reltype := Number(0), Relkind := Text("i")]
  }

  function TypeRow(d: RelationDef, namespace: int): Row {
    map[Oid := Number(d.reltype), Typname := Text(d.name), Typnamespace := Number(namespace),
        Typrelid := Number(d.oid)]
  }

  function AttributeRow(rel: int, c: ColumnSpec, index: nat): Row {
    map[Attrelid := Number(rel), Attname := Text(c.name), Atttypid := Number(c.typeOid),
        Attnum := Number(AsI32(index + 1)), Attnotnull := Flag(!c.nullable), Atthasdef := Flag(c.hasDefault)]
  }

  function AttrdefRow(oid: int, rel: int, num: int): Row {
    map[Oid := Number(oid), Adrelid := Number(rel), Adnum := Number(num)]
  }

  function AttributeRows(rel: int, columns: seq<ColumnSpec>): seq<Row> {
    seq(|columns|, i requires 0 <= i < |columns| => AttributeRow(rel, columns[i], i))
  }

  // --- what a walk visits --------------------------------------------------------------------

  function SchemaNameOf(d: SchemaDef): string { d.name }

  /** The schemas of a database; a name reported twice is refused. */
  function FetchSchemas(src: Source, db: string): Result<seq<SchemaDef>> {
    var rows :- Rows(src.schemas(db));
    if DistinctKeys(SchemaNameOf, rows) then Ok(rows) else Error
  }

  datatype Place = Place(schema: SchemaDef, rel: RelationDef, columns: seq<ColumnSpec>)

  function PlacesOf(src: Source, db: string, schema: SchemaDef, rels: seq<RelationDef>): Result<seq<Place>> {
    if rels == [] then Ok([])
    else
      var columns :- Rows(src.columns(db, schema.name, rels[0].name));
      var rest :- PlacesOf(src, db, schema, rels[1..]);
      Ok([Place(schema, rels[0], columns)] + rest)
  }

  function PlacesIn(src: Source, db: string, schema: SchemaDef): Result<seq<Place>> {
    var rels :- Rows(src.relations(db, schema.name));
    PlacesOf(src, db, schema, rels)
  }

  function PlacesAcross(src: Source, db: string, schemas: seq<SchemaDef>): Result<seq<Place>> {
    if schemas == [] then Ok([])
    else
      var here :- PlacesIn(src, db, schemas[0]);
      var rest :- PlacesAcross(src, db, schemas[1..]);
      Ok(here + rest)
  }

  /** Every relation of a database with its schema and columns, in walking order. */
  function Places(src: Source, db: string): Result<seq<Place>> {
    var schemas :- FetchSchemas(src, db);
    PlacesAcross(src, db, schemas)
  }

  // --- the tables ----------------------------------------------------------------------------

  predicate CountFits(p: Place) {
    |p.columns| <= I32_MAX
  }

  predicate AllCounted(places: seq<Place>) {
    forall i :: 0 <= i < |places| ==> CountFits(places[i])
  }

  lemma CountedAppend(a: seq<Place>, b: seq<Place>)
    ensures AllCounted(a + b) <==> AllCounted(a) && AllCounted(b)
  {
    if AllCounted(a + b) {
      forall i | 0 <= i < |a| ensures CountFits(a[i]) {
        assert (a + b)[i] == a[i];
      }
      forall i | 0 <= i < |b| ensures CountFits(b[i]) {
        assert (a + b)[|a| + i] == b[i];
      }
    }
  }

  function RowsForAttributes(places: seq<Place>): seq<Row> {
    if places == [] then [] else AttributeRows(places[0].rel.oid, places[0].columns) + RowsForAttributes(places[1..])
  }

  function Attributed(places: Result<seq<Place>>): Result<seq<Row>> {
    var ps :- places;
    if AllCounted(ps) then Ok(RowsForAttributes(ps)) else Error
  }

  function PgAttribute(src: Source, db: string): Result<seq<Row>> {
    Attributed(Places(src, db))
  }

  /** A column with a default: its relation and its number. */
  datatype Default = Default(rel: int, num: int)

  function DefaultsIn(rel: int, columns: seq<ColumnSpec>): seq<Default> {
    if columns == [] then []
    else
      var n := |columns| - 1;
      DefaultsIn(rel, columns[..n]) + if columns[n].hasDefault then [Default(rel, n + 1)] else []
  }

  function DefaultsAt(): Place -> seq<Default> {
    (p: Place) => DefaultsIn(p.rel.oid, p.columns)
  }

  function DefaultsAcross(places: seq<Place>): seq<Default> {
    Flat(DefaultsAt(), places)
  }

  /** The synthetic numbers run on from `oid`. */
  function AttrdefRows(ds: seq<Default>, oid: int): seq<Row> {
    seq(|ds|, i requires 0 <= i < |ds| => AttrdefRow(oid + i, ds[i].rel, ds[i].num))
  }

  predicate DefaultsFit(p: Place) {
    forall i :: 0 <= i < |p.columns| && p.columns[i].hasDefault ==> i < I32_MAX
  }

  predicate AllFit(places: seq<Place>) {
    forall i :: 0 <= i < |places| ==> DefaultsFit(places[i])
  }

  lemma FitAppend(a: seq<Place>, b: seq<Place>)
    ensures AllFit(a + b) <==> AllFit(a) && AllFit(b)
  {
    if AllFit(a + b) {
      forall i | 0 <= i < |a| ensures DefaultsFit(a[i]) {
        assert (a + b)[i] == a[i];
      }
      forall i | 0 <= i < |b| ensures DefaultsFit(b[i]) {
        assert (a + b)[|a| + i] == b[i];
      }
    }
  }

  function Defaulted(places: Result<seq<Place>>, oid: int): Result<seq<Row>> {
    var ps :- places;
    if AllFit(ps) then Ok(AttrdefRows(DefaultsAcross(ps), oid)) else Error
  }

  function PgAttrdef(src: Source, db: string): Result<seq<Row>> {
    Defaulted(Places(src, db), SYNTHETIC_ATTRDEF_OID_BASE)
  }

  function ClassRows(places: seq<Place>): seq<Row> {
    seq(|places|, i requires 0 <= i < |places| => ClassRow(places[i].rel, places[i].schema.oid, |places[i].columns|))
  }

  function IndexRows(schema: SchemaDef, indexes: seq<IndexDef>): seq<Row> {
    seq(|indexes|, i requires 0 <= i < |indexes| => IndexClassRow(indexes[i], schema.oid))
  }

  /** A schema's relations and then its indexes. */
  function ClassRowsIn(src: Source, db: string, schema: SchemaDef): Result<seq<Row>> {
    var places :- PlacesIn(src, db, schema);
    if forall i :: 0 <= i < |places| ==> CountFits(places[i]) then
      var indexes :- Rows(src.indexes(db, schema.name));
      Ok(ClassRows(places) + IndexRows(schema, indexes))
    else Error
  }

  function ClassRowsAcross(src: Source, db: string, schemas: seq<SchemaDef>): Result<seq<Row>> {
    if schemas == [] then Ok([])
    else
      var here :- ClassRowsIn(src, db, schemas[0]);
      var rest :- ClassRowsAcross(src, db, schemas[1..]);
      Ok(here + rest)
  }

  function PgClass(src: Source, db: string): Result<seq<Row>> {
    var schemas :- FetchSchemas(src, db);
    ClassRowsAcross(src, db, schemas)
  }

  function TypeRows(schema: SchemaDef, rels: seq<RelationDef>): seq<Row> {
    seq(|rels|, i requires 0 <= i < |rels| => TypeRow(rels[i], schema.oid))
  }

  function TypeRowsAcross(src: Source, db: string, schemas: seq<SchemaDef>): Result<seq<Row>> {
    if schemas == [] then Ok([])
    else
      var rels :- Rows(src.relations(db, schemas[0].name));
      var rest :- TypeRowsAcross(src, db, schemas[1..]);
      Ok(TypeRows(schemas[0], rels) + rest)
  }

  function PgType(src: Source, db: string): Result<seq<Row>> {
    var schemas :- FetchSchemas(src, db);
    TypeRowsAcross(src, db, schemas)
  }

  function PgNamespace(src: Source, db: string): Result<seq<Row>> {
    var schemas :- FetchSchemas(src, db);
    Ok(seq(|schemas|, i requires 0 <= i < |schemas| => NamespaceRow(schemas[i])))
  }

  function PgDatabase(src: Source): Result<seq<Row>> {
    var rows :- Rows(src.databases);
    Ok(seq(|rows|, i requires 0 <= i < |rows| => DatabaseRow(rows[i])))
  }

  function IndexRow(d: IndexDef): Row {
    map[Indexrelid := Number(d.oid), Indrelid := Number(d.table), Indnatts := Number(AsI32(|d.keys|))]
  }

  function ConstraintRow(d: ConstraintDef): Row {
    map[Oid := Number(d.oid), Conname := Text(d.name), Conrelid := Number(d.table)]
  }

  function SettingRow(d: Setting): Row {
    map[Name := Text(d.name), SettingValue := Text(d.value)]
  }

  function IndexesAcross(src: Source, db: string, schemas: seq<SchemaDef>): Result<seq<IndexDef>> {
    if schemas == [] then Ok([])
    else
      var here :- Rows(src.indexes(db, schemas[0].name));
      var rest :- IndexesAcross(src, db, schemas[1..]);
      Ok(here + rest)
  }

  function PgIndex(src: Source, db: string): Result<seq<Row>> {
    var schemas :- FetchSchemas(src, db);
    var all :- IndexesAcross(src, db, schemas);
    if forall i :: 0 <= i < |all| ==> |all[i].keys| <= I32_MAX then
      Ok(seq(|all|, i requires 0 <= i < |all| => IndexRow(all[i])))
    else Error
  }

  function ConstraintsAcross(src: Source, db: string, schemas: seq<SchemaDef>): Result<seq<ConstraintDef>> {
    if schemas == [] then Ok([])
    else
      var here :- Rows(src.constraints(db, schemas[0].name));
      var rest :- ConstraintsAcross(src, db, schemas[1..]);
      Ok(here + rest)
  }

  function PgConstraint(src: Source, db: string): Result<seq<Row>> {
    var schemas :- FetchSchemas(src, db);
    var all :- ConstraintsAcross(src, db, schemas);
    Ok(seq(|all|, i requires 0 <= i < |all| => ConstraintRow(all[i])))
  }

  function SettingRows(reply: Reply<Setting>): Result<seq<Row>> {
    var all :- Rows(reply);
    Ok(seq(|all|, i requires 0 <= i < |all| => SettingRow(all[i])))
  }

  // --- the walks -----------------------------------------------------------------------------

  /** What a loop has and what it still has to add. */
  function Onto<T>(rows: seq<T>, rest: Result<seq<T>>): Result<seq<T>> {
    var more :- rest;
    Ok(rows + more)
  }

  method FetchSchemasLoop(src: Source, db: string) returns (out: Result<seq<SchemaDef>>)
    ensures out == FetchSchemas(src, db)
  {
    var rows := Collect(src.schemas(db));
    if rows.Error? {
      return Error;
    }
    var defs := rows.value;
    var seen: set<string> := {};
    var i := 0;
    while i < |defs|
      invariant 0 <= i <= |defs|
      invariant seen == set j | 0 <= j < i :: defs[j].name
      invariant forall j, k :: 0 <= j < k < i ==> defs[j].name != defs[k].name
    {
      if defs[i].name in seen {
        return Error;
      }
      seen := seen + {defs[i].name};
      i := i + 1;
    }
    return Ok(defs);
  }

  method CollectNamespaceRows(src: Source, db: string) returns (out: Result<seq<Row>>)
    ensures out == PgNamespace(src, db)
  {
    var schemas := FetchSchemasLoop(src, db);
    if schemas.Error? {
      return Error;
    }
    var rows: seq<Row> := [];
    for i := 0 to |schemas.value|
      invariant rows == seq(i, j requires 0 <= j < i => NamespaceRow(schemas.value[j]))
    {
      rows := rows + [NamespaceRow(schemas.value[i])];
    }
    return Ok(rows);
  }

  method CollectTypeRows(src: Source, db: string) returns (out: Result<seq<Row>>)
    ensures out == PgType(src, db)
  {
    var schemas := FetchSchemasLoop(src, db);
    if schemas.Error? {
      return Error;
    }
    var rows: seq<Row> := [];
    ghost var all := TypeRowsAcross(src, db, schemas.value);
    OntoEnds(rows, all);
    var i := 0;
    assert schemas.value[0..] == schemas.value;
    while i < |schemas.value|
      invariant 0 <= i <= |schemas.value|
      invariant all == Onto(rows, TypeRowsAcross(src, db, schemas.value[i..]))
    {
      var schema := schemas.value[i];
      assert schemas.value[i..][1..] == schemas.value[i + 1..];
      var rels := Collect(src.relations(db, schema.name));
      if rels.Error? {
        return Error;
      }
      ghost var before := rows;
      for j := 0 to |rels.value|
        invariant rows == before + TypeRows(schema, rels.value[..j])
      {
        assert TypeRows(schema, rels.value[..j + 1]) == TypeRows(schema, rels.value[..j]) + [TypeRow(rels.value[j], schema.oid)];
        rows := rows + [TypeRow(rels.value[j], schema.oid)];
      }
      assert rels.value[..|rels.value|] == rels.value;
      OntoAgain(before, TypeRows(schema, rels.value), TypeRowsAcross(src, db, schemas.value[i + 1..]));
      i := i + 1;
    }
    OntoEnds(rows, all);
    return Ok(rows);
  }

  lemma OntoEnds<T>(a: seq<T>, rest: Result<seq<T>>)
    ensures Onto([], rest) == rest && Onto(a, Ok([])) == Ok(a)
  {
    assert a + [] == a;
    if rest.Ok? {
      assert [] + rest.value == rest.value;
    }
  }

  lemma OntoAgain<T>(a: seq<T>, b: seq<T>, rest: Result<seq<T>>)
    ensures Onto(a, Onto(b, rest)) == Onto(a + b, rest)
  {
    if rest.Ok? {
      assert a + (b + rest.value) == (a + b) + rest.value;
    }
  }

  method CollectClassRows(src: Source, db: string) returns (out: Result<seq<Row>>)
    ensures out == PgClass(src, db)
  {
    var schemas := FetchSchemasLoop(src, db);
    if schemas.Error? {
      return Error;
    }
    var rows: seq<Row> := [];
    ghost var all := ClassRowsAcross(src, db, schemas.value);
    OntoEnds(rows, all);
    var i := 0;
    assert schemas.value[0..] == schemas.value;
    while i < |schemas.value|
      invariant 0 <= i <= |schemas.value|
      invariant all == Onto(rows, ClassRowsAcross(src, db, schemas.value[i..]))
    {
      var schema := schemas.value[i];
      assert schemas.value[i..][1..] == schemas.value[i + 1..];
      var here := CollectClassRowsIn(src, db, schema);
      if here.Error? {
        return Error;
      }
      OntoAgain(rows, here.value, ClassRowsAcross(src, db, schemas.value[i + 1..]));
      rows := rows + here.value;
      i := i + 1;
    }
    OntoEnds(rows, all);
    return Ok(rows);
  }

  /** One schema: a row for each relation, its columns fetched to be counted, then the indexes. */
  method CollectClassRowsIn(src: Source, db: string, schema: SchemaDef) returns (out: Result<seq<Row>>)
    ensures out == ClassRowsIn(src, db, schema)
  {
    var rels := Collect(src.relations(db, schema.name));
    if rels.Error? {
      return Error;
    }
    var counted := CollectRelationRows(src, db, schema, rels.value);
    if counted.Error? {
      return Error;
    }
    var indexes := Collect(src.indexes(db, schema.name));
    if indexes.Error? {
      return Error;
    }
    var rows := counted.value;
    for k := 0 to |indexes.value|
      invariant rows == counted.value + IndexRows(schema, indexes.value[..k])
    {
      assert IndexRows(schema, indexes.value[..k + 1])
          == IndexRows(schema, indexes.value[..k]) + [IndexClassRow(indexes.value[k], schema.oid)];
      rows := rows + [IndexClassRow(indexes.value[k], schema.oid)];
    }
    assert indexes.value[..|indexes.value|] == indexes.value;
    return Ok(rows);
  }

  function Counted(places: Result<seq<Place>>): Result<seq<Row>> {
    var ps :- places;
    if forall i :: 0 <= i < |ps| ==> CountFits(ps[i]) then Ok(ClassRows(ps)) else Error
  }

  method CollectRelationRows(src: Source, db: string, schema: SchemaDef, rels: seq<RelationDef>) returns (out: Result<seq<Row>>)
    ensures out == Counted(PlacesOf(src, db, schema, rels))
  {
    ghost var all := PlacesOf(src, db, schema, rels);
    ghost var done: seq<Place> := [];
    var rows: seq<Row> := [];
    var j := 0;
    OntoEnds(done, all);
    assert rels[0..] == rels;
    while j < |rels|
      invariant 0 <= j <= |rels|
      invariant all == Onto(done, PlacesOf(src, db, schema, rels[j..]))
      invariant rows == ClassRows(done) && forall k :: 0 <= k < |done| ==> CountFits(done[k])
    {
      var rel := rels[j];
      assert rels[j..][1..] == rels[j + 1..];
      var columns := Collect(src.columns(db, schema.name, rel.name));
      if columns.Error? {
        return Error;
      }
      ghost var p := Place(schema, rel, columns.value);
      OntoAgain(done, [p], PlacesOf(src, db, schema, rels[j + 1..]));
      var natts := AttributeCount(|columns.value|);
      if natts.Error? {
        assert all.Ok? ==> !CountFits(all.value[|done|]);
        return Error;
      }
      rows := rows + [ClassRow(rel, schema.oid, natts.value)];
      done := done + [p];
      j := j + 1;
    }
    OntoEnds(done, all);
    return Ok(rows);
  }

  lemma {:induction false} AttributesAppend(a: seq<Place>, b: seq<Place>)
    ensures RowsForAttributes(a + b) == RowsForAttributes(a) + RowsForAttributes(b)
    decreases |a|
  {
    if a == [] {
      assert a + b == b;
    } else {
      AttributesAppend(a[1..], b);
      assert (a + b)[1..] == a[1..] + b;
    }
  }

  method CollectAttributesOf(src: Source, db: string, schema: SchemaDef, rels: seq<RelationDef>) returns (out: Result<seq<Row>>)
    ensures out == Attributed(PlacesOf(src, db, schema, rels))
  {
    ghost var all := PlacesOf(src, db, schema, rels);
    ghost var done: seq<Place> := [];
    var rows: seq<Row> := [];
    var j := 0;
    OntoEnds(done, all);
    assert rels[0..] == rels;
    while j < |rels|
      invariant 0 <= j <= |rels|
      invariant all == Onto(done, PlacesOf(src, db, schema, rels[j..]))
      invariant rows == RowsForAttributes(done) && forall k :: 0 <= k < |done| ==> CountFits(done[k])
    {
      var rel := rels[j];
      assert rels[j..][1..] == rels[j + 1..];
      var columns := Collect(src.columns(db, schema.name, rel.name));
      if columns.Error? {
        return Error;
      }
      ghost var p := Place(schema, rel, columns.value);
      OntoAgain(done, [p], PlacesOf(src, db, schema, rels[j + 1..]));
      var natts := AttributeCount(|columns.value|);
      if natts.Error? {
        assert all.Ok? ==> !CountFits(all.value[|done|]);
        return Error;
      }
      AttributesAppend(done, [p]);
      assert RowsForAttributes([p]) == AttributeRows(rel.oid, columns.value);
      rows := rows + AttributeRows(rel.oid, columns.value);
      done := done + [p];
      j := j + 1;
    }
    OntoEnds(done, all);
    return Ok(rows);
  }

  method CollectAttributeRows(src: Source, db: string) returns (out: Result<seq<Row>>)
    ensures out == PgAttribute(src, db)
  {
    var schemas := FetchSchemasLoop(src, db);
    if schemas.Error? {
      return Error;
    }
    ghost var all := PlacesAcross(src, db, schemas.value);
    ghost var done: seq<Place> := [];
    var rows: seq<Row> := [];
    var i := 0;
    OntoEnds(done, all);
    assert schemas.value[0..] == schemas.value;
    while i < |schemas.value|
      invariant 0 <= i <= |schemas.value|
      invariant all == Onto(done, PlacesAcross(src, db, schemas.value[i..]))
      invariant rows == RowsForAttributes(done) && AllCounted(done)
    {
      var schema := schemas.value[i];
      assert schemas.value[i..][1..] == schemas.value[i + 1..];
      ghost var places, rest := PlacesIn(src, db, schema), PlacesAcross(src, db, schemas.value[i + 1..]);
      var rels := Collect(src.relations(db, schema.name));
      if rels.Error? {
        return Error;
      }
      var here := CollectAttributesOf(src, db, schema, rels.value);
      if here.Error? {
        if all.Ok? {
          assert all.value == done + (places.value + rest.value);
          CountedAppend(done, places.value + rest.value);
          CountedAppend(places.value, rest.value);
        }
        return Error;
      }
      OntoAgain(done, places.value, rest);
      CountedAppend(done, places.value);
      AttributesAppend(done, places.value);
      rows := rows + here.value;
      done := done + places.value;
      i := i + 1;
    }
    OntoEnds(done, all);
    return Ok(rows);
  }

  // --- pg_attrdef and its running number -----------------------------------------------------

  lemma AttrdefAppend(a: seq<Default>, b: seq<Default>, oid: int)
    ensures AttrdefRows(a + b, oid) == AttrdefRows(a, oid) + AttrdefRows(b, oid + |a|)
  {
  }

  lemma DefaultsGrow(a: seq<Place>, b: seq<Place>, oid: int)
    ensures AttrdefRows(DefaultsAcross(a + b), oid)
         == AttrdefRows(DefaultsAcross(a), oid) + AttrdefRows(DefaultsAcross(b), oid + |DefaultsAcross(a)|)
    ensures |DefaultsAcross(a + b)| == |DefaultsAcross(a)| + |DefaultsAcross(b)|
  {
    FlatAppend(DefaultsAt(), a, b);
    AttrdefAppend(DefaultsAcross(a), DefaultsAcross(b), oid);
  }

  lemma DefaultsOne(p: Place)
    ensures DefaultsAcross([p]) == DefaultsIn(p.rel.oid, p.columns)
  {
    FlatOne(DefaultsAt(), p);
  }

  /** One relation's default rows, numbered on from `oid`. */
  method CollectDefaultsOf(rel: int, columns: seq<ColumnSpec>, oid: int) returns (out: Result<seq<Row>>, next: int)
    ensures out.Ok? <==> forall i :: 0 <= i < |columns| && columns[i].hasDefault ==> i < I32_MAX
    ensures out.Ok? ==> out.value == AttrdefRows(DefaultsIn(rel, columns), oid) && next == oid + |DefaultsIn(rel, columns)|
  {
    var rows: seq<Row> := [];
    next := oid;
    var i := 0;
    while i < |columns|
      invariant 0 <= i <= |columns|
      invariant forall j :: 0 <= j < i && columns[j].hasDefault ==> j < I32_MAX
      invariant rows == AttrdefRows(DefaultsIn(rel, columns[..i]), oid) && next == oid + |DefaultsIn(rel, columns[..i])|
    {
      assert columns[..i + 1][..i] == columns[..i];
      if columns[i].hasDefault {
        var num := OneBased(i);
        if num.Error? {
          return Error, next;
        }
        AttrdefAppend(DefaultsIn(rel, columns[..i]), [Default(rel, i + 1)], oid);
        rows := rows + [AttrdefRow(next, rel, num.value)];
        next := next + 1;
      }
      i := i + 1;
    }
    assert columns[..i] == columns;
    return Ok(rows), next;
  }

  lemma PlacesStep(src: Source, db: string, schema: SchemaDef, rels: seq<RelationDef>)
    requires rels != [] && Rows(src.columns(db, schema.name, rels[0].name)).Ok?
    ensures PlacesOf(src, db, schema, rels)
         == Onto([Place(schema, rels[0], Rows(src.columns(db, schema.name, rels[0].name)).value)], PlacesOf(src, db, schema, rels[1..]))
  {
  }

  method CollectSchemaDefaults(src: Source, db: string, schema: SchemaDef, rels: seq<RelationDef>, oid: int)
    returns (out: Result<seq<Row>>, next: int)
    ensures out == Defaulted(PlacesOf(src, db, schema, rels), oid)
    ensures out.Ok? ==> next == oid + |DefaultsAcross(PlacesOf(src, db, schema, rels).value)|
  {
    ghost var all := PlacesOf(src, db, schema, rels);
    ghost var done: seq<Place> := [];
    var rows: seq<Row> := [];
    next := oid;
    var j := 0;
    OntoEnds(done, all);
    assert rels[0..] == rels;
    while j < |rels|
      invariant 0 <= j <= |rels|
      invariant all == Onto(done, PlacesOf(src, db, schema, rels[j..]))
      invariant rows == AttrdefRows(DefaultsAcross(done), oid) && next == oid + |DefaultsAcross(done)|
      invariant AllFit(done)
    {
      var rel := rels[j];
      assert rels[j..][1..] == rels[j + 1..];
      var columns := Collect(src.columns(db, schema.name, rel.name));
      if columns.Error? {
        return Error, next;
      }
      ghost var p := Place(schema, rel, columns.value);
      PlacesStep(src, db, schema, rels[j..]);
      OntoAgain(done, [p], PlacesOf(src, db, schema, rels[j + 1..]));
      var here, after := CollectDefaultsOf(rel.oid, columns.value, next);
      if here.Error? {
        assert all.Ok? ==> !DefaultsFit(all.value[|done|]);
        return Error, next;
      }
      FitAppend(done, [p]);
      DefaultsOne(p);
      DefaultsGrow(done, [p], oid);
      rows := rows + here.value;
      next := after;
      done := done + [p];
      j := j + 1;
    }
    OntoEnds(done, all);
    return Ok(rows), next;
  }

  method CollectAttrdefRows(src: Source, db: string) returns (out: Result<seq<Row>>)
    ensures out == PgAttrdef(src, db)
  {
    var schemas := FetchSchemasLoop(src, db);
    if schemas.Error? {
      return Error;
    }
    ghost var all := PlacesAcross(src, db, schemas.value);
    ghost var done: seq<Place> := [];
    var rows: seq<Row> := [];
    var synthetic := SYNTHETIC_ATTRDEF_OID_BASE;
    var i := 0;
    OntoEnds(done, all);
    assert schemas.value[0..] == schemas.value;
    while i < |schemas.value|
      invariant 0 <= i <= |schemas.value|
      invariant all == Onto(done, PlacesAcross(src, db, schemas.value[i..]))
      invariant rows == AttrdefRows(DefaultsAcross(done), SYNTHETIC_ATTRDEF_OID_BASE)
      invariant synthetic == SYNTHETIC_ATTRDEF_OID_BASE + |DefaultsAcross(done)|
      invariant AllFit(done)
    {
      var schema := schemas.value[i];
      assert schemas.value[i..][1..] == schemas.value[i + 1..];
      ghost var places, rest := PlacesIn(src, db, schema), PlacesAcross(src, db, schemas.value[i + 1..]);
      var rels := Collect(src.relations(db, schema.name));
      if rels.Error? {
        return Error;
      }
      var here, after := CollectSchemaDefaults(src, db, schema, rels.value, synthetic);
      if here.Error? {
        if all.Ok? {
          assert all.value == done + (places.value + rest.value);
          FitAppend(done, places.value + rest.value);
          FitAppend(places.value, rest.value);
        }
        return Error;
      }
      OntoAgain(done, places.value, rest);
      FitAppend(done, places.value);
      DefaultsGrow(done, places.value, SYNTHETIC_ATTRDEF_OID_BASE);
      rows := rows + here.value;
      synthetic := after;
      done := done + places.value;
      i := i + 1;
    }
    OntoEnds(done, all);
    return Ok(rows);
  }
}
