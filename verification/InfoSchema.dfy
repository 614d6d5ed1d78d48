/** The information_schema rows, built by the same walks. */
module InfoSchema {
  import opened Wrappers
  import opened Flats
  import opened CatalogSource
  import opened CatalogRows

  function InfoTableRow(db: string, schema: string, d: RelationDef): Row {
    map[TableCatalog := Text(db), TableSchema := Text(schema), TableName := Text(d.name)]
  }

  function InfoColumnRow(db: string, schema: string, rel: string, c: ColumnSpec, ordinal: int): Row {
    map[TableCatalog := Text(db), TableSchema := Text(schema), TableName := Text(rel), ColumnName := Text(c.name),
        OrdinalPosition := Number(ordinal), IsNullable := Text(if c.nullable then "YES" else "NO")]
  }

  function InfoSchemataRow(db: string, d: SchemaDef): Row {
    map[InfoCatalogName := Text(db), InfoSchemaName := Text(d.name)]
  }

  // --- the tables ----------------------------------------------------------------------------

  function InfoTablesIn(db: string, schema: SchemaDef, rels: seq<RelationDef>): seq<Row> {
    seq(|rels|, i requires 0 <= i < |rels| => InfoTableRow(db, schema.name, rels[i]))
  }

  function InfoTablesAcross(src: Source, db: string, schemas: seq<SchemaDef>): Result<seq<Row>> {
    if schemas == [] then Ok([])
    else
      var rels :- Rows(src.relations(db, schemas[0].name));
      var rest :- InfoTablesAcross(src, db, schemas[1..]);
      Ok(InfoTablesIn(db, schemas[0], rels) + rest)
  }

  function InfoTables(src: Source, db: string): Result<seq<Row>> {
    var schemas :- FetchSchemas(src, db);
    InfoTablesAcross(src, db, schemas)
  }

  /** The columns of one relation, numbered from one. */
  function InfoColumnsOf(db: string, schema: string, rel: string, columns: seq<ColumnSpec>): seq<Row> {
    seq(|columns|, i requires 0 <= i < |columns| => InfoColumnRow(db, schema, rel, columns[i], i + 1))
  }

  function ColumnsAt(db: string): Place -> seq<Row> {
    (p: Place) => InfoColumnsOf(db, p.schema.name, p.rel.name, p.columns)
  }

  /** A relation with more columns than an i32 can number is refused. */
  function Numbered(db: string, places: Result<seq<Place>>): Result<seq<Row>> {
    var ps :- places;
    if AllCounted(ps) then Ok(Flat(ColumnsAt(db), ps)) else Error
  }

  function InfoColumns(src: Source, db: string): Result<seq<Row>> {
    Numbered(db, Places(src, db))
  }

  function InfoSchemata(src: Source, db: string): Result<seq<Row>> {
    var schemas :- FetchSchemas(src, db);
    Ok(seq(|schemas|, i requires 0 <= i < |schemas| => InfoSchemataRow(db, schemas[i])))
  }

  // --- the walks -----------------------------------------------------------------------------

  method CollectInfoSchemata(src: Source, db: string) returns (out: Result<seq<Row>>)
    ensures out == InfoSchemata(src, db)
  {
    var schemas := FetchSchemasLoop(src, db);
    if schemas.Error? {
      return Error;
    }
    var rows: seq<Row> := [];
    for i := 0 to |schemas.value|
      invariant rows == seq(i, j requires 0 <= j < i => InfoSchemataRow(db, schemas.value[j]))
    {
      rows := rows + [InfoSchemataRow(db, schemas.value[i])];
    }
    return Ok(rows);
  }

  method CollectInfoTables(src: Source, db: string) returns (out: Result<seq<Row>>)
    ensures out == InfoTables(src, db)
  {
    var schemas := FetchSchemasLoop(src, db);
    if schemas.Error? {
      return Error;
    }
    var rows: seq<Row> := [];
    ghost var all := InfoTablesAcross(src, db, schemas.value);
    OntoEnds(rows, all);
    var i := 0;
    assert schemas.value[0..] == schemas.value;
    while i < |schemas.value|
      invariant 0 <= i <= |schemas.value|
      invariant all == Onto(rows, InfoTablesAcross(src, db, schemas.value[i..]))
    {
      var schema := schemas.value[i];
      assert schemas.value[i..][1..] == schemas.value[i + 1..];
      var rels := Collect(src.relations(db, schema.name));
      if rels.Error? {
        return Error;
      }
      ghost var before := rows;
      for j := 0 to |rels.value|
        invariant rows == before + InfoTablesIn(db, schema, rels.value[..j])
      {
        assert InfoTablesIn(db, schema, rels.value[..j + 1])
            == InfoTablesIn(db, schema, rels.value[..j]) + [InfoTableRow(db, schema.name, rels.value[j])];
        rows := rows + [InfoTableRow(db, schema.name, rels.value[j])];
      }
      assert rels.value[..|rels.value|] == rels.value;
      OntoAgain(before, InfoTablesIn(db, schema, rels.value), InfoTablesAcross(src, db, schemas.value[i + 1..]));
      i := i + 1;
    }
    OntoEnds(rows, all);
    return Ok(rows);
  }

  /** The rows of one relation; the position of each is checked. */
  method BuildInfoColumns(db: string, schema: string, rel: string, columns: seq<ColumnSpec>) returns (out: Result<seq<Row>>)
    ensures out == if |columns| <= I32_MAX then Ok(InfoColumnsOf(db, schema, rel, columns)) else Error
  {
    var rows: seq<Row> := [];
    for i := 0 to |columns|
      invariant i <= I32_MAX && rows == InfoColumnsOf(db, schema, rel, columns[..i])
    {
      var ordinal := OneBased(i);
      if ordinal.Error? {
        return Error;
      }
      assert InfoColumnsOf(db, schema, rel, columns[..i + 1])
          == InfoColumnsOf(db, schema, rel, columns[..i]) + [InfoColumnRow(db, schema, rel, columns[i], i + 1)];
      rows := rows + [InfoColumnRow(db, schema, rel, columns[i], ordinal.value)];
    }
    assert columns[..|columns|] == columns;
    return Ok(rows);
  }

  method CollectInfoColumnsOf(src: Source, db: string, schema: SchemaDef, rels: seq<RelationDef>) returns (out: Result<seq<Row>>)
    ensures out == Numbered(db, PlacesOf(src, db, schema, rels))
  {
    ghost var all := PlacesOf(src, db, schema, rels);
    ghost var done: seq<Place> := [];
    var rows: seq<Row> := [];
    var j := 0;
    OntoEnds(done, all);
    assert rels[0..] == rels;
    while j < |rels|
      invariant 0 <= j <= |rels|
      invariant all == Onto(done, PlacesOf(src, db, schema, rels[j..]))
      invariant rows == Flat(ColumnsAt(db), done) && AllCounted(done)
    {
      assert rels[j..][1..] == rels[j + 1..];
      var columns := Collect(src.columns(db, schema.name, rels[j].name));
      if columns.Error? {
        return Error;
      }
      ghost var p := Place(schema, rels[j], columns.value);
      PlacesStep(src, db, schema, rels[j..]);
      OntoAgain(done, [p], PlacesOf(src, db, schema, rels[j + 1..]));
      var here := BuildInfoColumns(db, schema.name, rels[j].name, columns.value);
      if here.Error? {
        assert all.Ok? ==> !CountFits(all.value[|done|]);
        return Error;
      }
      CountedAppend(done, [p]);
      FlatAppend(ColumnsAt(db), done, [p]);
      FlatOne(ColumnsAt(db), p);
      rows := rows + here.value;
      done := done + [p];
      j := j + 1;
    }
    OntoEnds(done, all);
    return Ok(rows);
  }

  method CollectInfoColumns(src: Source, db: string) returns (out: Result<seq<Row>>)
    ensures out == InfoColumns(src, db)
  {
    var schemas := FetchSchemasLoop(src, db);
    if schemas.Error? {
      return Error;
    }
    ghost var all := PlacesAcross(src, db, schemas.value);
    ghost var done: seq<Place> := [];
    var rows: seq<Row> := [];
    var i := 0;
    OntoEnds(done, all);
    assert schemas.value[0..] == schemas.value;
    while i < |schemas.value|
      invariant 0 <= i <= |schemas.value|
      invariant all == Onto(done, PlacesAcross(src, db, schemas.value[i..]))
      invariant rows == Flat(ColumnsAt(db), done) && AllCounted(done)
    {
      var schema := schemas.value[i];
      assert schemas.value[i..][1..] == schemas.value[i + 1..];
      ghost var places, rest := PlacesIn(src, db, schema), PlacesAcross(src, db, schemas.value[i + 1..]);
      var rels := Collect(src.relations(db, schema.name));
      if rels.Error? {
        return Error;
      }
      var here := CollectInfoColumnsOf(src, db, schema, rels.value);
      if here.Error? {
        if all.Ok? {
          assert all.value == done + (places.value + rest.value);
          CountedAppend(done, places.value + rest.value);
          CountedAppend(places.value, rest.value);
        }
        return Error;
      }
      OntoAgain(done, places.value, rest);
      CountedAppend(done, places.value);
      FlatAppend(ColumnsAt(db), done, places.value);
      rows := rows + here.value;
      done := done + places.value;
      i := i + 1;
    }
    OntoEnds(done, all);
    return Ok(rows);
  }
}
