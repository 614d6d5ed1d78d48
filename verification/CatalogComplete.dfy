/** What a source reports is all there, and once: counted on the source's own answers, apart from the
    walks that build the rows. */
module CatalogComplete {
  import opened Wrappers
  import opened Keys
  import opened Flats
  import opened CatalogSource
  import opened CatalogRows
  import opened CatalogJoins
  import InfoSchema

  // --- what the source reports ---------------------------------------------------------------

  function Given<T>(answer: Result<seq<T>>): seq<T> {
    if answer.Ok? then answer.value else []
  }

  predicate SchemaReported(src: Source, db: string, s: SchemaDef) {
    s in Given(Rows(src.schemas(db)))
  }

  predicate RelationReported(src: Source, db: string, s: SchemaDef, rel: RelationDef) {
    SchemaReported(src, db, s) && rel in Given(Rows(src.relations(db, s.name)))
  }

  predicate IndexReported(src: Source, db: string, s: SchemaDef, ix: IndexDef) {
    SchemaReported(src, db, s) && ix in Given(Rows(src.indexes(db, s.name)))
  }

  function ColumnsReported(src: Source, db: string, s: SchemaDef, rel: RelationDef): seq<ColumnSpec> {
    Given(Rows(src.columns(db, s.name, rel.name)))
  }

  function RelationsWith(rels: seq<RelationDef>, oid: int): nat {
    if rels == [] then 0 else (if rels[0].oid == oid then 1 else 0) + RelationsWith(rels[1..], oid)
  }

  function IndexesWith(indexes: seq<IndexDef>, oid: int): nat {
    if indexes == [] then 0 else (if indexes[0].oid == oid then 1 else 0) + IndexesWith(indexes[1..], oid)
  }

  /** How many relations and indexes of these schemas have this OID. */
  function Uses(src: Source, db: string, schemas: seq<SchemaDef>, oid: int): nat {
    if schemas == [] then 0
    else
      RelationsWith(Given(Rows(src.relations(db, schemas[0].name))), oid)
      + IndexesWith(Given(Rows(src.indexes(db, schemas[0].name))), oid)
      + Uses(src, db, schemas[1..], oid)
  }

  /** No OID is that of two relations, two indexes, or one of each. */
  ghost predicate OneOidEach(src: Source, db: string) {
    forall oid :: Uses(src, db, Given(Rows(src.schemas(db))), oid) <= 1
  }

  // --- rows with a value ---------------------------------------------------------------------

  lemma {:induction false} WhereExactly(rows: seq<Row>, column: Column, v: Value)
    ensures forall r :: r in Where(rows, column, v) <==> r in rows && Col(r, column) == v
  {
    if rows != [] {
      WhereExactly(rows[1..], column, v);
      assert rows == [rows[0]] + rows[1..];
    }
  }

  lemma OnlyRow(rows: seq<Row>, column: Column, v: Value, r: Row)
    requires |Where(rows, column, v)| <= 1 && r in rows && Col(r, column) == v
    ensures Where(rows, column, v) == [r]
  {
    WhereExactly(rows, column, v);
  }

  // --- places --------------------------------------------------------------------------------

  function PlacesWith(places: seq<Place>, oid: int): nat {
    if places == [] then 0 else (if places[0].rel.oid == oid then 1 else 0) + PlacesWith(places[1..], oid)
  }

  lemma {:induction false} PlacesWithBoth(a: seq<Place>, b: seq<Place>, oid: int)
    ensures PlacesWith(a + b, oid) == PlacesWith(a, oid) + PlacesWith(b, oid)
    decreases |a|
  {
    if a == [] {
      assert a + b == b;
    } else {
      PlacesWithBoth(a[1..], b, oid);
      assert (a + b)[1..] == a[1..] + b;
    }
  }

  /** The places of one schema are its relations, each with its columns. */
  lemma {:induction false} PlacesAreRelations(src: Source, db: string, s: SchemaDef, rels: seq<RelationDef>, oid: int)
    requires PlacesOf(src, db, s, rels).Ok?
    ensures var places := PlacesOf(src, db, s, rels).value;
      && PlacesWith(places, oid) == RelationsWith(rels, oid)
      && forall p :: p in places <==> p.schema == s && p.rel in rels && Rows(src.columns(db, s.name, p.rel.name)) == Ok(p.columns)
  {
    if rels != [] {
      PlacesAreRelations(src, db, s, rels[1..], oid);
      var first := Place(s, rels[0], Rows(src.columns(db, s.name, rels[0].name)).value);
      var rest := PlacesOf(src, db, s, rels[1..]).value;
      assert PlacesOf(src, db, s, rels).value == [first] + rest && ([first] + rest)[1..] == rest;
      assert rels == [rels[0]] + rels[1..];
    }
  }

  /** Those of all schemas; an OID comes up at most as often as the source uses it. */
  lemma {:induction false} PlacesAreReported(src: Source, db: string, schemas: seq<SchemaDef>, oid: int)
    requires PlacesAcross(src, db, schemas).Ok?
    ensures var places := PlacesAcross(src, db, schemas).value;
      && PlacesWith(places, oid) <= Uses(src, db, schemas, oid)
      && forall p :: p in places <==>
           p.schema in schemas && p.rel in Given(Rows(src.relations(db, p.schema.name)))
           && Rows(src.columns(db, p.schema.name, p.rel.name)) == Ok(p.columns)
  {
    if schemas != [] {
      var rels := Rows(src.relations(db, schemas[0].name)).value;
      PlacesAreRelations(src, db, schemas[0], rels, oid);
      PlacesAreReported(src, db, schemas[1..], oid);
      PlacesWithBoth(PlacesIn(src, db, schemas[0]).value, PlacesAcross(src, db, schemas[1..]).value, oid);
      assert schemas == [schemas[0]] + schemas[1..];
    }
  }

  lemma PlacesCounted(src: Source, db: string, schemas: seq<SchemaDef>, oid: int)
    requires PlacesAcross(src, db, schemas).Ok?
    ensures PlacesWith(PlacesAcross(src, db, schemas).value, oid) <= Uses(src, db, schemas, oid)
  {
    PlacesAreReported(src, db, schemas, oid);
  }

  lemma {:induction false} TwoPlaces(places: seq<Place>, i: nat, j: nat)
    requires i < j < |places| && places[i].rel.oid == places[j].rel.oid
    ensures PlacesWith(places, places[j].rel.oid) >= 2
    decreases |places|
  {
    if i == 0 {
      OnePlace(places[1..], j - 1);
    } else {
      TwoPlaces(places[1..], i - 1, j - 1);
    }
  }

  lemma {:induction false} OnePlace(places: seq<Place>, i: nat)
    requires i < |places|
    ensures PlacesWith(places, places[i].rel.oid) >= 1
    decreases |places|
  {
    if i > 0 {
      OnePlace(places[1..], i - 1);
    }
  }

  /** A place is a reported relation with its columns. */
  predicate PlaceReported(src: Source, db: string, p: Place) {
    RelationReported(src, db, p.schema, p.rel) && Rows(src.columns(db, p.schema.name, p.rel.name)) == Ok(p.columns)
  }

  lemma Walked(src: Source, db: string)
    requires Places(src, db).Ok?
    ensures Rows(src.schemas(db)).Ok? && PlacesAcross(src, db, Rows(src.schemas(db)).value) == Places(src, db)
  {
  }

  /** A walk visits exactly the reported relations. */
  lemma PlacesComplete(src: Source, db: string)
    requires Places(src, db).Ok?
    ensures forall p :: p in Places(src, db).value <==> PlaceReported(src, db, p)
  {
    Walked(src, db);
    PlacesAreReported(src, db, Rows(src.schemas(db)).value, 0);
  }

  /** And each once. */
  lemma PlacesDiffer(src: Source, db: string)
    requires Places(src, db).Ok? && OneOidEach(src, db)
    ensures DistinctOids(Places(src, db).value)
  {
    var places := Places(src, db).value;
    Walked(src, db);
    forall oid ensures PlacesWith(places, oid) <= 1 {
      PlacesCounted(src, db, Rows(src.schemas(db)).value, oid);
      assert Uses(src, db, Given(Rows(src.schemas(db))), oid) <= 1;
    }
    OnceEach(places);
  }

  lemma OnceEach(places: seq<Place>)
    requires forall oid :: PlacesWith(places, oid) <= 1
    ensures DistinctOids(places)
  {
    forall i, j | 0 <= i < j < |places| ensures places[i].rel.oid != places[j].rel.oid {
      if places[i].rel.oid == places[j].rel.oid {
        TwoPlaces(places, i, j);
      }
    }
  }

  /** A reported relation has its place, its columns fetched without an error. */
  lemma {:induction false} RelationPlaced(src: Source, db: string, s: SchemaDef, rels: seq<RelationDef>, rel: RelationDef)
    requires PlacesOf(src, db, s, rels).Ok? && rel in rels
    ensures Rows(src.columns(db, s.name, rel.name)).Ok?
    ensures Place(s, rel, Rows(src.columns(db, s.name, rel.name)).value) in PlacesOf(src, db, s, rels).value
  {
    if rel != rels[0] {
      RelationPlaced(src, db, s, rels[1..], rel);
    }
  }

  // --- pg_class ------------------------------------------------------------------------------

  lemma {:induction false} ClassRowsWith(places: seq<Place>, oid: int)
    ensures |Where(ClassRows(places), Oid, Number(oid))| == PlacesWith(places, oid)
  {
    if places == [] {
      assert ClassRows(places) == [];
    } else {
      ClassRowsWith(places[1..], oid);
      assert ClassRows(places) == [ClassRowOf(places[0])] + ClassRows(places[1..]);
      assert ClassRows(places)[1..] == ClassRows(places[1..]);
    }
  }

  lemma {:induction false} IndexRowsWith(s: SchemaDef, indexes: seq<IndexDef>, oid: int)
    ensures |Where(IndexRows(s, indexes), Oid, Number(oid))| == IndexesWith(indexes, oid)
  {
    if indexes == [] {
      assert IndexRows(s, indexes) == [];
    } else {
      IndexRowsWith(s, indexes[1..], oid);
      assert IndexRows(s, indexes)[1..] == IndexRows(s, indexes[1..]);
    }
  }

  lemma SchemaRowsWith(src: Source, db: string, s: SchemaDef, oid: int)
    requires ClassRowsIn(src, db, s).Ok?
    ensures |Where(ClassRowsIn(src, db, s).value, Oid, Number(oid))|
         == RelationsWith(Given(Rows(src.relations(db, s.name))), oid) + IndexesWith(Given(Rows(src.indexes(db, s.name))), oid)
  {
    var places, indexes := PlacesIn(src, db, s).value, Rows(src.indexes(db, s.name)).value;
    PlacesAreRelations(src, db, s, Rows(src.relations(db, s.name)).value, oid);
    ClassRowsWith(places, oid);
    IndexRowsWith(s, indexes, oid);
    WhereAppend(ClassRows(places), IndexRows(s, indexes), Oid, Number(oid));
  }

  /** pg_class has as many rows with an OID as the source has relations and indexes with it. */
  lemma {:induction false} ClassCounts(src: Source, db: string, schemas: seq<SchemaDef>, oid: int)
    requires ClassRowsAcross(src, db, schemas).Ok?
    ensures |Where(ClassRowsAcross(src, db, schemas).value, Oid, Number(oid))| == Uses(src, db, schemas, oid)
  {
    if schemas != [] {
      SchemaRowsWith(src, db, schemas[0], oid);
      ClassCounts(src, db, schemas[1..], oid);
      WhereAppend(ClassRowsIn(src, db, schemas[0]).value, ClassRowsAcross(src, db, schemas[1..]).value, Oid, Number(oid));
    }
  }

  lemma {:induction false} SchemaIsWalked(src: Source, db: string, schemas: seq<SchemaDef>, s: SchemaDef)
    requires ClassRowsAcross(src, db, schemas).Ok? && s in schemas
    ensures ClassRowsIn(src, db, s).Ok?
    ensures forall r :: r in ClassRowsIn(src, db, s).value ==> r in ClassRowsAcross(src, db, schemas).value
  {
    if s != schemas[0] {
      SchemaIsWalked(src, db, schemas[1..], s);
    }
  }

  lemma RelationHasRow(src: Source, db: string, s: SchemaDef, rel: RelationDef)
    requires ClassRowsIn(src, db, s).Ok? && rel in Given(Rows(src.relations(db, s.name)))
    ensures ClassRow(rel, s.oid, |ColumnsReported(src, db, s, rel)|) in ClassRowsIn(src, db, s).value
  {
    var places := PlacesIn(src, db, s).value;
    RelationPlaced(src, db, s, Rows(src.relations(db, s.name)).value, rel);
    var p := Place(s, rel, ColumnsReported(src, db, s, rel));
    var i :| 0 <= i < |places| && places[i] == p;
    assert ClassRows(places)[i] == ClassRow(rel, s.oid, |p.columns|);
  }

  lemma IndexHasRow(src: Source, db: string, s: SchemaDef, ix: IndexDef)
    requires ClassRowsIn(src, db, s).Ok? && ix in Given(Rows(src.indexes(db, s.name)))
    ensures IndexClassRow(ix, s.oid) in ClassRowsIn(src, db, s).value
  {
    var indexes := Rows(src.indexes(db, s.name)).value;
    var i :| 0 <= i < |indexes| && indexes[i] == ix;
    assert IndexRows(s, indexes)[i] == IndexClassRow(ix, s.oid);
  }

  /** What pg_class says of a relation. */
  predicate DescribesRelation(r: Row, s: SchemaDef, rel: RelationDef, columns: int) {
    && Col(r, Relname) == Text(rel.name) && Col(r, Relnamespace) == Number(s.oid) && Col(r, Reltype) == Number(rel.reltype)
    && Col(r, Relnatts) == Number(columns)
    && Col(r, Relkind) == Text(if rel.kind.Table? then "r" else if rel.kind.View? then "v" else "m")
  }

  lemma ClassIs(src: Source, db: string)
    requires PgClass(src, db).Ok?
    ensures Rows(src.schemas(db)).Ok? && ClassRowsAcross(src, db, Rows(src.schemas(db)).value) == PgClass(src, db)
  {
  }

  lemma ClassHas(src: Source, db: string, s: SchemaDef, r: Row, oid: int)
    requires PgClass(src, db).Ok? && OneOidEach(src, db) && SchemaReported(src, db, s)
    requires Col(r, Oid) == Number(oid) && (ClassRowsIn(src, db, s).Ok? ==> r in ClassRowsIn(src, db, s).value)
    ensures Where(PgClass(src, db).value, Oid, Number(oid)) == [r]
  {
    ClassIs(src, db);
    var schemas := Rows(src.schemas(db)).value;
    ClassCounts(src, db, schemas, oid);
    SchemaIsWalked(src, db, schemas, s);
    assert Uses(src, db, schemas, oid) <= 1;
    OnlyRow(PgClass(src, db).value, Oid, Number(oid), r);
  }

  lemma ClassRowDescribes(s: SchemaDef, rel: RelationDef, n: int)
    ensures DescribesRelation(ClassRow(rel, s.oid, n), s, rel, n) && Col(ClassRow(rel, s.oid, n), Oid) == Number(rel.oid)
  {
  }

  /** Every reported relation, table, view or materialized view, has exactly one pg_class row of its
      OID, which describes it. */
  lemma RelationIsListed(src: Source, db: string, s: SchemaDef, rel: RelationDef)
    requires PgClass(src, db).Ok? && OneOidEach(src, db) && RelationReported(src, db, s, rel)
    ensures var rows := Where(PgClass(src, db).value, Oid, Number(rel.oid));
      |rows| == 1 && DescribesRelation(rows[0], s, rel, |ColumnsReported(src, db, s, rel)|)
  {
    var n := |ColumnsReported(src, db, s, rel)|;
    if ClassRowsIn(src, db, s).Ok? {
      RelationHasRow(src, db, s, rel);
    }
    ClassRowDescribes(s, rel, n);
    ClassHas(src, db, s, ClassRow(rel, s.oid, n), rel.oid);
  }

  /** What pg_class says of an index. */
  predicate DescribesIndex(r: Row, s: SchemaDef, ix: IndexDef) {
    && Col(r, Relname) == Text(ix.name) && Col(r, Relnamespace) == Number(s.oid)
    && Col(r, Relkind) == Text("i") && Col(r, Reltype) == Number(0)
  }

  /** So has every reported index. */
  lemma IndexIsListed(src: Source, db: string, s: SchemaDef, ix: IndexDef)
    requires PgClass(src, db).Ok? && OneOidEach(src, db) && IndexReported(src, db, s, ix)
    ensures var rows := Where(PgClass(src, db).value, Oid, Number(ix.oid));
      |rows| == 1 && DescribesIndex(rows[0], s, ix)
  {
    if ClassRowsIn(src, db, s).Ok? {
      IndexHasRow(src, db, s, ix);
    }
    var r := IndexClassRow(ix, s.oid);
    assert Col(r, Oid) == Number(ix.oid) && DescribesIndex(r, s, ix);
    ClassHas(src, db, s, r, ix.oid);
  }

  // --- the rows that point at pg_class -------------------------------------------------------

  /** The value is the OID of one of these relations. */
  predicate PointsAt(places: seq<Place>, v: Value) {
    exists i :: 0 <= i < |places| && v == Number(places[i].rel.oid)
  }

  lemma {:induction false} AttributesPoint(places: seq<Place>)
    ensures forall r :: r in RowsForAttributes(places) ==> PointsAt(places, Col(r, Attrelid))
  {
    if places != [] {
      AttributesPoint(places[1..]);
      forall r | r in RowsForAttributes(places) ensures PointsAt(places, Col(r, Attrelid)) {
        if r in AttributeRows(places[0].rel.oid, places[0].columns) {
          assert Col(r, Attrelid) == Number(places[0].rel.oid);
        } else {
          var i :| 0 <= i < |places[1..]| && Col(r, Attrelid) == Number(places[1..][i].rel.oid);
          assert places[i + 1] == places[1..][i];
        }
      }
    }
  }

  lemma {:induction false} DefaultsPoint(places: seq<Place>)
    ensures forall d :: d in DefaultsAcross(places) ==> PointsAt(places, Number(d.rel))
  {
    if places != [] {
      DefaultsPoint(places[1..]);
      DefaultsBelong(places[0].rel.oid, places[0].columns);
      forall d | d in DefaultsAcross(places) ensures PointsAt(places, Number(d.rel)) {
        if d in DefaultsIn(places[0].rel.oid, places[0].columns) {
          assert Number(d.rel) == Number(places[0].rel.oid);
        } else {
          var i :| 0 <= i < |places[1..]| && Number(d.rel) == Number(places[1..][i].rel.oid);
          assert places[i + 1] == places[1..][i];
        }
      }
    }
  }

  lemma PointsHome(src: Source, db: string, v: Value)
    requires PgClass(src, db).Ok? && OneOidEach(src, db) && Places(src, db).Ok? && PointsAt(Places(src, db).value, v)
    ensures |Where(PgClass(src, db).value, Oid, v)| == 1
  {
    var places := Places(src, db).value;
    var i :| 0 <= i < |places| && v == Number(places[i].rel.oid);
    PlacesComplete(src, db);
    assert places[i] in places && PlaceReported(src, db, places[i]);
    RelationIsListed(src, db, places[i].schema, places[i].rel);
  }

  /** Every attrelid is the OID of exactly one pg_class row. */
  lemma AttrelidJoins(src: Source, db: string, a: Row)
    requires PgClass(src, db).Ok? && PgAttribute(src, db).Ok? && OneOidEach(src, db) && a in PgAttribute(src, db).value
    ensures |Where(PgClass(src, db).value, Oid, Col(a, Attrelid))| == 1
  {
    AttributesPoint(Places(src, db).value);
    PointsHome(src, db, Col(a, Attrelid));
  }

  /** So is every adrelid. */
  lemma AdrelidJoins(src: Source, db: string, a: Row)
    requires PgClass(src, db).Ok? && PgAttrdef(src, db).Ok? && OneOidEach(src, db) && a in PgAttrdef(src, db).value
    ensures |Where(PgClass(src, db).value, Oid, Col(a, Adrelid))| == 1
  {
    var places := Places(src, db).value;
    var ds := DefaultsAcross(places);
    DefaultsPoint(places);
    var i :| 0 <= i < |ds| && a == AttrdefRows(ds, SYNTHETIC_ATTRDEF_OID_BASE)[i];
    assert ds[i] in ds;
    PointsHome(src, db, Col(a, Adrelid));
  }

  /** And every typrelid. */
  lemma TyprelidJoins(src: Source, db: string, t: Row)
    requires PgClass(src, db).Ok? && PgType(src, db).Ok? && OneOidEach(src, db) && t in PgType(src, db).value
    ensures |Where(PgClass(src, db).value, Oid, Col(t, Typrelid))| == 1
  {
    var schemas := FetchSchemas(src, db).value;
    ClassRowsAre(src, db, schemas);
    TypesAre(src, db, schemas);
    var places := Places(src, db).value;
    var i :| 0 <= i < |places| && t == TypesOf(places)[i];
    PointsHome(src, db, Col(t, Typrelid));
  }

  // --- columns, defaults and types of a reported relation ------------------------------------

  lemma PlaceIndex(src: Source, db: string, s: SchemaDef, rel: RelationDef) returns (k: nat)
    requires Places(src, db).Ok? && RelationReported(src, db, s, rel)
    ensures k < |Places(src, db).value| && Places(src, db).value[k] == Place(s, rel, ColumnsReported(src, db, s, rel))
  {
    var schemas, places := Rows(src.schemas(db)).value, Places(src, db).value;
    Walked(src, db);
    PlacesComplete(src, db);
    ColumnsFetched(src, db, schemas, s, rel);
    var p := Place(s, rel, ColumnsReported(src, db, s, rel));
    assert PlaceReported(src, db, p) && p in places;
    k :| 0 <= k < |places| && places[k] == p;
  }

  lemma {:induction false} ColumnsFetched(src: Source, db: string, schemas: seq<SchemaDef>, s: SchemaDef, rel: RelationDef)
    requires PlacesAcross(src, db, schemas).Ok? && s in schemas && rel in Given(Rows(src.relations(db, s.name)))
    ensures Rows(src.columns(db, s.name, rel.name)).Ok?
  {
    if s == schemas[0] {
      RelationPlaced(src, db, s, Rows(src.relations(db, s.name)).value, rel);
    } else {
      ColumnsFetched(src, db, schemas[1..], s, rel);
    }
  }

  /** What pg_attribute says of the i-th column. */
  predicate DescribesColumn(r: Row, c: ColumnSpec, i: nat) {
    && Col(r, Attname) == Text(c.name) && Col(r, Atttypid) == Number(c.typeOid) && Col(r, Attnum) == Number(i + 1)
    && Col(r, Attnotnull) == Flag(!c.nullable) && Col(r, Atthasdef) == Flag(c.hasDefault)
  }

  /** A reported relation's pg_attribute rows are its columns, one each, in order. */
  lemma ColumnsAreListed(src: Source, db: string, s: SchemaDef, rel: RelationDef)
    requires PgAttribute(src, db).Ok? && OneOidEach(src, db) && RelationReported(src, db, s, rel)
    ensures var rows, columns := Where(PgAttribute(src, db).value, Attrelid, Number(rel.oid)), ColumnsReported(src, db, s, rel);
      |rows| == |columns| && forall i :: 0 <= i < |columns| ==> DescribesColumn(rows[i], columns[i], i)
  {
    var k := PlaceIndex(src, db, s, rel);
    PlacesDiffer(src, db);
    AttributesOf(Places(src, db).value, k);
    assert CountFits(Places(src, db).value[k]);
    ColumnsDescribed(rel.oid, ColumnsReported(src, db, s, rel));
  }

  lemma ColumnsDescribed(rel: int, columns: seq<ColumnSpec>)
    requires |columns| <= I32_MAX
    ensures forall i :: 0 <= i < |columns| ==> DescribesColumn(AttributeRows(rel, columns)[i], columns[i], i)
  {
    Numbered(rel, columns);
    forall i | 0 <= i < |columns| ensures DescribesColumn(AttributeRows(rel, columns)[i], columns[i], i) {
      assert AttributeRows(rel, columns)[i] == AttributeRow(rel, columns[i], i);
    }
  }

  /** It has one pg_attrdef row for each column with a default, and no other. */
  lemma DefaultsAreListed(src: Source, db: string, s: SchemaDef, rel: RelationDef, i: nat)
    requires PgAttrdef(src, db).Ok? && OneOidEach(src, db) && RelationReported(src, db, s, rel)
    requires i < |ColumnsReported(src, db, s, rel)|
    ensures |Where(Where(PgAttrdef(src, db).value, Adrelid, Number(rel.oid)), Adnum, Number(i + 1))|
         == if ColumnsReported(src, db, s, rel)[i].hasDefault then 1 else 0
  {
    var k := PlaceIndex(src, db, s, rel);
    PlacesDiffer(src, db);
    DefaultRows(Places(src, db).value, k, i);
  }

  /** And one row type. */
  lemma TypeIsListed(src: Source, db: string, s: SchemaDef, rel: RelationDef)
    requires Places(src, db).Ok? && OneOidEach(src, db) && RelationReported(src, db, s, rel)
    ensures PgType(src, db).Ok?
    ensures var rows := Where(PgType(src, db).value, Typrelid, Number(rel.oid));
      && |rows| == 1 && Col(rows[0], Oid) == Number(rel.reltype) && Col(rows[0], Typname) == Text(rel.name)
      && Col(rows[0], Typnamespace) == Number(s.oid)
  {
    var k := PlaceIndex(src, db, s, rel);
    PlacesDiffer(src, db);
    TypesAre(src, db, FetchSchemas(src, db).value);
    TypeOf(Places(src, db).value, k);
  }

  // --- information_schema beside pg_catalog --------------------------------------------------

  /** The same column in both. */
  predicate SameColumn(info: Row, a: Row) {
    && Col(info, ColumnName) == Col(a, Attname) && Col(info, OrdinalPosition) == Col(a, Attnum)
    && Col(info, IsNullable) == Text(if Col(a, Attnotnull) == Flag(true) then "NO" else "YES")
  }

  predicate SameColumns(infos: seq<Row>, attributes: seq<Row>) {
    |infos| == |attributes| && forall i :: 0 <= i < |infos| ==> SameColumn(infos[i], attributes[i])
  }

  lemma ColumnsMatch(db: string, p: Place)
    requires CountFits(p)
    ensures SameColumns(InfoSchema.ColumnsAt(db)(p), AttributeRows(p.rel.oid, p.columns))
  {
    Numbered(p.rel.oid, p.columns);
    var infos, attributes := InfoSchema.ColumnsAt(db)(p), AttributeRows(p.rel.oid, p.columns);
    forall i | 0 <= i < |infos| ensures SameColumn(infos[i], attributes[i]) {
      assert attributes[i] == AttributeRow(p.rel.oid, p.columns[i], i);
      assert Col(attributes[i], Attnum) == Number(i + 1);
    }
  }

  lemma {:induction false} AllColumnsMatch(db: string, places: seq<Place>)
    requires AllCounted(places)
    ensures SameColumns(Flat(InfoSchema.ColumnsAt(db), places), RowsForAttributes(places))
  {
    if places != [] {
      assert CountFits(places[0]);
      ColumnsMatch(db, places[0]);
      assert AllCounted(places[1..]);
      AllColumnsMatch(db, places[1..]);
    }
  }

  /** information_schema.columns lists the columns pg_attribute lists, in the same order, under the
      same names and numbers, nullable where pg_attribute has no NOT NULL. */
  lemma InfoColumnsAgree(src: Source, db: string)
    requires PgAttribute(src, db).Ok?
    ensures InfoSchema.InfoColumns(src, db).Ok?
    ensures SameColumns(InfoSchema.InfoColumns(src, db).value, PgAttribute(src, db).value)
  {
    AllColumnsMatch(db, Places(src, db).value);
  }

  predicate SameTables(schemas: seq<SchemaDef>, infos: seq<Row>, types: seq<Row>) {
    |infos| == |types| && forall i :: 0 <= i < |infos| ==> SameTable(schemas, infos[i], types[i])
  }

  predicate SameTable(schemas: seq<SchemaDef>, info: Row, t: Row) {
    && Col(info, TableName) == Col(t, Typname)
    && exists s :: s in schemas && Col(info, TableSchema) == Text(s.name) && Col(t, Typnamespace) == Number(s.oid)
  }

  lemma {:induction false} AllTablesMatch(src: Source, db: string, schemas: seq<SchemaDef>, all: seq<SchemaDef>)
    requires TypeRowsAcross(src, db, schemas).Ok? && forall s :: s in schemas ==> s in all
    ensures InfoSchema.InfoTablesAcross(src, db, schemas).Ok?
    ensures SameTables(all, InfoSchema.InfoTablesAcross(src, db, schemas).value, TypeRowsAcross(src, db, schemas).value)
  {
    if schemas != [] {
      var rels := Rows(src.relations(db, schemas[0].name)).value;
      AllTablesMatch(src, db, schemas[1..], all);
      TablesMatch(db, schemas[0], rels, all);
    }
  }

  lemma TablesMatch(db: string, s: SchemaDef, rels: seq<RelationDef>, all: seq<SchemaDef>)
    requires s in all
    ensures SameTables(all, InfoSchema.InfoTablesIn(db, s, rels), TypeRows(s, rels))
  {
    var infos, types := InfoSchema.InfoTablesIn(db, s, rels), TypeRows(s, rels);
    forall i | 0 <= i < |infos| ensures SameTable(all, infos[i], types[i]) {
      assert Col(infos[i], TableSchema) == Text(s.name) && Col(types[i], Typnamespace) == Number(s.oid);
    }
  }

  /** information_schema.tables lists the relations pg_type has row types for. */
  lemma InfoTablesAgree(src: Source, db: string)
    requires PgType(src, db).Ok?
    ensures InfoSchema.InfoTables(src, db).Ok?
    ensures SameTables(FetchSchemas(src, db).value, InfoSchema.InfoTables(src, db).value, PgType(src, db).value)
  {
    var schemas := FetchSchemas(src, db).value;
    AllTablesMatch(src, db, schemas, schemas);
  }

  /** pg_namespace and information_schema.schemata list every reported schema, in order. */
  lemma SchemasAreListed(src: Source, db: string)
    requires PgNamespace(src, db).Ok?
    ensures InfoSchema.InfoSchemata(src, db).Ok?
    ensures var schemas, rows, infos := Given(Rows(src.schemas(db))), PgNamespace(src, db).value, InfoSchema.InfoSchemata(src, db).value;
      && |rows| == |schemas| == |infos|
      && forall i :: 0 <= i < |schemas| ==>
           && Col(rows[i], Oid) == Number(schemas[i].oid) && Col(rows[i], Nspname) == Text(schemas[i].name)
           && Col(rows[i], Nspowner) == Number(if schemas[i].owner.Some? then schemas[i].owner.value else 10)
           && Col(infos[i], InfoSchemaName) == Text(schemas[i].name) && Col(infos[i], InfoCatalogName) == Text(db)
  {
  }

  /** pg_database lists every reported database, in order. */
  lemma DatabasesAreListed(src: Source)
    requires PgDatabase(src).Ok?
    ensures var databases, rows := Given(Rows(src.databases)), PgDatabase(src).value;
      && |rows| == |databases|
      && forall i :: 0 <= i < |databases| ==> Col(rows[i], Oid) == Number(databases[i].oid) && Col(rows[i], Datname) == Text(databases[i].datname)
  {
  }

  // --- indexes and constraints ---------------------------------------------------------------

  lemma {:induction false} IndexIsCollected(src: Source, db: string, schemas: seq<SchemaDef>, s: SchemaDef, ix: IndexDef)
    requires IndexesAcross(src, db, schemas).Ok? && s in schemas && ix in Given(Rows(src.indexes(db, s.name)))
    ensures ix in IndexesAcross(src, db, schemas).value
  {
    if s != schemas[0] {
      IndexIsCollected(src, db, schemas[1..], s, ix);
    }
  }

  lemma {:induction false} ConstraintIsCollected(src: Source, db: string, schemas: seq<SchemaDef>, s: SchemaDef, c: ConstraintDef)
    requires ConstraintsAcross(src, db, schemas).Ok? && s in schemas && c in Given(Rows(src.constraints(db, s.name)))
    ensures c in ConstraintsAcross(src, db, schemas).value
  {
    if s != schemas[0] {
      ConstraintIsCollected(src, db, schemas[1..], s, c);
    }
  }

  predicate DetailsIndex(r: Row, ix: IndexDef) {
    Col(r, Indexrelid) == Number(ix.oid) && Col(r, Indrelid) == Number(ix.table) && Col(r, Indnatts) == Number(|ix.keys|)
  }

  lemma IndexRowDetails(ix: IndexDef)
    requires |ix.keys| <= I32_MAX
    ensures DetailsIndex(IndexRow(ix), ix)
  {
  }

  /** Every reported index has its pg_index row. */
  lemma IndexHasDetails(src: Source, db: string, s: SchemaDef, ix: IndexDef)
    requires PgIndex(src, db).Ok? && IndexReported(src, db, s, ix)
    ensures exists r :: r in PgIndex(src, db).value && DetailsIndex(r, ix)
  {
    var schemas := FetchSchemas(src, db).value;
    var all := IndexesAcross(src, db, schemas).value;
    IndexIsCollected(src, db, schemas, s, ix);
    var i :| 0 <= i < |all| && all[i] == ix;
    IndexRowDetails(ix);
    assert PgIndex(src, db).value[i] == IndexRow(ix);
  }

  predicate DetailsConstraint(r: Row, c: ConstraintDef) {
    Col(r, Oid) == Number(c.oid) && Col(r, Conname) == Text(c.name) && Col(r, Conrelid) == Number(c.table)
  }

  /** Every reported constraint has its pg_constraint row. */
  lemma ConstraintHasRow(src: Source, db: string, s: SchemaDef, c: ConstraintDef)
    requires PgConstraint(src, db).Ok? && SchemaReported(src, db, s) && c in Given(Rows(src.constraints(db, s.name)))
    ensures exists r :: r in PgConstraint(src, db).value && DetailsConstraint(r, c)
  {
    var schemas := FetchSchemas(src, db).value;
    var all := ConstraintsAcross(src, db, schemas).value;
    ConstraintIsCollected(src, db, schemas, s, c);
    var i :| 0 <= i < |all| && all[i] == c;
    assert PgConstraint(src, db).value[i] == ConstraintRow(c) && DetailsConstraint(ConstraintRow(c), c);
  }
}
