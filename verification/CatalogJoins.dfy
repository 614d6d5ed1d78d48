/** The tables agree: what one walk writes, the joins on it find in what another walk wrote. */
module CatalogJoins {
  import opened Wrappers
  import opened Keys
  import opened CatalogSource
  import opened CatalogRows
  import opened Flats

  /** The rows of a table with this value in this column, in order. */
  function Where(rows: seq<Row>, column: Column, v: Value): seq<Row> {
    if rows == [] then []
    else (if Col(rows[0], column) == v then [rows[0]] else []) + Where(rows[1..], column, v)
  }

  lemma {:induction false} WhereAppend(a: seq<Row>, b: seq<Row>, column: Column, v: Value)
    ensures Where(a + b, column, v) == Where(a, column, v) + Where(b, column, v)
    decreases |a|
  {
    if a == [] {
      assert a + b == b;
    } else {
      WhereAppend(a[1..], b, column, v);
      assert (a + b)[1..] == a[1..] + b && (a + b)[0] == a[0];
      var first := if Col(a[0], column) == v then [a[0]] else [];
      var mid, last := Where(a[1..], column, v), Where(b, column, v);
      assert first + (mid + last) == (first + mid) + last;
    }
  }

  lemma {:induction false} WhereAll(rows: seq<Row>, column: Column, v: Value)
    ensures (forall i :: 0 <= i < |rows| ==> Col(rows[i], column) == v) ==> Where(rows, column, v) == rows
    ensures (forall i :: 0 <= i < |rows| ==> Col(rows[i], column) != v) ==> Where(rows, column, v) == []
  {
    if rows != [] {
      WhereAll(rows[1..], column, v);
      assert [rows[0]] + rows[1..] == rows;
    }
  }

  /** Relation OIDs are the source's own; it must not repeat one. */
  predicate DistinctOids(places: seq<Place>) {
    forall i, j :: 0 <= i < j < |places| ==> places[i].rel.oid != places[j].rel.oid
  }

  predicate Avoids(places: seq<Place>, oid: int) {
    forall i :: 0 <= i < |places| ==> places[i].rel.oid != oid
  }

  // --- pg_attribute --------------------------------------------------------------------------

  lemma {:induction false} NoAttributes(places: seq<Place>, oid: int)
    requires Avoids(places, oid)
    ensures Where(RowsForAttributes(places), Attrelid, Number(oid)) == []
  {
    if places != [] {
      NoAttributes(places[1..], oid);
      var here := AttributeRows(places[0].rel.oid, places[0].columns);
      WhereAll(here, Attrelid, Number(oid));
      WhereAppend(here, RowsForAttributes(places[1..]), Attrelid, Number(oid));
    }
  }

  lemma {:induction false} AttributesOf(places: seq<Place>, k: nat)
    requires DistinctOids(places) && k < |places|
    ensures Where(RowsForAttributes(places), Attrelid, Number(places[k].rel.oid))
         == AttributeRows(places[k].rel.oid, places[k].columns)
    decreases |places|
  {
    var oid := places[k].rel.oid;
    var here := AttributeRows(places[0].rel.oid, places[0].columns);
    WhereAppend(here, RowsForAttributes(places[1..]), Attrelid, Number(oid));
    WhereAll(here, Attrelid, Number(oid));
    if k == 0 {
      NoAttributes(places[1..], oid);
    } else {
      AttributesOf(places[1..], k - 1);
      assert places[1..][k - 1] == places[k];
    }
  }

  /** The checked count keeps every number from wrapping. */
  lemma Numbered(rel: int, columns: seq<ColumnSpec>)
    requires |columns| <= I32_MAX
    ensures forall i :: 0 <= i < |columns| ==> Col(AttributeRows(rel, columns)[i], Attnum) == Number(i + 1)
  {
    forall i | 0 <= i < |columns| ensures Col(AttributeRows(rel, columns)[i], Attnum) == Number(i + 1) {
      assert AsI32(i + 1) == i + 1;
      assert AttributeRows(rel, columns)[i] == AttributeRow(rel, columns[i], i);
    }
  }

  // --- pg_attrdef ----------------------------------------------------------------------------

  predicate AllOf(ds: seq<Default>, rel: int) {
    forall i :: 0 <= i < |ds| ==> ds[i].rel == rel
  }

  predicate NoneOf(ds: seq<Default>, rel: int) {
    forall i :: 0 <= i < |ds| ==> ds[i].rel != rel
  }

  lemma {:induction false} DefaultsBelong(rel: int, columns: seq<ColumnSpec>)
    ensures AllOf(DefaultsIn(rel, columns), rel)
  {
    if columns != [] {
      DefaultsBelong(rel, columns[..|columns| - 1]);
    }
  }

  lemma {:induction false} NoDefaults(places: seq<Place>, rel: int)
    requires Avoids(places, rel)
    ensures NoneOf(DefaultsAcross(places), rel)
  {
    if places != [] {
      DefaultsBelong(places[0].rel.oid, places[0].columns);
      NoDefaults(places[1..], rel);
    }
  }

  /** One relation's default rows, numbered on from those of the relations before it. */
  lemma {:induction false} DefaultsOf(before: seq<Default>, here: seq<Default>, after: seq<Default>, oid: int, rel: int)
    requires NoneOf(before, rel) && AllOf(here, rel) && NoneOf(after, rel)
    ensures Where(AttrdefRows((before + here) + after, oid), Adrelid, Number(rel)) == AttrdefRows(here, oid + |before|)
  {
    AttrdefAppend(before + here, after, oid);
    AttrdefAppend(before, here, oid);
    WhereAll(AttrdefRows(before, oid), Adrelid, Number(rel));
    WhereAll(AttrdefRows(after, oid + |before + here|), Adrelid, Number(rel));
    OnlyMiddle(AttrdefRows(before, oid), AttrdefRows(here, oid + |before|), AttrdefRows(after, oid + |before + here|), Adrelid, Number(rel));
  }

  lemma OthersAvoid(places: seq<Place>, k: nat)
    requires DistinctOids(places) && k < |places|
    ensures Avoids(places[..k], places[k].rel.oid) && Avoids(places[k + 1..], places[k].rel.oid)
    ensures places == (places[..k] + [places[k]]) + places[k + 1..]
  {
  }

  /** The defaults of a relation among those of the others. */
  lemma DefaultsAround(places: seq<Place>, k: nat)
    requires DistinctOids(places) && k < |places|
    ensures DefaultsAcross(places)
         == (DefaultsAcross(places[..k]) + DefaultsIn(places[k].rel.oid, places[k].columns)) + DefaultsAcross(places[k + 1..])
  {
    OthersAvoid(places, k);
    FlatAppend(DefaultsAt(), places[..k] + [places[k]], places[k + 1..]);
    FlatAppend(DefaultsAt(), places[..k], [places[k]]);
    DefaultsOne(places[k]);
  }

  lemma OnlyMiddle(before: seq<Row>, here: seq<Row>, after: seq<Row>, column: Column, v: Value)
    requires Where(before, column, v) == [] && Where(after, column, v) == []
    requires forall i :: 0 <= i < |here| ==> Col(here[i], column) == v
    ensures Where((before + here) + after, column, v) == here
  {
    WhereAll(here, column, v);
    WhereAppend(before, here, column, v);
    WhereAppend(before + here, after, column, v);
    assert ([] + here) + [] == here;
  }

  function NumberedBy(ds: seq<Default>, num: int): nat {
    if ds == [] then 0 else NumberedBy(ds[..|ds| - 1], num) + if ds[|ds| - 1].num == num then 1 else 0
  }

  lemma {:induction false} RowsNumberedBy(ds: seq<Default>, oid: int, num: int)
    ensures |Where(AttrdefRows(ds, oid), Adnum, Number(num))| == NumberedBy(ds, num)
  {
    if ds != [] {
      var front, last := ds[..|ds| - 1], ds[|ds| - 1];
      assert ds == front + [last];
      RowsNumberedBy(front, oid, num);
      OneDefault(front, last, oid, num);
    }
  }

  lemma OneDefault(ds: seq<Default>, d: Default, oid: int, num: int)
    ensures |Where(AttrdefRows(ds + [d], oid), Adnum, Number(num))|
         == |Where(AttrdefRows(ds, oid), Adnum, Number(num))| + if d.num == num then 1 else 0
  {
    AttrdefAppend(ds, [d], oid);
    WhereAppend(AttrdefRows(ds, oid), AttrdefRows([d], oid + |ds|), Adnum, Number(num));
    WhereAll(AttrdefRows([d], oid + |ds|), Adnum, Number(num));
  }

  lemma {:induction false} ColumnNumbered(rel: int, columns: seq<ColumnSpec>, i: nat)
    ensures NumberedBy(DefaultsIn(rel, columns), i + 1) == if i < |columns| && columns[i].hasDefault then 1 else 0
  {
    if columns != [] {
      var n := |columns| - 1;
      var front := DefaultsIn(rel, columns[..n]);
      ColumnNumbered(rel, columns[..n], i);
      if columns[n].hasDefault {
        assert (front + [Default(rel, n + 1)])[..|front|] == front;
      } else {
        assert DefaultsIn(rel, columns) == front;
      }
    }
  }

  /** A column has one default row exactly when it is flagged, and otherwise none. */
  lemma DefaultOfColumn(rel: int, columns: seq<ColumnSpec>, oid: int, i: nat)
    ensures |Where(AttrdefRows(DefaultsIn(rel, columns), oid), Adnum, Number(i + 1))|
         == if i < |columns| && columns[i].hasDefault then 1 else 0
  {
    RowsNumberedBy(DefaultsIn(rel, columns), oid, i + 1);
    ColumnNumbered(rel, columns, i);
  }

  // --- pg_class, pg_type and pg_namespace ----------------------------------------------------

  function ClassRowOf(p: Place): Row {
    ClassRow(p.rel, p.schema.oid, |p.columns|)
  }

  predicate IsIndex(r: Row) {
    Col(r, Relkind) == Text("i")
  }

  predicate InNamespace(schemas: seq<SchemaDef>, v: Value) {
    exists i :: 0 <= i < |schemas| && Number(schemas[i].oid) == v
  }

  predicate Listed(places: seq<Place>, r: Row) {
    exists k :: 0 <= k < |places| && r == ClassRowOf(places[k])
  }

  lemma ListedLater(a: seq<Place>, b: seq<Place>, r: Row)
    requires Listed(a, r) || Listed(b, r)
    ensures Listed(a + b, r)
  {
    if Listed(a, r) {
      var k :| 0 <= k < |a| && r == ClassRowOf(a[k]);
      assert (a + b)[k] == a[k];
    } else {
      var k :| 0 <= k < |b| && r == ClassRowOf(b[k]);
      assert (a + b)[|a| + k] == b[k];
    }
  }

  lemma {:induction false} PlaceSchema(src: Source, db: string, schema: SchemaDef, rels: seq<RelationDef>)
    requires PlacesOf(src, db, schema, rels).Ok?
    ensures forall i :: 0 <= i < |PlacesOf(src, db, schema, rels).value| ==>
      PlacesOf(src, db, schema, rels).value[i].schema == schema
  {
    if rels != [] {
      PlaceSchema(src, db, schema, rels[1..]);
    }
  }

  /** Every pg_class row is a relation's or an index's, in a schema the walk found; a relation's
      columns all have numbers. */
  lemma {:induction false} ClassRowsAre(src: Source, db: string, schemas: seq<SchemaDef>)
    requires ClassRowsAcross(src, db, schemas).Ok?
    ensures PlacesAcross(src, db, schemas).Ok?
    ensures forall i :: 0 <= i < |PlacesAcross(src, db, schemas).value| ==> CountFits(PlacesAcross(src, db, schemas).value[i])
    ensures forall r :: r in ClassRowsAcross(src, db, schemas).value ==>
      (IsIndex(r) || Listed(PlacesAcross(src, db, schemas).value, r)) && InNamespace(schemas, Col(r, Relnamespace))
  {
    if schemas != [] {
      ClassRowsAre(src, db, schemas[1..]);
      var here, rest := PlacesIn(src, db, schemas[0]).value, PlacesAcross(src, db, schemas[1..]).value;
      var rows := ClassRowsIn(src, db, schemas[0]).value;
      PlaceSchema(src, db, schemas[0], Rows(src.relations(db, schemas[0].name)).value);
      forall r | r in ClassRowsAcross(src, db, schemas).value
        ensures (IsIndex(r) || Listed(here + rest, r)) && InNamespace(schemas, Col(r, Relnamespace))
      {
        if r in rows {
          OneClassRow(src, db, schemas[0], r);
          if !IsIndex(r) {
            ListedLater(here, rest, r);
          }
        } else {
          assert r in ClassRowsAcross(src, db, schemas[1..]).value;
          if !IsIndex(r) {
            ListedLater(here, rest, r);
          }
          var i :| 0 <= i < |schemas[1..]| && Number(schemas[1..][i].oid) == Col(r, Relnamespace);
          assert schemas[i + 1] == schemas[1..][i];
        }
      }
    }
  }

  lemma {:induction false} OneClassRow(src: Source, db: string, schema: SchemaDef, r: Row)
    requires ClassRowsIn(src, db, schema).Ok? && r in ClassRowsIn(src, db, schema).value
    ensures IsIndex(r) || Listed(PlacesIn(src, db, schema).value, r)
    ensures Col(r, Relnamespace) == Number(schema.oid)
  {
    var places, indexes := PlacesIn(src, db, schema).value, Rows(src.indexes(db, schema.name)).value;
    PlaceSchema(src, db, schema, Rows(src.relations(db, schema.name)).value);
    var all := ClassRows(places) + IndexRows(schema, indexes);
    var i :| 0 <= i < |all| && all[i] == r;
    if i < |places| {
      assert r == ClassRowOf(places[i]);
      assert Listed(places, r);
      ClassNamespace(places[i]);
    } else {
      IndexNamespace(indexes[i - |places|], schema.oid);
    }
  }

  lemma ClassNamespace(p: Place)
    ensures Col(ClassRowOf(p), Relnamespace) == Number(p.schema.oid)
  {
  }

  lemma IndexNamespace(d: IndexDef, namespace: int)
    ensures IsIndex(IndexClassRow(d, namespace)) && Col(IndexClassRow(d, namespace), Relnamespace) == Number(namespace)
  {
  }

  function TypesOf(places: seq<Place>): seq<Row> {
    seq(|places|, i requires 0 <= i < |places| => TypeRow(places[i].rel, places[i].schema.oid))
  }

  lemma {:induction false} PlaceRels(src: Source, db: string, schema: SchemaDef, rels: seq<RelationDef>)
    requires PlacesOf(src, db, schema, rels).Ok?
    ensures TypesOf(PlacesOf(src, db, schema, rels).value) == TypeRows(schema, rels)
  {
    if rels != [] {
      PlaceRels(src, db, schema, rels[1..]);
      var rest := PlacesOf(src, db, schema, rels[1..]).value;
      assert TypeRows(schema, rels) == [TypeRow(rels[0], schema.oid)] + TypeRows(schema, rels[1..]);
      assert PlacesOf(src, db, schema, rels).value == [PlacesOf(src, db, schema, rels).value[0]] + rest;
    }
  }

  /** pg_type is written for the very relations pg_class lists. */
  lemma {:induction false} TypesAre(src: Source, db: string, schemas: seq<SchemaDef>)
    requires PlacesAcross(src, db, schemas).Ok?
    ensures TypeRowsAcross(src, db, schemas) == Ok(TypesOf(PlacesAcross(src, db, schemas).value))
  {
    if schemas != [] {
      TypesAre(src, db, schemas[1..]);
      PlaceRels(src, db, schemas[0], Rows(src.relations(db, schemas[0].name)).value);
      var here, rest := PlacesIn(src, db, schemas[0]).value, PlacesAcross(src, db, schemas[1..]).value;
      assert PlacesAcross(src, db, schemas) == Ok(here + rest);
      var rels := Rows(src.relations(db, schemas[0].name)).value;
      assert TypeRowsAcross(src, db, schemas) == Ok(TypeRows(schemas[0], rels) + TypesOf(rest));
      assert TypesOf(here + rest) == TypesOf(here) + TypesOf(rest);
    } else {
      assert TypesOf([]) == [];
    }
  }

  lemma {:induction false} TypeOf(places: seq<Place>, k: nat)
    requires DistinctOids(places) && k < |places|
    ensures Where(TypesOf(places), Typrelid, Number(places[k].rel.oid)) == [TypeRow(places[k].rel, places[k].schema.oid)]
    decreases |places|
  {
    var v := Number(places[k].rel.oid);
    assert TypesOf(places)[1..] == TypesOf(places[1..]);
    if k == 0 {
      WhereAll(TypesOf(places[1..]), Typrelid, v);
      assert [TypeRow(places[0].rel, places[0].schema.oid)] + [] == [TypeRow(places[0].rel, places[0].schema.oid)];
    } else {
      TypeOf(places[1..], k - 1);
      assert places[1..][k - 1] == places[k];
    }
  }

  // --- the joins -----------------------------------------------------------------------------

  /** pg_class.relnamespace finds its pg_namespace row. */
  lemma NamespaceJoins(src: Source, db: string, c: Row)
    requires PgClass(src, db).Ok? && c in PgClass(src, db).value
    ensures PgNamespace(src, db).Ok?
    ensures exists i :: 0 <= i < |PgNamespace(src, db).value| && Col(PgNamespace(src, db).value[i], Oid) == Col(c, Relnamespace)
  {
    var schemas := FetchSchemas(src, db).value;
    ClassRowsAre(src, db, schemas);
    var i :| 0 <= i < |schemas| && Number(schemas[i].oid) == Col(c, Relnamespace);
    assert PgNamespace(src, db).value[i] == NamespaceRow(schemas[i]);
  }

  /** A relation's pg_class row comes from one of the places, all of whose columns are numbered. */
  lemma PlaceOf(src: Source, db: string, c: Row) returns (k: nat)
    requires PgClass(src, db).Ok? && c in PgClass(src, db).value && !IsIndex(c)
    ensures Places(src, db).Ok? && k < |Places(src, db).value|
    ensures c == ClassRowOf(Places(src, db).value[k]) && CountFits(Places(src, db).value[k])
  {
    ClassRowsAre(src, db, FetchSchemas(src, db).value);
    assert Listed(Places(src, db).value, c);
    k :| 0 <= k < |Places(src, db).value| && c == ClassRowOf(Places(src, db).value[k]);
  }

  /** pg_class.relnatts counts the relation's pg_attribute rows, which are numbered from one. */
  lemma AttributeJoins(src: Source, db: string, c: Row)
    requires PgClass(src, db).Ok? && PgAttribute(src, db).Ok? && DistinctOids(Places(src, db).value)
    requires c in PgClass(src, db).value && !IsIndex(c)
    ensures var attributes := Where(PgAttribute(src, db).value, Attrelid, Col(c, Oid));
      && Number(|attributes|) == Col(c, Relnatts)
      && forall i :: 0 <= i < |attributes| ==> Col(attributes[i], Attnum) == Number(i + 1)
  {
    var k := PlaceOf(src, db, c);
    var p := Places(src, db).value[k];
    AttributesOf(Places(src, db).value, k);
    Numbered(p.rel.oid, p.columns);
  }

  /** pg_class.reltype and pg_type.typrelid point at each other. */
  lemma TypeJoins(src: Source, db: string, c: Row)
    requires PgClass(src, db).Ok? && c in PgClass(src, db).value && !IsIndex(c)
    requires Places(src, db).Ok? && DistinctOids(Places(src, db).value)
    ensures PgType(src, db).Ok?
    ensures var types := Where(PgType(src, db).value, Typrelid, Col(c, Oid));
      && |types| == 1 && Col(types[0], Oid) == Col(c, Reltype)
      && Col(types[0], Typnamespace) == Col(c, Relnamespace) && Col(types[0], Typname) == Col(c, Relname)
  {
    var k := PlaceOf(src, db, c);
    var p := Places(src, db).value[k];
    TypesAre(src, db, FetchSchemas(src, db).value);
    TypeOf(Places(src, db).value, k);
    TypeMatchesClass(p);
  }

  lemma TypeMatchesClass(p: Place)
    ensures var c, t := ClassRowOf(p), TypeRow(p.rel, p.schema.oid);
      && Col(c, Oid) == Number(p.rel.oid) && Col(t, Oid) == Col(c, Reltype)
      && Col(t, Typnamespace) == Col(c, Relnamespace) && Col(t, Typname) == Col(c, Relname)
  {
  }

  /** pg_attribute.atthasdef tells whether pg_attrdef has the column's one row. */
  lemma DefaultJoins(src: Source, db: string, k: nat, i: nat)
    requires PgAttribute(src, db).Ok? && PgAttrdef(src, db).Ok? && DistinctOids(Places(src, db).value)
    requires k < |Places(src, db).value| && i < |Places(src, db).value[k].columns|
    ensures var rel := Number(Places(src, db).value[k].rel.oid);
      var attributes := Where(PgAttribute(src, db).value, Attrelid, rel);
      var defaults := Where(Where(PgAttrdef(src, db).value, Adrelid, rel), Adnum, Number(i + 1));
      && i < |attributes| && Col(attributes[i], Attnum) == Number(i + 1)
      && |defaults| == (if Col(attributes[i], Atthasdef) == Flag(true) then 1 else 0)
  {
    var p := Places(src, db).value[k];
    AttributesOf(Places(src, db).value, k);
    DefaultRows(Places(src, db).value, k, i);
    assert CountFits(p);
    Numbered(p.rel.oid, p.columns);
    assert AttributeRows(p.rel.oid, p.columns)[i] == AttributeRow(p.rel.oid, p.columns[i], i);
  }

  lemma DefaultRows(places: seq<Place>, k: nat, i: nat)
    requires DistinctOids(places) && k < |places| && i < |places[k].columns|
    ensures |Where(Where(AttrdefRows(DefaultsAcross(places), SYNTHETIC_ATTRDEF_OID_BASE), Adrelid, Number(places[k].rel.oid)), Adnum, Number(i + 1))|
         == if places[k].columns[i].hasDefault then 1 else 0
  {
    var p := places[k];
    OthersAvoid(places, k);
    DefaultsAround(places, k);
    NoDefaults(places[..k], p.rel.oid);
    NoDefaults(places[k + 1..], p.rel.oid);
    DefaultsBelong(p.rel.oid, p.columns);
    DefaultsOf(DefaultsAcross(places[..k]), DefaultsIn(p.rel.oid, p.columns), DefaultsAcross(places[k + 1..]),
               SYNTHETIC_ATTRDEF_OID_BASE, p.rel.oid);
    DefaultOfColumn(p.rel.oid, p.columns, SYNTHETIC_ATTRDEF_OID_BASE + |DefaultsAcross(places[..k])|, i);
  }
}
