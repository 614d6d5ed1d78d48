/** One scan of a catalog table: the source's rows now, merged over the built-in rows. */
module LazyMerge {
  import opened Wrappers
  import opened Keys
  import opened CatalogSource
  import opened CatalogRows
  import opened CatalogJoins
  import opened InfoSchema
  import Decimal

  datatype CatalogTable =
    | TDatabase | TNamespace | TClass | TType | TAttribute | TIndex | TConstraint | TAttrdef | TConfig | TSettings
    | TInfoTables | TInfoColumns | TInfoSchemata

  /** The columns that make two user rows the same object. */
  function KeyColumns(t: CatalogTable): seq<Column> {
    match t
    case TDatabase => [Datname]
    case TNamespace => [Oid]
    case TConstraint => [Oid]
    case TClass => [Relnamespace, Relname]
    case TType => [Typnamespace, Typname]
    case TAttribute => [Attrelid, Attname]
    case TIndex => [Indexrelid]
    case TAttrdef => [Adrelid, Adnum]
    case TConfig => [Name]
    case TSettings => [Name]
    case TInfoTables => [TableCatalog, TableSchema, TableName]
    case TInfoColumns => [TableCatalog, TableSchema, TableName, ColumnName]
    case TInfoSchemata => [InfoCatalogName, InfoSchemaName]
  }

  /** The columns that decide which built-in rows a user row replaces. */
  function ShadowColumns(t: CatalogTable): seq<Column> {
    if t.TNamespace? then [Nspname] else KeyColumns(t)
  }

  /** The user rows of one table, by the walk that table needs. */
  function BuildRowsFor(t: CatalogTable, src: Source, db: string): Result<seq<Row>> {
    match t
    case TConfig => SettingRows(src.config)
    case TSettings => SettingRows(src.settings)
    case TDatabase => PgDatabase(src)
    case TNamespace => PgNamespace(src, db)
    case TClass => PgClass(src, db)
    case TType => PgType(src, db)
    case TAttribute => PgAttribute(src, db)
    case TIndex => PgIndex(src, db)
    case TConstraint => PgConstraint(src, db)
    case TAttrdef => PgAttrdef(src, db)
    case TInfoTables => InfoTables(src, db)
    case TInfoColumns => InfoColumns(src, db)
    case TInfoSchemata => InfoSchemata(src, db)
  }

  const NULL_KEY := "\0NULL\0"
  const UNMATCHABLE := "\0UNMATCHABLE\0"

  /** A user row's value, written out. */
  function JsonComponent(v: Value): string {
    match v
    case Number(n) => Decimal.Of(n)
    case Text(s) => s
    case Flag(b) => if b then "true" else "false"
    case Missing => NULL_KEY
    case Other(written) => written
  }

  /** A built-in row's value, written out; key columns hold numbers and texts only. */
  function ArrayComponent(v: Value): string {
    match v
    case Number(n) => Decimal.Of(n)
    case Text(s) => s
    case Missing => NULL_KEY
    case Flag(_) => UNMATCHABLE
    case Other(_) => UNMATCHABLE
  }

  function UserKey(columns: seq<Column>): Row -> seq<string> {
    (row: Row) => seq(|columns|, i requires 0 <= i < |columns| => JsonComponent(Col(row, columns[i])))
  }

  function BuiltinKey(columns: seq<Column>, row: Row): seq<string> {
    seq(|columns|, i requires 0 <= i < |columns| => ArrayComponent(Col(row, columns[i])))
  }

  function DropShadowed(batch: seq<Row>, columns: seq<Column>, shadow: set<seq<string>>): seq<Row> {
    if batch == [] then []
    else (if BuiltinKey(columns, batch[0]) in shadow then [] else [batch[0]]) + DropShadowed(batch[1..], columns, shadow)
  }

  function DropAll(batches: seq<seq<Row>>, columns: seq<Column>, shadow: set<seq<string>>): seq<seq<Row>> {
    seq(|batches|, i requires 0 <= i < |batches| => DropShadowed(batches[i], columns, shadow))
  }

  function ShadowKeys(columns: seq<Column>, user: seq<Row>): set<seq<string>> {
    KeysOf(UserKey(columns), user)
  }

  /** The batches a scan serves; two user rows with one key are the source's error. */
  function Scan(t: CatalogTable, user: seq<Row>, builtin: seq<seq<Row>>): Result<seq<seq<Row>>> {
    if DistinctKeys(UserKey(KeyColumns(t)), user) then
      Ok(DropAll(builtin, ShadowColumns(t), ShadowKeys(ShadowColumns(t), user)) + [user])
    else Error
  }

  // --- the loops -----------------------------------------------------------------------------

  method DropShadowedLoop(batch: seq<Row>, columns: seq<Column>, shadow: set<seq<string>>) returns (kept: seq<Row>)
    ensures kept == DropShadowed(batch, columns, shadow)
  {
    if shadow == {} {
      NothingShadowed(batch, columns);
      return batch;
    }
    kept := [];
    var i := 0;
    ghost var all := DropShadowed(batch, columns, shadow);
    assert batch[0..] == batch;
    while i < |batch|
      invariant 0 <= i <= |batch|
      invariant all == kept + DropShadowed(batch[i..], columns, shadow)
    {
      assert batch[i..][1..] == batch[i + 1..];
      if BuiltinKey(columns, batch[i]) !in shadow {
        assert kept + ([batch[i]] + DropShadowed(batch[i + 1..], columns, shadow))
            == (kept + [batch[i]]) + DropShadowed(batch[i + 1..], columns, shadow);
        kept := kept + [batch[i]];
      }
      i := i + 1;
    }
  }

  lemma {:induction false} NothingShadowed(batch: seq<Row>, columns: seq<Column>)
    ensures DropShadowed(batch, columns, {}) == batch
  {
    if batch != [] {
      NothingShadowed(batch[1..], columns);
      assert [batch[0]] + batch[1..] == batch;
    }
  }

  lemma KeysSnoc(key: Row -> seq<string>, rows: seq<Row>, i: nat)
    requires i < |rows|
    ensures KeysOf(key, rows[..i + 1]) == KeysOf(key, rows[..i]) + {key(rows[i])}
  {
    assert rows[..i + 1] == rows[..i] + [rows[i]];
    KeysAppend(key, rows[..i], [rows[i]]);
    assert KeysOf(key, [rows[i]]) == {key(rows[i])} by {
      assert key([rows[i]][0]) in KeysOf(key, [rows[i]]);
    }
  }

  method ScanLoop(t: CatalogTable, user: seq<Row>, builtin: seq<seq<Row>>) returns (out: Result<seq<seq<Row>>>)
    ensures out == Scan(t, user, builtin)
  {
    var key := UserKey(KeyColumns(t));
    var keys: set<seq<string>> := {};
    var i := 0;
    while i < |user|
      invariant 0 <= i <= |user|
      invariant keys == KeysOf(key, user[..i])
      invariant forall j, k :: 0 <= j < k < i ==> key(user[j]) != key(user[k])
    {
      KeysSnoc(key, user, i);
      if key(user[i]) in keys {
        var j :| 0 <= j < i && key(user[..i][j]) == key(user[i]);
        assert key(user[j]) == key(user[i]);
        return Error;
      }
      forall j | 0 <= j < i ensures key(user[j]) != key(user[i]) {
        assert user[..i][j] == user[j];
      }
      keys := keys + {key(user[i])};
      i := i + 1;
    }
    var columns := ShadowColumns(t);
    var shadowKey := UserKey(columns);
    var shadow: set<seq<string>> := {};
    i := 0;
    while i < |user|
      invariant 0 <= i <= |user|
      invariant shadow == KeysOf(shadowKey, user[..i])
    {
      KeysSnoc(shadowKey, user, i);
      shadow := shadow + {shadowKey(user[i])};
      i := i + 1;
    }
    assert user[..|user|] == user;
    var batches: seq<seq<Row>> := [];
    for n := 0 to |builtin|
      invariant batches == DropAll(builtin[..n], columns, shadow)
    {
      var kept := DropShadowedLoop(builtin[n], columns, shadow);
      assert DropAll(builtin[..n + 1], columns, shadow) == DropAll(builtin[..n], columns, shadow) + [kept];
      batches := batches + [kept];
    }
    assert builtin[..|builtin|] == builtin;
    return Ok(batches + [user]);
  }

  // --- what a scan returns, by value ---------------------------------------------------------

  predicate IsNumberColumn(c: Column) {
    c in {Oid, Relnamespace, Typnamespace, Attrelid, Indexrelid, Adrelid, Adnum}
  }

  /** A value of the column's type; the two reserved texts are not names. */
  predicate Typed(c: Column, v: Value) {
    v.Missing? || if IsNumberColumn(c) then v.Number? else v.Text? && v.s != NULL_KEY && v.s != UNMATCHABLE
  }

  predicate TypedRow(columns: seq<Column>, row: Row) {
    forall i :: 0 <= i < |columns| ==> Typed(columns[i], Col(row, columns[i]))
  }

  lemma DecimalIsNoSentinel(n: int)
    ensures Decimal.Of(n) != NULL_KEY
  {
    Decimal.Sign(n);
    if n >= 0 {
      assert Decimal.OfNat(n)[0] in Decimal.DIGITS;
      assert NULL_KEY[0] !in Decimal.DIGITS;
    } else {
      assert NULL_KEY[0] != '-';
    }
  }

  /** Written keys are equal exactly when the values are. */
  lemma ComponentsExact(c: Column, v: Value, u: Value)
    requires Typed(c, v) && Typed(c, u)
    ensures JsonComponent(v) == ArrayComponent(u) <==> v == u
    ensures JsonComponent(v) == JsonComponent(u) <==> v == u
  {
    if v.Number? {
      DecimalIsNoSentinel(v.n);
    }
    if u.Number? {
      DecimalIsNoSentinel(u.n);
    }
    if v.Number? && u.Number? && Decimal.Of(v.n) == Decimal.Of(u.n) {
      Decimal.Injective(v.n, u.n);
    }
  }

  predicate Agree(columns: seq<Column>, a: Row, b: Row) {
    forall i :: 0 <= i < |columns| ==> Col(a, columns[i]) == Col(b, columns[i])
  }

  lemma KeysExact(columns: seq<Column>, a: Row, b: Row)
    requires TypedRow(columns, a) && TypedRow(columns, b)
    ensures UserKey(columns)(a) == BuiltinKey(columns, b) <==> Agree(columns, a, b)
    ensures UserKey(columns)(a) == UserKey(columns)(b) <==> Agree(columns, a, b)
  {
    var x, y, z := UserKey(columns)(a), BuiltinKey(columns, b), UserKey(columns)(b);
    forall i | 0 <= i < |columns|
      ensures x[i] == y[i] <==> Col(a, columns[i]) == Col(b, columns[i])
      ensures x[i] == z[i] <==> Col(a, columns[i]) == Col(b, columns[i])
    {
      ComponentsExact(columns[i], Col(a, columns[i]), Col(b, columns[i]));
    }
    if x == y {
      assert forall i :: 0 <= i < |columns| ==> x[i] == y[i];
    }
    if x == z {
      assert forall i :: 0 <= i < |columns| ==> x[i] == z[i];
    }
  }

  predicate Shadowed(columns: seq<Column>, user: seq<Row>, row: Row) {
    exists i :: 0 <= i < |user| && Agree(columns, user[i], row)
  }

  /** The rows no user row replaces, in order. */
  function Unshadowed(columns: seq<Column>, user: seq<Row>, rows: seq<Row>): seq<Row> {
    if rows == [] then []
    else (if Shadowed(columns, user, rows[0]) then [] else [rows[0]]) + Unshadowed(columns, user, rows[1..])
  }

  lemma ShadowExact(columns: seq<Column>, user: seq<Row>, row: Row)
    requires TypedRow(columns, row) && forall i :: 0 <= i < |user| ==> TypedRow(columns, user[i])
    ensures BuiltinKey(columns, row) in ShadowKeys(columns, user) <==> Shadowed(columns, user, row)
  {
    forall i | 0 <= i < |user|
      ensures UserKey(columns)(user[i]) == BuiltinKey(columns, row) <==> Agree(columns, user[i], row)
    {
      KeysExact(columns, user[i], row);
    }
    if Shadowed(columns, user, row) {
      var i :| 0 <= i < |user| && Agree(columns, user[i], row);
      assert UserKey(columns)(user[i]) in ShadowKeys(columns, user);
    }
  }

  lemma {:induction false} DropExact(columns: seq<Column>, user: seq<Row>, batch: seq<Row>)
    requires forall i :: 0 <= i < |user| ==> TypedRow(columns, user[i])
    requires forall i :: 0 <= i < |batch| ==> TypedRow(columns, batch[i])
    ensures DropShadowed(batch, columns, ShadowKeys(columns, user)) == Unshadowed(columns, user, batch)
  {
    if batch != [] {
      ShadowExact(columns, user, batch[0]);
      DropExact(columns, user, batch[1..]);
    }
  }

  lemma {:induction false} UnshadowedAppend(columns: seq<Column>, user: seq<Row>, a: seq<Row>, b: seq<Row>)
    ensures Unshadowed(columns, user, a + b) == Unshadowed(columns, user, a) + Unshadowed(columns, user, b)
    decreases |a|
  {
    if a == [] {
      assert a + b == b;
    } else {
      UnshadowedAppend(columns, user, a[1..], b);
      assert (a + b)[1..] == a[1..] + b && (a + b)[0] == a[0];
      var first := if Shadowed(columns, user, a[0]) then [] else [a[0]];
      var mid, last := Unshadowed(columns, user, a[1..]), Unshadowed(columns, user, b);
      assert first + (mid + last) == (first + mid) + last;
    }
  }

  lemma {:induction false} DropAllExact(columns: seq<Column>, user: seq<Row>, batches: seq<seq<Row>>)
    requires forall i :: 0 <= i < |user| ==> TypedRow(columns, user[i])
    requires forall n :: 0 <= n < |batches| ==> forall i :: 0 <= i < |batches[n]| ==> TypedRow(columns, batches[n][i])
    ensures Flatten(DropAll(batches, columns, ShadowKeys(columns, user))) == Unshadowed(columns, user, Flatten(batches))
  {
    var shadow := ShadowKeys(columns, user);
    if batches == [] {
      assert DropAll(batches, columns, shadow) == [];
    } else {
      DropAllExact(columns, user, batches[1..]);
      DropExact(columns, user, batches[0]);
      UnshadowedAppend(columns, user, batches[0], Flatten(batches[1..]));
      assert DropAll(batches, columns, shadow)
          == [DropShadowed(batches[0], columns, shadow)] + DropAll(batches[1..], columns, shadow);
    }
  }

  /** A scan serves the built-in rows that no user row replaces, in order, and then every user row;
      it fails exactly when two user rows agree on the key. */
  lemma ScanMerges(t: CatalogTable, user: seq<Row>, builtin: seq<seq<Row>>)
    requires forall i :: 0 <= i < |user| ==> TypedRow(KeyColumns(t), user[i]) && TypedRow(ShadowColumns(t), user[i])
    requires forall n :: 0 <= n < |builtin| ==>
      forall i :: 0 <= i < |builtin[n]| ==> TypedRow(ShadowColumns(t), builtin[n][i])
    ensures Scan(t, user, builtin).Ok? <==>
      forall i, j :: 0 <= i < j < |user| ==> !Agree(KeyColumns(t), user[i], user[j])
    ensures Scan(t, user, builtin).Ok? ==>
      Flatten(Scan(t, user, builtin).value) == Unshadowed(ShadowColumns(t), user, Flatten(builtin)) + user
  {
    var key := UserKey(KeyColumns(t));
    forall i, j | 0 <= i < j < |user| ensures key(user[i]) == key(user[j]) <==> Agree(KeyColumns(t), user[i], user[j]) {
      KeysExact(KeyColumns(t), user[i], user[j]);
    }
    DropAllExact(ShadowColumns(t), user, builtin);
    if Scan(t, user, builtin).Ok? {
      FlattenSnoc(DropAll(builtin, ShadowColumns(t), ShadowKeys(ShadowColumns(t), user)), user);
    }
  }

  // --- keys without NULLs --------------------------------------------------------------------

  function ValueKey(columns: seq<Column>): Row -> seq<Value> {
    (row: Row) => seq(|columns|, i requires 0 <= i < |columns| => Col(row, columns[i]))
  }

  /** A value of the column's type, and not NULL. */
  predicate Filled(columns: seq<Column>, row: Row) {
    forall i :: 0 <= i < |columns| ==>
      if IsNumberColumn(columns[i]) then Col(row, columns[i]).Number? else Col(row, columns[i]).Text?
  }

  lemma WrittenDiffer(columns: seq<Column>, a: Row, b: Row)
    requires Filled(columns, a) && Filled(columns, b) && UserKey(columns)(a) == UserKey(columns)(b)
    ensures ValueKey(columns)(a) == ValueKey(columns)(b)
  {
    forall i | 0 <= i < |columns| ensures Col(a, columns[i]) == Col(b, columns[i]) {
      assert UserKey(columns)(a)[i] == UserKey(columns)(b)[i];
      if IsNumberColumn(columns[i]) {
        Decimal.Injective(Col(a, columns[i]).n, Col(b, columns[i]).n);
      }
    }
  }

  /** Rows that differ in value on the key are no duplicates, whatever their names are. */
  lemma NoDuplicates(t: CatalogTable, user: seq<Row>, builtin: seq<seq<Row>>)
    requires forall i :: 0 <= i < |user| ==> Filled(KeyColumns(t), user[i])
    requires DistinctKeys(ValueKey(KeyColumns(t)), user)
    ensures Scan(t, user, builtin).Ok?
  {
    var key := UserKey(KeyColumns(t));
    forall i, j | 0 <= i < j < |user| ensures key(user[i]) != key(user[j]) {
      if key(user[i]) == key(user[j]) {
        WrittenDiffer(KeyColumns(t), user[i], user[j]);
      }
    }
  }

  // --- which rows are the same object, table by table ----------------------------------------

  /** The columns that identify a row of each table. */
  predicate SameObject(t: CatalogTable, a: Row, b: Row) {
    match t
    case TDatabase => Col(a, Datname) == Col(b, Datname)
    case TNamespace => Col(a, Oid) == Col(b, Oid)
    case TClass => Col(a, Relnamespace) == Col(b, Relnamespace) && Col(a, Relname) == Col(b, Relname)
    case TType => Col(a, Typnamespace) == Col(b, Typnamespace) && Col(a, Typname) == Col(b, Typname)
    case TAttribute => Col(a, Attrelid) == Col(b, Attrelid) && Col(a, Attname) == Col(b, Attname)
    case TIndex => Col(a, Indexrelid) == Col(b, Indexrelid)
    case TConstraint => Col(a, Oid) == Col(b, Oid)
    case TAttrdef => Col(a, Adrelid) == Col(b, Adrelid) && Col(a, Adnum) == Col(b, Adnum)
    case TConfig => Col(a, Name) == Col(b, Name)
    case TSettings => Col(a, Name) == Col(b, Name)
    case TInfoTables =>
      Col(a, TableCatalog) == Col(b, TableCatalog) && Col(a, TableSchema) == Col(b, TableSchema) && Col(a, TableName) == Col(b, TableName)
    case TInfoColumns =>
      && Col(a, TableCatalog) == Col(b, TableCatalog) && Col(a, TableSchema) == Col(b, TableSchema)
      && Col(a, TableName) == Col(b, TableName) && Col(a, ColumnName) == Col(b, ColumnName)
    case TInfoSchemata => Col(a, InfoCatalogName) == Col(b, InfoCatalogName) && Col(a, InfoSchemaName) == Col(b, InfoSchemaName)
  }

  /** A user row replaces the built-in rows of the same object; a schema, those of the same name. */
  predicate Replaces(t: CatalogTable, user: Row, builtin: Row) {
    if t.TNamespace? then Col(user, Nspname) == Col(builtin, Nspname) else SameObject(t, user, builtin)
  }

  lemma AgreeOne(c: Column, a: Row, b: Row)
    ensures Agree([c], a, b) <==> Col(a, c) == Col(b, c)
  {
    assert [c][0] == c;
  }

  lemma AgreeTwo(c: Column, d: Column, a: Row, b: Row)
    ensures Agree([c, d], a, b) <==> Col(a, c) == Col(b, c) && Col(a, d) == Col(b, d)
  {
    assert [c, d][0] == c && [c, d][1] == d;
  }

  lemma KeysIdentify(t: CatalogTable, a: Row, b: Row)
    ensures Agree(KeyColumns(t), a, b) <==> SameObject(t, a, b)
    ensures Agree(ShadowColumns(t), a, b) <==> Replaces(t, a, b)
  {
    var columns := KeyColumns(t);
    AgreeOne(Nspname, a, b);
    if |columns| == 1 {
      AgreeOne(columns[0], a, b);
    } else if |columns| == 2 {
      AgreeTwo(columns[0], columns[1], a, b);
    } else {
      AgreeMore(t, a, b);
    }
  }

  lemma AgreeMore(t: CatalogTable, a: Row, b: Row)
    requires t.TInfoTables? || t.TInfoColumns?
    ensures Agree(KeyColumns(t), a, b) <==> SameObject(t, a, b)
  {
    var columns := KeyColumns(t);
    assert columns[0] == TableCatalog && columns[1] == TableSchema && columns[2] == TableName;
    assert t.TInfoColumns? ==> columns[3] == ColumnName;
  }

  /** A scan of any table fails exactly when two user rows are of the same object; otherwise it serves
      the built-in rows that no user row replaces, in order, and then every user row. */
  lemma ScanByObject(t: CatalogTable, user: seq<Row>, builtin: seq<seq<Row>>)
    requires forall i :: 0 <= i < |user| ==> TypedRow(KeyColumns(t), user[i]) && TypedRow(ShadowColumns(t), user[i])
    requires forall n :: 0 <= n < |builtin| ==>
      forall i :: 0 <= i < |builtin[n]| ==> TypedRow(ShadowColumns(t), builtin[n][i])
    ensures Scan(t, user, builtin).Ok? <==> forall i, j :: 0 <= i < j < |user| ==> !SameObject(t, user[i], user[j])
    ensures Scan(t, user, builtin).Ok? ==>
      Flatten(Scan(t, user, builtin).value) == NotReplaced(t, user, Flatten(builtin)) + user
  {
    ScanMerges(t, user, builtin);
    forall i, j | 0 <= i < j < |user| ensures Agree(KeyColumns(t), user[i], user[j]) <==> SameObject(t, user[i], user[j]) {
      KeysIdentify(t, user[i], user[j]);
    }
    UnshadowedByObject(t, user, Flatten(builtin));
  }

  function NotReplaced(t: CatalogTable, user: seq<Row>, rows: seq<Row>): seq<Row> {
    if rows == [] then []
    else
      (if exists i :: 0 <= i < |user| && Replaces(t, user[i], rows[0]) then [] else [rows[0]])
      + NotReplaced(t, user, rows[1..])
  }

  lemma {:induction false} UnshadowedByObject(t: CatalogTable, user: seq<Row>, rows: seq<Row>)
    ensures Unshadowed(ShadowColumns(t), user, rows) == NotReplaced(t, user, rows)
  {
    if rows != [] {
      UnshadowedByObject(t, user, rows[1..]);
      forall i | 0 <= i < |user| ensures Agree(ShadowColumns(t), user[i], rows[0]) <==> Replaces(t, user[i], rows[0]) {
        KeysIdentify(t, user[i], rows[0]);
      }
    }
  }

  /** Rows of pg_index and pg_constraint with OIDs of their own are never refused. */
  lemma OwnOidsAreServed(user: seq<Row>, builtin: seq<seq<Row>>)
    ensures (forall i :: 0 <= i < |user| ==> Col(user[i], Indexrelid).Number?)
        && (forall i, j :: 0 <= i < j < |user| ==> Col(user[i], Indexrelid) != Col(user[j], Indexrelid))
        ==> Scan(TIndex, user, builtin).Ok?
    ensures (forall i :: 0 <= i < |user| ==> Col(user[i], Oid).Number?)
        && (forall i, j :: 0 <= i < j < |user| ==> Col(user[i], Oid) != Col(user[j], Oid))
        ==> Scan(TConstraint, user, builtin).Ok?
  {
    OneColumnKeys(TIndex, Indexrelid, user, builtin);
    OneColumnKeys(TConstraint, Oid, user, builtin);
  }

  lemma OneColumnKeys(t: CatalogTable, c: Column, user: seq<Row>, builtin: seq<seq<Row>>)
    requires KeyColumns(t) == [c] && IsNumberColumn(c)
    ensures (forall i :: 0 <= i < |user| ==> Col(user[i], c).Number?)
        && (forall i, j :: 0 <= i < j < |user| ==> Col(user[i], c) != Col(user[j], c))
        ==> Scan(t, user, builtin).Ok?
  {
    if (forall i :: 0 <= i < |user| ==> Col(user[i], c).Number?) && (forall i, j :: 0 <= i < j < |user| ==> Col(user[i], c) != Col(user[j], c)) {
      var key := ValueKey([c]);
      forall i, j | 0 <= i < j < |user| ensures key(user[i]) != key(user[j]) {
        assert key(user[i])[0] != key(user[j])[0];
      }
      NoDuplicates(t, user, builtin);
    }
  }
}
