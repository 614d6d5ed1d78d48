/** A catalog source built from declarations made up front, with every OID from the registry. */
module DeclaredSource {
  import opened Wrappers
  import opened OidRegistry
  import opened CatalogSource

  const PUBLIC_SCHEMA_OID := 2200
  const PUBLIC_SCHEMA_OWNER_OID := 6171

  datatype TableDecl = TableDecl(db: string, schema: string, name: string, columns: seq<ColumnSpec>)

  datatype DeclaredSchema = DeclaredSchema(db: string, def: SchemaDef)
  datatype DeclaredRelation = DeclaredRelation(db: string, schema: string, def: RelationDef, columns: seq<ColumnSpec>)

  datatype Declared = Declared(
    databases: seq<DatabaseDef>,
    schemas: seq<DeclaredSchema>,
    relations: seq<DeclaredRelation>)

  /** One declaration; a host's are its databases, then its schemas, then its tables. */
  datatype Decl = DeclDatabase(name: string) | DeclSchema(db: string, name: string) | DeclTable(t: TableDecl)

  function DatabaseItems(names: seq<string>): seq<Decl> {
    seq(|names|, i requires 0 <= i < |names| => DeclDatabase(names[i]))
  }

  function SchemaItems(schemas: seq<(string, string)>): seq<Decl> {
    seq(|schemas|, i requires 0 <= i < |schemas| => DeclSchema(schemas[i].0, schemas[i].1))
  }

  function TableItems(tables: seq<TableDecl>): seq<Decl> {
    seq(|tables|, i requires 0 <= i < |tables| => DeclTable(tables[i]))
  }

  function Items(databases: seq<string>, schemas: seq<(string, string)>, tables: seq<TableDecl>): seq<Decl> {
    DatabaseItems(databases) + SchemaItems(schemas) + TableItems(tables)
  }

  // --- what one declaration does -------------------------------------------------------------

  predicate HasDatabase(d: Declared, name: string) {
    exists i :: 0 <= i < |d.databases| && d.databases[i].datname == name
  }

  predicate HasSchema(d: Declared, db: string, name: string) {
    exists i :: 0 <= i < |d.schemas| && d.schemas[i].db == db && d.schemas[i].def.name == name
  }

  predicate HasRelation(d: Declared, db: string, schema: string, name: string) {
    exists i :: 0 <= i < |d.relations| && d.relations[i].db == db && d.relations[i].schema == schema
      && d.relations[i].def.name == name
  }

  datatype Work = Work(reg: State, made: Result<Declared>)

  /** `public` keeps its built-in identity and never touches the registry. */
  function SchemaRow(reg: State, db: string, name: string): (State, Result<SchemaDef>) {
    if name == "public" then (reg, Ok(SchemaDef(PUBLIC_SCHEMA_OID, name, Some(PUBLIC_SCHEMA_OWNER_OID))))
    else
      var (reg', a) := Resolve(reg, Schema(db, name));
      (reg', if a.Ok? then Ok(SchemaDef(a.value.oid, name, None)) else Error)
  }

  function AddDatabase(d: Declared, reg: State, name: string): Work {
    if HasDatabase(d, name) then Work(reg, Error)
    else
      var (reg', a) := Resolve(reg, Database(name));
      Work(reg', if a.Ok? then Ok(d.(databases := d.databases + [DatabaseDef(a.value.oid, name)])) else Error)
  }

  function AddSchema(d: Declared, reg: State, db: string, name: string): Work {
    var (reg', def) := SchemaRow(reg, db, name);
    Work(reg', if def.Ok? then Ok(d.(schemas := d.schemas + [DeclaredSchema(db, def.value)])) else Error)
  }

  function AddRelation(d: Declared, reg: State, t: TableDecl): Work {
    match Resolve(reg, Relation(t.db, t.schema, t.name))
    case (reg', Ok(Two(oid, rowtype))) =>
      var entry := DeclaredRelation(t.db, t.schema, RelationDef(oid, rowtype, t.name, Table), t.columns);
      Work(reg', Ok(d.(relations := d.relations + [entry])))
    case (reg', _) => Work(reg', Error)
  }

  function Add(d: Declared, reg: State, item: Decl): Work {
    match item
    case DeclDatabase(name) => AddDatabase(d, reg, name)
    case DeclSchema(db, name) =>
      if !HasDatabase(d, db) || HasSchema(d, db, name) then Work(reg, Error) else AddSchema(d, reg, db, name)
    case DeclTable(t) =>
      if !HasDatabase(d, t.db) || HasRelation(d, t.db, t.schema, t.name) then Work(reg, Error)
      else if HasSchema(d, t.db, t.schema) then AddRelation(d, reg, t)
      else
        var w := AddSchema(d, reg, t.db, t.schema);
        if w.made.Ok? then AddRelation(w.made.value, w.reg, t) else w
  }

  /** The declarations one after the other, up to the first that is refused. */
  function AddAll(w: Work, items: seq<Decl>): Work
    decreases |items|
  {
    if items == [] || w.made.Error? then w else AddAll(Add(w.made.value, w.reg, items[0]), items[1..])
  }

  function Declare(reg: State, items: seq<Decl>): Work {
    AddAll(Work(reg, Ok(Declared([], [], []))), items)
  }

  lemma {:induction false} AddAllSplits(w: Work, a: seq<Decl>, b: seq<Decl>)
    ensures AddAll(w, a + b) == AddAll(AddAll(w, a), b)
    decreases |a|
  {
    if a == [] {
      assert a + b == b;
    } else if w.made.Ok? {
      AddAllSplits(Add(w.made.value, w.reg, a[0]), a[1..], b);
      assert (a + b)[1..] == a[1..] + b;
    }
  }

  // --- the loops -----------------------------------------------------------------------------

  method SchemaRowFrom(db: string, name: string, registry: InMemoryRegistry) returns (r: Result<SchemaDef>)
    modifies registry
    ensures (registry.Contents(), r) == SchemaRow(old(registry.Contents()), db, name)
  {
    if name == "public" {
      return Ok(SchemaDef(PUBLIC_SCHEMA_OID, name, Some(PUBLIC_SCHEMA_OWNER_OID)));
    }
    var oid := registry.ResolveSchema(db, name);
    r := if oid.Ok? then Ok(SchemaDef(oid.value, name, None)) else Error;
  }

  /** One table, its schema declared first when nothing declared it. */
  method DeclareOneTable(made: Declared, t: TableDecl, registry: InMemoryRegistry) returns (r: Result<Declared>)
    modifies registry
    ensures Work(registry.Contents(), r) == Add(made, old(registry.Contents()), DeclTable(t))
  {
    var d := made;
    if !HasDatabase(d, t.db) || HasRelation(d, t.db, t.schema, t.name) {
      return Error;
    }
    if !HasSchema(d, t.db, t.schema) {
      var def := SchemaRowFrom(t.db, t.schema, registry);
      if def.Error? {
        return Error;
      }
      d := d.(schemas := d.schemas + [DeclaredSchema(t.db, def.value)]);
    }
    var oids := registry.ResolveRelation(t.db, t.schema, t.name);
    if oids.Error? {
      return Error;
    }
    var entry := DeclaredRelation(t.db, t.schema, RelationDef(oids.value.0, oids.value.1, t.name, Table), t.columns);
    return Ok(d.(relations := d.relations + [entry]));
  }

  method DeclareDatabases(databases: seq<string>, registry: InMemoryRegistry) returns (r: Result<Declared>)
    modifies registry
    ensures Work(registry.Contents(), r) == Declare(old(registry.Contents()), DatabaseItems(databases))
  {
    ghost var items := DatabaseItems(databases);
    ghost var all := Declare(registry.Contents(), items);
    var d := Declared([], [], []);
    var i := 0;
    assert items[0..] == items;
    while i < |databases|
      invariant 0 <= i <= |databases|
      invariant all == AddAll(Work(registry.Contents(), Ok(d)), items[i..])
    {
      var name := databases[i];
      assert items[i..][0] == DeclDatabase(name) && items[i..][1..] == items[i + 1..];
      if HasDatabase(d, name) {
        return Error;
      }
      var oid := registry.ResolveDatabase(name);
      if oid.Error? {
        return Error;
      }
      d := d.(databases := d.databases + [DatabaseDef(oid.value, name)]);
      i := i + 1;
    }
    return Ok(d);
  }

  method DeclareSchemas(made: Declared, schemas: seq<(string, string)>, registry: InMemoryRegistry)
    returns (r: Result<Declared>)
    modifies registry
    ensures Work(registry.Contents(), r) == AddAll(Work(old(registry.Contents()), Ok(made)), SchemaItems(schemas))
  {
    ghost var items := SchemaItems(schemas);
    ghost var all := AddAll(Work(registry.Contents(), Ok(made)), items);
    var d := made;
    var j := 0;
    assert items[0..] == items;
    while j < |schemas|
      invariant 0 <= j <= |schemas|
      invariant all == AddAll(Work(registry.Contents(), Ok(d)), items[j..])
    {
      var (db, name) := schemas[j];
      assert items[j..][0] == DeclSchema(db, name) && items[j..][1..] == items[j + 1..];
      if !HasDatabase(d, db) || HasSchema(d, db, name) {
        return Error;
      }
      var def := SchemaRowFrom(db, name, registry);
      if def.Error? {
        return Error;
      }
      d := d.(schemas := d.schemas + [DeclaredSchema(db, def.value)]);
      j := j + 1;
    }
    return Ok(d);
  }

  method DeclareTables(made: Declared, tables: seq<TableDecl>, registry: InMemoryRegistry) returns (r: Result<Declared>)
    modifies registry
    ensures Work(registry.Contents(), r) == AddAll(Work(old(registry.Contents()), Ok(made)), TableItems(tables))
  {
    ghost var items := TableItems(tables);
    ghost var all := AddAll(Work(registry.Contents(), Ok(made)), items);
    var d := made;
    var k := 0;
    assert items[0..] == items;
    while k < |tables|
      invariant 0 <= k <= |tables|
      invariant all == AddAll(Work(registry.Contents(), Ok(d)), items[k..])
    {
      assert items[k..][0] == DeclTable(tables[k]) && items[k..][1..] == items[k + 1..];
      var added := DeclareOneTable(d, tables[k], registry);
      if added.Error? {
        return Error;
      }
      d := added.value;
      k := k + 1;
    }
    return Ok(d);
  }

  /** The whole builder, against the fold over the declarations. */
  method FromDeclarations(databases: seq<string>, schemas: seq<(string, string)>, tables: seq<TableDecl>, registry: InMemoryRegistry)
    returns (r: Result<Declared>)
    modifies registry
    ensures Work(registry.Contents(), r) == Declare(old(registry.Contents()), Items(databases, schemas, tables))
  {
    ghost var start := Work(registry.Contents(), Ok(Declared([], [], [])));
    AddAllSplits(start, DatabaseItems(databases) + SchemaItems(schemas), TableItems(tables));
    AddAllSplits(start, DatabaseItems(databases), SchemaItems(schemas));
    r := DeclareDatabases(databases, registry);
    if r.Error? { return; }
    r := DeclareSchemas(r.value, schemas, registry);
    if r.Error? { return; }
    r := DeclareTables(r.value, tables, registry);
  }
}
