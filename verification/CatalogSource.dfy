/** What a host tells the catalog about its own objects, and how a caller collects it. */
module CatalogSource {
  import opened Wrappers

  datatype DatabaseDef = DatabaseDef(oid: int, datname: string)
  datatype SchemaDef = SchemaDef(oid: int, name: string, owner: Option<int>)
  datatype RelationKind = Table | View | MaterializedView
  datatype RelationDef = RelationDef(oid: int, reltype: int, name: string, kind: RelationKind)
  datatype ColumnSpec = ColumnSpec(name: string, typeOid: int, nullable: bool, hasDefault: bool)
  datatype IndexDef = IndexDef(oid: int, name: string, table: int, keys: seq<int>)
  datatype ConstraintDef = ConstraintDef(oid: int, name: string, table: int)
  datatype Setting = Setting(name: string, value: string)

  /** A question's answer: the batches the callback was handed, or the source's error. */
  type Reply<+T> = Result<seq<seq<T>>>

  datatype Source = Source(
    databases: Reply<DatabaseDef>,
    schemas: string -> Reply<SchemaDef>,
    relations: (string, string) -> Reply<RelationDef>,
    columns: (string, string, string) -> Reply<ColumnSpec>,
    indexes: (string, string) -> Reply<IndexDef>,
    constraints: (string, string) -> Reply<ConstraintDef>,
    config: Reply<Setting>,
    settings: Reply<Setting>)

  function Flatten<T>(batches: seq<seq<T>>): seq<T> {
    if batches == [] then [] else batches[0] + Flatten(batches[1..])
  }

  /** All the rows of one answer, however many times the callback fired. */
  function Rows<T>(reply: Reply<T>): Result<seq<T>> {
    var batches :- reply;
    Ok(Flatten(batches))
  }

  lemma {:induction false} FlattenSnoc<T>(batches: seq<seq<T>>, last: seq<T>)
    ensures Flatten(batches + [last]) == Flatten(batches) + last
  {
    if batches == [] {
      assert [last][1..] == [];
    } else {
      FlattenSnoc(batches[1..], last);
      assert (batches + [last])[1..] == batches[1..] + [last];
    }
  }

  lemma FlattenOne<T>(rows: seq<T>)
    ensures Flatten([rows]) == rows
  {
    assert [rows][1..] == [] && rows + [] == rows;
  }

  /** The loop every caller of a source runs. */
  method Collect<T>(reply: Reply<T>) returns (out: Result<seq<T>>)
    ensures out == Rows(reply)
  {
    if reply.Error? {
      return Error;
    }
    var rows: seq<T> := [];
    var i := 0;
    while i < |reply.value|
      invariant 0 <= i <= |reply.value|
      invariant rows == Flatten(reply.value[..i])
    {
      FlattenSnoc(reply.value[..i], reply.value[i]);
      assert reply.value[..i + 1] == reply.value[..i] + [reply.value[i]];
      rows := rows + reply.value[i];
      i := i + 1;
    }
    assert reply.value[..i] == reply.value;
    return Ok(rows);
  }
}
