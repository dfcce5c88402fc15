/** What one repository call does to the tables (backends/memory/repository.go), on values. */
module RelationalStore {
  import opened Options
  import opened Records

  datatype Error = Validation | Duplicate | UniqueViolation | ForeignKeyViolation | NotFound | Panic

  datatype Reply = Ok(record: Record) | Deleted | Err(error: Error)

  datatype Next = Next(tables: Tables, reply: Reply)

  function TableOf(tables: Tables, name: string): Table {
    if name in tables then tables[name] else map[]
  }

  /** The defaults of the schema's fields other than the given ones. */
  function Defaults(schema: Schema, others: set<string>): Record {
    map f | f in schema.fields && f !in others && schema.fields[f].default != Null :: schema.fields[f].default
  }

  lemma OneMoreDefault(schema: Schema, others: set<string>, f: string, given: Record)
    requires f in others && f in schema.fields
    ensures var r := Defaults(schema, others) + given;
      Defaults(schema, others - {f}) + given
      == if f !in r && schema.fields[f].default != Null then r[f := schema.fields[f].default] else r
  {
  }

  /** The record Create stores: the data, an id, both timestamps and the defaults. */
  function Prepared(schema: Schema, data: Record, freshId: Id, now: int): Record {
    var r := (if "id" in data then data else data["id" := Str(freshId)])
             ["created_at" := Time(now)]["updated_at" := Time(now)];
    Defaults(schema, {}) + r
  }

  function CreateStep(tables: Tables, schema: Schema, data: Record, freshId: Id, now: int): Next {
    if !DataValid(schema, data) then Next(tables, Err(Validation))
    else
      var table := TableOf(tables, schema.tableName);
      InsertStep(tables[schema.tableName := table], schema, table, Prepared(schema, data, freshId, now))
  }

  /** The checks and the write of Create; the table exists by now, whatever the outcome. */
  function InsertStep(tables: Tables, schema: Schema, table: Table, record: Record): Next {
    if !Get(record, "id").Str? then Next(tables, Err(Panic))
    else if record["id"].s in table then Next(tables, Err(Duplicate))
    else if !ClashFree(schema, table, record, "") then Next(tables, Err(UniqueViolation))
    else if !RefsResolve(tables, schema, record) then Next(tables, Err(ForeignKeyViolation))
    else Next(tables[schema.tableName := table[record["id"].s := record]], Ok(record))
  }

  function Updated(existing: Record, data: Record, now: int): Record {
    (existing + data)["updated_at" := Time(now)]
  }

  function UpdateStep(tables: Tables, schema: Schema, id: Id, data: Record, now: int): Next {
    var table := TableOf(tables, schema.tableName);
    if id !in table then Next(tables, Err(NotFound))
    else
      var record := Updated(table[id], data, now);
      if !ClashFree(schema, table, record, id) then Next(tables, Err(UniqueViolation))
      else if !RefsResolve(tables, schema, record) then Next(tables, Err(ForeignKeyViolation))
      else Next(tables[schema.tableName := table[id := record]], Ok(record))
  }

  function DeleteStep(tables: Tables, schema: Schema, id: Id): Next {
    var table := TableOf(tables, schema.tableName);
    if id !in table then Next(tables, Err(NotFound))
    else if HeldElsewhere(tables, schema.tableName, id) then Next(tables, Err(ForeignKeyViolation))
    else Next(tables[schema.tableName := map i | i in table && i != id :: table[i]], Deleted)
  }

  predicate MatchesAll(r: Record, wanted: Record) {
    forall f :: f in wanted ==> Get(r, f) == wanted[f]
  }

  /** `pick` is the matching row that map iteration happens to yield first. */
  predicate FirstMatch(table: Table, wanted: Record, pick: Option<Id>) {
    match pick
    case Some(id) => id in table && MatchesAll(table[id], wanted)
    case None => forall id :: id in table ==> !MatchesAll(table[id], wanted)
  }

  function UpsertStep(tables: Tables, schema: Schema, wanted: Record, data: Record,
                      pick: Option<Id>, freshId: Id, now: int): Next
    requires FirstMatch(TableOf(tables, schema.tableName), wanted, pick)
  {
    match pick
    case None => CreateStep(tables, schema, data + wanted, freshId, now)
    case Some(row) =>
      var id := Get(TableOf(tables, schema.tableName)[row], "id");
      if id.Str? then UpdateStep(tables, schema, id.s, data, now) else Next(tables, Err(Panic))
  }
}
