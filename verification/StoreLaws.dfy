/** What the repository calls accept, answer and store, cell by cell. */
module StoreLaws {
  import opened Options
  import opened Records
  import opened RelationalStore

  // ---------- What a call demands ----------

  predicate HasType(v: Value, t: FieldType) {
    || (t == StringField && v.Str?) || (t == IntField && v.Int?) || (t == Int64Field && v.Int64?)
    || (t == BoolField && v.Bool?) || (t == FloatField && v.Float?)
    || (t == TimeField && (v.Time? || v.Str?)) || t == OtherField
  }

  predicate Given(name: string) {
    name == "id" || name == "created_at" || name == "updated_at"
  }

  /** A value a column can be given: null if it may be, or one of its type. */
  predicate Admits(f: FieldSchema, v: Value) {
    if v == Null then f.nullable else HasType(v, f.fieldType)
  }

  /** Every column is given a value it admits, or is left out and may be null or has a default. */
  ghost predicate Complete(schema: Schema, data: Record) {
    forall name :: name in schema.fields && !Given(name) ==>
      if name in data then Admits(schema.fields[name], data[name])
      else schema.fields[name].nullable || schema.fields[name].default != Null
  }

  /** The rows agree on a unique column that is not null, or on all columns of a unique index. */
  ghost predicate Duplicates(schema: Schema, a: Record, b: Record) {
    || (exists f :: f in schema.fields && schema.fields[f].unique && Get(a, f) == Get(b, f) != Null)
    || (exists i :: 0 <= i < |schema.indexes| && schema.indexes[i].unique
                    && forall c :: c in schema.indexes[i].columns ==> Get(a, c) == Get(b, c))
  }

  /** A foreign key that is not null and names no row. */
  ghost predicate Dangles(tables: Tables, schema: Schema, r: Record) {
    exists f :: f in schema.fields && DanglesAt(tables, schema.fields[f].foreignKey, Get(r, f))
  }

  ghost predicate DanglesAt(tables: Tables, fk: Option<ForeignKey>, v: Value) {
    fk.Some? && v != Null
    && (fk.value.table in tables ==> forall id :: id in tables[fk.value.table] ==>
          Get(tables[fk.value.table][id], fk.value.column) != v)
  }

  lemma DuplicatesIsClash(schema: Schema, a: Record, b: Record)
    ensures Duplicates(schema, a, b) <==> Clash(schema, a, b)
  {
    forall i | 0 <= i < |schema.indexes|
      ensures SameTuple(a, b, schema.indexes[i].columns)
         <==> forall c :: c in schema.indexes[i].columns ==> Get(a, c) == Get(b, c)
    {
    }
    assert forall f :: SameUnique(a, b, f) <==> Get(a, f) == Get(b, f) != Null;
  }

  lemma DanglesIsUnresolved(tables: Tables, schema: Schema, r: Record)
    ensures Dangles(tables, schema, r) <==> !RefsResolve(tables, schema, r)
  {
  }

  lemma CompleteIsValid(schema: Schema, data: Record)
    ensures Complete(schema, data) <==> DataValid(schema, data)
  {
  }

  // ---------- Create ----------

  /** The row Create stores: what was given, an id and two times, and the defaults of what was left out. */
  ghost predicate Stored(schema: Schema, data: Record, freshId: Id, now: int, row: Record) {
    && Get(row, "created_at") == Time(now) && Get(row, "updated_at") == Time(now)
    && Get(row, "id") == (if "id" in data then data["id"] else Str(freshId))
    && forall f :: !Given(f) ==>
         Get(row, f) == if f in data then data[f]
                        else if f in schema.fields then schema.fields[f].default
                        else Null
  }

  /**
   * The answer to Create, the first objection counting, and the tables afterwards. Only rows of a
   * non-empty id are looked at for duplicates.
   */
  lemma CreateAnswers(tables: Tables, schema: Schema, data: Record, freshId: Id, now: int) returns (row: Record)
    ensures Stored(schema, data, freshId, now, row)
    ensures var n := CreateStep(tables, schema, data, freshId, now);
      var table: Table := if schema.tableName in tables then tables[schema.tableName] else map[];
      var made := tables[schema.tableName := table];
      if !Complete(schema, data) then n == Next(tables, Err(Validation))
      else if !Get(row, "id").Str? then n == Next(made, Err(Panic))
      else if Get(row, "id").s in table then n == Next(made, Err(Duplicate))
      else if exists id :: id in table && id != "" && Duplicates(schema, row, table[id]) then
        n == Next(made, Err(UniqueViolation))
      else if Dangles(made, schema, row) then n == Next(made, Err(ForeignKeyViolation))
      else n == Next(made[schema.tableName := table[Get(row, "id").s := row]], Ok(row))
  {
    row := Prepared(schema, data, freshId, now);
    PreparedIsStored(schema, data, freshId, now);
    hide Prepared, Stored, Complete, Duplicates, Dangles, Clash, DataValid, RefsResolve;
    CompleteIsValid(schema, data);
    var table := TableOf(tables, schema.tableName);
    forall id | id in table
      ensures Duplicates(schema, row, table[id]) <==> Clash(schema, row, table[id])
    {
      DuplicatesIsClash(schema, row, table[id]);
    }
    DanglesIsUnresolved(tables[schema.tableName := table], schema, row);
  }

  lemma PreparedIsStored(schema: Schema, data: Record, freshId: Id, now: int)
    ensures Stored(schema, data, freshId, now, Prepared(schema, data, freshId, now))
  {
  }

  // ---------- Update ----------

  /** The row Update stores: the old cells, the given ones over them, and the time. */
  ghost predicate Changed(old_: Record, data: Record, now: int, row: Record) {
    && Get(row, "updated_at") == Time(now)
    && forall f :: f != "updated_at" ==> Get(row, f) == if f in data then data[f] else Get(old_, f)
  }

  /** The answer to Update; unlike Create it does not look at the types of what it is given. */
  lemma UpdateAnswers(tables: Tables, schema: Schema, id: Id, data: Record, now: int) returns (row: Record)
    ensures var n := UpdateStep(tables, schema, id, data, now);
      if schema.tableName !in tables || id !in tables[schema.tableName] then n == Next(tables, Err(NotFound))
      else
        var table := tables[schema.tableName];
        && Changed(table[id], data, now, row)
        && if exists i :: i in table && i != id && Duplicates(schema, row, table[i]) then
             n == Next(tables, Err(UniqueViolation))
           else if Dangles(tables, schema, row) then n == Next(tables, Err(ForeignKeyViolation))
           else n == Next(tables[schema.tableName := table[id := row]], Ok(row))
  {
    var table := TableOf(tables, schema.tableName);
    row := map[];
    if id in table {
      row := Updated(table[id], data, now);
      hide Duplicates, Dangles, Clash, RefsResolve;
      forall i | i in table
        ensures Duplicates(schema, row, table[i]) <==> Clash(schema, row, table[i])
      {
        DuplicatesIsClash(schema, row, table[i]);
      }
      DanglesIsUnresolved(tables, schema, row);
    }
  }

  /** Each column holds a value it admits, or its default. */
  ghost predicate RowTyped(schema: Schema, row: Record) {
    forall f :: f in schema.fields && !Given(f) ==>
      Admits(schema.fields[f], Get(row, f)) || Get(row, f) == schema.fields[f].default != Null
  }

  /** Every row Create stores is typed. */
  lemma CreateStoresTyped(tables: Tables, schema: Schema, data: Record, freshId: Id, now: int)
    requires CreateStep(tables, schema, data, freshId, now).reply.Ok?
    ensures RowTyped(schema, CreateStep(tables, schema, data, freshId, now).reply.record)
  {
    var row := CreateAnswers(tables, schema, data, freshId, now);
    hide CreateStep, Duplicates, Dangles;
  }

  /** An accepted Update of a typed row leaves it typed exactly when every cell given is admitted or the default. */
  lemma UpdateKeepsTypedIff(tables: Tables, schema: Schema, id: Id, data: Record, now: int)
    requires UpdateStep(tables, schema, id, data, now).reply.Ok?
    requires RowTyped(schema, tables[schema.tableName][id])
    ensures RowTyped(schema, UpdateStep(tables, schema, id, data, now).reply.record)
       <==> forall f :: f in data && f in schema.fields && !Given(f) ==>
              Admits(schema.fields[f], data[f]) || data[f] == schema.fields[f].default != Null
  {
    var row := UpdateAnswers(tables, schema, id, data, now);
    hide UpdateStep, Duplicates, Dangles, Admits;
  }

  /** A table with one integer column, and in it one typed row. */
  ghost predicate OneAge(tables: Tables, schema: Schema) {
    && schema.indexes == [] && schema.fields.Keys == {"age"}
    && schema.fields["age"] == FieldSchema(IntField, false, Null, false, None)
    && tables.Keys == {schema.tableName}
    && tables[schema.tableName] == map["a" := map["id" := Str("a"), "age" := Int(30)]]
  }

  /** There Update stores a string in the integer column, which Create refuses. */
  lemma UpdateAdmitsMistyped(tables: Tables, schema: Schema, now: int)
    requires OneAge(tables, schema)
    ensures var n := UpdateStep(tables, schema, "a", map["age" := Str("x")], now);
      n.reply.Ok? && !RowTyped(schema, n.reply.record)
    ensures CreateStep(tables, schema, map["age" := Str("x")], "b", now).reply == Err(Validation)
  {
    var data: Record := map["age" := Str("x")];
    var row := UpdateAnswers(tables, schema, "a", data, now);
    var created := CreateAnswers(tables, schema, data, "b", now);
    hide CreateStep, UpdateStep;
    assert !Admits(schema.fields["age"], data["age"]);
  }

  // ---------- Delete ----------

  /** Delete is accepted exactly for a row whose id no cell of another table holds; then only that row is gone. */
  lemma DeleteAnswers(tables: Tables, schema: Schema, id: Id)
    ensures var n := DeleteStep(tables, schema, id);
      if schema.tableName !in tables || id !in tables[schema.tableName] then n == Next(tables, Err(NotFound))
      else if exists t, row, f :: CellHolds(tables, t, row, f, id) && t != schema.tableName then
        n == Next(tables, Err(ForeignKeyViolation))
      else
        && n.reply == Deleted && n.tables.Keys == tables.Keys
        && (forall t :: t in tables && t != schema.tableName ==> n.tables[t] == tables[t])
        && n.tables[schema.tableName] == tables[schema.tableName] - {id}
  {
    if exists t, row, f :: CellHolds(tables, t, row, f, id) && t != schema.tableName {
      var t, row, f :| CellHolds(tables, t, row, f, id) && t != schema.tableName;
      assert RowHolds(tables[t][row], id);
      assert HeldIn(tables[t], id);
    } else if HeldElsewhere(tables, schema.tableName, id) {
      var t :| t in tables && t != schema.tableName && HeldIn(tables[t], id);
      var row :| row in tables[t] && RowHolds(tables[t][row], id);
      var f :| f in tables[t][row] && tables[t][row][f] == Str(id);
      assert CellHolds(tables, t, row, f, id);
    }
  }

  ghost predicate CellHolds(tables: Tables, t: string, row: Id, f: string, id: Id) {
    t in tables && row in tables[t] && f in tables[t][row] && tables[t][row][f] == Str(id)
  }

  // ---------- Upsert ----------

  /** The row an accepted Upsert creates has all the wanted cells, so that the next one will find it. */
  lemma UpsertedIsFound(tables: Tables, schema: Schema, wanted: Record, data: Record, freshId: Id, now: int)
    requires FirstMatch(TableOf(tables, schema.tableName), wanted, None)
    requires UpsertStep(tables, schema, wanted, data, None, freshId, now).reply.Ok?
    requires "created_at" !in wanted && "updated_at" !in wanted
    ensures var n := UpsertStep(tables, schema, wanted, data, None, freshId, now);
      && schema.tableName in n.tables
      && exists id :: id in n.tables[schema.tableName] && n.tables[schema.tableName][id] == n.reply.record
    ensures var row := UpsertStep(tables, schema, wanted, data, None, freshId, now).reply.record;
      && (forall f :: f in wanted ==> Get(row, f) == wanted[f])
      && (forall f :: f in data && f !in wanted && !Given(f) ==> Get(row, f) == data[f])
  {
    var row := CreateAnswers(tables, schema, data + wanted, freshId, now);
    hide CreateStep, Duplicates, Dangles, Complete;
    var n := UpsertStep(tables, schema, wanted, data, None, freshId, now);
    assert Get(row, "id").s in n.tables[schema.tableName];
  }
}
