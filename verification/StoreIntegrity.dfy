/** Database-wide integrity, and exactly which calls keep it. */
module StoreIntegrity {
  import opened Options
  import opened Records
  import opened RelationalStore

  type Schemas = map<string, Schema>

  /** Every row is stored under its own id. */
  ghost predicate KeysMatch(table: Table) {
    forall id :: id in table ==> Get(table[id], "id") == Str(id)
  }

  /** No two rows share a non-null unique field or a unique-index tuple. */
  ghost predicate UniqueOk(schema: Schema, table: Table) {
    forall i, j :: i in table && j in table && i != j ==> !Clash(schema, table[i], table[j])
  }

  /** The references integrity is about: to the id of a row in another table. */
  ghost predicate CrossRef(schema: Schema, name: string) {
    && name in schema.fields
    && schema.fields[name].foreignKey.Some?
    && schema.fields[name].foreignKey.value.column == "id"
    && schema.fields[name].foreignKey.value.table != schema.tableName
  }

  ghost predicate RowRefsOk(tables: Tables, schema: Schema, record: Record) {
    forall name :: CrossRef(schema, name) ==>
      FieldRefOk(tables, schema.fields[name], Get(record, name))
  }

  ghost predicate TableOk(tables: Tables, schema: Schema) {
    schema.tableName in tables ==>
      var table := tables[schema.tableName];
      UniqueOk(schema, table) && forall id :: id in table ==> RowRefsOk(tables, schema, table[id])
  }

  ghost predicate Registry(schemas: Schemas) {
    forall t :: t in schemas ==> schemas[t].tableName == t
  }

  ghost predicate Integrity(tables: Tables, schemas: Schemas) {
    && Registry(schemas)
    && (forall t :: t in tables ==> KeysMatch(tables[t]))
    && (forall t :: t in schemas ==> TableOk(tables, schemas[t]))
  }

  /** The repository's schema is the one the database has registered for its table. */
  ghost predicate Registered(schemas: Schemas, schema: Schema) {
    schema.tableName in schemas && schemas[schema.tableName] == schema
  }

  /** References survive a change of one table that keeps every id someone refers to. */
  lemma RefsSurvive(tables: Tables, after: Tables, own: string, schema: Schema, record: Record)
    requires forall t :: t in tables ==> KeysMatch(tables[t])
    requires forall t :: t in after ==> KeysMatch(after[t])
    requires own in after && after == tables[own := after[own]]
    requires RowRefsOk(tables, schema, record)
    requires forall id :: id in TableOf(tables, own) && id !in after[own] ==>
      own == schema.tableName || !RowHolds(record, id)
    ensures RowRefsOk(after, schema, record)
  {
  }

  /** The frame of all three writes: one table changes, the others and their rows do not. */
  lemma OneTableChanges(tables: Tables, after: Tables, schemas: Schemas, schema: Schema)
    requires Integrity(tables, schemas) && Registered(schemas, schema)
    requires schema.tableName in after && after == tables[schema.tableName := after[schema.tableName]]
    requires KeysMatch(after[schema.tableName])
    requires forall id :: id in TableOf(tables, schema.tableName) && id !in after[schema.tableName] ==>
               !HeldElsewhere(tables, schema.tableName, id)
    ensures forall t :: t in schemas && t != schema.tableName ==> TableOk(after, schemas[t])
  {
    var own := schema.tableName;
    forall t | t in schemas && t != own && t in after ensures TableOk(after, schemas[t]) {
      assert TableOk(tables, schemas[t]);
      forall id | id in after[t] ensures RowRefsOk(after, schemas[t], after[t][id]) {
        forall gone | gone in TableOf(tables, own) && gone !in after[own]
          ensures !RowHolds(after[t][id], gone)
        {
          assert HeldIn(tables[t], gone) ==> HeldElsewhere(tables, own, gone);
        }
        RefsSurvive(tables, after, own, schemas[t], after[t][id]);
      }
    }
  }

  // ---------- Create ----------

  /** Whether the row stored under the empty id, which Create's validator skips, clashes. */
  ghost predicate ClashesWithEmptyId(tables: Tables, schema: Schema, record: Record) {
    var table := TableOf(tables, schema.tableName);
    "" in table && Clash(schema, record, table[""])
  }

  /**
   * An accepted Create keeps integrity exactly when the new record does not clash with the row of
   * empty id: the validator is told to exclude the id "", and so never compares with that row.
   */
  lemma CreateKeepsIntegrityIff(tables: Tables, schemas: Schemas, schema: Schema, data: Record,
                                freshId: Id, now: int)
    requires Integrity(tables, schemas) && Registered(schemas, schema)
    requires CreateStep(tables, schema, data, freshId, now).reply.Ok?
    ensures var n := CreateStep(tables, schema, data, freshId, now);
      Integrity(n.tables, schemas)
      <==> !ClashesWithEmptyId(tables, schema, Prepared(schema, data, freshId, now))
  {
    var own := schema.tableName;
    var record := Prepared(schema, data, freshId, now);
    var table := TableOf(tables, own);
    AcceptedCreate(tables, schema, data, freshId, now);
    RowAccepted(tables, schemas, schema, record["id"].s, record);
  }

  lemma RowAccepted(tables: Tables, schemas: Schemas, schema: Schema, id: Id, record: Record)
    requires Integrity(tables, schemas) && Registered(schemas, schema)
    requires var table := TableOf(tables, schema.tableName);
      && id !in table && Get(record, "id") == Str(id) && ClashFree(schema, table, record, "")
      && RefsResolve(tables[schema.tableName := table], schema, record)
    ensures Integrity(tables[schema.tableName := TableOf(tables, schema.tableName)[id := record]], schemas)
       <==> !ClashesWithEmptyId(tables, schema, record)
  {
    var table := TableOf(tables, schema.tableName);
    assert TableOk(tables, schema);
    assert tables[schema.tableName := table] == tables || table == map[];
    RowAdded(schema, table, id, record);
    OwnTableChanged(tables, table[id := record], schemas, schema);
  }

  lemma AcceptedCreate(tables: Tables, schema: Schema, data: Record, freshId: Id, now: int)
    ensures var n := CreateStep(tables, schema, data, freshId, now);
      var record := Prepared(schema, data, freshId, now);
      var table := TableOf(tables, schema.tableName);
      if n.reply.Ok? then
        && n.reply.record == record && Get(record, "id").Str? && record["id"].s !in table
        && ClashFree(schema, table, record, "")
        && RefsResolve(tables[schema.tableName := table], schema, record)
        && n.tables == tables[schema.tableName := table[record["id"].s := record]]
      else n.tables == tables || n.tables == tables[schema.tableName := table]
  {
  }

  /** With every row's references resolving beforehand, only keys and uniqueness are left to check. */
  lemma OwnTableChanged(tables: Tables, rows: Table, schemas: Schemas, schema: Schema)
    requires Integrity(tables, schemas) && Registered(schemas, schema)
    requires KeysMatch(rows)
    requires forall id :: id in TableOf(tables, schema.tableName) && id !in rows ==>
               !HeldElsewhere(tables, schema.tableName, id)
    requires forall id :: id in rows ==>
               RowRefsOk(tables[schema.tableName := TableOf(tables, schema.tableName)], schema, rows[id])
    ensures Integrity(tables[schema.tableName := rows], schemas) <==> UniqueOk(schema, rows)
  {
    var own := schema.tableName;
    var after := tables[own := rows];
    OneTableChanges(tables, after, schemas, schema);
    forall id | id in rows ensures RowRefsOk(after, schema, rows[id]) {
      OwnRowsKeepRefs(tables, after, schema, rows[id]);
    }
    assert TableOk(after, schema) <==> UniqueOk(schema, rows);
  }

  /** Adding a row that clashes with no row but perhaps the one of empty id. */
  lemma RowAdded(schema: Schema, table: Table, id: Id, record: Record)
    requires UniqueOk(schema, table) && id !in table && ClashFree(schema, table, record, "")
    ensures UniqueOk(schema, table[id := record])
       <==> !("" in table && Clash(schema, record, table[""]))
  {
    var after := table[id := record];
    if "" in table && Clash(schema, record, table[""]) {
      assert after[id] == record && after[""] == table[""];
    } else {
      forall i, j | i in after && j in after && i != j ensures !Clash(schema, after[i], after[j]) {
        ClashSymmetric(schema, after[i], after[j]);
      }
    }
  }

  /** A row whose references resolve before its own table changes has them resolve afterwards. */
  lemma OwnRowsKeepRefs(tables: Tables, after: Tables, schema: Schema, record: Record)
    requires forall t :: t in tables ==> KeysMatch(tables[t])
    requires forall t :: t in after ==> KeysMatch(after[t])
    requires schema.tableName in after && after == tables[schema.tableName := after[schema.tableName]]
    requires RowRefsOk(tables[schema.tableName := TableOf(tables, schema.tableName)], schema, record)
    ensures RowRefsOk(after, schema, record)
  {
  }

  /** A refused call leaves every row as it was; at most the empty table has been made. */
  lemma RefusalKeepsIntegrity(tables: Tables, schemas: Schemas, schema: Schema)
    requires Integrity(tables, schemas) && Registered(schemas, schema)
    ensures Integrity(tables[schema.tableName := TableOf(tables, schema.tableName)], schemas)
  {
    var after := tables[schema.tableName := TableOf(tables, schema.tableName)];
    OneTableChanges(tables, after, schemas, schema);
    if schema.tableName in tables {
      assert after == tables;
    }
  }

  /** One table with a unique e-mail, and in it only a row of empty id. */
  ghost predicate OneEmptyId(tables: Tables, schema: Schema) {
    && schema.indexes == []
    && schema.fields.Keys == {"email"}
    && schema.fields["email"] == FieldSchema(StringField, false, Null, true, None)
    && tables.Keys == {schema.tableName} && tables[schema.tableName].Keys == {""}
    && tables[schema.tableName][""] == map["id" := Str(""), "email" := Str("a")]
  }

  /** There a second row with the same e-mail is accepted. */
  lemma EmptyIdAdmitsDuplicate(tables: Tables, schema: Schema, now: int)
    requires OneEmptyId(tables, schema)
    ensures Integrity(tables, map[schema.tableName := schema])
    ensures var n := CreateStep(tables, schema, map["id" := Str("b"), "email" := Str("a")], "b", now);
      n.reply.Ok? && !Integrity(n.tables, map[schema.tableName := schema])
  {
    var schemas: Schemas := map[schema.tableName := schema];
    var data: Record := map["id" := Str("b"), "email" := Str("a")];
    var record := Prepared(schema, data, "b", now);
    assert Get(record, "email") == Str("a") && Get(record, "id") == Str("b");
    assert SameUnique(record, tables[schema.tableName][""], "email");
    AcceptedCreate(tables, schema, data, "b", now);
    CreateKeepsIntegrityIff(tables, schemas, schema, data, "b", now);
  }

  // ---------- Update ----------

  /**
   * An accepted Update keeps integrity exactly when it leaves "id" alone.
   */
  lemma UpdateKeepsIntegrityIff(tables: Tables, schemas: Schemas, schema: Schema, id: Id,
                                data: Record, now: int)
    requires Integrity(tables, schemas) && Registered(schemas, schema)
    requires UpdateStep(tables, schema, id, data, now).reply.Ok?
    ensures Integrity(UpdateStep(tables, schema, id, data, now).tables, schemas)
       <==> ("id" in data ==> data["id"] == Str(id))
  {
    var own := schema.tableName;
    var table := tables[own];
    var record := Updated(table[id], data, now);
    var after := table[id := record];
    assert Get(table[id], "id") == Str(id);
    if "id" in data && data["id"] != Str(id) {
      assert Get(after[id], "id") != Str(id);
      assert !KeysMatch(after);
    } else {
      assert TableOk(tables, schema);
      RowReplaced(schema, table, id, record);
      assert tables[own := TableOf(tables, own)] == tables;
      OwnTableChanged(tables, after, schemas, schema);
    }
  }

  /** One table without constraints, and in it one row with id "a". */
  ghost predicate OneRow(tables: Tables, schema: Schema) {
    && schema.indexes == [] && schema.fields == map[]
    && tables.Keys == {schema.tableName} && tables[schema.tableName].Keys == {"a"}
    && tables[schema.tableName]["a"] == map["id" := Str("a")]
  }

  /** There an Update of the id is accepted, and the row is no longer stored under its own id. */
  lemma UpdateOfIdAccepted(tables: Tables, schema: Schema, now: int)
    requires OneRow(tables, schema)
    ensures var schemas := map[schema.tableName := schema];
      var n := UpdateStep(tables, schema, "a", map["id" := Str("b")], now);
      Integrity(tables, schemas) && n.reply.Ok? && !Integrity(n.tables, schemas)
  {
    var schemas := map[schema.tableName := schema];
    var data: Record := map["id" := Str("b")];
    assert Integrity(tables, schemas);
    assert "id" in data && data["id"] != Str("a");
    UpdateKeepsIntegrityIff(tables, schemas, schema, "a", data, now);
  }

  /** Whether a registered reference of another table names this id of the table. */
  ghost predicate ReferredToElsewhere(tables: Tables, schemas: Schemas, own: string, id: Id) {
    exists t, row, name :: CellRefers(tables, schemas, t, row, name, own, id)
  }

  ghost predicate CellRefers(tables: Tables, schemas: Schemas, t: string, row: Id, name: string,
                             own: string, id: Id) {
    && t in schemas && t in tables && t != own && row in tables[t]
    && name in schemas[t].fields && schemas[t].fields[name].foreignKey == Some(ForeignKey(own, "id"))
    && Get(tables[t][row], name) == Str(id)
  }

  /** The references of all tables but one, to ids of any other table. */
  ghost predicate RefsElsewhereOk(tables: Tables, schemas: Schemas, own: string) {
    forall t :: t in schemas && t in tables && t != own ==> RowsRefsOk(tables, schemas[t], tables[t])
  }

  ghost predicate RowsRefsOk(tables: Tables, schema: Schema, rows: Table) {
    forall row :: row in rows ==> RowRefsOk(tables, schema, rows[row])
  }

  /**
   * An accepted Update leaves every other table's references resolving exactly when it leaves "id"
   * alone or no other table refers to the row.
   */
  lemma UpdateKeepsRefsElsewhereIff(tables: Tables, schemas: Schemas, schema: Schema, id: Id,
                                    data: Record, now: int)
    requires Integrity(tables, schemas) && Registered(schemas, schema)
    requires UpdateStep(tables, schema, id, data, now).reply.Ok?
    ensures RefsElsewhereOk(UpdateStep(tables, schema, id, data, now).tables, schemas, schema.tableName)
       <==> ("id" in data ==> data["id"] == Str(id))
            || !ReferredToElsewhere(tables, schemas, schema.tableName, id)
  {
    var own := schema.tableName;
    var table := tables[own];
    var record := Updated(table[id], data, now);
    var after := tables[own := table[id := record]];
    assert UpdateStep(tables, schema, id, data, now).tables == after;
    assert Get(record, "id") == if "id" in data then data["id"] else Str(id);
    RowChangeKeepsRefsIff(tables, after, schemas, own, id, record);
  }

  lemma RowChangeKeepsRefsIff(tables: Tables, after: Tables, schemas: Schemas, own: string, id: Id, record: Record)
    requires Integrity(tables, schemas) && own in tables && id in tables[own]
    requires after == tables[own := tables[own][id := record]]
    ensures RefsElsewhereOk(after, schemas, own)
       <==> Get(record, "id") == Str(id) || !ReferredToElsewhere(tables, schemas, own, id)
  {
    if Get(record, "id") != Str(id) {
      forall t, row, name | CellRefers(tables, schemas, t, row, name, own, id)
        ensures !RefsElsewhereOk(after, schemas, own)
      {
        assert CrossRef(schemas[t], name) && !RowRefsOk(after, schemas[t], after[t][row]);
        assert !RowsRefsOk(after, schemas[t], after[t]);
      }
    }
    if Get(record, "id") == Str(id) || !ReferredToElsewhere(tables, schemas, own, id) {
      forall t, row | t in schemas && t in after && t != own && row in after[t]
        ensures RowRefsOk(after, schemas[t], after[t][row])
      {
        assert TableOk(tables, schemas[t]);
        forall name | CrossRef(schemas[t], name)
          ensures FieldRefOk(after, schemas[t].fields[name], Get(after[t][row], name))
        {
          CellKeepsRef(tables, after, schemas, own, id, record, t, row, name);
        }
      }
    }
  }

  lemma CellKeepsRef(tables: Tables, after: Tables, schemas: Schemas, own: string, id: Id, record: Record,
                     t: string, row: Id, name: string)
    requires own in tables && id in tables[own] && KeysMatch(tables[own])
    requires after == tables[own := tables[own][id := record]]
    requires t in schemas && t in tables && t != own && row in tables[t] && CrossRef(schemas[t], name)
    requires FieldRefOk(tables, schemas[t].fields[name], Get(tables[t][row], name))
    requires Get(record, "id") == Str(id) || !CellRefers(tables, schemas, t, row, name, own, id)
    ensures FieldRefOk(after, schemas[t].fields[name], Get(after[t][row], name))
  {
    var fk := schemas[t].fields[name].foreignKey.value;
    var v := Get(tables[t][row], name);
    if v != Null && fk.table == own {
      var target :| target in tables[own] && Get(tables[own][target], "id") == v;
      assert target in after[own] && Get(after[own][target], "id") == v;
    }
  }

  /** A table with one row "a", and another whose one row refers to it. */
  ghost predicate ReferredRow(tables: Tables, parents: Schema, children: Schema) {
    && parents.tableName != children.tableName
    && parents.indexes == [] && parents.fields == map[]
    && children.indexes == [] && children.fields.Keys == {"parent"}
    && children.fields["parent"]
       == FieldSchema(StringField, true, Null, false, Some(ForeignKey(parents.tableName, "id")))
    && tables.Keys == {parents.tableName, children.tableName}
    && tables[parents.tableName] == map["a" := map["id" := Str("a")]]
    && tables[children.tableName] == map["b" := map["id" := Str("b"), "parent" := Str("a")]]
  }

  /** There an Update of the parent's id is accepted, and the child's reference no longer resolves. */
  lemma UpdateOfIdOrphansChild(tables: Tables, parents: Schema, children: Schema, now: int)
    requires ReferredRow(tables, parents, children)
    ensures var schemas := map[parents.tableName := parents, children.tableName := children];
      var n := UpdateStep(tables, parents, "a", map["id" := Str("c")], now);
      && Integrity(tables, schemas) && n.reply.Ok?
      && children.tableName in n.tables && "b" in n.tables[children.tableName]
      && !RowRefsOk(n.tables, children, n.tables[children.tableName]["b"])
  {
    var schemas := map[parents.tableName := parents, children.tableName := children];
    var data: Record := map["id" := Str("c")];
    ReferredRowOk(tables, parents, children);
    var n := UpdateStep(tables, parents, "a", data, now);
    assert n.reply.Ok?;
    assert CellRefers(tables, schemas, children.tableName, "b", "parent", parents.tableName, "a");
    UpdateKeepsRefsElsewhereIff(tables, schemas, parents, "a", data, now);
    assert !RowsRefsOk(n.tables, children, n.tables[children.tableName]);
  }

  lemma ReferredRowOk(tables: Tables, parents: Schema, children: Schema)
    requires ReferredRow(tables, parents, children)
    ensures Integrity(tables, map[parents.tableName := parents, children.tableName := children])
  {
    var rows := tables[children.tableName];
    assert Resolves(tables, ForeignKey(parents.tableName, "id"), Str("a")) by {
      assert "a" in tables[parents.tableName] && Get(tables[parents.tableName]["a"], "id") == Str("a");
    }
    assert RowRefsOk(tables, children, rows["b"]);
  }

  lemma RowReplaced(schema: Schema, table: Table, id: Id, record: Record)
    requires UniqueOk(schema, table) && id in table && ClashFree(schema, table, record, id)
    ensures UniqueOk(schema, table[id := record])
  {
  }

  // ---------- Delete ----------

  /** An accepted Delete always keeps integrity. */
  lemma DeleteKeepsIntegrity(tables: Tables, schemas: Schemas, schema: Schema, id: Id)
    requires Integrity(tables, schemas) && Registered(schemas, schema)
    requires DeleteStep(tables, schema, id).reply.Deleted?
    ensures Integrity(DeleteStep(tables, schema, id).tables, schemas)
    ensures id !in DeleteStep(tables, schema, id).tables[schema.tableName]
  {
    var own := schema.tableName;
    assert TableOk(tables, schema);
    assert tables[own := TableOf(tables, own)] == tables;
    OwnTableChanged(tables, DeleteStep(tables, schema, id).tables[own], schemas, schema);
  }

  /** References of a table to its own ids. */
  ghost predicate SelfRef(schema: Schema, name: string) {
    && name in schema.fields
    && schema.fields[name].foreignKey == Some(ForeignKey(schema.tableName, "id"))
  }

  ghost predicate RowSelfRefsOk(tables: Tables, schema: Schema, record: Record) {
    forall name :: SelfRef(schema, name) ==>
      FieldRefOk(tables, schema.fields[name], Get(record, name))
  }

  ghost predicate SelfRefsOk(tables: Tables, schema: Schema) {
    schema.tableName in tables ==>
      forall id :: id in tables[schema.tableName] ==>
        RowSelfRefsOk(tables, schema, tables[schema.tableName][id])
  }

  ghost predicate NoOtherRowRefersTo(table: Table, schema: Schema, id: Id) {
    forall row :: row in table && row != id ==> !RefersTo(schema, table[row], id)
  }

  ghost predicate RefersTo(schema: Schema, record: Record, id: Id) {
    exists name :: SelfRef(schema, name) && Get(record, name) == Str(id)
  }

  /**
   * References inside one table are not looked at by Delete: they survive exactly when no other
   * row refers to the deleted one.
   */
  lemma DeleteKeepsSelfRefsIff(tables: Tables, schemas: Schemas, schema: Schema, id: Id)
    requires Integrity(tables, schemas) && Registered(schemas, schema) && SelfRefsOk(tables, schema)
    requires DeleteStep(tables, schema, id).reply.Deleted?
    ensures SelfRefsOk(DeleteStep(tables, schema, id).tables, schema)
       <==> NoOtherRowRefersTo(tables[schema.tableName], schema, id)
  {
    var own := schema.tableName;
    var after := DeleteStep(tables, schema, id).tables;
    DeleteKeepsIntegrity(tables, schemas, schema, id);
    SelfRefsAfterDelete(tables, after, schema, id);
  }

  lemma SelfRefsAfterDelete(tables: Tables, after: Tables, schema: Schema, id: Id)
    requires schema.tableName in tables && schema.tableName in after && SelfRefsOk(tables, schema)
    requires KeysMatch(tables[schema.tableName]) && KeysMatch(after[schema.tableName])
    requires var table := tables[schema.tableName];
      after[schema.tableName] == map i | i in table && i != id :: table[i]
    ensures SelfRefsOk(after, schema) <==> NoOtherRowRefersTo(tables[schema.tableName], schema, id)
  {
  }

  /** A table whose rows name a parent in the same table, and in it a parent "a" and its child "b". */
  ghost predicate ParentAndChild(tables: Tables, schema: Schema) {
    && schema.indexes == [] && schema.fields.Keys == {"parent"}
    && schema.fields["parent"]
       == FieldSchema(StringField, true, Null, false, Some(ForeignKey(schema.tableName, "id")))
    && tables.Keys == {schema.tableName} && tables[schema.tableName].Keys == {"a", "b"}
    && tables[schema.tableName]["a"] == map["id" := Str("a")]
    && tables[schema.tableName]["b"] == map["id" := Str("b"), "parent" := Str("a")]
  }

  /** There the parent can be deleted, and the child's reference no longer resolves. */
  lemma DeleteOrphansChild(tables: Tables, schema: Schema)
    requires ParentAndChild(tables, schema)
    ensures Integrity(tables, map[schema.tableName := schema]) && SelfRefsOk(tables, schema)
    ensures var n := DeleteStep(tables, schema, "a");
      n.reply.Deleted? && !SelfRefsOk(n.tables, schema)
  {
    var schemas := map[schema.tableName := schema];
    var table := tables[schema.tableName];
    assert forall f :: f in schema.fields ==> f == "parent";
    assert Resolves(tables, ForeignKey(schema.tableName, "id"), Str("a")) by {
      assert "a" in table && Get(table["a"], "id") == Str("a");
    }
    assert Integrity(tables, schemas);
    assert SelfRefsOk(tables, schema);
    assert SelfRef(schema, "parent") && Get(table["b"], "parent") == Str("a");
    assert RefersTo(schema, table["b"], "a");
    assert DeleteStep(tables, schema, "a").reply.Deleted?;
    DeleteKeepsSelfRefsIff(tables, schemas, schema, "a");
  }

  // ---------- Upsert ----------

  /** Upsert is one of the two, so it keeps integrity under the same condition as the one it is. */
  lemma UpsertKeepsIntegrityIff(tables: Tables, schemas: Schemas, schema: Schema, wanted: Record,
                                data: Record, pick: Option<Id>, freshId: Id, now: int)
    requires Integrity(tables, schemas) && Registered(schemas, schema)
    requires FirstMatch(TableOf(tables, schema.tableName), wanted, pick)
    requires UpsertStep(tables, schema, wanted, data, pick, freshId, now).reply.Ok?
    ensures var n := UpsertStep(tables, schema, wanted, data, pick, freshId, now);
      Integrity(n.tables, schemas)
      <==> match pick
           case None => !ClashesWithEmptyId(tables, schema, Prepared(schema, data + wanted, freshId, now))
           case Some(row) => "id" in data ==> data["id"] == Str(row)
  {
    match pick
    case None => CreateKeepsIntegrityIff(tables, schemas, schema, data + wanted, freshId, now);
    case Some(row) =>
      assert Get(tables[schema.tableName][row], "id") == Str(row);
      UpdateKeepsIntegrityIff(tables, schemas, schema, row, data, now);
  }
}
