/**
 * The store in its own form: a database object whose tables every repository call updates in
 * place, constraint validators as loops over rows and columns, and snapshot transactions.
 */
module MemoryDatabase {
  import opened Options
  import opened Records
  import opened RelationalStore
  import opened StoreIntegrity
  import opened StoreTransactions
  import opened QueryBuilder
  import opened Filters
  import opened Queries

  class Database {
    var tables: Tables
    var schemas: Schemas
    var connected: bool

    constructor ()
      ensures tables == map[] && schemas == map[] && !connected
      ensures Integrity(tables, schemas)
    {
      tables, schemas, connected := map[], map[], false;
    }

    /**
     * Runs a script of calls in a transaction; `fails` is whether the script ends in an error. A
     * panic in a call ends the script, and only the deferred rollback runs.
     */
    method Transaction(script: seq<TxCall>, fails: bool) returns (ok: bool)
      modifies this`tables
      ensures !old(connected) ==> !ok && tables == old(tables)
      ensures old(connected) ==> tables == Outcome(old(tables), script, fails).tables
      ensures old(connected) ==> ok == Outcome(old(tables), script, fails).ok
    {
      if !connected {
        return false;
      }
      var tx := new Transaction(this);
      var panicked := false;
      for i := 0 to |script|
        invariant tx.db == this
        invariant TxState(tables, tx.snapshot, tx.committed, tx.rolledBack, panicked)
               == RunCalls(Begin(old(tables)), script[..i])
      {
        assert script[..i + 1][..i] == script[..i];
        if !panicked {
          match script[i]
          case Write(schema, op) =>
            var n := WriteStep(tables, schema, op);
            tables := n.tables;
            panicked := n.reply == Err(Panic);
          case CommitTx =>
            var done := tx.Commit();
          case RollbackTx =>
            var done := tx.Rollback();
        }
      }
      assert script[..|script|] == script;
      if panicked || fails {
        var done := tx.Rollback();
        return false;
      }
      ok := tx.Commit();
    }
  }

  class Transaction {
    const db: Database
    var snapshot: Tables
    var committed: bool
    var rolledBack: bool

    /** Copies every row of every table. */
    constructor (db: Database)
      ensures this.db == db && snapshot == db.tables && !committed && !rolledBack
    {
      this.db := db;
      snapshot, committed, rolledBack := map[], false, false;
      new;
      var names := db.tables.Keys;
      while names != {}
        invariant names <= db.tables.Keys
        invariant db.tables == old(db.tables) && this.db == db && !committed && !rolledBack
        invariant snapshot == map t | t in db.tables && t !in names :: db.tables[t]
      {
        var name :| name in names;
        names := names - {name};
        var copy := CopyTable(db.tables[name]);
        snapshot := snapshot[name := copy];
      }
    }

    method Commit() returns (ok: bool)
      modifies this
      ensures ok == !(old(committed) || old(rolledBack))
      ensures snapshot == old(snapshot) && rolledBack == old(rolledBack)
      ensures committed == (old(committed) || ok)
    {
      if committed || rolledBack {
        return false;
      }
      committed := true;
      return true;
    }

    method Rollback() returns (ok: bool)
      modifies this, db`tables
      ensures ok == !(old(committed) || old(rolledBack))
      ensures snapshot == old(snapshot) && committed == old(committed)
      ensures rolledBack == (old(rolledBack) || ok)
      ensures db.tables == if ok then old(snapshot) else old(db.tables)
    {
      if committed || rolledBack {
        return false;
      }
      db.tables := snapshot;
      rolledBack := true;
      return true;
    }
  }

  method CopyTable(table: Table) returns (copy: Table)
    ensures copy == table
  {
    copy := map[];
    var ids := table.Keys;
    while ids != {}
      invariant ids <= table.Keys
      invariant copy == map i | i in table && i !in ids :: table[i]
    {
      var id :| id in ids;
      ids := ids - {id};
      var row := Copy(table[id]);
      copy := copy[id := row];
    }
  }

  class Repository {
    const db: Database
    const schema: Schema

    /** Opening a repository registers its schema. */
    constructor (db: Database, schema: Schema)
      modifies db`schemas
      ensures this.db == db && this.schema == schema
      ensures db.schemas == old(db.schemas)[schema.tableName := schema]
    {
      this.db, this.schema := db, schema;
      db.schemas := db.schemas[schema.tableName := schema];
    }

    // ---------- Validators ----------

    method ValidateUniqueFields(table: Table, record: Record, excludeId: Id) returns (ok: bool)
      ensures ok <==> forall f, id | f in schema.fields && schema.fields[f].unique && id in table && id != excludeId ::
                !SameUnique(record, table[id], f)
    {
      var fields := schema.fields.Keys;
      while fields != {}
        invariant fields <= schema.fields.Keys
        invariant forall f, id | f in schema.fields && f !in fields && schema.fields[f].unique
                                   && id in table && id != excludeId ::
                    !SameUnique(record, table[id], f)
      {
        var f :| f in fields;
        fields := fields - {f};
        if schema.fields[f].unique && Get(record, f) != Null {
          var ids := table.Keys;
          while ids != {}
            invariant ids <= table.Keys
            invariant forall id :: id in table && id !in ids && id != excludeId ==>
                        !SameUnique(record, table[id], f)
          {
            var id :| id in ids;
            ids := ids - {id};
            if id != excludeId && f in table[id] && table[id][f] == Get(record, f) {
              assert SameUnique(record, table[id], f);
              return false;
            }
          }
        }
      }
      return true;
    }

    method KeyParts(record: Record, columns: seq<string>) returns (parts: seq<Value>)
      ensures |parts| == |columns|
      ensures forall i :: 0 <= i < |columns| ==> parts[i] == Get(record, columns[i])
    {
      parts := [];
      for i := 0 to |columns|
        invariant |parts| == i
        invariant forall j :: 0 <= j < i ==> parts[j] == Get(record, columns[j])
      {
        parts := parts + [if columns[i] in record then record[columns[i]] else Null];
      }
    }

    method SameKey(a: Record, b: Record, columns: seq<string>) returns (same: bool)
      ensures same == SameTuple(a, b, columns)
    {
      var keyParts := KeyParts(a, columns);
      var existingKeyParts := KeyParts(b, columns);
      for i := 0 to |keyParts|
        invariant forall j :: 0 <= j < i ==> keyParts[j] == existingKeyParts[j]
      {
        if keyParts[i] != existingKeyParts[i] {
          return false;
        }
      }
      return true;
    }

    method ValidateUniqueIndexes(table: Table, record: Record, excludeId: Id) returns (ok: bool)
      ensures ok <==> forall i, id | 0 <= i < |schema.indexes| && schema.indexes[i].unique
                               && id in table && id != excludeId ::
                !SameTuple(record, table[id], schema.indexes[i].columns)
    {
      for n := 0 to |schema.indexes|
        invariant forall i, id | 0 <= i < n && schema.indexes[i].unique && id in table && id != excludeId ::
                    !SameTuple(record, table[id], schema.indexes[i].columns)
      {
        if schema.indexes[n].unique {
          var ids := table.Keys;
          while ids != {}
            invariant ids <= table.Keys
            invariant forall id :: id in table && id !in ids && id != excludeId ==>
                        !SameTuple(record, table[id], schema.indexes[n].columns)
          {
            var id :| id in ids;
            ids := ids - {id};
            if id != excludeId {
              var same := SameKey(record, table[id], schema.indexes[n].columns);
              if same {
                return false;
              }
            }
          }
        }
      }
      return true;
    }

    /** Accepts exactly the records that clash with no row but the excluded one. */
    method ValidateUniqueConstraints(table: Table, record: Record, excludeId: Id) returns (ok: bool)
      ensures ok == ClashFree(schema, table, record, excludeId)
    {
      var fieldsOk := ValidateUniqueFields(table, record, excludeId);
      if !fieldsOk {
        return false;
      }
      ok := ValidateUniqueIndexes(table, record, excludeId);
    }

    method RowExists(table: Table, column: string, value: Value) returns (found: bool)
      requires value != Null
      ensures found <==> exists id :: id in table && Get(table[id], column) == value
    {
      var ids := table.Keys;
      while ids != {}
        invariant ids <= table.Keys
        invariant forall id :: id in table && id !in ids ==> Get(table[id], column) != value
      {
        var id :| id in ids;
        ids := ids - {id};
        if column in table[id] && table[id][column] == value {
          return true;
        }
      }
      return false;
    }

    /** Accepts exactly the records all of whose non-null references resolve. */
    method ValidateForeignKeys(tables: Tables, record: Record) returns (ok: bool)
      ensures ok == RefsResolve(tables, schema, record)
    {
      var fields := schema.fields.Keys;
      while fields != {}
        invariant fields <= schema.fields.Keys
        invariant forall f :: f in schema.fields && f !in fields ==>
                    FieldRefOk(tables, schema.fields[f], Get(record, f))
      {
        var f :| f in fields;
        fields := fields - {f};
        if schema.fields[f].foreignKey.Some? && f in record && record[f] != Null {
          var fk := schema.fields[f].foreignKey.value;
          if fk.table !in tables {
            assert !FieldRefOk(tables, schema.fields[f], Get(record, f));
            return false;
          }
          var found := RowExists(tables[fk.table], fk.column, record[f]);
          if !found {
            assert !FieldRefOk(tables, schema.fields[f], Get(record, f));
            return false;
          }
        }
      }
      return true;
    }

    method RowHoldsId(record: Record, id: Id) returns (holds: bool)
      ensures holds == RowHolds(record, id)
    {
      var fields := record.Keys;
      while fields != {}
        invariant fields <= record.Keys
        invariant forall f :: f in record && f !in fields ==> record[f] != Str(id)
      {
        var f :| f in fields;
        fields := fields - {f};
        if record[f] == Str(id) {
          return true;
        }
      }
      return false;
    }

    method TableHoldsId(table: Table, id: Id) returns (holds: bool)
      ensures holds == HeldIn(table, id)
    {
      var rows := table.Keys;
      while rows != {}
        invariant rows <= table.Keys
        invariant forall r :: r in table && r !in rows ==> !RowHolds(table[r], id)
      {
        var r :| r in rows;
        rows := rows - {r};
        var found := RowHoldsId(table[r], id);
        if found {
          return true;
        }
      }
      return false;
    }

    /** Refuses exactly when a cell of another table holds the id. */
    method ValidateOnDelete(tables: Tables, id: Id) returns (ok: bool)
      ensures ok == !HeldElsewhere(tables, schema.tableName, id)
    {
      var names := tables.Keys;
      while names != {}
        invariant names <= tables.Keys
        invariant forall t :: t in tables && t !in names && t != schema.tableName ==> !HeldIn(tables[t], id)
      {
        var t :| t in names;
        names := names - {t};
        if t != schema.tableName {
          var found := TableHoldsId(tables[t], id);
          if found {
            return false;
          }
        }
      }
      return true;
    }

    // ---------- Calls ----------

    method Prepare(data: Record, freshId: Id, now: int) returns (record: Record)
      ensures record == Prepared(schema, data, freshId, now)
    {
      record := Copy(data);
      if "id" !in record {
        record := record["id" := Str(freshId)];
      }
      record := record["created_at" := Time(now)]["updated_at" := Time(now)];
      ghost var given := record;
      var fields := schema.fields.Keys;
      assert Defaults(schema, fields) == map[];
      hide Defaults;
      while fields != {}
        invariant fields <= schema.fields.Keys
        invariant record == Defaults(schema, fields) + given
      {
        var f :| f in fields;
        OneMoreDefault(schema, fields, f, given);
        fields := fields - {f};
        if f !in record && schema.fields[f].default != Null {
          record := record[f := schema.fields[f].default];
        }
      }
    }

    method Create(data: Record, freshId: Id, now: int) returns (reply: Reply)
      modifies db`tables
      ensures RelationalStore.Next(db.tables, reply)
           == CreateStep(old(db.tables), schema, data, freshId, now)
    {
      if !DataValid(schema, data) {
        return Err(Validation);
      }
      var record := Prepare(data, freshId, now);
      if schema.tableName !in db.tables {
        db.tables := db.tables[schema.tableName := map[]];
      }
      var table := db.tables[schema.tableName];
      assert table == TableOf(old(db.tables), schema.tableName);
      assert db.tables == old(db.tables)[schema.tableName := table];
      reply := Insert(table, record);
      assert old(db.tables)[schema.tableName := table][schema.tableName := db.tables[schema.tableName]]
          == old(db.tables)[schema.tableName := db.tables[schema.tableName]];
    }

    method Insert(table: Table, record: Record) returns (reply: Reply)
      requires schema.tableName in db.tables && db.tables[schema.tableName] == table
      modifies db`tables
      ensures RelationalStore.Next(db.tables, reply) == InsertStep(old(db.tables), schema, table, record)
    {
      if !Get(record, "id").Str? {
        return Err(Panic);
      }
      var id := record["id"].s;
      if id in table {
        return Err(Duplicate);
      }
      var unique := ValidateUniqueConstraints(table, record, "");
      if !unique {
        return Err(UniqueViolation);
      }
      var refs := ValidateForeignKeys(db.tables, record);
      if !refs {
        return Err(ForeignKeyViolation);
      }
      db.tables := db.tables[schema.tableName := table[id := record]];
      var result := Copy(record);
      return Ok(result);
    }

    method Update(id: Id, data: Record, now: int) returns (reply: Reply)
      modifies db`tables
      ensures RelationalStore.Next(db.tables, reply) == UpdateStep(old(db.tables), schema, id, data, now)
    {
      if schema.tableName !in db.tables || id !in db.tables[schema.tableName] {
        return Err(NotFound);
      }
      var table := db.tables[schema.tableName];
      var updated := Copy(table[id]);
      updated := Overlay(updated, data);
      updated := updated["updated_at" := Time(now)];
      var unique := ValidateUniqueConstraints(table, updated, id);
      if !unique {
        return Err(UniqueViolation);
      }
      var refs := ValidateForeignKeys(db.tables, updated);
      if !refs {
        return Err(ForeignKeyViolation);
      }
      db.tables := db.tables[schema.tableName := table[id := updated]];
      var result := Copy(updated);
      return Ok(result);
    }

    method Delete(id: Id) returns (reply: Reply)
      modifies db`tables
      ensures RelationalStore.Next(db.tables, reply) == DeleteStep(old(db.tables), schema, id)
    {
      if schema.tableName !in db.tables || id !in db.tables[schema.tableName] {
        return Err(NotFound);
      }
      var free := ValidateOnDelete(db.tables, id);
      if !free {
        return Err(ForeignKeyViolation);
      }
      var table := db.tables[schema.tableName];
      db.tables := db.tables[schema.tableName := table - {id}];
      assert table - {id} == map i | i in table && i != id :: table[i];
      return Deleted;
    }

    // ---------- Queries ----------

    /** A query's page; `rows` is the order in which the map happens to yield the table's rows. */
    method FindMany(q: Query) returns (page: Option<ResultPage>, ghost rows: seq<Record>)
      ensures schema.tableName !in db.tables ==> rows == [] && page == Some(ResultPage([], 0, 1, 0))
      ensures schema.tableName in db.tables ==> page == PageOf(rows, q)
      ensures Lists(rows, TableOf(db.tables, schema.tableName))
    {
      if schema.tableName !in db.tables {
        rows := [];
        ghost var none: seq<Id> := [];
        ghost var empty := TableOf(db.tables, schema.tableName);
        assert ListsRows(rows, none, empty, empty.Keys);
        return Some(ResultPage([], 0, 1, 0)), rows;
      }
      var table := db.tables[schema.tableName];
      var records := [];
      var ids := table.Keys;
      ghost var listed: seq<Id> := [];
      while ids != {}
        invariant ids <= table.Keys
        invariant ListsRows(records, listed, table, table.Keys - ids)
        decreases ids
      {
        var id :| id in ids;
        ids := ids - {id};
        var row := Copy(table[id]);
        records := records + [row];
        listed := listed + [id];
      }
      assert table.Keys - {} == table.Keys;
      rows := records;
      assert ListsRows(rows, listed, table, table.Keys);
      page := FindRows(records, q);
    }

    /** The first row of a query's result; None when there is none, or when the offset makes it panic. */
    method FindOne(q: Query) returns (found: Option<Record>, ghost rows: seq<Record>)
      ensures Lists(rows, TableOf(db.tables, schema.tableName))
      ensures var page := PageOf(rows, q.(limit := Some(1)));
        found == if page.Some? && page.value.data != [] then Some(page.value.data[0]) else None
    {
      var page;
      page, rows := FindMany(q.(limit := Some(1)));
      assert schema.tableName !in db.tables ==> PageHasNoRows(q.(limit := Some(1))) by {
        assert Kept([], q.where) == [];
      }
      if page.None? || |page.value.data| == 0 {
        return None, rows;
      }
      found := Some(page.value.data[0]);
    }

    method Upsert(wanted: Record, data: Record, freshId: Id, now: int)
      returns (reply: Reply, ghost pick: Option<Id>)
      modifies db`tables
      ensures FirstMatch(TableOf(old(db.tables), schema.tableName), wanted, pick)
      ensures RelationalStore.Next(db.tables, reply)
           == UpsertStep(old(db.tables), schema, wanted, data, pick, freshId, now)
    {
      var conditions, fields := WantedConditions(wanted);
      var q := EVERYTHING.(where := Filter(conditions, [], []));
      var found;
      ghost var rows;
      found, rows := FindOne(q);
      ghost var table := TableOf(db.tables, schema.tableName);
      pick := FirstIsAMatch(table, rows, q, wanted, fields, conditions);
      match found
      case Some(existing) =>
        var id := Get(existing, "id");
        if !id.Str? {
          reply := Err(Panic);
          return;
        }
        reply := Update(id.s, data, now);
      case None =>
        var createData := Copy(data);
        createData := Overlay(createData, wanted);
        reply := Create(createData, freshId, now);
    }

    /** One equality condition per wanted cell, in the order the map yields them. */
    static method WantedConditions(wanted: Record) returns (conditions: seq<Condition>, ghost fields: seq<string>)
      ensures |conditions| == |fields| && (forall f :: f in fields <==> f in wanted)
      ensures forall i :: 0 <= i < |fields| ==>
        fields[i] in wanted && conditions[i] == Condition(fields[i], wanted[fields[i]], None)
    {
      conditions, fields := [], [];
      var pending := wanted.Keys;
      while pending != {}
        invariant pending <= wanted.Keys && |conditions| == |fields|
        invariant forall f :: f in fields <==> f in wanted && f !in pending
        invariant forall i :: 0 <= i < |fields| ==>
          fields[i] in wanted && conditions[i] == Condition(fields[i], wanted[fields[i]], None)
        decreases pending
      {
        var f :| f in pending;
        pending := pending - {f};
        conditions := conditions + [Condition(f, wanted[f], None)];
        fields := fields + [f];
      }
    }
  }

  /** rows are the rows of the ids listed so far, each id once. */
  ghost predicate ListsRows(rows: seq<Record>, ids: seq<Id>, table: Table, listed: set<Id>) {
    && |rows| == |ids| && listed <= table.Keys
    && (forall i, j :: 0 <= i < j < |ids| ==> ids[i] != ids[j])
    && (forall id :: id in ids <==> id in listed)
    && (forall i :: 0 <= i < |ids| ==> ids[i] in table && rows[i] == table[ids[i]])
  }

  /** rows are all rows of the table, in some order. */
  ghost predicate Lists(rows: seq<Record>, table: Table) {
    exists ids :: ListsRows(rows, ids, table, table.Keys)
  }

  ghost predicate PageHasNoRows(q: Query) {
    PageOf([], q).Some? ==> PageOf([], q).value.data == []
  }

  /** What Upsert's query finds first is a row that matches all wanted cells, and none only if there is none. */
  lemma FirstIsAMatch(table: Table, rows: seq<Record>, q: Query, wanted: Record,
                      fields: seq<string>, conditions: seq<Condition>)
    returns (pick: Option<Id>)
    requires Lists(rows, table) && q == EVERYTHING.(where := Filter(conditions, [], []))
    requires |conditions| == |fields| && (forall f :: f in fields <==> f in wanted)
    requires forall i :: 0 <= i < |fields| ==>
      fields[i] in wanted && conditions[i] == Condition(fields[i], wanted[fields[i]], None)
    ensures FirstMatch(table, wanted, pick)
    ensures var page := PageOf(rows, q.(limit := Some(1)));
      if pick.None? then page.Some? ==> page.value.data == []
      else page.Some? && page.value.data != [] && page.value.data[0] == table[pick.value]
  {
    hide Holds, PageOf, MatchesAll;
    var kept := Kept(rows, q.where);
    KeptMeans(rows, q.where);
    FirstOfPage(rows, q);
    var ids :| ListsRows(rows, ids, table, table.Keys);
    if kept == [] {
      pick := None;
      forall id | id in table
        ensures !MatchesAll(table[id], wanted)
      {
        var i :| 0 <= i < |ids| && ids[i] == id;
        assert rows[i] in rows;
        WantedMatches(rows[i], wanted, fields, conditions);
      }
    } else {
      assert kept[0] in kept && kept[0] in rows;
      var i :| 0 <= i < |rows| && rows[i] == kept[0];
      WantedMatches(rows[i], wanted, fields, conditions);
      pick := Some(ids[i]);
    }
  }

  lemma WantedMatches(r: Record, wanted: Record, fields: seq<string>, conditions: seq<Condition>)
    requires |conditions| == |fields| && (forall f :: f in fields <==> f in wanted)
    requires forall i :: 0 <= i < |fields| ==>
      fields[i] in wanted && conditions[i] == Condition(fields[i], wanted[fields[i]], None)
    ensures Holds(r, Filter(conditions, [], [])) <==> MatchesAll(r, wanted)
  {
    WantedCells(r, wanted, fields, conditions);
  }

  /** Without an ordering the first page of one row is the first row kept. */
  lemma FirstOfPage(rows: seq<Record>, q: Query)
    requires q.order == [] && q.select == [] && q.offset == None
    ensures var kept, page := Kept(rows, q.where), PageOf(rows, q.(limit := Some(1)));
      page.Some? && if kept == [] then page.value.data == [] else page.value.data != [] && page.value.data[0] == kept[0]
  {
    hide Holds, Kept;
    var kept := Kept(rows, q.where);
    if kept != [] {
      UnorderedStays(kept, |kept| - 1);
    }
  }
}
