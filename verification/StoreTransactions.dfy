/** Snapshot transactions (backends/memory/transaction.go, database.go) as a state machine. */
module StoreTransactions {
  import opened Options
  import opened Records
  import opened RelationalStore
  import opened StoreIntegrity

  datatype WriteOp =
    | Create(data: Record, freshId: Id, now: int)
    | Update(id: Id, data: Record, now: int)
    | Delete(id: Id)

  /** What a transaction's callback can do, one call after the other. */
  datatype TxCall = Write(schema: Schema, op: WriteOp) | CommitTx | RollbackTx

  /** `panicked` is set once a call has panicked: the callback is being unwound. */
  datatype TxState = TxState(
    tables: Tables, snapshot: Tables, committed: bool, rolledBack: bool, panicked: bool)

  datatype TxResult = TxResult(tables: Tables, ok: bool)

  function WriteStep(tables: Tables, schema: Schema, op: WriteOp): Next {
    match op
    case Create(data, freshId, now) => CreateStep(tables, schema, data, freshId, now)
    case Update(id, data, now) => UpdateStep(tables, schema, id, data, now)
    case Delete(id) => DeleteStep(tables, schema, id)
  }

  function Begin(tables: Tables): TxState {
    TxState(tables, tables, false, false, false)
  }

  predicate Completed(s: TxState) {
    s.committed || s.rolledBack
  }

  function Commit(s: TxState): TxState {
    if Completed(s) then s else s.(committed := true)
  }

  function Rollback(s: TxState): TxState {
    if Completed(s) then s else s.(tables := s.snapshot, rolledBack := true)
  }

  /** A panic leaves the callback, so nothing after it in the script happens. */
  function CallStep(s: TxState, c: TxCall): TxState {
    if s.panicked then s
    else match c
      case Write(schema, op) =>
        var n := WriteStep(s.tables, schema, op);
        s.(tables := n.tables, panicked := n.reply == Err(Panic))
      case CommitTx => Commit(s)
      case RollbackTx => Rollback(s)
  }

  function RunCalls(s: TxState, script: seq<TxCall>): TxState {
    if script == [] then s else CallStep(RunCalls(s, script[..|script| - 1]), script[|script| - 1])
  }

  /**
   * The driver: roll back when the callback fails, commit otherwise. When it panics only the
   * deferred rollback runs, and the panic goes on to the caller.
   */
  function Outcome(tables: Tables, script: seq<TxCall>, fails: bool): TxResult {
    var s := RunCalls(Begin(tables), script);
    if s.panicked || fails then TxResult(Rollback(s).tables, false)
    else TxResult(Commit(s).tables, !Completed(s))
  }

  datatype Written = Written(tables: Tables, panicked: bool)

  /** What the writes of a script alone leave behind, up to the first that panics. */
  function Writes(tables: Tables, script: seq<TxCall>): Written {
    if script == [] then Written(tables, false)
    else
      var n := |script| - 1;
      var w := Writes(tables, script[..n]);
      match script[n]
      case Write(schema, op) =>
        if w.panicked then w
        else
          var next := WriteStep(w.tables, schema, op);
          Written(next.tables, next.reply == Err(Panic))
      case _ => w
  }

  predicate OnlyWrites(script: seq<TxCall>) {
    forall i :: 0 <= i < |script| ==> script[i].Write?
  }

  lemma {:induction false} WritesBeforeCompletion(tables: Tables, script: seq<TxCall>)
    requires OnlyWrites(script)
    ensures var w := Writes(tables, script);
      RunCalls(Begin(tables), script) == Begin(tables).(tables := w.tables, panicked := w.panicked)
  {
    if script != [] {
      WritesBeforeCompletion(tables, script[..|script| - 1]);
    }
  }

  /** A completed transaction no longer touches anything: only writes count from there on. */
  lemma {:induction false} WritesAfterCompletion(s: TxState, script: seq<TxCall>)
    requires Completed(s) && !s.panicked
    ensures var w := Writes(s.tables, script);
      RunCalls(s, script) == s.(tables := w.tables, panicked := w.panicked)
  {
    if script != [] {
      WritesAfterCompletion(s, script[..|script| - 1]);
    }
  }

  /** Unwinding skips the rest of the script. */
  lemma {:induction false} NothingAfterPanic(s: TxState, script: seq<TxCall>)
    requires s.panicked
    ensures RunCalls(s, script) == s
  {
    if script != [] {
      NothingAfterPanic(s, script[..|script| - 1]);
    }
  }

  lemma LastOfConcat(a: seq<TxCall>, b: seq<TxCall>)
    requires b != []
    ensures var n := |a + b| - 1;
      (a + b)[..n] == a + b[..|b| - 1] && (a + b)[n] == b[|b| - 1]
  {
  }

  lemma {:induction false} RunCallsConcat(s: TxState, a: seq<TxCall>, b: seq<TxCall>)
    ensures RunCalls(s, a + b) == RunCalls(RunCalls(s, a), b)
  {
    hide CallStep;
    if b == [] {
      assert a + b == a;
    } else {
      var n := |b| - 1;
      RunCallsConcat(s, a, b[..n]);
      LastOfConcat(a, b);
    }
  }

  lemma {:induction false} WritesConcat(tables: Tables, a: seq<TxCall>, b: seq<TxCall>)
    ensures var w := Writes(tables, a);
      Writes(tables, a + b) == if w.panicked then w else Writes(w.tables, b)
  {
    hide WriteStep;
    if b == [] {
      assert a + b == a;
    } else {
      var n := |b| - 1;
      WritesConcat(tables, a, b[..n]);
      LastOfConcat(a, b);
    }
  }

  /**
   * The tables after any transaction, by the first completing call in its script: with none, a
   * failure or a panic restores exactly the prior tables and success keeps all writes; after an
   * explicit commit neither restores anything; after an explicit rollback the later writes stand.
   * A panic before the completing call means that the call never happens.
   */
  lemma TransactionOutcome(tables: Tables, before: seq<TxCall>, after: seq<TxCall>, fails: bool)
    requires OnlyWrites(before)
    ensures var w := Writes(tables, before);
      Outcome(tables, before, fails)
      == if fails || w.panicked then TxResult(tables, false) else TxResult(w.tables, true)
    ensures Outcome(tables, before + [CommitTx] + after, fails)
         == TxResult(if Writes(tables, before).panicked then tables else Writes(tables, before + after).tables, false)
    ensures Outcome(tables, before + [RollbackTx] + after, fails)
         == TxResult(if Writes(tables, before).panicked then tables else Writes(tables, after).tables, false)
  {
    WritesBeforeCompletion(tables, before);
    var s := RunCalls(Begin(tables), before);
    WritesConcat(tables, before, after);
    CompletedBy(tables, before, CommitTx, after);
    CompletedBy(tables, before, RollbackTx, after);
    if s.panicked {
      NothingAfterPanic(s, after);
    } else {
      WritesAfterCompletion(CallStep(s, CommitTx), after);
      WritesAfterCompletion(CallStep(s, RollbackTx), after);
    }
  }

  lemma CompletedBy(tables: Tables, before: seq<TxCall>, c: TxCall, after: seq<TxCall>)
    ensures RunCalls(Begin(tables), before + [c] + after)
         == RunCalls(CallStep(RunCalls(Begin(tables), before), c), after)
  {
    RunCallsConcat(Begin(tables), before + [c], after);
    assert (before + [c])[..|before|] == before;
  }

  /** A failure after an explicit commit restores nothing, where the same failure without one restores all. */
  lemma CommitSurvivesFailure(schema: Schema, now: int)
    requires schema.fields == map[] && schema.indexes == []
    ensures var create := Write(schema, Create(map[], "a", now));
      var r := Outcome(map[], [create, CommitTx], true);
      && Outcome(map[], [create], true) == TxResult(map[], false)
      && !r.ok && r.tables.Keys == {schema.tableName} && r.tables[schema.tableName].Keys == {"a"}
  {
    var create := Write(schema, Create(map[], "a", now));
    TransactionOutcome(map[], [create], [], true);
    assert [create] + [CommitTx] + [] == [create, CommitTx] && [create] + [] == [create] && [create][..0] == [];
    var record := Prepared(schema, map[], "a", now);
    assert CreateStep(map[], schema, map[], "a", now)
        == Next(map[schema.tableName := map["a" := record]], Ok(record));
  }

  // ---------- Integrity across transactions ----------

  /** Writes that keep integrity: registered schema, no empty id, "id" left alone by updates. */
  predicate Careful(schemas: Schemas, c: TxCall) {
    c.Write? ==>
      && c.schema.tableName in schemas && schemas[c.schema.tableName] == c.schema
      && (c.op.Create? ==> c.op.freshId != "" && ("id" in c.op.data ==> c.op.data["id"] != Str("")))
      && (c.op.Update? ==> "id" !in c.op.data)
  }

  ghost predicate NoEmptyIds(tables: Tables) {
    forall t :: t in tables ==> "" !in tables[t]
  }

  lemma WriteKeepsIntegrity(tables: Tables, schemas: Schemas, c: TxCall)
    requires Integrity(tables, schemas) && NoEmptyIds(tables) && c.Write? && Careful(schemas, c)
    ensures Integrity(WriteStep(tables, c.schema, c.op).tables, schemas)
    ensures NoEmptyIds(WriteStep(tables, c.schema, c.op).tables)
  {
    hide Integrity, NoEmptyIds, CreateStep, UpdateStep, DeleteStep;
    match c.op
    case Create(data, freshId, now) => CreateIsCareful(tables, schemas, c.schema, data, freshId, now);
    case Update(id, data, now) => UpdateIsCareful(tables, schemas, c.schema, id, data, now);
    case Delete(id) => DeleteIsCareful(tables, schemas, c.schema, id);
  }

  lemma UpdateIsCareful(tables: Tables, schemas: Schemas, schema: Schema, id: Id, data: Record, now: int)
    requires Integrity(tables, schemas) && NoEmptyIds(tables) && Registered(schemas, schema) && "id" !in data
    ensures var n := UpdateStep(tables, schema, id, data, now);
      Integrity(n.tables, schemas) && NoEmptyIds(n.tables)
  {
    hide Integrity, ClashFree, RefsResolve, Updated;
    if UpdateStep(tables, schema, id, data, now).reply.Ok? {
      UpdateKeepsIntegrityIff(tables, schemas, schema, id, data, now);
    }
  }

  lemma DeleteIsCareful(tables: Tables, schemas: Schemas, schema: Schema, id: Id)
    requires Integrity(tables, schemas) && NoEmptyIds(tables) && Registered(schemas, schema)
    ensures var n := DeleteStep(tables, schema, id);
      Integrity(n.tables, schemas) && NoEmptyIds(n.tables)
  {
    hide Integrity, HeldElsewhere;
    if DeleteStep(tables, schema, id).reply.Deleted? {
      DeleteKeepsIntegrity(tables, schemas, schema, id);
    }
  }

  lemma CreateIsCareful(tables: Tables, schemas: Schemas, schema: Schema, data: Record,
                        freshId: Id, now: int)
    requires Integrity(tables, schemas) && NoEmptyIds(tables) && Registered(schemas, schema)
    requires freshId != "" && ("id" in data ==> data["id"] != Str(""))
    ensures var n := CreateStep(tables, schema, data, freshId, now);
      Integrity(n.tables, schemas) && NoEmptyIds(n.tables)
  {
    var record := Prepared(schema, data, freshId, now);
    assert record["id"] == if "id" in data then data["id"] else Str(freshId);
    AcceptedCreate(tables, schema, data, freshId, now);
    RefusalKeepsIntegrity(tables, schemas, schema);
    if CreateStep(tables, schema, data, freshId, now).reply.Ok? {
      CreateKeepsIntegrityIff(tables, schemas, schema, data, freshId, now);
      assert !ClashesWithEmptyId(tables, schema, record);
    }
  }

  /** Every transaction of careful writes, however it ends, leaves the database consistent. */
  lemma TransactionKeepsIntegrity(tables: Tables, schemas: Schemas, script: seq<TxCall>, fails: bool)
    requires Integrity(tables, schemas) && NoEmptyIds(tables)
    requires forall i :: 0 <= i < |script| ==> Careful(schemas, script[i])
    ensures Integrity(Outcome(tables, script, fails).tables, schemas)
    ensures NoEmptyIds(Outcome(tables, script, fails).tables)
  {
    CallsKeepIntegrity(tables, schemas, script);
  }

  lemma {:induction false} CallsKeepIntegrity(tables: Tables, schemas: Schemas, script: seq<TxCall>)
    requires Integrity(tables, schemas) && NoEmptyIds(tables)
    requires forall i :: 0 <= i < |script| ==> Careful(schemas, script[i])
    ensures var s := RunCalls(Begin(tables), script);
      Integrity(s.tables, schemas) && NoEmptyIds(s.tables) && s.snapshot == tables
  {
    if script != [] {
      var n := |script| - 1;
      CallsKeepIntegrity(tables, schemas, script[..n]);
      if script[n].Write? && !RunCalls(Begin(tables), script[..n]).panicked {
        WriteKeepsIntegrity(RunCalls(Begin(tables), script[..n]).tables, schemas, script[n]);
      }
    }
  }
}
