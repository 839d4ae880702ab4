/** A database session: stored records under their row ids, transactions and savepoints, the
    repository primitives, the sync-state helpers, and the lock bookkeeping kept in `session.info`.
    The ghost databases give every store through its natural keys. */
module Sessions {
  import opened Wrappers
  import opened Texts
  import opened Tables
  import opened Columns
  import opened LockRegistry

  datatype Record = Record(key: Key, cells: Cells)

  datatype Store = Store(records: map<RowId, Record>, states: map<StateKey, SyncState>, nextId: RowId)

  /** `db` is `s` by natural key.  No two records share a key, and every row id was drawn from the
      supply. */
  ghost predicate Represents(s: Store, db: Database) {
    && (forall i :: i in s.records ==>
          && i < s.nextId
          && s.records[i].key in db.rows
          && db.rows[s.records[i].key] == Row(i, s.records[i].cells))
    && (forall k :: k in db.rows ==> db.rows[k].id in s.records && s.records[db.rows[k].id].key == k)
    && db.states == s.states
    && db.nextId == s.nextId
  }

  lemma OverlayRepresents(s: Store, db: Database, i: RowId, payload: Cells)
    requires Represents(s, db) && i in s.records
    ensures var k, cells := s.records[i].key, s.records[i].cells + (Writable(s.records[i].key.table, payload) - KEY_COLUMNS);
      Represents(s.(records := s.records[i := Record(k, cells)]), Upserted(db, k, payload))
    ensures var k := s.records[i].key; k in db.rows && db.rows[k].id == i && Upserted(db, k, payload).rows[k].id == i
  {
    hide Writable;
  }

  lemma InsertRepresents(s: Store, db: Database, k: Key, payload: Cells)
    requires Represents(s, db) && k !in db.rows
    ensures var i, cells := s.nextId, Writable(k.table, payload) - KEY_COLUMNS;
      Represents(s.(records := s.records[i := Record(k, cells)], nextId := i + 1), Upserted(db, k, payload))
    ensures Upserted(db, k, payload).rows[k].id == s.nextId
  {
    hide Writable;
  }

  /** The columns an update protects reach the constructor of a new row. */
  lemma KeysAreWritable(table: Table, payload: Cells)
    ensures var filtered := Writable(table, payload);
      && filtered.Keys * KEY_COLUMNS == payload.Keys * KEY_COLUMNS
      && (filtered.Keys * KEY_COLUMNS == {} ==> filtered - KEY_COLUMNS == filtered)
  {
    var filtered := Writable(table, payload);
    if filtered.Keys * KEY_COLUMNS == {} {
      forall c | c in filtered ensures c !in KEY_COLUMNS {
        assert c in KEY_COLUMNS ==> c in filtered.Keys * KEY_COLUMNS;
      }
    }
  }

  lemma NaturalKeysAreUnique(s: Store, db: Database, i: RowId, j: RowId)
    requires Represents(s, db) && i in s.records && j in s.records
    requires s.records[i].key == s.records[j].key
    ensures i == j
  {
    assert db.rows[s.records[i].key] == Row(i, s.records[i].cells);
    assert db.rows[s.records[j].key] == Row(j, s.records[j].cells);
  }

  // The constructor of a model rejects a key column passed twice.
  datatype UpsertError = DuplicateArgument

  class Session {
    const registry: Registry
    var current: Store
    var committed: Store
    var savepoints: seq<Store>
    var inTransaction: bool
    var doomed: bool                  // the innermost scope was undone by a failed flush and only awaits its end
    var heldLocks: set<Tenant>

    ghost var db: Database            // what a query of this session sees
    ghost var committedDb: Database   // what is durable
    ghost var savedDbs: seq<Database> // what each savepoint would restore

    constructor (registry: Registry, stored: Store, ghost storedDb: Database)
      requires Represents(stored, storedDb)
      ensures Valid() && this.registry == registry && db == committedDb == storedDb
      ensures !inTransaction && !doomed && heldLocks == {}
    {
      this.registry := registry;
      current, committed := stored, stored;
      savepoints, inTransaction, doomed, heldLocks := [], false, false, {};
      db, committedDb, savedDbs := storedDb, storedDb, [];
    }

    ghost predicate Valid()
      reads this, registry
    {
      && Represents(current, db) && Represents(committed, committedDb)
      && |savedDbs| == |savepoints|
      && (forall i :: 0 <= i < |savepoints| ==> Represents(savepoints[i], savedDbs[i]))
      && (!inTransaction ==>
            savepoints == [] && current == committed && db == committedDb && !doomed && heldLocks == {})
      && heldLocks <= registry.Locked()
    }

    /** In a transaction that can be worked with. */
    predicate Ready()
      reads this
    {
      inTransaction && !doomed
    }

    /** What the end of the innermost scope by an exception would restore. */
    ghost function Innermost(): Database
      reads this
    {
      if savedDbs == [] then committedDb else savedDbs[|savedDbs| - 1]
    }

    // ---- Transactions ----

    /** A savepoint inside a running transaction, or a transaction of its own. */
    method BeginScope() returns (owns: bool)
      requires Valid() && !doomed
      modifies this`savepoints, this`inTransaction, this`savedDbs
      ensures Valid() && Ready() && owns == !old(inTransaction)
      ensures savedDbs == if owns then [] else old(savedDbs) + [db]
    {
      owns := !inTransaction;
      if owns {
        inTransaction := true;
      } else {
        savepoints, savedDbs := savepoints + [current], savedDbs + [db];
      }
    }

    /** Leaving the scope normally: commit, or release of the savepoint. */
    method CommitScope(owns: bool)
      requires Valid() && Ready() && (owns <==> savedDbs == [])
      modifies this`savepoints, this`inTransaction, this`committed, this`heldLocks, registry,
               this`committedDb, this`savedDbs
      ensures Valid()
      ensures owns ==>
        && !inTransaction && savedDbs == [] && committedDb == db
        && heldLocks == {} && registry.Locked() == old(registry.Locked() - heldLocks)
      ensures !owns ==>
        && inTransaction && savedDbs == old(savedDbs[..|savedDbs| - 1])
        && committedDb == old(committedDb) && heldLocks == old(heldLocks)
        && registry.Locked() == old(registry.Locked())
    {
      if owns {
        committed, committedDb, inTransaction := current, db, false;
        ReleaseFallbackLocks();
      } else {
        savepoints, savedDbs := savepoints[..|savepoints| - 1], savedDbs[..|savedDbs| - 1];
      }
    }

    /** Leaving the scope by an exception, or after it was undone: rollback of the transaction or to the
        savepoint. */
    method RollbackScope(owns: bool)
      requires Valid() && inTransaction && (owns <==> savedDbs == [])
      modifies this`savepoints, this`inTransaction, this`current, this`heldLocks, registry,
               this`db, this`savedDbs, this`doomed
      ensures Valid() && !doomed
      ensures owns ==>
        && !inTransaction && savedDbs == [] && db == committedDb
        && heldLocks == {} && registry.Locked() == old(registry.Locked() - heldLocks)
      ensures !owns ==>
        && inTransaction && savedDbs == old(savedDbs[..|savedDbs| - 1])
        && db == old(savedDbs[|savedDbs| - 1])
        && heldLocks == old(heldLocks) && registry.Locked() == old(registry.Locked())
    {
      doomed := false;
      if owns {
        current, db, inTransaction := committed, committedDb, false;
        ReleaseFallbackLocks();
      } else {
        current, db := savepoints[|savepoints| - 1], savedDbs[|savedDbs| - 1];
        savepoints, savedDbs := savepoints[..|savepoints| - 1], savedDbs[..|savedDbs| - 1];
      }
    }

    /** A flush that fails outside any scope of its own: the innermost scope around it is undone at once,
        and nothing can be done in it any more but to leave it. */
    method FailFlush()
      requires Valid() && Ready()
      modifies this`current, this`db, this`doomed
      ensures Valid() && doomed && db == old(Innermost())
    {
      doomed := true;
      if savepoints == [] {
        current, db := committed, committedDb;
      } else {
        current, db := savepoints[|savepoints| - 1], savedDbs[|savedDbs| - 1];
      }
    }

    /** The `after_transaction_end` hook of a root transaction: every lock the session holds goes. */
    method ReleaseFallbackLocks()
      modifies this`heldLocks, registry
      ensures heldLocks == {} && registry.Locked() == old(registry.Locked() - heldLocks)
    {
      var held := heldLocks;
      heldLocks := {};
      while held != {}
        invariant heldLocks == {} && held <= old(heldLocks)
        invariant registry.Locked() == old(registry.Locked()) - (old(heldLocks) - held)
        decreases held
      {
        var tenant :| tenant in held;
        registry.Release(tenant);
        held := held - {tenant};
      }
    }

    // ---- Locks ----

    method TryAcquireSyncLock(tenant: Tenant) returns (acquired: bool)
      requires Valid() && Ready()
      modifies this`heldLocks, registry
      ensures Valid() && (acquired <==> tenant !in old(registry.Locked()))
      ensures registry.Locked() == old(registry.Locked()) + {tenant}
      ensures heldLocks == if acquired then old(heldLocks) + {tenant} else old(heldLocks)
    {
      acquired := registry.TryAcquire(tenant);
      if acquired {
        heldLocks := heldLocks + {tenant};
      }
    }

    method ReleaseSyncLock(tenant: Tenant)
      requires Valid()
      modifies this`heldLocks, registry
      ensures Valid() && heldLocks == old(heldLocks) - {tenant}
      ensures registry.Locked() == old(registry.Locked()) - {tenant}
    {
      heldLocks := heldLocks - {tenant};
      registry.Release(tenant);
    }

    /** The registry's own release, which leaves the session's bookkeeping alone. */
    method ReleaseMemoryLock(tenant: Tenant)
      requires Valid() && tenant !in heldLocks
      modifies registry
      ensures Valid() && registry.Locked() == old(registry.Locked()) - {tenant}
    {
      registry.Release(tenant);
    }

    // ---- Domain rows ----

    /** The one record with natural key `k`, if there is one. */
    method Select(k: Key) returns (found: Option<RowId>)
      requires Valid()
      ensures found.Some? <==> k in db.rows
      ensures found.Some? ==>
        && found.value in current.records && current.records[found.value].key == k
        && db.rows[k] == Row(found.value, current.records[found.value].cells)
    {
      if i :| i in current.records && current.records[i].key == k {
        found := Some(i);
      } else {
        found := None;
      }
    }

    method UpsertByCanvasId(table: Table, tenant: Tenant, canvasId: CanvasId, payload: Cells)
      returns (r: Result<RowId, UpsertError>)
      requires Valid() && Ready()
      modifies this`current, this`db
      ensures Valid()
      ensures var k := Key(table, tenant, canvasId);
        && (r.Err? <==> k !in old(db).rows && payload.Keys * KEY_COLUMNS != {})
        && (r.Err? ==> db == old(db))
        && (r.Ok? ==> db == Upserted(old(db), k, payload) && db.rows[k].id == r.value)
        && (r.Ok? ==> TakesColumns(old(db), db, k, payload))
    {
      KeysAreWritable(table, payload);
      UpsertTakesColumns(db, Key(table, tenant, canvasId), payload);
      hide TakesColumns;
      hide Writable, IsWritable;
      var k := Key(table, tenant, canvasId);
      var filtered := Writable(table, payload);
      var existing := Select(k);
      if existing.Some? {
        var i := existing.value;
        OverlayRepresents(current, db, i, payload);
        hide Represents, Upserted;
        var cells := current.records[i].cells + (filtered - KEY_COLUMNS);
        db := Upserted(db, k, payload);
        current := current.(records := current.records[i := Record(k, cells)]);
        return Ok(i);
      }
      if filtered.Keys * KEY_COLUMNS != {} {
        return Err(DuplicateArgument);
      }
      InsertRepresents(current, db, k, payload);
      hide Represents, Upserted;
      var i := current.nextId;
      db := Upserted(db, k, payload);
      current := current.(records := current.records[i := Record(k, filtered)], nextId := i + 1);
      r := Ok(i);
    }

    method SoftDeleteIfInactive(table: Table, tenant: Tenant, canvasId: CanvasId,
                                workflowState: Option<string>, now: Instant)
      returns (mutated: bool)
      requires Valid() && Ready()
      modifies this`current, this`db
      ensures Valid()
      ensures mutated == SoftDeletes(old(db), Key(table, tenant, canvasId), workflowState)
      ensures var k := Key(table, tenant, canvasId);
        mutated <==> workflowState.Some? && SaysInactive(workflowState.value)
                     && k in old(db).rows && DeletedAt !in old(db).rows[k].cells
      ensures db == SoftDeleted(old(db), Key(table, tenant, canvasId), workflowState, now)
    {
      InactiveExactly(workflowState);
      hide SaysInactive;
      var k := Key(table, tenant, canvasId);
      if workflowState.None? || Lower(workflowState.value) !in INACTIVE_WORKFLOW_STATES {
        return false;
      }
      var row := Select(k);
      if row.None? || DeletedAt in current.records[row.value].cells {
        return false;
      }
      var i := row.value;
      var cells := current.records[i].cells[DeletedAt := Moment(now)];
      db := SoftDeleted(db, k, workflowState, now);
      current := current.(records := current.records[i := Record(k, cells)]);
      mutated := true;
    }

    method ResolveLocalUuid(table: Table, tenant: Tenant, canvasId: Option<CanvasId>)
      returns (id: Option<RowId>)
      requires Valid()
      ensures id == ResolvedId(db.rows, table, tenant, canvasId)
    {
      if canvasId.None? {
        return None;
      }
      id := Select(Key(table, tenant, canvasId.value));
    }

    // ---- Sync state ----

    method ReadWatermark(tenant: Tenant, tableName: string) returns (watermark: Option<Instant>)
      requires Valid()
      ensures watermark == Watermark(db, tenant, tableName)
    {
      var k := StateKey(tenant, tableName);
      if k !in current.states {
        return None;
      }
      watermark := current.states[k].lastWatermark;
    }

    method AdvanceWatermark(tenant: Tenant, tableName: string, watermark: Instant,
                            status: string, errorClass: Option<string>, runAt: Instant)
      requires Valid() && Ready()
      modifies this`current, this`db
      ensures Valid()
      ensures db == old(db).(states := old(db).states[
        StateKey(tenant, tableName) := SyncState(Some(watermark), Some(runAt), status, errorClass)])
    {
      var k := StateKey(tenant, tableName);
      if k !in current.states {
        PutState(k, SyncState(Some(watermark), Some(runAt), status, errorClass));
        return;
      }
      var row := current.states[k];
      row := row.(lastWatermark := Some(watermark));
      row := row.(lastRunAt := Some(runAt));
      row := row.(lastStatus := status);
      row := row.(lastErrorClass := errorClass);
      PutState(k, row);
    }

    method PutState(k: StateKey, state: SyncState)
      requires Valid() && Ready()
      modifies this`current, this`db
      ensures Valid()
      ensures db == old(db).(states := old(db).states[k := state])
    {
      db := db.(states := db.states[k := state]);
      current := current.(states := current.states[k := state]);
    }
  }
}
