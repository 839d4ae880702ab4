/** Whole histories: any sequence of runs of any tenants, started by any caller, ending in any way. */
module History {
  import opened Wrappers
  import opened Tables
  import opened Replies
  import opened SyncRun
  import opened Pipeline
  import opened Sessions
  import opened Callers
  import opened Referential

  datatype Caller = Direct | Manual | Scheduled

  /** One run in a session without a transaction.  A direct run takes the lock itself; the other
      callers take it first and own the surrounding transaction, whose commit may fail. */
  datatype Run = Run(
    tenant: Tenant,
    canvas: CanvasApi,
    caller: Caller,
    busy: bool,
    runAt: Instant,
    clock: Clock,
    io: DbFaults,
    callerCommitFails: bool)

  /** What is durable after a run that found `db`: the contracts of `SyncTenant` and of its callers. */
  function After(db: Database, run: Run): Database {
    if !run.caller.Direct? && (run.busy || run.callerCommitFails) then db
    else AfterRun(db, run.tenant, run.canvas, run.busy, run.runAt, run.clock, run.io)
  }

  function Fate(db: Database, run: Run): Option<Fault> {
    FateOf(run.busy, run.canvas(Watermark(db, run.tenant, SYNC_STATE_TABLE)), run.io)
  }

  /** A run as its caller performs it makes durable what `After` says. */
  method Perform(session: Session, run: Run, now: Instant)
    requires session.Valid() && !session.inTransaction
    requires run.busy <==> run.tenant in session.registry.Locked()
    modifies session, session.registry
    ensures session.Valid() && !session.inTransaction
    ensures session.committedDb == After(old(session.committedDb), run)
    ensures session.registry.Locked() == old(session.registry.Locked())
  {
    hide Session.Valid, AfterRun, Reports, CancelledRun;
    SessionFacts(session);
    ghost var before := session.committedDb;
    CancelledRunChangesNothing(before, run);
    match run.caller {
      case Direct =>
        var outcome := SyncTenant(session, run.tenant, run.canvas, false, run.runAt, run.clock, run.io);
      case Manual =>
        var outcome := RunLocked(session, run.tenant, run.canvas, run.runAt, now, run.clock, run.io, run.callerCommitFails);
      case Scheduled =>
        RunForTenant(session, run.tenant, run.canvas, run.runAt, run.clock, run.io, run.callerCommitFails);
    }
  }

  lemma CancelledRunChangesNothing(db: Database, run: Run)
    ensures CancelledRun(db, run.tenant, run.canvas, run.io) ==>
      AfterRun(db, run.tenant, run.canvas, false, run.runAt, run.clock, run.io) == db
  {}

  /** And so does a whole history of runs, one after the other. */
  method PerformAll(session: Session, runs: seq<Run>, now: Instant)
    requires session.Valid() && !session.inTransaction
    requires forall i :: 0 <= i < |runs| ==> (runs[i].busy <==> runs[i].tenant in session.registry.Locked())
    modifies session, session.registry
    ensures session.Valid() && session.committedDb == Replay(old(session.committedDb), runs)
  {
    hide Session.Valid, After;
    assert runs[..0] == [];
    for i := 0 to |runs|
      invariant session.Valid() && !session.inTransaction
      invariant session.registry.Locked() == old(session.registry.Locked())
      invariant session.committedDb == Replay(old(session.committedDb), runs[..i])
    {
      assert runs[..i + 1][..i] == runs[..i];
      Perform(session, runs[i], now);
    }
    assert runs[..|runs|] == runs;
  }

  predicate Succeeds(db: Database, run: Run) {
    !run.busy && Fate(db, run).None? && !(!run.caller.Direct? && run.callerCommitFails)
  }

  function Replay(db: Database, runs: seq<Run>): Database {
    if runs == [] then db
    else After(Replay(db, runs[..|runs| - 1]), runs[|runs| - 1])
  }

  /** The runs that succeeded where they stood in the history. */
  function Successes(db: Database, runs: seq<Run>): seq<Run> {
    if runs == [] then []
    else
      var n := |runs| - 1;
      Successes(db, runs[..n]) + if Succeeds(Replay(db, runs[..n]), runs[n]) then [runs[n]] else []
  }

  function LastRunAt(runs: seq<Run>, tenant: Tenant): Option<Instant> {
    if runs == [] then None
    else
      var n := |runs| - 1;
      if runs[n].tenant == tenant then Some(runs[n].runAt) else LastRunAt(runs[..n], tenant)
  }

  /** The same domain rows and the same cursors; run times, statuses and error classes may differ. */
  ghost predicate SameData(a: Database, b: Database) {
    && a.rows == b.rows && a.nextId == b.nextId
    && forall t :: Watermark(a, t, SYNC_STATE_TABLE) == Watermark(b, t, SYNC_STATE_TABLE)
  }

  /** A run that did not succeed leaves at most its own marker: the time, status and error class of
      its tenant's sync-state row.  Every domain row and every cursor is what it was. */
  lemma FailedRunLeavesOnlyItsMarker(db: Database, run: Run)
    requires !Succeeds(db, run)
    ensures SameData(After(db, run), db)
    ensures var k := StateKey(run.tenant, SYNC_STATE_TABLE);
      && (forall k' :: k' != k ==> (k' in After(db, run).states <==> k' in db.states))
      && (forall k' :: k' != k && k' in db.states ==> After(db, run).states[k'] == db.states[k'])
  {
    hide RunFault, Completed, Classify, ErrorName;
  }

  lemma SuccessfulRunCompletes(db: Database, run: Run)
    requires Succeeds(db, run)
    ensures var r := run.canvas(Watermark(db, run.tenant, SYNC_STATE_TABLE));
      SelfFault(r).None? && After(db, run) == Completed(db, run.tenant, r, run.clock, run.runAt)
  {
    hide Completed;
  }

  /** The script reads and writes domain rows only, so its effect does not depend on sync states. */
  lemma {:induction false} ApplyAllIgnoresStates(a: Database, b: Database, tenant: Tenant, script: seq<Action>, clock: Clock)
    requires a.rows == b.rows && a.nextId == b.nextId
    ensures ApplyAll(a, tenant, script, clock).rows == ApplyAll(b, tenant, script, clock).rows
    ensures ApplyAll(a, tenant, script, clock).nextId == ApplyAll(b, tenant, script, clock).nextId
  {
    hide Apply;
    if script != [] {
      var n := |script| - 1;
      ApplyAllIgnoresStates(a, b, tenant, script[..n], clock);
      ApplyIgnoresStates(ApplyAll(a, tenant, script[..n], clock), ApplyAll(b, tenant, script[..n], clock), tenant,
                         script[n], clock);
    }
  }

  lemma ApplyIgnoresStates(a: Database, b: Database, tenant: Tenant, action: Action, clock: Clock)
    requires a.rows == b.rows && a.nextId == b.nextId
    ensures Apply(a, tenant, action, clock).rows == Apply(b, tenant, action, clock).rows
    ensures Apply(a, tenant, action, clock).nextId == Apply(b, tenant, action, clock).nextId
  {
    hide PayloadOf, Upserted, SoftDeleted;
    if action.Save? {
      var k, payload := KeyOf(tenant, action), PayloadOf(a.rows, tenant, action);
      UpsertIgnoresStates(a, b, k, payload);
      SoftDeleteIgnoresStates(Upserted(a, k, payload), Upserted(b, k, payload), k, action.state, clock(k));
    }
  }

  lemma UpsertIgnoresStates(a: Database, b: Database, k: Key, payload: Cells)
    requires a.rows == b.rows && a.nextId == b.nextId
    ensures Upserted(a, k, payload).rows == Upserted(b, k, payload).rows
    ensures Upserted(a, k, payload).nextId == Upserted(b, k, payload).nextId
  {
    hide Writable;
  }

  lemma SoftDeleteIgnoresStates(a: Database, b: Database, k: Key, state: Option<string>, now: Instant)
    requires a.rows == b.rows && a.nextId == b.nextId
    ensures SoftDeleted(a, k, state, now).rows == SoftDeleted(b, k, state, now).rows
    ensures SoftDeleted(a, k, state, now).nextId == SoftDeleted(b, k, state, now).nextId
  {
    hide Inactive;
  }

  /** Runs cannot tell two databases with the same data apart. */
  lemma SameDataIsKept(a: Database, b: Database, run: Run)
    requires SameData(a, b)
    ensures Succeeds(a, run) <==> Succeeds(b, run)
    ensures Succeeds(a, run) ==> SameData(After(a, run), After(b, run))
  {
    hide RunFault, AfterRun, After, ApplyAll, RunScript;
    if Succeeds(a, run) {
      SuccessfulRunCompletes(a, run);
      SuccessfulRunCompletes(b, run);
      var r := run.canvas(Watermark(a, run.tenant, SYNC_STATE_TABLE));
      ApplyAllIgnoresStates(a, b, run.tenant, RunScript(r), run.clock);
      ApplyAllKeepsStates(a, run.tenant, RunScript(r), run.clock);
      ApplyAllKeepsStates(b, run.tenant, RunScript(r), run.clock);
      forall t
        ensures Watermark(After(a, run), t, SYNC_STATE_TABLE) == Watermark(After(b, run), t, SYNC_STATE_TABLE)
      {
        assert Watermark(a, t, SYNC_STATE_TABLE) == Watermark(b, t, SYNC_STATE_TABLE);
      }
    }
  }

  /** Atomicity over whole histories: the data is what the successful runs alone would have made of
      it, and replayed alone they all succeed again. */
  lemma {:induction false} HistoryIsItsSuccesses(db: Database, runs: seq<Run>)
    ensures SameData(Replay(db, runs), Replay(db, Successes(db, runs)))
    ensures Successes(db, Successes(db, runs)) == Successes(db, runs)
  {
    hide Succeeds, After;
    if runs != [] {
      var n := |runs| - 1;
      var head, run := runs[..n], runs[n];
      HistoryIsItsSuccesses(db, head);
      var kept := Successes(db, head);
      SameDataIsKept(Replay(db, head), Replay(db, kept), run);
      if Succeeds(Replay(db, head), run) {
        assert Successes(db, runs) == kept + [run];
        assert (kept + [run])[..|kept|] == kept;
      } else {
        assert Successes(db, runs) == kept;
        FailedRunLeavesOnlyItsMarker(Replay(db, head), run);
      }
    }
  }

  /** The cursor of a tenant is the `runAt` of its last committed success. */
  lemma {:induction false} WatermarkIsLastSuccess(db: Database, runs: seq<Run>, tenant: Tenant)
    ensures Watermark(Replay(db, runs), tenant, SYNC_STATE_TABLE)
         == var last := LastRunAt(Successes(db, runs), tenant);
            if last.Some? then last else Watermark(db, tenant, SYNC_STATE_TABLE)
  {
    hide Succeeds, After;
    if runs != [] {
      var n := |runs| - 1;
      var here, run := Replay(db, runs[..n]), runs[n];
      WatermarkIsLastSuccess(db, runs[..n], tenant);
      if Succeeds(here, run) {
        var kept := Successes(db, runs[..n]);
        assert Successes(db, runs) == kept + [run] && (kept + [run])[..|kept|] == kept;
        CompletedAdvances(here, run, tenant);
      } else {
        assert Successes(db, runs) == Successes(db, runs[..n]);
        FailedRunLeavesOnlyItsMarker(here, run);
      }
    }
  }

  lemma CompletedAdvances(db: Database, run: Run, tenant: Tenant)
    requires Succeeds(db, run)
    ensures Watermark(After(db, run), tenant, SYNC_STATE_TABLE)
         == if tenant == run.tenant then Some(run.runAt) else Watermark(db, tenant, SYNC_STATE_TABLE)
  {
    hide Succeeds, After, ApplyAll, RunScript;
    SuccessfulRunCompletes(db, run);
    var r := run.canvas(Watermark(db, run.tenant, SYNC_STATE_TABLE));
    ApplyAllKeepsStates(db, run.tenant, RunScript(r), run.clock);
  }

  lemma AfterKeepsSound(db: Database, run: Run)
    requires Sound(db)
    ensures Sound(After(db, run)) && Preserves(db, After(db, run), run.tenant)
  {
    hide Succeeds, After;
    if Succeeds(db, run) {
      hide Completed, SelfFault, Sound, Preserves;
      SuccessfulRunCompletes(db, run);
      CompletedKeepsSound(db, run.tenant, run.canvas(Watermark(db, run.tenant, SYNC_STATE_TABLE)),
                          run.clock, run.runAt);
    } else {
      FailedRunLeavesOnlyItsMarker(db, run);
      assert forall k :: k in After(db, run).rows ==> LinksSound(db.rows, k);
    }
  }

  /** The whole-database invariant, over every history of every tenant. */
  lemma {:induction false} HistoryKeepsSound(db: Database, runs: seq<Run>)
    requires Sound(db)
    ensures Sound(Replay(db, runs))
  {
    hide Sound, After;
    if runs != [] {
      var n := |runs| - 1;
      HistoryKeepsSound(db, runs[..n]);
      AfterKeepsSound(Replay(db, runs[..n]), runs[n]);
    }
  }

  /** `deleted_at` is write-once and row ids never change, over every history. */
  lemma {:induction false} HistoryNeverUndeletes(db: Database, runs: seq<Run>, k: Key)
    requires Sound(db) && k in db.rows
    ensures k in Replay(db, runs).rows && Replay(db, runs).rows[k].id == db.rows[k].id
    ensures DeletedAt in db.rows[k].cells ==>
      && DeletedAt in Replay(db, runs).rows[k].cells
      && Replay(db, runs).rows[k].cells[DeletedAt] == db.rows[k].cells[DeletedAt]
  {
    hide Sound, After;
    if runs != [] {
      var n := |runs| - 1;
      HistoryNeverUndeletes(db, runs[..n], k);
      HistoryKeepsSound(db, runs[..n]);
      AfterKeepsSound(Replay(db, runs[..n]), runs[n]);
    }
  }

  /** Runs of other tenants leave a tenant's rows alone and create none for it. */
  lemma {:induction false} HistoryIsolatesTenants(db: Database, runs: seq<Run>, k: Key)
    requires Sound(db) && forall i :: 0 <= i < |runs| ==> runs[i].tenant != k.tenant
    ensures k in Replay(db, runs).rows <==> k in db.rows
    ensures k in db.rows ==> Replay(db, runs).rows[k] == db.rows[k]
  {
    hide Sound, After;
    if runs != [] {
      var n := |runs| - 1;
      HistoryIsolatesTenants(db, runs[..n], k);
      HistoryKeepsSound(db, runs[..n]);
      AfterKeepsSound(Replay(db, runs[..n]), runs[n]);
    }
  }
}
