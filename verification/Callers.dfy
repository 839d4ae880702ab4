/** The two callers that take the tenant's lock before they delegate to the pipeline: a manual
    request and a scheduler worker. */
module Callers {
  import opened Wrappers
  import opened Tables
  import opened Sessions
  import opened Replies
  import opened SyncRun
  import opened Pipeline

  /** Whether a run started under the lock lets a cancellation through. */
  ghost predicate CancelledRun(db: Database, tenant: Tenant, canvas: CanvasApi, io: DbFaults) {
    FateOf(false, canvas(Watermark(db, tenant, SYNC_STATE_TABLE)), io) == Some(Cancelled)
  }

  /** The end of the `with` block around a run: an exception undoes what happened in it, and a scope
      already undone is only closed. */
  method EndScope(session: Session, owns: bool, raised: bool)
    requires session.Valid() && session.inTransaction && (owns <==> session.savedDbs == [])
    modifies session, session.registry
    ensures session.Valid() && session.inTransaction == !owns && !session.doomed
    ensures session.db
         == if !raised && !old(session.doomed) then old(session.db)
            else if owns then old(session.committedDb) else old(session.savedDbs[|session.savedDbs| - 1])
    ensures session.committedDb == if owns then session.db else old(session.committedDb)
    ensures session.savedDbs == if owns then [] else old(session.savedDbs[..|session.savedDbs| - 1])
    ensures session.heldLocks == if owns then {} else old(session.heldLocks)
    ensures session.registry.Locked()
         == old(session.registry.Locked()) - (if owns then old(session.heldLocks) else {})
  {
    hide Session.Valid;
    if raised || session.doomed {
      session.RollbackScope(owns);
    } else {
      session.CommitScope(owns);
    }
  }

  /** The pipeline's run inside the caller's transaction, under a lock the caller holds. */
  method Delegate(session: Session, tenant: Tenant, canvas: CanvasApi, runAt: Instant, clock: Clock, io: DbFaults)
    returns (outcome: Outcome)
    requires session.Valid() && session.Ready()
    modifies session, session.registry
    ensures session.Valid() && session.inTransaction
    ensures Reports(outcome, old(session.db), tenant, canvas, false, runAt, clock, io)
    ensures outcome.Raised? <==> CancelledRun(old(session.db), tenant, canvas, io)
    ensures !session.doomed ==> session.db == AfterRun(old(session.db), tenant, canvas, false, runAt, clock, io)
    ensures session.doomed ==>
      session.db == old(session.Innermost())
      && AfterRun(old(session.db), tenant, canvas, false, runAt, clock, io) == old(session.db)
    ensures session.committedDb == old(session.committedDb) && session.savedDbs == old(session.savedDbs)
    ensures session.heldLocks == old(session.heldLocks)
    ensures session.registry.Locked() == old(session.registry.Locked())
  {
    hide Session.Valid, Reports, AfterRun, CancelledRun, LosesMarker;
    ghost var before := session.db;
    outcome := SyncTenant(session, tenant, canvas, true, runAt, clock, io);
    RaisedIsCancelled(outcome, before, tenant, canvas, runAt, clock, io);
    LostMarkerChangesNothing(before, tenant, canvas, runAt, clock, io);
  }

  /** The manual path.  `commitFails` says that the end of the surrounding scope raises: a refused commit
      after the pipeline has released its savepoint, or a scope the pipeline's lost marker undid; `now` is
      the time reported when the lock is busy. */
  method RunLocked(session: Session, tenant: Tenant, canvas: CanvasApi, runAt: Instant, now: Instant,
                   clock: Clock, io: DbFaults, commitFails: bool)
    returns (outcome: Outcome)
    requires session.Valid() && !session.doomed
    modifies session, session.registry
    ensures session.Valid() && session.inTransaction == old(session.inTransaction) && !session.doomed
    ensures tenant in old(session.registry.Locked()) ==>
      && session.db == old(session.db)
      && outcome == if commitFails then Raised else Returned(SyncResult(
           tenant, Locked, None, Watermark(old(session.db), tenant, SYNC_STATE_TABLE), now, NO_COUNTS, false))
    ensures tenant !in old(session.registry.Locked()) ==>
      if CancelledRun(old(session.db), tenant, canvas, io) || commitFails
      then session.db == old(session.db) && outcome == Raised
      else session.db == AfterRun(old(session.db), tenant, canvas, false, runAt, clock, io)
           && Reports(outcome, old(session.db), tenant, canvas, false, runAt, clock, io)
    ensures session.committedDb
         == if old(session.inTransaction) then old(session.committedDb) else session.db
    ensures session.savedDbs == old(session.savedDbs)
    ensures session.heldLocks == old(session.heldLocks)
    ensures session.registry.Locked() == old(session.registry.Locked())
  {
    hide Session.Valid, Reports, AfterRun, CancelledRun, Watermark;
    SessionFacts(session);
    var owns := session.BeginScope();
    assert session.Innermost() == session.db;
    hide Session.Innermost;
    var acquired;
    acquired, outcome := TryRun(session, tenant, canvas, runAt, now, clock, io);
    if commitFails {
      outcome := Raised;
    }
    EndScope(session, owns, outcome.Raised?);
    if acquired {
      session.ReleaseSyncLock(tenant);
    }
  }

  /** The manual path inside its scope, up to the end of it. */
  method TryRun(session: Session, tenant: Tenant, canvas: CanvasApi, runAt: Instant, now: Instant, clock: Clock, io: DbFaults)
    returns (acquired: bool, outcome: Outcome)
    requires session.Valid() && session.Ready() && session.Innermost() == session.db
    modifies session, session.registry
    ensures session.Valid() && session.inTransaction && (acquired <==> tenant !in old(session.registry.Locked()))
    ensures !acquired ==>
      && !session.doomed && session.db == old(session.db)
      && outcome == Returned(SyncResult(tenant, Locked, None, Watermark(old(session.db), tenant, SYNC_STATE_TABLE), now,
                                        NO_COUNTS, false))
    ensures acquired ==>
      && Reports(outcome, old(session.db), tenant, canvas, false, runAt, clock, io)
      && (outcome.Raised? <==> CancelledRun(old(session.db), tenant, canvas, io))
      && session.db == AfterRun(old(session.db), tenant, canvas, false, runAt, clock, io)
      && (session.doomed ==> session.db == old(session.db))
    ensures session.committedDb == old(session.committedDb) && session.savedDbs == old(session.savedDbs)
    ensures session.heldLocks == old(session.heldLocks) + if acquired then {tenant} else {}
    ensures session.registry.Locked() == old(session.registry.Locked()) + {tenant}
  {
    hide Session.Valid, Reports, AfterRun, CancelledRun, Watermark;
    acquired := session.TryAcquireSyncLock(tenant);
    if !acquired {
      var watermark := session.ReadWatermark(tenant, SYNC_STATE_TABLE);
      outcome := Returned(SyncResult(tenant, Locked, None, watermark, now, NO_COUNTS, false));
    } else {
      outcome := Delegate(session, tenant, canvas, runAt, clock, io);
    }
  }

  lemma RaisedIsCancelled(outcome: Outcome, db: Database, tenant: Tenant, canvas: CanvasApi, runAt: Instant,
                          clock: Clock, io: DbFaults)
    requires Reports(outcome, db, tenant, canvas, false, runAt, clock, io)
    ensures outcome.Raised? <==> CancelledRun(db, tenant, canvas, io)
  {}

  lemma LostMarkerChangesNothing(db: Database, tenant: Tenant, canvas: CanvasApi, runAt: Instant, clock: Clock, io: DbFaults)
    ensures LosesMarker(db, tenant, canvas, false, io) ==> AfterRun(db, tenant, canvas, false, runAt, clock, io) == db
  {}

  /** A scheduler worker: a session and a transaction of its own, every exception but a cancellation
      swallowed, and the registry's lock dropped once more at the end. */
  method RunForTenant(session: Session, tenant: Tenant, canvas: CanvasApi, runAt: Instant,
                      clock: Clock, io: DbFaults, commitFails: bool)
    requires session.Valid() && !session.inTransaction
    modifies session, session.registry
    ensures session.Valid() && !session.inTransaction
    ensures session.committedDb
         == if tenant in old(session.registry.Locked()) || commitFails
               || CancelledRun(old(session.committedDb), tenant, canvas, io)
            then old(session.committedDb)
            else AfterRun(old(session.committedDb), tenant, canvas, false, runAt, clock, io)
    ensures session.registry.Locked() == old(session.registry.Locked())
  {
    hide Session.Valid, Reports, AfterRun, CancelledRun;
    SessionFacts(session);
    var owns := session.BeginScope();
    var acquired := session.TryAcquireSyncLock(tenant);
    assert session.Innermost() == session.db;
    hide Session.Innermost;
    var outcome := Raised;
    if acquired {
      outcome := Delegate(session, tenant, canvas, runAt, clock, io);
    }
    EndScope(session, owns, (acquired && outcome.Raised?) || commitFails);
    if acquired {
      session.ReleaseMemoryLock(tenant);
    }
  }
}
