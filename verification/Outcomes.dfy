/** What ends runs, and what the results and the sync-state rows say of the last success. */
module Outcomes {
  import opened Wrappers
  import opened Tables
  import opened Replies
  import opened SyncRun
  import opened Pipeline
  import opened Referential
  import opened History

  // ---- When answers are free of faults ----

  predicate WholeFeed<T>(feed: Feed<T>) {
    (forall i :: 0 <= i < |feed.items| ==> feed.items[i].Parsed?) && feed.fault.None?
  }

  /** The optional endpoint may be missing: a 404, and nothing else, is as good as its end. */
  predicate WholeFallback(feed: Feed<EnrollmentDto>) {
    && (forall i :: 0 <= i < |feed.items| ==> feed.items[i].Parsed?)
    && (feed.fault.None? || (feed.fault.value.RequestFailed? && feed.fault.value.statusCode == Some(404)))
  }

  /** The answers let a run succeed exactly if the user, every course, every listing of a course, and, if no
      course brought an enrollment that was kept, the fallback's enrollments came whole. */
  lemma AnswersAreWholeExactly(r: Replies)
    ensures RunFault(r).None?
            <==> r.self.Ok? && r.self.value.Parsed? && WholeFeed(r.courses)
                 && (EmbeddedTotal(r.courses.items, r.self.value.dto.id) == 0 ==> WholeFallback(r.enrollments))
                 && forall n :: 0 <= n < |CourseIds(r.courses.items)| && n < |r.assignments| ==> WholeFeed(r.assignments[n])
  {
    hide EmbeddedTotal, CourseIds;
    ListingsAreWhole(r, CourseIds(r.courses.items));
    forall n | 0 <= n < |CourseIds(r.courses.items)|
      ensures WholeFeed(Listing(r, n)) <==> n < |r.assignments| ==> WholeFeed(r.assignments[n]) {}
    hide Listing, ListingsFault;
  }

  lemma {:induction false} ListingsAreWhole(r: Replies, ids: seq<CanvasId>)
    ensures ListingsFault(r, ids).None? <==> forall n :: 0 <= n < |ids| ==> WholeFeed(Listing(r, n))
  {
    hide Listing;
    if ids != [] {
      var n := |ids| - 1;
      ListingsAreWhole(r, ids[..n]);
      assert FeedFault(Listing(r, n)).None? <==> WholeFeed(Listing(r, n));
    }
  }

  /** And a run with the lock succeeds exactly if the database refuses nothing besides. */
  lemma RunSucceedsExactly(db: Database, run: Run)
    ensures var r := run.canvas(Watermark(db, run.tenant, "users"));
      Succeeds(db, run) <==>
        && !run.busy && RunFault(r).None? && !run.io.writeFails && !run.io.commitFails
        && (run.caller.Direct? || !run.callerCommitFails)
  {
    var r := run.canvas(Watermark(db, run.tenant, "users"));
    assert RunFault(r).None? ==> SelfFault(r).None?;
    hide RunFault, SelfFault;
  }

  /** A write or a commit the database refuses is an unexpected failure. */
  lemma RefusalIsUnexpected(db: Database, tenant: Tenant, canvas: CanvasApi, runAt: Instant, clock: Clock, io: DbFaults,
                            outcome: Outcome)
    requires var r := canvas(Watermark(db, tenant, "users"));
      (io.writeFails && SelfFault(r).None?) || (io.commitFails && RunFault(r).None?)
    requires Reports(outcome, db, tenant, canvas, false, runAt, clock, io)
    ensures outcome.Returned? && outcome.result.status == Failed && outcome.result.lastErrorClass == Some(Unexpected)
    ensures !io.markerFails ==>
      var row := StateRow(AfterRun(db, tenant, canvas, false, runAt, clock, io), tenant);
      row.Some? && row.value.lastErrorClass == Some("unexpected")
  {
    FailureIsTold(db, tenant, canvas, false, runAt, clock, io, outcome);
    hide RunFault, SelfFault, Reports, AfterRun;
  }

  /** A run that succeeds reports and leaves its own time as the last success. */
  lemma SuccessIsTold(db: Database, tenant: Tenant, canvas: CanvasApi, runAt: Instant, clock: Clock, io: DbFaults, outcome: Outcome)
    requires FateOf(false, canvas(Watermark(db, tenant, "users")), io).None?
    requires Reports(outcome, db, tenant, canvas, false, runAt, clock, io)
    ensures outcome.Returned? && outcome.result.tenant == tenant && outcome.result.status == Status.Ok
    ensures outcome.result.lastErrorClass.None? && outcome.result.lockAcquired
    ensures outcome.result.lastSuccessfulAt == Some(runAt) && outcome.result.lastRunAt == runAt
    ensures StateRow(AfterRun(db, tenant, canvas, false, runAt, clock, io), tenant)
            == Some(SyncState(Some(runAt), Some(runAt), "ok", None))
  {
    hide RunScript, RunFault;
  }

  /** A run that cannot have the lock reports so and the last success, and leaves everything as it was. */
  lemma RefusedRunIsTold(db: Database, tenant: Tenant, canvas: CanvasApi, runAt: Instant, clock: Clock, io: DbFaults, outcome: Outcome)
    requires !io.commitFails && Reports(outcome, db, tenant, canvas, true, runAt, clock, io)
    ensures AfterRun(db, tenant, canvas, true, runAt, clock, io) == db
    ensures outcome == Returned(SyncResult(tenant, Locked, None, LastSuccessfulAt(db, tenant), runAt, NO_COUNTS, false))
  {}

  // ---- The last success ----

  /** The pipeline leaves no row that records a run as ok without a cursor. */
  predicate OkHasCursor(db: Database, tenant: Tenant) {
    var row := StateRow(db, tenant);
    row.Some? && row.value.lastStatus == "ok" ==> row.value.lastWatermark.Some?
  }

  lemma RunKeepsOkCursor(db: Database, run: Run, tenant: Tenant)
    requires OkHasCursor(db, tenant)
    ensures OkHasCursor(After(db, run), tenant)
  {
    if Succeeds(db, run) {
      SuccessfulRunCompletes(db, run);
      var r := run.canvas(Watermark(db, run.tenant, SYNC_STATE_TABLE));
      ApplyAllKeepsStates(db, run.tenant, RunScript(r), run.clock);
      hide After, Succeeds, ApplyAll, RunScript;
    } else {
      FailedRunKeepsOkCursor(db, run, tenant);
    }
  }

  lemma FailedRunKeepsOkCursor(db: Database, run: Run, tenant: Tenant)
    requires OkHasCursor(db, tenant) && !Succeeds(db, run)
    ensures OkHasCursor(After(db, run), tenant)
  {
    hide RunFault, Completed, Classify, ErrorName;
    assert "failed"[0] != "ok"[0];
  }

  /** After any history the last success a result reports is the start time of the last run that
      succeeded, and unknown if none did, whatever failed before or since. */
  lemma {:induction false} LastSuccessIsTrue(db: Database, runs: seq<Run>, tenant: Tenant)
    requires StateRow(db, tenant).None?
    ensures LastSuccessfulAt(Replay(db, runs), tenant) == LastRunAt(Successes(db, runs), tenant)
  {
    WatermarkIsLastSuccess(db, runs, tenant);
    HistoryKeepsOkCursor(db, runs, tenant);
    hide Replay, Successes, LastRunAt;
  }

  lemma {:induction false} HistoryKeepsOkCursor(db: Database, runs: seq<Run>, tenant: Tenant)
    requires OkHasCursor(db, tenant)
    ensures OkHasCursor(Replay(db, runs), tenant)
  {
    hide OkHasCursor, After;
    if runs != [] {
      var n := |runs| - 1;
      HistoryKeepsOkCursor(db, runs[..n], tenant);
      RunKeepsOkCursor(Replay(db, runs[..n]), runs[n], tenant);
    }
  }
}
