/** Runs of several tenants at once, write by write.  A run sees its own writes and what is committed; row
    ids are drawn from one sequence and never given back.  Of one tenant only the run with its lock
    writes. */
module Interleaving {
  import opened Wrappers
  import opened Tables
  import opened Replies
  import opened SyncRun
  import opened Pipeline
  import opened Referential
  import opened FirstRun
  import opened History
  import opened Alike

  /** A run that has the lock of its tenant, the cursor it read, and what it has written so far. */
  datatype Active = Active(run: Run, since: Option<Instant>, log: seq<Action>)

  /** All writes, those not yet committed included; what is committed; the runs going on, by tenant; and
      those that have ended, in the order of their ends. */
  datatype State = State(work: Database, committed: Database, active: map<Tenant, Active>, finished: seq<Run>)

  datatype Step =
    | Start(run: Run)                       // with the lock
    | Refused(run: Run)                     // without it, and over
    | Write(tenant: Tenant, action: Action) // whatever the run writes, until it fails or is done
    | Finish(tenant: Tenant)                // commit, or rollback and marker

  /** Whether the run ends well, by the answers it got. */
  predicate GoesWell(a: Active) {
    !a.run.busy && FateOf(false, a.run.canvas(a.since), a.run.io).None? && !(!a.run.caller.Direct? && a.run.callerCommitFails)
  }

  ghost predicate Enabled(s: State, step: Step) {
    match step
    case Start(run) => run.tenant !in s.active && !run.busy
    case Refused(run) => run.tenant in s.active && run.busy
    case Write(tenant, action) => tenant in s.active && WellFormed(action)
    case Finish(tenant) =>
      tenant in s.active
      && var a := s.active[tenant];
         GoesWell(a) ==> SelfFault(a.run.canvas(a.since)).None? && a.log == RunScript(a.run.canvas(a.since))
  }

  /** The rows of a tenant from one table of rows, all others from another. */
  function Taken(others: map<Key, Row>, own: map<Key, Row>, tenant: Tenant): map<Key, Row> {
    map k | k in others.Keys + own.Keys && (if k.tenant == tenant then k in own else k in others) ::
      if k.tenant == tenant then own[k] else others[k]
  }

  function Next(s: State, step: Step): State
    requires Enabled(s, step)
  {
    match step
    case Start(run) =>
      s.(active := s.active[run.tenant := Active(run, Watermark(s.committed, run.tenant, SYNC_STATE_TABLE), [])])
    case Refused(run) =>
      var committed := After(s.committed, run);
      s.(committed := committed, work := s.work.(states := committed.states), finished := s.finished + [run])
    case Write(tenant, action) =>
      var a := s.active[tenant];
      s.(work := Apply(s.work, tenant, action, a.run.clock), active := s.active[tenant := a.(log := a.log + [action])])
    case Finish(tenant) =>
      var a := s.active[tenant];
      var done := State(s.work, s.committed, s.active - {tenant}, s.finished + [a.run]);
      if GoesWell(a) then Committed(done, tenant, a.run) else RolledBack(done, tenant, a.run)
  }

  function OkState(run: Run): SyncState {
    SyncState(Some(run.runAt), Some(run.runAt), "ok", None)
  }

  function Committed(s: State, tenant: Tenant, run: Run): State {
    var states := s.committed.states[StateKey(tenant, SYNC_STATE_TABLE) := OkState(run)];
    s.(committed := Database(Taken(s.committed.rows, s.work.rows, tenant), states, s.work.nextId),
       work := s.work.(states := states))
  }

  function RolledBack(s: State, tenant: Tenant, run: Run): State {
    var committed := After(s.committed, run);
    s.(committed := committed, work := Database(Taken(s.work.rows, s.committed.rows, tenant), committed.states, s.work.nextId))
  }

  ghost predicate Possible(db: Database, schedule: seq<Step>) {
    schedule != [] ==>
      var n := |schedule| - 1;
      Possible(db, schedule[..n]) && Enabled(Reached(db, schedule[..n]), schedule[n])
  }

  /** Where a schedule leads from a database at rest. */
  ghost function Reached(db: Database, schedule: seq<Step>): State {
    if schedule == [] then State(db, db, map[], [])
    else
      var n := |schedule| - 1;
      var s := Reached(db, schedule[..n]);
      if Enabled(s, schedule[n]) then Next(s, schedule[n]) else s
  }

  // ---- The invariant ----

  /** Ids are unique over everything written, and the committed rows are among it. */
  ghost predicate SoundState(s: State) {
    && Sound(s.work) && Sound(s.committed) && Extends(s.committed.rows, s.work.rows)
    && s.committed.nextId <= s.work.nextId
  }

  /** The work of a tenant is what is committed, or that and what its run has written. */
  ghost predicate WorkMatches(s: State, tenant: Tenant) {
    if tenant !in s.active then SameRows(tenant, s.work.rows, s.committed.rows)
    else
      var a := s.active[tenant];
      && a.run.tenant == tenant && !a.run.busy && AllWellFormed(a.log)
      && a.since == Watermark(s.committed, tenant, SYNC_STATE_TABLE)
      && RowsAlike(tenant, s.work.rows, ApplyAll(s.committed, tenant, a.log, a.run.clock).rows)
  }

  /** What is committed is what the ended runs leave one after the other. */
  ghost predicate IsSerial(db: Database, s: State, tenant: Tenant) {
    AlikeFor(tenant, s.committed, Replay(db, s.finished))
  }

  ghost predicate Inv(db: Database, s: State) {
    SoundState(s) && forall tenant :: WorkMatches(s, tenant) && IsSerial(db, s, tenant)
  }

  // ---- Rows of one tenant taken over ----

  lemma TakenRows(others: map<Key, Row>, own: map<Key, Row>, tenant: Tenant)
    ensures SameRows(tenant, Taken(others, own, tenant), own)
    ensures forall t :: t != tenant ==> SameRows(t, Taken(others, own, tenant), others)
  {}

  /** Two parts of one sound database, and of another inside it, are sound together. */
  lemma TakenIsSound(others: Database, own: Database, tenant: Tenant, nextId: RowId, states: map<StateKey, SyncState>)
    requires Sound(others) && Sound(own) && others.nextId <= nextId && own.nextId <= nextId
    requires Extends(others.rows, own.rows) || Extends(own.rows, others.rows)
    ensures Sound(Database(Taken(others.rows, own.rows, tenant), states, nextId))
  {
    var rows := Taken(others.rows, own.rows, tenant);
    forall k | k in rows ensures LinksSound(rows, k) {
      var from := if k.tenant == tenant then own.rows else others.rows;
      assert LinksSound(from, k);
      forall c | c in rows[k].cells && ForeignTable(k.table, c).Some?
        ensures RefersTo(rows, k.tenant, ForeignTable(k.table, c).value, rows[k].cells[c])
      {
        var t :| t in from && t.table == ForeignTable(k.table, c).value && t.tenant == k.tenant
                 && rows[k].cells[c] == Ref(from[t].id);
        assert t in rows;
      }
    }
  }

  // ---- Each step keeps it ----

  /** A tenant whose rows and cursor a step leaves alone. */
  lemma OtherTenantMatches(s: State, s': State, tenant: Tenant)
    requires SoundState(s) && SoundState(s') && WorkMatches(s, tenant)
    requires SameRows(tenant, s.work.rows, s'.work.rows) && SameRows(tenant, s.committed.rows, s'.committed.rows)
    requires Watermark(s'.committed, tenant, SYNC_STATE_TABLE) == Watermark(s.committed, tenant, SYNC_STATE_TABLE)
    requires (tenant in s.active <==> tenant in s'.active) && (tenant in s.active ==> s'.active[tenant] == s.active[tenant])
    ensures WorkMatches(s', tenant)
  {
    hide Sound, RowsAlike, ApplyAll, WellFormed, Watermark;
    if tenant in s.active {
      var log, clock := s.active[tenant].log, s.active[tenant].run.clock;
      var was, now := ApplyAll(s.committed, tenant, log, clock), ApplyAll(s'.committed, tenant, log, clock);
      AlikeItself(tenant, s.committed);
      SameStaysAlike(tenant, s.committed.rows, s'.committed.rows, s.committed.rows);
      AlikeBack(tenant, s'.committed.rows, s.committed.rows);
      ScriptKeepsAlike(s.committed, s'.committed, tenant, log, clock);
      ApplyAllKeepsSound(s.committed, tenant, log, clock);
      SameStaysAlike(tenant, s.work.rows, s'.work.rows, was.rows);
      AlikeThrough(tenant, s'.work.rows, was, now.rows);
    }
  }

  lemma StartKeepsInv(db: Database, s: State, run: Run)
    requires Inv(db, s) && Enabled(s, Start(run))
    ensures Inv(db, Next(s, Start(run)))
  {
    hide SoundState, RowsAlike, SameRows, IsSerial, Watermark;
    var s' := Next(s, Start(run));
    assert SoundState(s') by { SoundStateIs(s, s'); }
    forall tenant ensures WorkMatches(s', tenant) && IsSerial(db, s', tenant) {
      assert WorkMatches(s, tenant) && IsSerial(db, s, tenant);
      SerialStays(db, s, s', tenant);
      if tenant == run.tenant {
        StartMatches(s, tenant);
        assert ApplyAll(s.committed, tenant, [], run.clock) == s.committed;
      }
    }
  }

  lemma SoundStateIs(s: State, s': State)
    requires SoundState(s) && s'.work.rows == s.work.rows && s'.committed.rows == s.committed.rows
    requires s'.work.nextId == s.work.nextId && s'.committed.nextId == s.committed.nextId
    ensures SoundState(s')
  {
    assert forall k :: k in s.work.rows ==> LinksSound(s.work.rows, k);
    assert forall k :: k in s.committed.rows ==> LinksSound(s.committed.rows, k);
  }

  lemma SerialStays(db: Database, s: State, s': State, tenant: Tenant)
    requires IsSerial(db, s, tenant) && s'.committed == s.committed && s'.finished == s.finished
    ensures IsSerial(db, s', tenant)
  {}

  lemma StartMatches(s: State, tenant: Tenant)
    requires SoundState(s) && SameRows(tenant, s.work.rows, s.committed.rows)
    ensures RowsAlike(tenant, s.work.rows, s.committed.rows)
  {
    hide Sound;
    AlikeItself(tenant, s.committed);
    SameStaysAlike(tenant, s.committed.rows, s.work.rows, s.committed.rows);
  }

  lemma WriteIsOwn(s: State, tenant: Tenant, action: Action)
    requires SoundState(s) && Enabled(s, Write(tenant, action))
    ensures SoundState(Next(s, Write(tenant, action)))
    ensures forall t :: t != tenant ==> SameRows(t, s.work.rows, Next(s, Write(tenant, action)).work.rows)
  {
    hide Apply, Sound, WellFormed;
    ApplyKeepsSound(s.work, tenant, action, s.active[tenant].run.clock);
  }

  lemma WriteMatches(s: State, tenant: Tenant, action: Action)
    requires Enabled(s, Write(tenant, action)) && WorkMatches(s, tenant)
    ensures WorkMatches(Next(s, Write(tenant, action)), tenant)
  {
    hide Apply, RowsAlike, WellFormed;
    var a := s.active[tenant];
    assert (a.log + [action])[..|a.log|] == a.log;
    WriteKeepsAlike(s.work, ApplyAll(s.committed, tenant, a.log, a.run.clock), tenant, action, a.run.clock);
  }

  lemma WriteKeepsInv(db: Database, s: State, tenant: Tenant, action: Action)
    requires Inv(db, s) && Enabled(s, Write(tenant, action))
    ensures Inv(db, Next(s, Write(tenant, action)))
  {
    var s' := Next(s, Write(tenant, action));
    hide Apply, SoundState, WorkMatches, IsSerial, SameRows, WellFormed, Watermark;
    WriteIsOwn(s, tenant, action);
    forall t ensures WorkMatches(s', t) && IsSerial(db, s', t) {
      SerialStays(db, s, s', t);
      if t == tenant {
        WriteMatches(s, tenant, action);
      } else {
        SameRowsItself(t, s.committed.rows);
        OtherTenantMatches(s, s', t);
      }
    }
  }

  lemma SameRowsItself(tenant: Tenant, rows: map<Key, Row>)
    ensures SameRows(tenant, rows, rows)
  {}

  // ---- The end of a run ----

  /** Runs cannot tell databases with the same states apart, and a run that does not succeed leaves alike
      what was alike. */
  lemma FailureAlike(a: Database, b: Database, run: Run, tenant: Tenant)
    requires StatesAlike(run.tenant, a, b) && AlikeFor(tenant, a, b) && !Succeeds(a, run)
    ensures !Succeeds(b, run) && AlikeFor(tenant, After(a, run), After(b, run))
  {
    hide RunFault, Classify, ErrorName, RowsAlike, Completed;
    assert SameState(a, b, StateKey(run.tenant, SYNC_STATE_TABLE));
    forall name ensures SameState(After(a, run), After(b, run), StateKey(tenant, name)) {
      assert SameState(a, b, StateKey(tenant, name));
    }
  }

  lemma WatermarksAlike(tenant: Tenant, a: Database, b: Database)
    requires StatesAlike(tenant, a, b)
    ensures Watermark(a, tenant, SYNC_STATE_TABLE) == Watermark(b, tenant, SYNC_STATE_TABLE)
  {
    assert SameState(a, b, StateKey(tenant, SYNC_STATE_TABLE));
  }

  /** A run that does not succeed, refused or rolled back: nothing committed but its marker. */
  lemma FailureIsSerial(db: Database, s: State, s': State, run: Run)
    requires (forall tenant :: IsSerial(db, s, tenant)) && !Succeeds(s.committed, run)
    requires s'.committed == After(s.committed, run) && s'.finished == s.finished + [run]
    ensures forall tenant :: IsSerial(db, s', tenant)
  {
    hide RowsAlike, After, Succeeds, StatesAlike;
    assert (s.finished + [run])[..|s.finished|] == s.finished;
    forall tenant ensures IsSerial(db, s', tenant) {
      assert IsSerial(db, s, tenant) && IsSerial(db, s, run.tenant);
      FailureAlike(s.committed, Replay(db, s.finished), run, tenant);
    }
  }

  lemma RefusedKeepsInv(db: Database, s: State, run: Run)
    requires Inv(db, s) && Enabled(s, Refused(run))
    ensures Inv(db, Next(s, Refused(run)))
  {
    var s' := Next(s, Refused(run));
    assert !Succeeds(s.committed, run);
    hide SoundState, WorkMatches, IsSerial, SameRows, Watermark, After, Succeeds;
    FailedRunLeavesOnlyItsMarker(s.committed, run);
    SoundStateIs(s, s');
    FailureIsSerial(db, s, s', run);
    forall t ensures WorkMatches(s', t) {
      SameRowsItself(t, s.work.rows);
      SameRowsItself(t, s.committed.rows);
      OtherTenantMatches(s, s', t);
    }
  }

  /** The end of a run is decided by the cursor it read, which is still the one committed. */
  lemma EndIsDecided(s: State, tenant: Tenant)
    requires WorkMatches(s, tenant) && tenant in s.active
    ensures GoesWell(s.active[tenant]) <==> Succeeds(s.committed, s.active[tenant].run)
  {
    hide RowsAlike, Watermark;
  }

  lemma RollbackIsSound(s: State, s': State, tenant: Tenant)
    requires SoundState(s) && s'.committed.rows == s.committed.rows && s'.committed.nextId == s.committed.nextId
    requires s'.work.rows == Taken(s.work.rows, s.committed.rows, tenant) && s'.work.nextId == s.work.nextId
    ensures SoundState(s')
  {
    SoundStateIs(s, s.(committed := s'.committed));
    TakenIsSound(s.work, s.committed, tenant, s.work.nextId, s'.work.states);
    hide Sound;
  }

  lemma RollbackKeepsInv(db: Database, s: State, tenant: Tenant)
    requires Inv(db, s) && Enabled(s, Finish(tenant)) && !GoesWell(s.active[tenant])
    ensures Inv(db, Next(s, Finish(tenant)))
  {
    var s', run := Next(s, Finish(tenant)), s.active[tenant].run;
    assert WorkMatches(s, tenant) && run.tenant == tenant;
    EndIsDecided(s, tenant);
    hide GoesWell, SoundState, WorkMatches, IsSerial, SameRows, Watermark, After, Succeeds, Taken;
    FailedRunLeavesOnlyItsMarker(s.committed, run);
    RollbackIsSound(s, s', tenant);
    FailureIsSerial(db, s, s', run);
    TakenRows(s.work.rows, s.committed.rows, tenant);
    forall t ensures WorkMatches(s', t) {
      if t == tenant {
        IdleMatches(s', t);
      } else {
        SameRowsBack(t, s'.work.rows, s.work.rows);
        SameRowsItself(t, s.committed.rows);
        OtherTenantMatches(s, s', t);
      }
    }
  }

  lemma IdleMatches(s: State, tenant: Tenant)
    requires tenant !in s.active && SameRows(tenant, s.work.rows, s.committed.rows)
    ensures WorkMatches(s, tenant)
  {}

  lemma SameRowsBack(tenant: Tenant, a: map<Key, Row>, b: map<Key, Row>)
    requires SameRows(tenant, a, b)
    ensures SameRows(tenant, b, a)
  {}

  lemma CommitIsSound(s: State, tenant: Tenant, run: Run)
    requires SoundState(s)
    ensures SoundState(Committed(s, tenant, run))
    ensures SameRows(tenant, Committed(s, tenant, run).committed.rows, s.work.rows)
    ensures forall t :: t != tenant ==> SameRows(t, Committed(s, tenant, run).committed.rows, s.committed.rows)
  {
    var s' := Committed(s, tenant, run);
    TakenIsSound(s.committed, s.work, tenant, s.work.nextId, s'.committed.states);
    SoundStateIs(s, s.(work := s'.work));
    TakenRows(s.committed.rows, s.work.rows, tenant);
    hide Sound;
  }

  /** What a run has written is what it would have written after the ended runs. */
  lemma OwnRowsAlike(s: State, before: Database, tenant: Tenant)
    requires SoundState(s) && WorkMatches(s, tenant) && tenant in s.active
    requires RowsAlike(tenant, s.committed.rows, before.rows)
    ensures var a := s.active[tenant];
      RowsAlike(tenant, s.work.rows, ApplyAll(before, tenant, a.log, a.run.clock).rows)
  {
    hide Sound, RowsAlike, ApplyAll, WellFormed, Watermark;
    var a := s.active[tenant];
    var here := ApplyAll(s.committed, tenant, a.log, a.run.clock);
    ScriptKeepsAlike(s.committed, before, tenant, a.log, a.run.clock);
    ApplyAllKeepsSound(s.committed, tenant, a.log, a.run.clock);
    AlikeThrough(tenant, s.work.rows, here, ApplyAll(before, tenant, a.log, a.run.clock).rows);
  }

  /** The ended runs and one more that succeeds. */
  lemma OneMoreSuccess(db: Database, finished: seq<Run>, run: Run)
    requires Succeeds(Replay(db, finished), run)
    ensures var before := Replay(db, finished);
      var r := run.canvas(Watermark(before, run.tenant, SYNC_STATE_TABLE));
      && SelfFault(r).None?
      && Replay(db, finished + [run]).rows == ApplyAll(before, run.tenant, RunScript(r), run.clock).rows
      && Replay(db, finished + [run]).states
         == before.states[StateKey(run.tenant, SYNC_STATE_TABLE) := OkState(run)]
  {
    hide Succeeds, After, RunScript, ApplyAll, Watermark;
    var before := Replay(db, finished);
    SuccessfulRunCompletes(before, run);
    ApplyAllKeepsStates(before, run.tenant, RunScript(run.canvas(Watermark(before, run.tenant, SYNC_STATE_TABLE))), run.clock);
    assert (finished + [run])[..|finished|] == finished;
  }

  lemma SameStateSet(tenant: Tenant, a: Database, b: Database, a': Database, b': Database, k: StateKey, x: SyncState)
    requires StatesAlike(tenant, a, b) && a'.states == a.states[k := x] && b'.states == b.states[k := x]
    ensures StatesAlike(tenant, a', b')
  {
    forall name ensures SameState(a', b', StateKey(tenant, name)) {
      assert SameState(a, b, StateKey(tenant, name));
    }
  }

  lemma BothStayAlike(tenant: Tenant, a: map<Key, Row>, a': map<Key, Row>, b: map<Key, Row>, b': map<Key, Row>)
    requires RowsAlike(tenant, a, b) && SameRows(tenant, a', a) && SameRows(tenant, b', b)
    ensures RowsAlike(tenant, a', b')
  {
    hide RowsAlike, SameRows;
    SameRowsBack(tenant, a', a);
    SameRowsBack(tenant, b', b);
    SameStaysAlike(tenant, a, a', b);
    AlikeBack(tenant, a', b);
    SameStaysAlike(tenant, b, b', a');
    AlikeBack(tenant, b', a');
  }

  /** What the commit of a run leaves, to the tenant of the run and to others. */
  ghost predicate IsCommit(s: State, s': State, run: Run) {
    && s'.finished == s.finished + [run]
    && s'.committed.states == s.committed.states[StateKey(run.tenant, SYNC_STATE_TABLE) := OkState(run)]
    && SameRows(run.tenant, s'.committed.rows, s.work.rows)
    && (forall t :: t != run.tenant ==> SameRows(t, s'.committed.rows, s.committed.rows))
  }

  lemma CommitIsSerial(db: Database, s: State, s': State, run: Run, t: Tenant)
    requires Sound(db) && IsSerial(db, s, t) && IsCommit(s, s', run) && Succeeds(Replay(db, s.finished), run)
    requires var before := Replay(db, s.finished);
      t == run.tenant ==>
        var r := run.canvas(Watermark(before, t, SYNC_STATE_TABLE));
        SelfFault(r).None? && RowsAlike(t, s.work.rows, ApplyAll(before, t, RunScript(r), run.clock).rows)
    ensures IsSerial(db, s', t)
  {
    var before, after := Replay(db, s.finished), Replay(db, s'.finished);
    hide RowsAlike, SameRows, StatesAlike, RunScript, ApplyAll, Succeeds, Replay, Watermark, SelfFault, Sound;
    OneMoreSuccess(db, s.finished, run);
    SameStateSet(t, s.committed, before, s'.committed, after, StateKey(run.tenant, SYNC_STATE_TABLE), OkState(run));
    SameRowsItself(t, after.rows);
    if t == run.tenant {
      BothStayAlike(t, s.work.rows, s'.committed.rows, after.rows, after.rows);
    } else {
      OneMoreElsewhere(db, s.finished, run, t);
      BothStayAlike(t, s.committed.rows, s'.committed.rows, before.rows, after.rows);
    }
  }

  lemma OneMoreElsewhere(db: Database, finished: seq<Run>, run: Run, t: Tenant)
    requires Sound(db) && t != run.tenant
    ensures SameRows(t, Replay(db, finished + [run]).rows, Replay(db, finished).rows)
  {
    hide Sound, After;
    assert (finished + [run])[..|finished|] == finished;
    HistoryKeepsSound(db, finished);
    AfterKeepsSound(Replay(db, finished), run);
  }

  /** The run that commits, as the ended runs would have seen it. */
  lemma CommitFollows(db: Database, s: State, tenant: Tenant)
    requires SoundState(s) && WorkMatches(s, tenant) && IsSerial(db, s, tenant)
    requires Enabled(s, Finish(tenant)) && GoesWell(s.active[tenant])
    ensures var run, before := s.active[tenant].run, Replay(db, s.finished);
      var r := run.canvas(Watermark(before, tenant, SYNC_STATE_TABLE));
      && run.tenant == tenant && Succeeds(before, run) && SelfFault(r).None?
      && RowsAlike(tenant, s.work.rows, ApplyAll(before, tenant, RunScript(r), run.clock).rows)
  {
    EndIsDecided(s, tenant);
    AlikeSucceeds(s.committed, Replay(db, s.finished), s.active[tenant].run);
    WatermarksAlike(tenant, s.committed, Replay(db, s.finished));
    hide Succeeds, Watermark, RunScript, ApplyAll, SoundState, RowsAlike;
    OwnRowsAlike(s, Replay(db, s.finished), tenant);
  }

  lemma CommitKeepsInv(db: Database, s: State, tenant: Tenant)
    requires Sound(db) && Inv(db, s) && Enabled(s, Finish(tenant)) && GoesWell(s.active[tenant])
    ensures Inv(db, Next(s, Finish(tenant)))
  {
    var s', run := Next(s, Finish(tenant)), s.active[tenant].run;
    var done := s.(active := s.active - {tenant}, finished := s.finished + [run]);
    hide GoesWell, SoundState, Sound, WorkMatches, IsSerial, SameRows, Watermark, Succeeds, Taken, Replay, RowsAlike, Extends;
    CommitFollows(db, s, tenant);
    SoundStateIs(s, done);
    CommitIsSound(done, tenant, run);
    assert IsCommit(s, s', run);
    forall t ensures WorkMatches(s', t) && IsSerial(db, s', t) {
      CommitIsSerial(db, s, s', run, t);
      CommitMatches(s, s', run, t);
    }
  }

  lemma CommitMatches(s: State, s': State, run: Run, t: Tenant)
    requires SoundState(s) && SoundState(s') && WorkMatches(s, t) && IsCommit(s, s', run)
    requires s'.work.rows == s.work.rows && s'.active == s.active - {run.tenant}
    ensures WorkMatches(s', t)
  {
    hide SoundState, WorkMatches, SameRows, Watermark;
    SameRowsItself(t, s.work.rows);
    if t == run.tenant {
      SameRowsBack(t, s'.committed.rows, s.work.rows);
      IdleMatches(s', t);
    } else {
      SameRowsBack(t, s'.committed.rows, s.committed.rows);
      OtherWatermark(s, s', t);
      OtherTenantMatches(s, s', t);
    }
  }

  lemma AlikeSucceeds(a: Database, b: Database, run: Run)
    requires Succeeds(a, run) && StatesAlike(run.tenant, a, b)
    ensures Succeeds(b, run)
  {
    WatermarksAlike(run.tenant, a, b);
    hide Watermark;
  }

  lemma OtherWatermark(s: State, s': State, tenant: Tenant)
    requires SameState(s.committed, s'.committed, StateKey(tenant, SYNC_STATE_TABLE))
    ensures Watermark(s'.committed, tenant, SYNC_STATE_TABLE) == Watermark(s.committed, tenant, SYNC_STATE_TABLE)
  {}

  lemma StepKeepsInv(db: Database, s: State, step: Step)
    requires Sound(db) && Inv(db, s) && Enabled(s, step)
    ensures Inv(db, Next(s, step))
  {
    hide Sound, Inv, Next, GoesWell;
    match step
    case Start(run) => StartKeepsInv(db, s, run);
    case Refused(run) => RefusedKeepsInv(db, s, run);
    case Write(tenant, action) => WriteKeepsInv(db, s, tenant, action);
    case Finish(tenant) =>
      if GoesWell(s.active[tenant]) {
        CommitKeepsInv(db, s, tenant);
      } else {
        RollbackKeepsInv(db, s, tenant);
      }
  }

  lemma RestIsGood(db: Database)
    requires Sound(db)
    ensures Inv(db, State(db, db, map[], []))
  {
    hide Sound;
    forall tenant { AlikeItself(tenant, db); }
  }

  lemma {:induction false} EveryInterleavingKeepsInv(db: Database, schedule: seq<Step>)
    requires Sound(db) && Possible(db, schedule)
    ensures Inv(db, Reached(db, schedule))
  {
    hide Sound, Inv, Next, Enabled;
    if schedule == [] {
      RestIsGood(db);
    } else {
      var n := |schedule| - 1;
      EveryInterleavingKeepsInv(db, schedule[..n]);
      StepKeepsInv(db, Reached(db, schedule[..n]), schedule[n]);
    }
  }

  /** However runs of any tenants interleave, what is committed at any time is, up to the names of row
      ids, what the runs that have ended leave when they run one after the other, in the order of their
      ends; and when no run goes on, nothing else is written. */
  lemma EveryInterleavingIsSerial(db: Database, schedule: seq<Step>)
    requires Sound(db) && Possible(db, schedule)
    ensures var s := Reached(db, schedule);
      && (forall tenant :: AlikeFor(tenant, s.committed, Replay(db, s.finished)))
      && (s.active == map[] ==> forall tenant :: SameRows(tenant, s.work.rows, s.committed.rows))
  {
    hide Sound, Possible, Reached, AlikeFor, SameRows, Replay;
    EveryInterleavingKeepsInv(db, schedule);
    var s := Reached(db, schedule);
    forall tenant ensures AlikeFor(tenant, s.committed, Replay(db, s.finished)) { assert IsSerial(db, s, tenant); }
    forall tenant | s.active == map[] ensures SameRows(tenant, s.work.rows, s.committed.rows) {
      assert WorkMatches(s, tenant);
    }
  }
}
