/** Incremental completeness: following the cursor never misses a change it is told of.  Canvas is a
    timeline for every record of the tenant, whatever endpoint delivers it; reads happen after `runAt`
    was taken. */
module Completeness {
  import opened Wrappers
  import opened Tables
  import opened Replies
  import opened SyncRun
  import opened Referential
  import opened Convergence
  import opened FirstRunExactly
  import opened Agreement
  import opened Deliveries
  import opened History

  datatype Version = Version(at: Instant, content: Content)

  /** The versions of every record of the tenant, oldest first. */
  type World = map<Key, seq<Version>>

  function Latest(vs: seq<Version>, t: Instant): Option<Version> {
    if vs == [] then None
    else if vs[|vs| - 1].at <= t then Some(vs[|vs| - 1])
    else Latest(vs[..|vs| - 1], t)
  }

  /** The version of a record in force at time `t`. */
  function Current(w: World, k: Key, t: Instant): Option<Version> {
    if k in w then Latest(w[k], t) else None
  }

  /** A version still in force at the horizon was in force ever since it was made. */
  lemma {:induction false} StillLatest(vs: seq<Version>, t: Instant, horizon: Instant)
    requires Latest(vs, horizon).Some? && Latest(vs, horizon).value.at <= t <= horizon
    ensures Latest(vs, t) == Latest(vs, horizon)
  {
    if vs[|vs| - 1].at > horizon {
      StillLatest(vs[..|vs| - 1], t, horizon);
    }
  }

  // ---- What Canvas promises a run ----

  /** The record has not changed since the cursor. */
  predicate Covered(w: World, k: Key, since: Option<Instant>, horizon: Instant) {
    var v := Current(w, k, horizon);
    v.Some? && since.Some? && v.value.at <= since.value
  }

  /** A record last changed at or before `runAt`, and after the cursor the run reads from. */
  predicate Due(w: World, k: Key, since: Option<Instant>, runAt: Instant, horizon: Instant) {
    Covered(w, k, Some(runAt), horizon) && !Covered(w, k, since, horizon)
  }

  /** What is written was so at some time between the start of the run and the horizon. */
  ghost predicate ReadDuring(w: World, tenant: Tenant, a: Action, runAt: Instant, horizon: Instant)
    requires a.Save?
  {
    exists t :: runAt <= t <= horizon && SaidAt(w, tenant, a, t)
  }

  ghost predicate SaidAt(w: World, tenant: Tenant, a: Action, t: Instant)
    requires a.Save?
  {
    var v := Current(w, KeyOf(tenant, a), t);
    v.Some? && Agrees(tenant, a, v.value.content)
  }

  /** Nothing is delivered that was not so during the run, and everything due is delivered whole.  Any
      number of copies of a record may be, by any endpoint. */
  ghost predicate Honest(w: World, tenant: Tenant, r: Replies, since: Option<Instant>, runAt: Instant, horizon: Instant) {
    && SelfFault(r).None?
    && (forall a <- RunScript(r) :: a.Save? ==> ReadDuring(w, tenant, a, runAt, horizon))
    && (forall k :: Due(w, k, since, runAt, horizon) ==>
          Told(tenant, RunScript(r), k, Current(w, k, horizon).value.content))
  }

  /** Any answers that say the same of a record wherever they do are honest about some timeline. */
  lemma ConsistentAnswersAreHonest(tenant: Tenant, r: Replies, runAt: Instant, horizon: Instant) returns (w: World)
    requires SelfFault(r).None? && runAt <= horizon && Consistent(tenant, RunScript(r))
    ensures Honest(w, tenant, r, None, runAt, horizon)
    ensures forall a <- RunScript(r) :: a.Save? ==> Covered(w, KeyOf(tenant, a), Some(runAt), horizon)
  {
    hide RunScript, SelfFault, ContentOf, Agrees, Conveys;
    var script := RunScript(r);
    w := map a | a in script && a.Save? :: KeyOf(tenant, a) := [Version(runAt, ContentOf(tenant, a))];
    forall a | a in script && a.Save?
      ensures w[KeyOf(tenant, a)] == [Version(runAt, ContentOf(tenant, a))] && SaidAt(w, tenant, a, runAt)
      ensures Conveys(tenant, a, ContentOf(tenant, a))
    {
      AgreesIsPart(tenant, a, ContentOf(tenant, a));
    }
  }

  predicate Consistent(tenant: Tenant, script: seq<Action>) {
    forall a, b :: a in script && b in script && a.Save? && b.Save? && KeyOf(tenant, a) == KeyOf(tenant, b) ==>
      ContentOf(tenant, a) == ContentOf(tenant, b)
  }

  // ---- One run ----

  /** Everything a run says of a record unchanged since its start is what it is at the horizon. */
  lemma UnchangedIsToldRight(w: World, tenant: Tenant, r: Replies, since: Option<Instant>, runAt: Instant,
                             horizon: Instant, k: Key)
    requires Honest(w, tenant, r, since, runAt, horizon) && Covered(w, k, Some(runAt), horizon)
    ensures AllAgree(tenant, RunScript(r), k, Current(w, k, horizon).value.content)
  {
    hide RunScript, Agrees, SelfFault;
    forall a | a in RunScript(r) && Writes(tenant, a, k) ensures Agrees(tenant, a, Current(w, k, horizon).value.content) {
      var t :| runAt <= t <= horizon && SaidAt(w, tenant, a, t);
      StillLatest(w[k], t, horizon);
    }
  }

  /** One successful run: the row of a record that has not changed since its start shows every field, if it
      did before or the record is due; and a link, if it did before or the run made it. */
  lemma RunCompletes(w: World, db: Database, tenant: Tenant, r: Replies, clock: Clock, since: Option<Instant>,
                     runAt: Instant, horizon: Instant, k: Key)
    requires Honest(w, tenant, r, since, runAt, horizon) && Covered(w, k, Some(runAt), horizon)
    ensures var x, after := Current(w, k, horizon).value.content, ApplyAll(db, tenant, RunScript(r), clock);
      && (Due(w, k, since, runAt, horizon) || ShowsFields(db.rows, k, x) ==> ShowsFields(after.rows, k, x))
      && (forall c <- x.names :: LinkMade(db.rows.Keys, tenant, RunScript(r), k, c) || ShowsLink(db.rows, k, c, x.names[c]) ==>
            ShowsLink(after.rows, k, c, x.names[c]))
  {
    var x, after := Current(w, k, horizon).value.content, ApplyAll(db, tenant, RunScript(r), clock);
    UnchangedIsToldRight(w, tenant, r, since, runAt, horizon, k);
    assert Due(w, k, since, runAt, horizon) ==> Told(tenant, RunScript(r), k, x);
    hide Honest, Covered, Due, RunScript, ApplyAll, AllAgree, Told, LinkMade, ShowsFields, ShowsLink, SelfFault;
    RunScriptWellFormed(r);
    if Told(tenant, RunScript(r), k, x) || ShowsFields(db.rows, k, x) {
      ScriptShowsFields(db, tenant, RunScript(r), clock, k, x);
    }
    forall c | c in x.names && (LinkMade(db.rows.Keys, tenant, RunScript(r), k, c) || ShowsLink(db.rows, k, c, x.names[c]))
      ensures ShowsLink(after.rows, k, c, x.names[c])
    {
      ScriptShowsLink(db, tenant, RunScript(r), clock, k, x, c);
    }
  }

  // ---- Over histories ----

  /** The m-th run is one of the tenant, and succeeds. */
  predicate IsSuccess(db: Database, runs: seq<Run>, tenant: Tenant, m: nat) {
    m < |runs| && runs[m].tenant == tenant && Succeeds(Replay(db, runs[..m]), runs[m])
  }

  function CursorAt(db: Database, runs: seq<Run>, tenant: Tenant, m: nat): Option<Instant>
    requires m <= |runs|
  {
    Watermark(Replay(db, runs[..m]), tenant, SYNC_STATE_TABLE)
  }

  /** What the m-th run reads. */
  function Answers(db: Database, runs: seq<Run>, tenant: Tenant, m: nat): Replies
    requires m < |runs|
  {
    runs[m].canvas(CursorAt(db, runs, tenant, m))
  }

  /** Every run of the tenant that succeeds got honest answers for the cursor it read. */
  ghost predicate HonestHistory(w: World, db: Database, runs: seq<Run>, tenant: Tenant, horizon: Instant) {
    forall m :: 0 <= m < |runs| && IsSuccess(db, runs, tenant, m) ==>
      Honest(w, tenant, Answers(db, runs, tenant, m), CursorAt(db, runs, tenant, m), runs[m].runAt, horizon)
  }

  /** A run made the link, and neither it nor a later one started before the record last changed. */
  ghost predicate MadeSince(w: World, db: Database, runs: seq<Run>, tenant: Tenant, horizon: Instant, k: Key, c: Column) {
    exists m :: 0 <= m < |runs| && MadeByRun(db, runs, tenant, m, k, c) && NoneBefore(w, db, runs, tenant, m, k, horizon)
  }

  ghost predicate MadeByRun(db: Database, runs: seq<Run>, tenant: Tenant, m: nat, k: Key, c: Column)
    requires m < |runs|
  {
    && IsSuccess(db, runs, tenant, m) && SelfFault(Answers(db, runs, tenant, m)).None?
    && LinkMade(Replay(db, runs[..m]).rows.Keys, tenant, RunScript(Answers(db, runs, tenant, m)), k, c)
  }

  ghost predicate NoneBefore(w: World, db: Database, runs: seq<Run>, tenant: Tenant, m: nat, k: Key, horizon: Instant) {
    forall n :: m <= n < |runs| && IsSuccess(db, runs, tenant, n) ==> Covered(w, k, Some(runs[n].runAt), horizon)
  }

  /** The target was stored at a time when the cursor had not reached the record's last change. */
  ghost predicate StoredBefore(w: World, db: Database, runs: seq<Run>, tenant: Tenant, horizon: Instant, k: Key, t: Key) {
    exists m :: 0 <= m <= |runs| && !Covered(w, k, CursorAt(db, runs, tenant, m), horizon) && t in Replay(db, runs[..m]).rows
  }

  /** One run of any tenant and any end, for one record. */
  lemma RunKeepsComplete(w: World, db: Database, run: Run, tenant: Tenant, horizon: Instant, k: Key)
    requires Sound(db) && Current(w, k, horizon).Some? && k.tenant == tenant
    requires run.tenant == tenant && Succeeds(db, run) ==>
      var since := Watermark(db, tenant, SYNC_STATE_TABLE);
      Honest(w, tenant, run.canvas(since), since, run.runAt, horizon) && Covered(w, k, Some(run.runAt), horizon)
    ensures var x, after := Current(w, k, horizon).value.content, After(db, run);
      var since := Watermark(db, tenant, SYNC_STATE_TABLE);
      && (ShowsFields(db.rows, k, x) ==> ShowsFields(after.rows, k, x))
      && (forall c <- x.names :: ShowsLink(db.rows, k, c, x.names[c]) ==> ShowsLink(after.rows, k, c, x.names[c]))
      && (run.tenant == tenant && Succeeds(db, run) ==>
            && (Due(w, k, since, run.runAt, horizon) ==> ShowsFields(after.rows, k, x))
            && (forall c <- x.names :: LinkMade(db.rows.Keys, tenant, RunScript(run.canvas(since)), k, c) ==>
                  ShowsLink(after.rows, k, c, x.names[c])))
  {
    hide Honest, Sound, After, Succeeds, RunScript, ApplyAll, SelfFault, Current, Covered, Due, ShowsFields, ShowsLink, LinkMade;
    var x, since := Current(w, k, horizon).value.content, Watermark(db, tenant, SYNC_STATE_TABLE);
    if run.tenant == tenant && Succeeds(db, run) {
      SuccessfulRunCompletes(db, run);
      RunCompletes(w, db, tenant, run.canvas(since), run.clock, since, run.runAt, horizon, k);
    } else {
      if !Succeeds(db, run) { FailedRunLeavesOnlyItsMarker(db, run); }
      AfterKeepsSound(db, run);
      forall c | c in x.names ensures ShowsLink(db.rows, k, c, x.names[c]) ==> ShowsLink(After(db, run).rows, k, c, x.names[c]) {
        StillShows(db.rows, After(db, run).rows, k, x, c);
      }
      StillShows(db.rows, After(db, run).rows, k, x, TenantId);
    }
  }

  /** A whole copy names every link, so one to a stored record is made. */
  lemma ToldMakesLinks(stored: set<Key>, tenant: Tenant, script: seq<Action>, k: Key, x: Content, c: Column)
    requires Told(tenant, script, k, x) && c in x.names && x.names[c] in stored
    ensures LinkMade(stored, tenant, script, k, c)
  {
    var a :| a in script && Writes(tenant, a, k) && Conveys(tenant, a, x);
    var j :| 0 <= j < |script| && script[j] == a;
    hide SavedKeys, TargetOf, PlainColumn;
    assert MadeAt(stored, tenant, script, j, k, c);
  }

  // The runs before the last one are where they were.
  lemma PrefixAlike(db: Database, runs: seq<Run>, tenant: Tenant, m: nat)
    requires m < |runs|
    ensures var head := runs[..|runs| - 1];
      && (m < |head| ==> IsSuccess(db, head, tenant, m) == IsSuccess(db, runs, tenant, m))
      && (m < |head| ==> Answers(db, head, tenant, m) == Answers(db, runs, tenant, m))
      && CursorAt(db, head, tenant, m) == CursorAt(db, runs, tenant, m) && head[..m] == runs[..m]
  {
    hide Replay, Succeeds;
    assert runs[..|runs| - 1][..m] == runs[..m];
  }

  lemma HonestBefore(w: World, db: Database, runs: seq<Run>, tenant: Tenant, horizon: Instant)
    requires runs != [] && HonestHistory(w, db, runs, tenant, horizon)
    ensures HonestHistory(w, db, runs[..|runs| - 1], tenant, horizon)
  {
    hide Honest, IsSuccess, Answers, CursorAt;
    forall m: nat | m < |runs| - 1 && IsSuccess(db, runs[..|runs| - 1], tenant, m)
      ensures Honest(w, tenant, Answers(db, runs[..|runs| - 1], tenant, m), CursorAt(db, runs[..|runs| - 1], tenant, m),
                     runs[m].runAt, horizon)
    {
      PrefixAlike(db, runs, tenant, m);
    }
  }

  /** A link that was made is made by the last run or was before it. */
  lemma MadeLastOrEarlier(w: World, db: Database, runs: seq<Run>, tenant: Tenant, horizon: Instant, k: Key, c: Column)
    requires runs != [] && MadeSince(w, db, runs, tenant, horizon, k, c)
    ensures var n := |runs| - 1;
      && (MadeByRun(db, runs, tenant, n, k, c) || MadeSince(w, db, runs[..n], tenant, horizon, k, c))
      && (IsSuccess(db, runs, tenant, n) ==> Covered(w, k, Some(runs[n].runAt), horizon))
  {
    hide IsSuccess, Answers, CursorAt, LinkMade, Covered;
    var n := |runs| - 1;
    var m :| 0 <= m < |runs| && MadeByRun(db, runs, tenant, m, k, c) && NoneBefore(w, db, runs, tenant, m, k, horizon);
    if m < n {
      PrefixAlike(db, runs, tenant, m);
      forall i | m <= i < n && IsSuccess(db, runs[..n], tenant, i) ensures Covered(w, k, Some(runs[i].runAt), horizon) {
        PrefixAlike(db, runs, tenant, i);
      }
      assert MadeByRun(db, runs[..n], tenant, m, k, c) && NoneBefore(w, db, runs[..n], tenant, m, k, horizon);
    }
  }

  lemma {:induction false} StoredStays(db: Database, runs: seq<Run>, m: nat, t: Key)
    requires Sound(db) && m <= |runs| && t in Replay(db, runs[..m]).rows
    ensures t in Replay(db, runs).rows
  {
    hide Sound, After;
    if m < |runs| {
      var n := |runs| - 1;
      assert runs[..n][..m] == runs[..m];
      StoredStays(db, runs[..n], m, t);
      HistoryKeepsSound(db, runs[..n]);
      AfterKeepsSound(Replay(db, runs[..n]), runs[n]);
    } else {
      assert runs[..m] == runs;
    }
  }

  /** A target stored in time was so before the last run, if the cursor has reached the change since. */
  lemma StoredEarlier(w: World, db: Database, runs: seq<Run>, tenant: Tenant, horizon: Instant, k: Key, t: Key)
    requires Sound(db) && runs != [] && StoredBefore(w, db, runs, tenant, horizon, k, t)
    requires Covered(w, k, CursorAt(db, runs, tenant, |runs|), horizon)
    ensures var head := runs[..|runs| - 1];
      StoredBefore(w, db, head, tenant, horizon, k, t) && t in Replay(db, head).rows
  {
    hide Covered, CursorAt, Sound, Replay;
    var head := runs[..|runs| - 1];
    var m :| 0 <= m <= |runs| && !Covered(w, k, CursorAt(db, runs, tenant, m), horizon) && t in Replay(db, runs[..m]).rows;
    PrefixAlike(db, runs, tenant, m);
    StoredStays(db, head, m, t);
  }

  /** What is complete for a record after a history. */
  ghost predicate Complete(w: World, db: Database, runs: seq<Run>, tenant: Tenant, horizon: Instant, k: Key)
    requires Current(w, k, horizon).Some?
  {
    var x, rows := Current(w, k, horizon).value.content, Replay(db, runs).rows;
    && (Covered(w, k, CursorAt(db, runs, tenant, |runs|), horizon) ==>
          && ShowsFields(rows, k, x)
          && (forall c <- x.names :: StoredBefore(w, db, runs, tenant, horizon, k, x.names[c]) ==>
                ShowsLink(rows, k, c, x.names[c])))
    && (forall c <- x.names :: MadeSince(w, db, runs, tenant, horizon, k, c) ==> ShowsLink(rows, k, c, x.names[c]))
  }

  lemma LastRunKeepsComplete(w: World, db: Database, runs: seq<Run>, tenant: Tenant, horizon: Instant, k: Key)
    requires runs != [] && Sound(db) && HonestHistory(w, db, runs, tenant, horizon)
    requires k.tenant == tenant && Current(w, k, horizon).Some?
    requires Complete(w, db, runs[..|runs| - 1], tenant, horizon, k)
    ensures Complete(w, db, runs, tenant, horizon, k)
  {
    var n := |runs| - 1;
    var head, run, x := runs[..n], runs[n], Current(w, k, horizon).value.content;
    var here := Replay(db, head);
    var since := Watermark(here, tenant, SYNC_STATE_TABLE);
    assert head[..n] == head && runs[..n + 1] == runs;
    HistoryKeepsSound(db, head);
    hide Honest, Sound, After, Succeeds, RunScript, SelfFault, Current, ShowsFields, ShowsLink, LinkMade, StoredBefore, MadeSince;
    var success := IsSuccess(db, runs, tenant, n);
    if success { CompletedAdvances(here, run, tenant); } else { CursorStays(here, run, tenant); }
    if !success || Covered(w, k, Some(run.runAt), horizon) {
      RunKeepsComplete(w, here, run, tenant, horizon, k);
      if Covered(w, k, CursorAt(db, runs, tenant, |runs|), horizon) {
        forall c | c in x.names && StoredBefore(w, db, runs, tenant, horizon, k, x.names[c])
          ensures ShowsLink(Replay(db, runs).rows, k, c, x.names[c])
        {
          StoredEarlier(w, db, runs, tenant, horizon, k, x.names[c]);
          if !Covered(w, k, since, horizon) {
            ToldOfDue(w, tenant, run.canvas(since), since, run.runAt, horizon, k);
            ToldMakesLinks(here.rows.Keys, tenant, RunScript(run.canvas(since)), k, x, c);
          }
        }
      }
    }
    forall c | c in x.names && MadeSince(w, db, runs, tenant, horizon, k, c)
      ensures ShowsLink(Replay(db, runs).rows, k, c, x.names[c])
    {
      MadeLastOrEarlier(w, db, runs, tenant, horizon, k, c);
    }
  }

  lemma ToldOfDue(w: World, tenant: Tenant, r: Replies, since: Option<Instant>, runAt: Instant, horizon: Instant, k: Key)
    requires Honest(w, tenant, r, since, runAt, horizon) && Due(w, k, since, runAt, horizon)
    ensures Told(tenant, RunScript(r), k, Current(w, k, horizon).value.content)
  {}

  lemma CursorStays(db: Database, run: Run, tenant: Tenant)
    requires run.tenant != tenant || !Succeeds(db, run)
    ensures Watermark(After(db, run), tenant, SYNC_STATE_TABLE) == Watermark(db, tenant, SYNC_STATE_TABLE)
  {
    hide Succeeds, After;
    if Succeeds(db, run) {
      CompletedAdvances(db, run, tenant);
    } else {
      FailedRunLeavesOnlyItsMarker(db, run);
    }
  }

  /** Incremental completeness.  After any history of honest runs, if the cursor has reached the last
      change of a record of any of the five kinds, its row has every non-null payload field, even if
      records change while a run is reading, and whichever endpoints deliver it.  A link refers to the
      record named if that was stored when a run since the last change named it, earlier in the same run
      included, or if it was stored at any time before the cursor had reached that change. */
  lemma {:induction false} HistoryIsComplete(w: World, db: Database, runs: seq<Run>, tenant: Tenant, horizon: Instant, k: Key)
    requires Sound(db) && HonestHistory(w, db, runs, tenant, horizon)
    requires k.tenant == tenant && Current(w, k, horizon).Some?
    requires Covered(w, k, Watermark(db, tenant, SYNC_STATE_TABLE), horizon) ==>
      ShowsFields(db.rows, k, Current(w, k, horizon).value.content)
    ensures Complete(w, db, runs, tenant, horizon, k)
  {
    if runs == [] {
      assert runs[..0] == [];
    } else {
      hide Honest, Complete, Sound;
      HonestBefore(w, db, runs, tenant, horizon);
      HistoryIsComplete(w, db, runs[..|runs| - 1], tenant, horizon, k);
      LastRunKeepsComplete(w, db, runs, tenant, horizon, k);
    }
  }

  // ---- What is not promised ----

  /** Told whole or not at all, a record is complete after a run exactly if it was before or the run was
      told it. */
  lemma RowCompletesExactly(db: Database, tenant: Tenant, r: Replies, clock: Clock, k: Key, x: Content)
    requires SelfFault(r).None?
    requires forall a <- RunScript(r) :: Writes(tenant, a, k) ==> Conveys(tenant, a, x)
    ensures ShowsFields(ApplyAll(db, tenant, RunScript(r), clock).rows, k, x)
            <==> ShowsFields(db.rows, k, x) || exists a :: a in RunScript(r) && Writes(tenant, a, k)
  {
    var script := RunScript(r);
    hide RunScript;
    WholeCopiesAgree(tenant, script, k, x);
    hide ApplyAll, ShowsFields, Conveys, AllAgree, SelfFault, Writes;
    if a :| a in script && Writes(tenant, a, k) {
      assert Told(tenant, script, k, x);
      RunScriptWellFormed(r);
      ScriptShowsFields(db, tenant, script, clock, k, x);
    } else {
      UnwrittenRowStays(db, tenant, script, clock, k);
      SameRowShowsAlike(db.rows, ApplyAll(db, tenant, script, clock).rows, k, x);
    }
  }

  lemma WholeCopiesAgree(tenant: Tenant, script: seq<Action>, k: Key, x: Content)
    requires forall a <- script :: Writes(tenant, a, k) ==> Conveys(tenant, a, x)
    ensures AllAgree(tenant, script, k, x)
  {}

  lemma SameRowShowsAlike(rows: map<Key, Row>, rows': map<Key, Row>, k: Key, x: Content)
    requires (k in rows' <==> k in rows) && (k in rows ==> rows'[k] == rows[k])
    ensures ShowsFields(rows, k, x) <==> ShowsFields(rows', k, x)
  {}

  lemma WriterNamesListedCourse(tenant: Tenant, r: Replies, a: Action, k: Key, x: Content) returns (listed: CanvasId)
    requires SelfFault(r).None? && AllAgree(tenant, RunScript(r), k, x)
    requires a in RunScript(r) && Writes(tenant, a, k) && k.table == Assignments
    ensures listed in CourseIds(r.courses.items)
    ensures CourseId in x.names && x.names[CourseId] == Key(Courses, tenant, listed)
  {
    listed := AssignmentIsOfListedCourse(r, a);
    hide RunScript;
    assert TargetOf(tenant, a.links, CourseId) == Some(Key(Courses, tenant, listed));
    assert Agrees(tenant, a, x);
  }

  /** Assignments are read through the courses of the answers only: one that changed while its course is
      left out stays as it was, and the cursor passes it by. */
  lemma UnlistedCourseIsMissed(db: Database, tenant: Tenant, r: Replies, clock: Clock, runAt: Instant, k: Key, x: Content,
                               id: CanvasId)
    requires SelfFault(r).None? && AllAgree(tenant, RunScript(r), k, x)
    requires k.table == Assignments && CourseId in x.names && x.names[CourseId] == Key(Courses, tenant, id)
    requires id !in CourseIds(r.courses.items)
    ensures var after := Completed(db, tenant, r, clock, runAt);
      && (k in after.rows <==> k in db.rows) && (k in db.rows ==> after.rows[k] == db.rows[k])
      && Watermark(after, tenant, SYNC_STATE_TABLE) == Some(runAt)
  {
    hide RunScript, ApplyAll, CourseIds, SelfFault, AllAgree;
    forall a | a in RunScript(r) && Writes(tenant, a, k)
      ensures exists listed :: listed in CourseIds(r.courses.items) && listed == id
    {
      var listed := WriterNamesListedCourse(tenant, r, a, k, x);
    }
    UnwrittenRowStays(db, tenant, RunScript(r), clock, k);
  }

  lemma AssignmentColumn(c: Column)
    requires PayloadField(Assignments, c)
    ensures IsWritable(Assignments, c) && !c.DeletedAt? && c !in KEY_COLUMNS && c != WorkflowState && c != CourseId
  {}

  lemma AssignmentAttr(a: AssignmentDto, c: Column)
    requires PayloadField(Assignments, c)
    ensures c in AssignmentPayload(a) <==> c in a.attrs
    ensures c in a.attrs ==> AssignmentPayload(a)[c] == a.attrs[c]
  {
    AssignmentColumn(c);
    hide PayloadField, IsWritable;
  }

  /** Saving an assignment writes exactly the columns of its fields. */
  lemma AssignmentWrites(a: AssignmentDto, courseId: CanvasId, rows: map<Key, Row>, tenant: Tenant, c: Column)
    requires PayloadField(Assignments, c)
    ensures var w := WrittenTo(rows, tenant, SaveAssignment(a, courseId), Key(Assignments, tenant, a.id));
      (c in w <==> c in a.attrs) && (c in a.attrs ==> w[c] == a.attrs[c])
  {
    AssignmentColumn(c);
    AssignmentAttr(a, c);
    hide PayloadField, AllRelinked, AssignmentPayload, IsWritable;
    var links := SaveAssignment(a, courseId).links;
    assert !HasColumn(links, c) by { assert links[1..] == []; }
    RelinkedOther(rows, tenant, AssignmentPayload(a), links, c);
  }

  /** A field Canvas clears keeps its old value in the replica: only non-null fields agree. */
  lemma ClearedFieldsStay(db: Database, tenant: Tenant, before: AssignmentDto, now: AssignmentDto, courseId: CanvasId,
                          clock: Clock, column: Column)
    requires before.id == now.id && column in before.attrs && column !in now.attrs
    requires PayloadField(Assignments, column)
    ensures var once := Apply(db, tenant, SaveAssignment(before, courseId), clock);
            var twice := Apply(once, tenant, SaveAssignment(now, courseId), clock);
            var k := Key(Assignments, tenant, before.id);
            column in CellsAt(twice, k) && CellsAt(twice, k)[column] == before.attrs[column]
  {
    SaveAssignmentWellFormed(before, courseId);
    SaveAssignmentWellFormed(now, courseId);
    AssignmentColumn(column);
    hide Apply, PayloadField, WrittenTo, WellFormed, IsWritable, SaveAssignment;
    var k := Key(Assignments, tenant, before.id);
    var once := Apply(db, tenant, SaveAssignment(before, courseId), clock);
    AssignmentWrites(before, courseId, db.rows, tenant, column);
    CellsAfter(db, tenant, SaveAssignment(before, courseId), clock, k, column);
    AssignmentWrites(now, courseId, once.rows, tenant, column);
    CellsAfter(once, tenant, SaveAssignment(now, courseId), clock, k, column);
  }
}
