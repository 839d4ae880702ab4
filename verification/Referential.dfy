/** What every sync of every tenant keeps: natural keys and row ids, foreign keys, soft-delete marks,
    and the rows of everybody else. */
module Referential {
  import opened Wrappers
  import opened Tables
  import opened Replies
  import opened SyncRun

  /** Row ids are drawn and unique, and every foreign key that is set is the local id of a stored row
      of the table it points into and of the same tenant. */
  ghost predicate Sound(db: Database) {
    && (forall k :: k in db.rows ==> db.rows[k].id < db.nextId)
    && (forall k, k' :: k in db.rows && k' in db.rows && db.rows[k].id == db.rows[k'].id ==> k == k')
    && (forall k :: k in db.rows ==> LinksSound(db.rows, k))
  }

  ghost predicate LinksSound(rows: map<Key, Row>, k: Key)
    requires k in rows
  {
    forall c :: c in rows[k].cells && ForeignTable(k.table, c).Some? ==>
      RefersTo(rows, k.tenant, ForeignTable(k.table, c).value, rows[k].cells[c])
  }

  /** Nothing goes away: rows stay under their key and id, a soft-delete mark once set keeps its time,
      and only rows of `tenant` are written or created. */
  ghost predicate Preserves(db: Database, db': Database, tenant: Tenant) {
    && (forall k :: k in db.rows ==>
          && k in db'.rows && db'.rows[k].id == db.rows[k].id
          && (k.tenant != tenant ==> db'.rows[k] == db.rows[k])
          && (DeletedAt in db.rows[k].cells ==>
                DeletedAt in db'.rows[k].cells && db'.rows[k].cells[DeletedAt] == db.rows[k].cells[DeletedAt]))
    && (forall k :: k in db'.rows && k !in db.rows ==> k.tenant == tenant)
    && db.nextId <= db'.nextId
  }

  lemma ReferencesSurvive(rows: map<Key, Row>, rows': map<Key, Row>, tenant: Tenant, table: Table, v: Value)
    requires forall k :: k in rows ==> k in rows' && rows'[k].id == rows[k].id
    requires RefersTo(rows, tenant, table, v)
    ensures RefersTo(rows', tenant, table, v)
  {
    var k :| k in rows && k.table == table && k.tenant == tenant && v == Ref(rows[k].id);
    assert k in rows';
  }

  /** A change of the row at `k` alone, whose new foreign keys are good, keeps soundness. */
  lemma OneRowSound(db: Database, db': Database, k: Key)
    requires Sound(db) && k in db'.rows && db.nextId <= db'.nextId
    requires forall k' :: k' != k ==> (k' in db'.rows <==> k' in db.rows)
    requires forall k' :: k' != k && k' in db.rows ==> db'.rows[k'] == db.rows[k']
    requires if k in db.rows then db'.rows[k].id == db.rows[k].id
             else db'.rows[k].id == db.nextId < db'.nextId
    requires LinksSound(db'.rows, k)
    ensures Sound(db')
  {
    forall k' | k' in db'.rows ensures LinksSound(db'.rows, k') {
      if k' != k {
        assert LinksSound(db.rows, k');
        forall c | c in db'.rows[k'].cells && ForeignTable(k'.table, c).Some?
          ensures RefersTo(db'.rows, k'.tenant, ForeignTable(k'.table, c).value, db'.rows[k'].cells[c])
        {
          ReferencesSurvive(db.rows, db'.rows, k'.tenant, ForeignTable(k'.table, c).value, db.rows[k'].cells[c]);
        }
      }
    }
  }

  /** The cells of the row an action writes: old ones or ones of its payload. */
  lemma SavedCell(db: Database, tenant: Tenant, a: Action, c: Column)
    requires a.Save? && c in Saved(db, tenant, a).rows[KeyOf(tenant, a)].cells
    ensures var v := Saved(db, tenant, a).rows[KeyOf(tenant, a)].cells[c];
            || (c in PayloadOf(db.rows, tenant, a) && v == PayloadOf(db.rows, tenant, a)[c])
            || (KeyOf(tenant, a) in db.rows && c in db.rows[KeyOf(tenant, a)].cells
                && v == db.rows[KeyOf(tenant, a)].cells[c])
  {
    hide PayloadOf;
  }

  lemma SavedLinksSound(db: Database, tenant: Tenant, a: Action)
    requires Sound(db) && a.Save? && WellFormed(a)
    ensures LinksSound(Saved(db, tenant, a).rows, KeyOf(tenant, a))
  {
    hide PayloadOf, WellFormed, IsWritable;
    var k, db' := KeyOf(tenant, a), Saved(db, tenant, a);
    forall c | c in db'.rows[k].cells && ForeignTable(k.table, c).Some?
      ensures RefersTo(db'.rows, tenant, ForeignTable(k.table, c).value, db'.rows[k].cells[c])
    {
      SavedCell(db, tenant, a, c);
      var table := ForeignTable(k.table, c).value;
      if c in PayloadOf(db.rows, tenant, a) && db'.rows[k].cells[c] == PayloadOf(db.rows, tenant, a)[c] {
        PayloadIsSafe(db.rows, tenant, a, c);
      } else {
        assert LinksSound(db.rows, k);
      }
      ReferencesSurvive(db.rows, db'.rows, tenant, table, db'.rows[k].cells[c]);
    }
  }

  /** An upsert never touches a soft-delete mark. */
  lemma SavedKeepsMark(db: Database, tenant: Tenant, a: Action)
    requires a.Save? && WellFormed(a)
    requires KeyOf(tenant, a) in db.rows && DeletedAt in db.rows[KeyOf(tenant, a)].cells
    ensures var k := KeyOf(tenant, a);
      var cells := Saved(db, tenant, a).rows[k].cells;
      DeletedAt in cells && cells[DeletedAt] == db.rows[k].cells[DeletedAt]
  {
    hide PayloadOf, WellFormed, IsWritable;
    if DeletedAt in PayloadOf(db.rows, tenant, a) {
      PayloadIsSafe(db.rows, tenant, a, DeletedAt);
    }
  }

  lemma SavedKeepsSound(db: Database, tenant: Tenant, a: Action)
    requires Sound(db) && a.Save? && WellFormed(a)
    ensures Sound(Saved(db, tenant, a)) && Preserves(db, Saved(db, tenant, a), tenant)
  {
    hide PayloadOf, WellFormed, Writable, LinksSound, Sound;
    var k := KeyOf(tenant, a);
    SavedLinksSound(db, tenant, a);
    OneRowSound(db, Saved(db, tenant, a), k);
    if k in db.rows && DeletedAt in db.rows[k].cells {
      SavedKeepsMark(db, tenant, a);
    }
  }

  lemma SoftDeletedKeepsSound(db: Database, k: Key, state: Option<string>, now: Instant)
    requires Sound(db)
    ensures Sound(SoftDeleted(db, k, state, now)) && Preserves(db, SoftDeleted(db, k, state, now), k.tenant)
  {
    var db' := SoftDeleted(db, k, state, now);
    if SoftDeletes(db, k, state) {
      assert LinksSound(db.rows, k);
      forall c | c in db'.rows[k].cells && ForeignTable(k.table, c).Some?
        ensures RefersTo(db'.rows, k.tenant, ForeignTable(k.table, c).value, db'.rows[k].cells[c])
      {
        ReferencesSurvive(db.rows, db'.rows, k.tenant, ForeignTable(k.table, c).value, db.rows[k].cells[c]);
      }
      OneRowSound(db, db', k);
    }
  }

  lemma ApplyKeepsSound(db: Database, tenant: Tenant, a: Action, clock: Clock)
    requires Sound(db) && WellFormed(a)
    ensures Sound(Apply(db, tenant, a, clock)) && Preserves(db, Apply(db, tenant, a, clock), tenant)
  {
    hide Saved, SoftDeleted, WellFormed;
    if a.Save? {
      var k := KeyOf(tenant, a);
      SavedKeepsSound(db, tenant, a);
      SoftDeletedKeepsSound(Saved(db, tenant, a), k, a.state, clock(k));
    }
  }

  ghost predicate AllWellFormed(script: seq<Action>) {
    forall i :: 0 <= i < |script| ==> WellFormed(script[i])
  }

  lemma {:induction false} ApplyAllKeepsSound(db: Database, tenant: Tenant, script: seq<Action>, clock: Clock)
    requires Sound(db) && AllWellFormed(script)
    ensures Sound(ApplyAll(db, tenant, script, clock)) && Preserves(db, ApplyAll(db, tenant, script, clock), tenant)
  {
    hide Apply, WellFormed, Sound;
    if script != [] {
      var n := |script| - 1;
      ApplyAllKeepsSound(db, tenant, script[..n], clock);
      ApplyKeepsSound(ApplyAll(db, tenant, script[..n], clock), tenant, script[n], clock);
    }
  }

  // ---- The scripts of runs ----

  lemma CourseScriptWellFormed(c: CourseDto, user: CanvasId)
    ensures AllWellFormed(CourseScript(c, user))
  {
    hide WellFormed, SaveCourse, SaveEnrollment;
    SaveCourseWellFormed(c);
    var es := StripCourse(c, user).enrollments;
    forall i | 0 <= i < |es| ensures WellFormed(EmbeddedAction(es[i], user, c.id)) {
      if KeepsEmbedded(es[i], user) {
        SaveEnrollmentWellFormed(es[i], Some(c.id));
      } else {
        DropIsWellFormed();
      }
    }
  }

  lemma DropIsWellFormed()
    ensures WellFormed(DropPeer)
  {}

  lemma {:induction false} CoursesScriptWellFormed(items: seq<Item<CourseDto>>, user: CanvasId)
    ensures AllWellFormed(CoursesScript(items, user))
  {
    hide WellFormed, CourseScript;
    if items != [] {
      CoursesScriptWellFormed(items[..|items| - 1], user);
      if items[|items| - 1].Parsed? {
        CourseScriptWellFormed(items[|items| - 1].dto, user);
      }
    }
  }

  lemma {:induction false} FallbackScriptWellFormed(items: seq<Item<EnrollmentDto>>, user: CanvasId)
    ensures AllWellFormed(FallbackScript(items, user))
  {
    hide WellFormed, SaveEnrollment;
    if items != [] {
      FallbackScriptWellFormed(items[..|items| - 1], user);
      DropIsWellFormed();
      var last := items[|items| - 1];
      if last.Parsed? && last.dto.id.Some? {
        SaveEnrollmentWellFormed(last.dto, last.dto.courseId);
      }
    }
  }

  lemma AssignmentScriptWellFormed(a: AssignmentDto, user: CanvasId, courseId: CanvasId)
    ensures AllWellFormed(AssignmentScript(a, user, courseId))
  {
    hide WellFormed, SaveAssignment, SaveSubmission;
    DropIsWellFormed();
    SaveAssignmentWellFormed(a, courseId);
    if a.submission.Some? {
      SaveSubmissionWellFormed(StripAssignment(a, user).submission.value, a.id);
    }
  }

  lemma {:induction false} AssignmentsScriptWellFormed(items: seq<Item<AssignmentDto>>, user: CanvasId, courseId: CanvasId)
    ensures AllWellFormed(AssignmentsScript(items, user, courseId))
  {
    hide WellFormed, AssignmentScript;
    if items != [] {
      AssignmentsScriptWellFormed(items[..|items| - 1], user, courseId);
      if items[|items| - 1].Parsed? {
        AssignmentScriptWellFormed(items[|items| - 1].dto, user, courseId);
      }
    }
  }

  lemma {:induction false} ListingsScriptWellFormed(r: Replies, user: CanvasId, courseIds: seq<CanvasId>)
    ensures AllWellFormed(ListingsScript(r, user, courseIds))
  {
    hide WellFormed, AssignmentsScript;
    if courseIds != [] {
      var n := |courseIds| - 1;
      ListingsScriptWellFormed(r, user, courseIds[..n]);
      AssignmentsScriptWellFormed(Listing(r, n).items, user, courseIds[n]);
    }
  }

  lemma RunScriptWellFormed(r: Replies)
    requires SelfFault(r).None?
    ensures AllWellFormed(RunScript(r))
  {
    hide WellFormed, SaveUser, CoursesScript, FallbackScript, ListingsScript, CourseIds, EmbeddedTotal;
    var user := SelfId(r);
    SaveUserWellFormed(r.self.value.dto);
    CoursesScriptWellFormed(r.courses.items, user);
    FallbackScriptWellFormed(r.enrollments.items, user);
    ListingsScriptWellFormed(r, user, CourseIds(r.courses.items));
  }

  /** A completed run keeps the whole database sound, whatever Canvas answered. */
  lemma CompletedKeepsSound(db: Database, tenant: Tenant, r: Replies, clock: Clock, runAt: Instant)
    requires Sound(db) && SelfFault(r).None?
    ensures Sound(Completed(db, tenant, r, clock, runAt))
    ensures Preserves(db, Completed(db, tenant, r, clock, runAt), tenant)
    ensures forall k :: k in db.states && k.tenant != tenant ==>
      k in Completed(db, tenant, r, clock, runAt).states
      && Completed(db, tenant, r, clock, runAt).states[k] == db.states[k]
  {
    hide ApplyAll, RunScript, AllWellFormed;
    RunScriptWellFormed(r);
    ApplyAllKeepsSound(db, tenant, RunScript(r), clock);
    ApplyAllKeepsStates(db, tenant, RunScript(r), clock);
  }

  lemma {:induction false} ApplyAllKeepsStates(db: Database, tenant: Tenant, script: seq<Action>, clock: Clock)
    ensures ApplyAll(db, tenant, script, clock).states == db.states
  {
    if script != [] {
      ApplyAllKeepsStates(db, tenant, script[..|script| - 1], clock);
    }
  }
}
