/** The counters of a successful run account for everything Canvas delivered. */
module Conservation {
  import opened Wrappers
  import opened Tables
  import opened Replies
  import opened SyncRun
  import opened Referential
  import opened Convergence

  function SavesOf(script: seq<Action>, table: Table): nat {
    if script == [] then 0
    else
      var last := script[|script| - 1];
      SavesOf(script[..|script| - 1], table) + if last.Save? && last.table == table then 1 else 0
  }

  function Drops(script: seq<Action>): nat {
    if script == [] then 0
    else Drops(script[..|script| - 1]) + if script[|script| - 1].DropPeer? then 1 else 0
  }

  /** Nested records dealt with: saved as an enrollment or a submission, or dropped. */
  function Handled(script: seq<Action>): nat {
    SavesOf(script, Enrollments) + SavesOf(script, Submissions) + Drops(script)
  }

  lemma {:induction false} TalliesAppend(a: seq<Action>, b: seq<Action>)
    ensures forall t :: SavesOf(a + b, t) == SavesOf(a, t) + SavesOf(b, t)
    ensures Drops(a + b) == Drops(a) + Drops(b)
  {
    if b == [] {
      assert a + b == a;
    } else {
      assert (a + b)[..|a + b| - 1] == a + b[..|b| - 1];
      TalliesAppend(a, b[..|b| - 1]);
    }
  }

  lemma TallyOne(a: Action)
    ensures forall t :: SavesOf([a], t) == if a.Save? && a.table == t then 1 else 0
    ensures Drops([a]) == if a.DropPeer? then 1 else 0
  {
    assert [a][..0] == [];
    assert forall t :: SavesOf([], t) == 0;
    assert Drops([]) == 0;
  }

  /** The counters are the tallies of the script. */
  lemma {:induction false} CountersAreTallies(p: Progress, tenant: Tenant, script: seq<Action>, clock: Clock)
    ensures var c := Steps(p, tenant, script, clock).counts;
      && c.users == p.counts.users + SavesOf(script, Users)
      && c.courses == p.counts.courses + SavesOf(script, Courses)
      && c.enrollments == p.counts.enrollments + SavesOf(script, Enrollments)
      && c.assignments == p.counts.assignments + SavesOf(script, Assignments)
      && c.submissions == p.counts.submissions + SavesOf(script, Submissions)
      && c.droppedPeer == p.counts.droppedPeer + Drops(script)
  {
    hide Apply, SoftDeletes, Saved;
    if script != [] {
      CountersAreTallies(p, tenant, script[..|script| - 1], clock);
    }
  }

  // ---- What the answers deliver ----

  /** Embedded enrollments that survive peer stripping. */
  function Surviving(items: seq<Item<CourseDto>>, user: CanvasId): nat {
    if items == [] then 0
    else
      var last := items[|items| - 1];
      Surviving(items[..|items| - 1], user)
        + if last.Parsed? then |StripCourse(last.dto, user).enrollments| else 0
  }

  function WithSubmission(items: seq<Item<AssignmentDto>>): nat {
    if items == [] then 0
    else
      var last := items[|items| - 1];
      WithSubmission(items[..|items| - 1]) + if last.Parsed? && last.dto.submission.Some? then 1 else 0
  }

  function ListedAssignments(r: Replies, n: nat): nat {
    if n == 0 then 0 else ListedAssignments(r, n - 1) + |Listing(r, n - 1).items|
  }

  function ListedSubmissions(r: Replies, n: nat): nat {
    if n == 0 then 0 else ListedSubmissions(r, n - 1) + WithSubmission(Listing(r, n - 1).items)
  }

  lemma {:induction false} EmbeddedTally(es: seq<EnrollmentDto>, user: CanvasId, courseId: CanvasId)
    ensures var s := EmbeddedScript(es, user, courseId);
      && Handled(s) == |es|
      && SavesOf(s, Users) == 0 && SavesOf(s, Courses) == 0 && SavesOf(s, Assignments) == 0
  {
    hide SaveEnrollment;
    var s := EmbeddedScript(es, user, courseId);
    if es != [] {
      var n := |es| - 1;
      EmbeddedTally(es[..n], user, courseId);
      assert s[..n] == EmbeddedScript(es[..n], user, courseId);
      if KeepsEmbedded(es[n], user) {
        EnrollmentTable(es[n], Some(courseId));
      }
    }
  }

  lemma EnrollmentTable(e: EnrollmentDto, fallback: Option<CanvasId>)
    requires e.id.Some?
    ensures SaveEnrollment(e, fallback).Save? && SaveEnrollment(e, fallback).table == Enrollments
  {}

  lemma {:induction false} CoursesTally(items: seq<Item<CourseDto>>, user: CanvasId)
    requires AllParsed(items)
    ensures var s := CoursesScript(items, user);
      && SavesOf(s, Courses) == |items| && SavesOf(s, Users) == 0 && SavesOf(s, Assignments) == 0
      && Handled(s) == Surviving(items, user)
  {
    hide EmbeddedScript, CoursePayload;
    if items != [] {
      var n := |items| - 1;
      CoursesTally(items[..n], user);
      var c := items[n].dto;
      var embedded := EmbeddedScript(StripCourse(c, user).enrollments, user, c.id);
      TallyOne(SaveCourse(c));
      EmbeddedTally(StripCourse(c, user).enrollments, user, c.id);
      TalliesAppend([SaveCourse(c)], embedded);
      TalliesAppend(CoursesScript(items[..n], user), CourseScript(c, user));
    }
  }

  lemma {:induction false} FallbackTally(items: seq<Item<EnrollmentDto>>, user: CanvasId)
    requires AllParsed(items)
    ensures var s := FallbackScript(items, user);
      && Handled(s) == |items|
      && SavesOf(s, Users) == 0 && SavesOf(s, Courses) == 0 && SavesOf(s, Assignments) == 0
  {
    hide SaveEnrollment;
    if items != [] {
      var n := |items| - 1;
      FallbackTally(items[..n], user);
      TallyOne(FallbackAction(items[n].dto, user));
      if items[n].dto.id.Some? {
        EnrollmentTable(items[n].dto, items[n].dto.courseId);
      }
      TalliesAppend(FallbackScript(items[..n], user), [FallbackAction(items[n].dto, user)]);
    }
  }

  lemma AssignmentTally(a: AssignmentDto, user: CanvasId, courseId: CanvasId)
    ensures var s := AssignmentScript(a, user, courseId);
      && SavesOf(s, Assignments) == 1 && SavesOf(s, Users) == 0 && SavesOf(s, Courses) == 0
      && Handled(s) == if a.submission.Some? then 1 else 0
  {
    var rest := SubmissionScript(a, user);
    TallyOne(SaveAssignment(a, courseId));
    TalliesAppend([SaveAssignment(a, courseId)], rest);
    if rest != [] {
      assert rest == [rest[0]];
      TallyOne(rest[0]);
    }
  }

  lemma {:induction false} AssignmentsTally(items: seq<Item<AssignmentDto>>, user: CanvasId, courseId: CanvasId)
    requires AllParsed(items)
    ensures var s := AssignmentsScript(items, user, courseId);
      && SavesOf(s, Assignments) == |items| && SavesOf(s, Users) == 0 && SavesOf(s, Courses) == 0
      && Handled(s) == WithSubmission(items)
  {
    hide AssignmentScript;
    if items != [] {
      var n := |items| - 1;
      AssignmentsTally(items[..n], user, courseId);
      AssignmentTally(items[n].dto, user, courseId);
      TalliesAppend(AssignmentsScript(items[..n], user, courseId), AssignmentScript(items[n].dto, user, courseId));
    }
  }

  lemma {:induction false} ListingsTally(r: Replies, user: CanvasId, courseIds: seq<CanvasId>)
    requires ListingsFault(r, courseIds).None?
    ensures var s := ListingsScript(r, user, courseIds);
      && SavesOf(s, Assignments) == ListedAssignments(r, |courseIds|)
      && SavesOf(s, Users) == 0 && SavesOf(s, Courses) == 0
      && Handled(s) == ListedSubmissions(r, |courseIds|)
  {
    hide AssignmentsScript;
    if courseIds != [] {
      var n := |courseIds| - 1;
      ListingsTally(r, user, courseIds[..n]);
      AssignmentsTally(Listing(r, n).items, user, courseIds[n]);
      TalliesAppend(ListingsScript(r, user, courseIds[..n]), AssignmentsScript(Listing(r, n).items, user, courseIds[n]));
    }
  }

  lemma {:induction false} EveryCourseHasItsId(items: seq<Item<CourseDto>>)
    requires AllParsed(items)
    ensures |CourseIds(items)| == |items|
  {
    if items != [] {
      EveryCourseHasItsId(items[..|items| - 1]);
    }
  }

  /** Conservation: a successful run counts one user, every course and assignment delivered, and each
      nested record that survived stripping once, as saved or as dropped. */
  lemma CountsAreConserved(db: Database, tenant: Tenant, r: Replies, clock: Clock)
    requires RunFault(r).None?
    ensures SelfFault(r).None?
    ensures var c := Steps(Progress(db, NO_COUNTS), tenant, RunScript(r), clock).counts;
            var user, n := SelfId(r), |r.courses.items|;
      && c.users == 1
      && c.courses == n
      && c.assignments == ListedAssignments(r, n)
      && c.enrollments + c.submissions + c.droppedPeer
           == Surviving(r.courses.items, user)
              + (if UsesFallback(r) then |r.enrollments.items| else 0)
              + ListedSubmissions(r, n)
  {
    hide CoursesScript, FallbackScript, ListingsScript, Steps, SaveUser, SavesOf, Drops;
    var user := SelfId(r);
    var s0, s1 := [SaveUser(r.self.value.dto)], CoursesScript(r.courses.items, user);
    var s2, s3 := EnrollmentsScript(r), ListingsScript(r, user, CourseIds(r.courses.items));
    CountersAreTallies(Progress(db, NO_COUNTS), tenant, RunScript(r), clock);
    TalliesAppend(s0, s1);
    TalliesAppend(s0 + s1, s2);
    TalliesAppend(s0 + s1 + s2, s3);
    UserTally(r.self.value.dto);
    CoursesTally(r.courses.items, user);
    if UsesFallback(r) {
      FallbackTally(r.enrollments.items, user);
    } else {
      NothingTallied();
    }
    EveryCourseHasItsId(r.courses.items);
    ListingsTally(r, user, CourseIds(r.courses.items));
  }

  lemma UserTally(u: UserDto)
    ensures forall t :: SavesOf([SaveUser(u)], t) == if t == Users then 1 else 0
    ensures Drops([SaveUser(u)]) == 0
  {
    TallyOne(SaveUser(u));
  }

  lemma NothingTallied()
    ensures forall t :: SavesOf([], t) == 0
    ensures Drops([]) == 0
  {}

  // ---- Soft deletes ----

  /** The rows that carry a soft-delete mark in `db'` and did not in `db`. */
  function NewlyDeleted(db: Database, db': Database): set<Key> {
    set k | k in db'.rows && DeletedAt in db'.rows[k].cells && DeletedAt !in CellsAt(db, k)
  }

  lemma SavedKeepsMarks(db: Database, tenant: Tenant, a: Action)
    requires a.Save? && WellFormed(a)
    ensures var saved := Saved(db, tenant, a);
      && saved.rows.Keys == db.rows.Keys + {KeyOf(tenant, a)}
      && forall k :: k in saved.rows ==> (DeletedAt in saved.rows[k].cells <==> DeletedAt in CellsAt(db, k))
  {
    hide PayloadOf, WellFormed, IsWritable;
    if DeletedAt in PayloadOf(db.rows, tenant, a) {
      PayloadIsSafe(db.rows, tenant, a, DeletedAt);
    }
  }

  /** The marks of `start` are still there. */
  ghost predicate KeepsMarks(start: Database, db: Database) {
    && (forall k :: k in start.rows ==> k in db.rows)
    && (forall k :: k in start.rows && DeletedAt in start.rows[k].cells ==> DeletedAt in db.rows[k].cells)
  }

  lemma SoftDeleteMarks(start: Database, db: Database, k: Key, state: Option<string>, now: Instant)
    requires KeepsMarks(start, db)
    ensures KeepsMarks(start, SoftDeleted(db, k, state, now))
    ensures |NewlyDeleted(start, SoftDeleted(db, k, state, now))|
         == |NewlyDeleted(start, db)| + if SoftDeletes(db, k, state) then 1 else 0
  {
    hide Inactive;
    if SoftDeletes(db, k, state) {
      var db' := SoftDeleted(db, k, state, now);
      assert NewlyDeleted(start, db') == NewlyDeleted(start, db) + {k};
    }
  }

  lemma StepMarks(start: Database, p: Progress, tenant: Tenant, a: Action, clock: Clock)
    requires WellFormed(a) && KeepsMarks(start, p.db)
    requires p.counts.softDeleted == |NewlyDeleted(start, p.db)|
    ensures KeepsMarks(start, Step(p, tenant, a, clock).db)
    ensures Step(p, tenant, a, clock).counts.softDeleted == |NewlyDeleted(start, Step(p, tenant, a, clock).db)|
  {
    hide WellFormed, Saved, SoftDeletes, SoftDeleted;
    if a.Save? {
      SavedKeepsMarks(p.db, tenant, a);
      var saved := Saved(p.db, tenant, a);
      assert NewlyDeleted(start, saved) == NewlyDeleted(start, p.db);
      SoftDeleteMarks(start, saved, KeyOf(tenant, a), a.state, clock(KeyOf(tenant, a)));
    }
  }

  /** The soft-delete counter is the number of rows the run newly marked. */
  lemma {:induction false} SoftDeletesAreCounted(db: Database, tenant: Tenant, script: seq<Action>, clock: Clock)
    requires AllWellFormed(script)
    ensures var q := Steps(Progress(db, NO_COUNTS), tenant, script, clock);
            KeepsMarks(db, q.db) && q.counts.softDeleted == |NewlyDeleted(db, q.db)|
  {
    hide Step, WellFormed;
    if script == [] {
      assert NewlyDeleted(db, db) == {};
    } else {
      var n := |script| - 1;
      SoftDeletesAreCounted(db, tenant, script[..n], clock);
      StepMarks(db, Steps(Progress(db, NO_COUNTS), tenant, script[..n], clock), tenant, script[n], clock);
    }
  }
}
