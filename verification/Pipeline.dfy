/** The tenant-scoped synchronization pipeline, statement by statement, proved against SyncRun. */
module Pipeline {
  import opened Wrappers
  import opened Tables
  import opened Sessions
  import opened Replies
  import opened SyncRun

  datatype Status = Ok | Failed | Locked

  datatype SyncResult = SyncResult(
    tenant: Tenant,
    status: Status,
    lastErrorClass: Option<ErrorClass>,
    lastSuccessfulAt: Option<Instant>,
    lastRunAt: Instant,
    counts: Counts,
    lockAcquired: bool)

  // A run returns its result, or lets a cancellation through.
  datatype Outcome = Returned(result: SyncResult) | Raised

  /** Whether the database refuses a write of the work before the answers end it, the commit of the work,
      or the write of the failure marker. */
  datatype DbFaults = DbFaults(writeFails: bool, commitFails: bool, markerFails: bool)

  /** The `counts` dictionary of a run. */
  class Counters {
    var users: nat
    var courses: nat
    var enrollments: nat
    var assignments: nat
    var submissions: nat
    var softDeleted: nat
    var droppedPeer: nat

    constructor ()
      ensures Value() == NO_COUNTS
    {
      users, courses, enrollments, assignments, submissions := 0, 0, 0, 0, 0;
      softDeleted, droppedPeer := 0, 0;
    }

    function Value(): Counts
      reads this
    {
      Counts(users, courses, enrollments, assignments, submissions, softDeleted, droppedPeer)
    }

    method AddSaved(table: Table)
      modifies this
      ensures Value() == CountSaved(old(Value()), table)
    {
      match table {
        case Users => users := users + 1;
        case Courses => courses := courses + 1;
        case Enrollments => enrollments := enrollments + 1;
        case Assignments => assignments := assignments + 1;
        case Submissions => submissions := submissions + 1;
      }
    }
  }

  ghost function ProgressOf(session: Session, counts: Counters): Progress
    reads session, counts
  {
    Progress(session.db, counts.Value())
  }

  // ---- One record ----

  lemma RelinkedOnce(rows: map<Key, Row>, tenant: Tenant, payload: Cells, x: Link)
    ensures Relinked(payload, x.column, LinkId(rows, tenant, x)) == AllRelinked(rows, tenant, payload, [x])
  {
    assert [x][1..] == [];
  }

  lemma RelinkedTwice(rows: map<Key, Row>, tenant: Tenant, payload: Cells, x: Link, y: Link)
    ensures Relinked(Relinked(payload, x.column, LinkId(rows, tenant, x)), y.column, LinkId(rows, tenant, y))
         == AllRelinked(rows, tenant, payload, [x, y])
  {
    assert [x, y][1..] == [y];
    RelinkedOnce(rows, tenant, Relinked(payload, x.column, LinkId(rows, tenant, x)), y);
  }

  lemma NormalizedThenRelinked(payload: Cells, column: Column, id: Option<RowId>)
    requires column != LatePolicyStatus
    ensures LatePolicyNormalized(Relinked(payload, column, id)) == Relinked(LatePolicyNormalized(payload), column, id)
  {}

  lemma RelinkedSubmission(rows: map<Key, Row>, tenant: Tenant, dto: SubmissionDto, x: Link, y: Link)
    requires x.column == AssignmentId && y.column == UserId
    ensures LatePolicyNormalized(Relinked(Relinked(SubmissionPayload(dto),
                                                   AssignmentId, LinkId(rows, tenant, x)),
                                          UserId, LinkId(rows, tenant, y)))
         == AllRelinked(rows, tenant, LatePolicyNormalized(SubmissionPayload(dto)), [x, y])
  {
    var payload := SubmissionPayload(dto);
    NormalizedThenRelinked(Relinked(payload, AssignmentId, LinkId(rows, tenant, x)), UserId, LinkId(rows, tenant, y));
    NormalizedThenRelinked(payload, AssignmentId, LinkId(rows, tenant, x));
    RelinkedTwice(rows, tenant, LatePolicyNormalized(payload), x, y);
  }

  lemma PayloadHasNoKeys(rows: map<Key, Row>, tenant: Tenant, a: Action)
    requires a.Save? && WellFormed(a)
    ensures PayloadOf(rows, tenant, a).Keys * KEY_COLUMNS == {}
  {
    hide PayloadOf, WellFormed;
    forall c | c in PayloadOf(rows, tenant, a) ensures c !in KEY_COLUMNS {
      PayloadIsSafe(rows, tenant, a, c);
    }
  }

  /** Upsert, flush, soft-delete, count: what every resource does with a prepared payload. */
  method SaveRow(session: Session, tenant: Tenant, table: Table, canvasId: CanvasId, payload: Cells,
                 state: Option<string>, counts: Counters, clock: Clock, ghost a: Action)
    requires session.Valid() && session.Ready()
    requires a.Save? && a.table == table && a.canvasId == canvasId && a.state == state
    requires payload == PayloadOf(session.db.rows, tenant, a) && WellFormed(a)
    modifies session`current, session`db, counts
    ensures session.Valid()
    ensures ProgressOf(session, counts) == Step(old(ProgressOf(session, counts)), tenant, a, clock)
  {
    hide Session.Valid, PayloadOf, WellFormed, SoftDeletes;
    PayloadHasNoKeys(session.db.rows, tenant, a);
    var saved := session.UpsertByCanvasId(table, tenant, canvasId, payload);
    assert session.db == Saved(old(session.db), tenant, a);
    var deleted := session.SoftDeleteIfInactive(table, tenant, canvasId, state,
                                                clock(Key(table, tenant, canvasId)));
    assert session.db == Apply(old(session.db), tenant, a, clock);
    counts.AddSaved(table);
    if deleted {
      counts.softDeleted := counts.softDeleted + 1;
    }
  }

  method SaveUserRow(session: Session, tenant: Tenant, dto: UserDto, counts: Counters, clock: Clock)
    requires session.Valid() && session.Ready()
    modifies session`current, session`db, counts
    ensures session.Valid()
    ensures ProgressOf(session, counts) == Step(old(ProgressOf(session, counts)), tenant, SaveUser(dto), clock)
  {
    assert UserPayload(dto) == PayloadOf(session.db.rows, tenant, SaveUser(dto));
    SaveUserWellFormed(dto);
    SaveRow(session, tenant, Users, dto.id, UserPayload(dto), None, counts, clock, SaveUser(dto));
  }

  method SaveCourseRow(session: Session, tenant: Tenant, dto: CourseDto, counts: Counters, clock: Clock)
    requires session.Valid() && session.Ready()
    modifies session`current, session`db, counts
    ensures session.Valid()
    ensures ProgressOf(session, counts) == Step(old(ProgressOf(session, counts)), tenant, SaveCourse(dto), clock)
  {
    assert CoursePayload(dto) == PayloadOf(session.db.rows, tenant, SaveCourse(dto));
    SaveCourseWellFormed(dto);
    SaveRow(session, tenant, Courses, dto.id, CoursePayload(dto), dto.state, counts, clock, SaveCourse(dto));
  }

  method UpsertEnrollment(session: Session, tenant: Tenant, dto: EnrollmentDto,
                          fallbackCourseId: Option<CanvasId>, counts: Counters, clock: Clock)
    requires session.Valid() && session.Ready() && dto.id.Some?
    modifies session`current, session`db, counts
    ensures session.Valid()
    ensures ProgressOf(session, counts)
         == Step(old(ProgressOf(session, counts)), tenant, SaveEnrollment(dto, fallbackCourseId), clock)
  {
    hide Session.Valid, EnrollmentPayload, WellFormed, Step;
    var payload := EnrollmentPayload(dto);
    var courseCanvasId := OrElse(dto.courseId, fallbackCourseId);
    var courseUuid := session.ResolveLocalUuid(Courses, tenant, courseCanvasId);
    var userUuid := session.ResolveLocalUuid(Users, tenant, dto.userId);
    payload := Relinked(payload, CourseId, courseUuid);
    payload := Relinked(payload, UserId, userUuid);
    RelinkedTwice(session.db.rows, tenant, EnrollmentPayload(dto),
                  Link(CourseId, Courses, courseCanvasId), Link(UserId, Users, dto.userId));
    SaveEnrollmentWellFormed(dto, fallbackCourseId);
    SaveRow(session, tenant, Enrollments, dto.id.value, payload, dto.state, counts, clock,
            SaveEnrollment(dto, fallbackCourseId));
  }

  method SaveAssignmentRow(session: Session, tenant: Tenant, dto: AssignmentDto, courseId: CanvasId,
                           courseUuid: Option<RowId>, counts: Counters, clock: Clock)
    requires session.Valid() && session.Ready()
    requires courseUuid == ResolvedId(session.db.rows, Courses, tenant, Some(courseId))
    modifies session`current, session`db, counts
    ensures session.Valid()
    ensures ProgressOf(session, counts)
         == Step(old(ProgressOf(session, counts)), tenant, SaveAssignment(dto, courseId), clock)
  {
    var payload := Relinked(AssignmentPayload(dto), CourseId, courseUuid);
    RelinkedOnce(session.db.rows, tenant, AssignmentPayload(dto), Link(CourseId, Courses, Some(courseId)));
    SaveAssignmentWellFormed(dto, courseId);
    SaveRow(session, tenant, Assignments, dto.id, payload, dto.state, counts, clock,
            SaveAssignment(dto, courseId));
  }

  method UpsertSubmission(session: Session, tenant: Tenant, dto: SubmissionDto,
                          parentId: CanvasId, counts: Counters, clock: Clock)
    requires session.Valid() && session.Ready()
    modifies session`current, session`db, counts
    ensures session.Valid()
    ensures ProgressOf(session, counts)
         == Step(old(ProgressOf(session, counts)), tenant, SaveSubmission(dto, parentId), clock)
  {
    hide Session.Valid, SubmissionPayload, LatePolicyNormalized, WellFormed, Step;
    var payload := SubmissionPayload(dto);
    var assignmentCanvasId := OrElse(dto.assignmentId, Some(parentId));
    var assignmentUuid := session.ResolveLocalUuid(Assignments, tenant, assignmentCanvasId);
    var userUuid := session.ResolveLocalUuid(Users, tenant, dto.userId);
    payload := Relinked(payload, AssignmentId, assignmentUuid);
    payload := Relinked(payload, UserId, userUuid);
    payload := LatePolicyNormalized(payload);
    RelinkedSubmission(session.db.rows, tenant, dto,
                       Link(AssignmentId, Assignments, assignmentCanvasId), Link(UserId, Users, dto.userId));
    SaveSubmissionWellFormed(dto, parentId);
    SaveRow(session, tenant, Submissions, dto.id, payload, dto.state, counts, clock,
            SaveSubmission(dto, parentId));
  }

  // ---- Resources ----

  method SyncSelfUser(session: Session, replies: Replies, tenant: Tenant, counts: Counters, clock: Clock)
    returns (r: Result<CanvasId, Fault>)
    requires session.Valid() && session.Ready()
    modifies session`current, session`db, counts
    ensures session.Valid()
    ensures match r
      case Err(fault) => SelfFault(replies) == Some(fault)
      case Ok(id) =>
        && SelfFault(replies).None? && id == SelfId(replies)
        && ProgressOf(session, counts)
             == Step(old(ProgressOf(session, counts)), tenant, SaveUser(replies.self.value.dto), clock)
  {
    match replies.self {
      case Err(fault) => return Err(fault);
      case Ok(item) =>
        if !item.Parsed? {
          return Err(SchemaDrift);
        }
        SaveUserRow(session, tenant, item.dto, counts, clock);
        r := Result.Ok(item.dto.id);
    }
  }

  lemma NoItems(user: CanvasId, courseId: CanvasId)
    ensures CoursesScript([], user) == [] && CourseIds([]) == [] && EmbeddedTotal([], user) == 0
    ensures FallbackScript([], user) == [] && AssignmentsScript([], user, courseId) == []
  {}

  lemma NextCourse(start: Progress, tenant: Tenant, items: seq<Item<CourseDto>>, i: nat, user: CanvasId, clock: Clock)
    requires i < |items| && items[i].Parsed?
    ensures CourseIds(items[..i + 1]) == CourseIds(items[..i]) + [items[i].dto.id]
    ensures EmbeddedTotal(items[..i + 1], user)
         == EmbeddedTotal(items[..i], user) + EmbeddedKept(StripCourse(items[i].dto, user).enrollments, user)
    ensures Steps(start, tenant, CoursesScript(items[..i + 1], user), clock)
         == Steps(Steps(start, tenant, CoursesScript(items[..i], user), clock),
                  tenant, CourseScript(items[i].dto, user), clock)
  {
    assert items[..i + 1][..i] == items[..i];
    StepsAppend(start, tenant, CoursesScript(items[..i], user), CourseScript(items[i].dto, user), clock);
  }

  method SyncFavoriteCourses(session: Session, feed: Feed<CourseDto>, tenant: Tenant, user: CanvasId,
                             counts: Counters, clock: Clock)
    returns (r: Result<(seq<CanvasId>, nat), Fault>)
    requires session.Valid() && session.Ready()
    modifies session`current, session`db, counts
    ensures session.Valid()
    ensures match r
      case Err(fault) => FeedFault(feed) == Some(fault)
      case Ok((courseIds, embedded)) =>
        && FeedFault(feed).None?
        && courseIds == CourseIds(feed.items) && embedded == EmbeddedTotal(feed.items, user)
        && ProgressOf(session, counts)
             == Steps(old(ProgressOf(session, counts)), tenant, CoursesScript(feed.items, user), clock)
  {
    hide Session.Valid, Steps, CoursesScript, CourseIds, EmbeddedTotal, EmbeddedKept;
    ghost var start := ProgressOf(session, counts);
    var courseIds: seq<CanvasId> := [];
    var embedded: nat := 0;
    assert feed.items[..0] == [];
    NoItems(user, 0);
    StepsNone(start, tenant, clock);
    for i := 0 to |feed.items|
      invariant session.Valid() && forall k :: 0 <= k < i ==> feed.items[k].Parsed?
      invariant courseIds == CourseIds(feed.items[..i])
      invariant embedded == EmbeddedTotal(feed.items[..i], user)
      invariant ProgressOf(session, counts) == Steps(start, tenant, CoursesScript(feed.items[..i], user), clock)
    {
      if !feed.items[i].Parsed? {
        return Err(SchemaDrift);
      }
      NextCourse(start, tenant, feed.items, i, user, clock);
      var kept := SyncCourse(session, feed.items[i].dto, tenant, user, counts, clock);
      courseIds := courseIds + [feed.items[i].dto.id];
      embedded := embedded + kept;
    }
    assert feed.items[..|feed.items|] == feed.items;
    if feed.fault.Some? {
      return Err(feed.fault.value);
    }
    r := Result.Ok((courseIds, embedded));
  }

  lemma FirstThenRest(p: Progress, tenant: Tenant, a: Action, rest: seq<Action>, clock: Clock)
    ensures Steps(p, tenant, [a] + rest, clock) == Steps(Step(p, tenant, a, clock), tenant, rest, clock)
  {
    StepsAppend(p, tenant, [a], rest, clock);
    StepsOne(p, tenant, a, clock);
  }

  method SyncCourse(session: Session, dto: CourseDto, tenant: Tenant, user: CanvasId,
                    counts: Counters, clock: Clock)
    returns (kept: nat)
    requires session.Valid() && session.Ready()
    modifies session`current, session`db, counts
    ensures session.Valid()
    ensures kept == EmbeddedKept(StripCourse(dto, user).enrollments, user)
    ensures ProgressOf(session, counts)
         == Steps(old(ProgressOf(session, counts)), tenant, CourseScript(dto, user), clock)
  {
    hide Session.Valid, Steps, EmbeddedScript, EmbeddedKept;
    var filtered := StripCourse(dto, user);
    assert SaveCourse(filtered) == SaveCourse(dto);
    FirstThenRest(ProgressOf(session, counts), tenant, SaveCourse(dto),
                  EmbeddedScript(filtered.enrollments, user, dto.id), clock);
    SaveCourseRow(session, tenant, filtered, counts, clock);
    kept := SyncEmbeddedEnrollments(session, filtered.enrollments, tenant, user, filtered.id, counts, clock);
  }

  method SyncEmbeddedEnrollments(session: Session, enrollments: seq<EnrollmentDto>, tenant: Tenant,
                                 user: CanvasId, courseId: CanvasId, counts: Counters, clock: Clock)
    returns (kept: nat)
    requires session.Valid() && session.Ready()
    modifies session`current, session`db, counts
    ensures session.Valid()
    ensures kept == EmbeddedKept(enrollments, user)
    ensures ProgressOf(session, counts)
         == Steps(old(ProgressOf(session, counts)), tenant, EmbeddedScript(enrollments, user, courseId), clock)
  {
    hide Session.Valid, Steps, EmbeddedScript, EmbeddedKept;
    ghost var start := ProgressOf(session, counts);
    kept := 0;
    assert enrollments[..0] == [];
    NoEmbedded(start, tenant, user, courseId, clock);
    for j := 0 to |enrollments|
      invariant session.Valid() && kept == EmbeddedKept(enrollments[..j], user)
      invariant ProgressOf(session, counts)
             == Steps(start, tenant, EmbeddedScript(enrollments[..j], user, courseId), clock)
    {
      var e := enrollments[j];
      NextEmbedded(start, tenant, enrollments, j, user, courseId, clock);
      if e.id.None? {
        counts.droppedPeer := counts.droppedPeer + 1;
        continue;
      }
      if e.userId.Some? && !SameUser(e.userId, user) {
        counts.droppedPeer := counts.droppedPeer + 1;
        continue;
      }
      UpsertEnrollment(session, tenant, e, Some(courseId), counts, clock);
      kept := kept + 1;
    }
    assert enrollments[..|enrollments|] == enrollments;
  }

  lemma NoEmbedded(start: Progress, tenant: Tenant, user: CanvasId, courseId: CanvasId, clock: Clock)
    ensures EmbeddedKept([], user) == 0 && Steps(start, tenant, EmbeddedScript([], user, courseId), clock) == start
  {}

  lemma NextEmbedded(start: Progress, tenant: Tenant, es: seq<EnrollmentDto>, j: nat, user: CanvasId,
                     courseId: CanvasId, clock: Clock)
    requires j < |es|
    ensures EmbeddedKept(es[..j + 1], user) == EmbeddedKept(es[..j], user) + if KeepsEmbedded(es[j], user) then 1 else 0
    ensures Steps(start, tenant, EmbeddedScript(es[..j + 1], user, courseId), clock)
         == Step(Steps(start, tenant, EmbeddedScript(es[..j], user, courseId), clock),
                 tenant, EmbeddedAction(es[j], user, courseId), clock)
  {
    hide Step, EmbeddedAction, KeepsEmbedded;
    assert es[..j + 1][..j] == es[..j];
    var script := EmbeddedScript(es[..j + 1], user, courseId);
    assert script[..j] == EmbeddedScript(es[..j], user, courseId) && script[j] == EmbeddedAction(es[j], user, courseId);
  }

  lemma NextFallback(start: Progress, tenant: Tenant, items: seq<Item<EnrollmentDto>>, i: nat, user: CanvasId, clock: Clock)
    requires i < |items| && items[i].Parsed?
    ensures Steps(start, tenant, FallbackScript(items[..i + 1], user), clock)
         == Steps(Steps(start, tenant, FallbackScript(items[..i], user), clock),
                  tenant, [FallbackAction(items[i].dto, user)], clock)
  {
    assert items[..i + 1][..i] == items[..i];
    StepsAppend(start, tenant, FallbackScript(items[..i], user), [FallbackAction(items[i].dto, user)], clock);
  }

  method SyncFallbackEnrollments(session: Session, feed: Feed<EnrollmentDto>, tenant: Tenant,
                                 user: CanvasId, counts: Counters, clock: Clock)
    returns (fault: Option<Fault>)
    requires session.Valid() && session.Ready()
    modifies session`current, session`db, counts
    ensures session.Valid()
    ensures fault == FallbackFault(feed)
    ensures fault.None? ==>
      ProgressOf(session, counts)
        == Steps(old(ProgressOf(session, counts)), tenant, FallbackScript(feed.items, user), clock)
  {
    hide Session.Valid, Steps, FallbackScript;
    ghost var start := ProgressOf(session, counts);
    assert feed.items[..0] == [];
    NoItems(user, 0);
    StepsNone(start, tenant, clock);
    for i := 0 to |feed.items|
      invariant session.Valid() && forall k :: 0 <= k < i ==> feed.items[k].Parsed?
      invariant ProgressOf(session, counts) == Steps(start, tenant, FallbackScript(feed.items[..i], user), clock)
    {
      if !feed.items[i].Parsed? {
        return Some(SchemaDrift);
      }
      NextFallback(start, tenant, feed.items, i, user, clock);
      SyncFallbackEnrollment(session, feed.items[i].dto, tenant, user, counts, clock);
    }
    assert feed.items[..|feed.items|] == feed.items;
    fault := feed.fault;
    if fault == Some(RequestFailed(Some(404))) {
      fault := None;
    }
  }

  method SyncFallbackEnrollment(session: Session, dto: EnrollmentDto, tenant: Tenant, user: CanvasId,
                                counts: Counters, clock: Clock)
    requires session.Valid() && session.Ready()
    modifies session`current, session`db, counts
    ensures session.Valid()
    ensures ProgressOf(session, counts)
         == Steps(old(ProgressOf(session, counts)), tenant, [FallbackAction(dto, user)], clock)
  {
    StepsOne(ProgressOf(session, counts), tenant, FallbackAction(dto, user), clock);
    var filtered := StripEnrollment(dto, user);
    if filtered.None? {
      counts.droppedPeer := counts.droppedPeer + 1;
      return;
    }
    if filtered.value.id.None? {
      counts.droppedPeer := counts.droppedPeer + 1;
      return;
    }
    UpsertEnrollment(session, tenant, filtered.value, filtered.value.courseId, counts, clock);
  }

  lemma NextAssignment(start: Progress, tenant: Tenant, items: seq<Item<AssignmentDto>>, i: nat,
                       user: CanvasId, courseId: CanvasId, clock: Clock)
    requires i < |items| && items[i].Parsed?
    ensures Steps(start, tenant, AssignmentsScript(items[..i + 1], user, courseId), clock)
         == Steps(Steps(start, tenant, AssignmentsScript(items[..i], user, courseId), clock),
                  tenant, AssignmentScript(items[i].dto, user, courseId), clock)
  {
    assert items[..i + 1][..i] == items[..i];
    StepsAppend(start, tenant, AssignmentsScript(items[..i], user, courseId),
                AssignmentScript(items[i].dto, user, courseId), clock);
  }

  method SyncCourseAssignments(session: Session, feed: Feed<AssignmentDto>, tenant: Tenant,
                               user: CanvasId, courseId: CanvasId, counts: Counters, clock: Clock)
    returns (fault: Option<Fault>)
    requires session.Valid() && session.Ready()
    modifies session`current, session`db, counts
    ensures session.Valid()
    ensures fault == FeedFault(feed)
    ensures fault.None? ==>
      ProgressOf(session, counts)
        == Steps(old(ProgressOf(session, counts)), tenant, AssignmentsScript(feed.items, user, courseId), clock)
  {
    hide Session.Valid, Steps, AssignmentsScript, AssignmentScript;
    ghost var start := ProgressOf(session, counts);
    var courseUuid := session.ResolveLocalUuid(Courses, tenant, Some(courseId));
    assert feed.items[..0] == [];
    NoItems(user, courseId);
    StepsNone(start, tenant, clock);
    for i := 0 to |feed.items|
      invariant session.Valid() && forall k :: 0 <= k < i ==> feed.items[k].Parsed?
      invariant courseUuid == ResolvedId(session.db.rows, Courses, tenant, Some(courseId))
      invariant ProgressOf(session, counts)
             == Steps(start, tenant, AssignmentsScript(feed.items[..i], user, courseId), clock)
    {
      if !feed.items[i].Parsed? {
        return Some(SchemaDrift);
      }
      NextAssignment(start, tenant, feed.items, i, user, courseId, clock);
      SyncAssignment(session, feed.items[i].dto, tenant, user, courseId, courseUuid, counts, clock);
    }
    assert feed.items[..|feed.items|] == feed.items;
    fault := feed.fault;
  }

  lemma CourseIdStable(p: Progress, tenant: Tenant, script: seq<Action>, clock: Clock, courseId: CanvasId)
    requires forall i :: 0 <= i < |script| && script[i].Save? ==> !script[i].table.Courses?
    ensures ResolvedId(Steps(p, tenant, script, clock).db.rows, Courses, tenant, Some(courseId))
         == ResolvedId(p.db.rows, Courses, tenant, Some(courseId))
  {
    if script != [] {
      CourseIdStable(p, tenant, script[..|script| - 1], clock, courseId);
    }
  }

  method SyncAssignment(session: Session, dto: AssignmentDto, tenant: Tenant, user: CanvasId,
                        courseId: CanvasId, courseUuid: Option<RowId>, counts: Counters, clock: Clock)
    requires session.Valid() && session.Ready()
    requires courseUuid == ResolvedId(session.db.rows, Courses, tenant, Some(courseId))
    modifies session`current, session`db, counts
    ensures session.Valid()
    ensures courseUuid == ResolvedId(session.db.rows, Courses, tenant, Some(courseId))
    ensures ProgressOf(session, counts)
         == Steps(old(ProgressOf(session, counts)), tenant, AssignmentScript(dto, user, courseId), clock)
  {
    CourseIdStable(ProgressOf(session, counts), tenant, AssignmentScript(dto, user, courseId), clock, courseId);
    hide Session.Valid, Steps, SubmissionScript;
    FirstThenRest(ProgressOf(session, counts), tenant, SaveAssignment(dto, courseId),
                  SubmissionScript(dto, user), clock);
    var filtered := StripAssignment(dto, user);
    assert SaveAssignment(filtered, courseId) == SaveAssignment(dto, courseId);
    SaveAssignmentRow(session, tenant, filtered, courseId, courseUuid, counts, clock);
    SyncSubmission(session, dto, tenant, user, counts, clock);
  }

  /** The submission embedded in an assignment, if it has one. */
  method SyncSubmission(session: Session, dto: AssignmentDto, tenant: Tenant, user: CanvasId,
                        counts: Counters, clock: Clock)
    requires session.Valid() && session.Ready()
    modifies session`current, session`db, counts
    ensures session.Valid()
    ensures ProgressOf(session, counts)
         == Steps(old(ProgressOf(session, counts)), tenant, SubmissionScript(dto, user), clock)
  {
    var filtered := StripAssignment(dto, user);
    if filtered.submission.None? {
      return;
    }
    var submission := filtered.submission.value;
    if submission.userId.Some? && !SameUser(submission.userId, user) {
      StepsOne(ProgressOf(session, counts), tenant, DropPeer, clock);
      counts.droppedPeer := counts.droppedPeer + 1;
      return;
    }
    StepsOne(ProgressOf(session, counts), tenant, SaveSubmission(submission, dto.id), clock);
    UpsertSubmission(session, tenant, submission, filtered.id, counts, clock);
  }

  lemma {:induction false} FirstFaultStays(r: Replies, courseIds: seq<CanvasId>, i: nat)
    requires i <= |courseIds| && ListingsFault(r, courseIds[..i]).Some?
    ensures ListingsFault(r, courseIds) == ListingsFault(r, courseIds[..i])
  {
    if i < |courseIds| {
      assert courseIds[..|courseIds| - 1][..i] == courseIds[..i];
      FirstFaultStays(r, courseIds[..|courseIds| - 1], i);
    } else {
      assert courseIds[..i] == courseIds;
    }
  }

  lemma NextListing(start: Progress, tenant: Tenant, r: Replies, user: CanvasId, courseIds: seq<CanvasId>, i: nat, clock: Clock)
    requires i < |courseIds| && ListingsFault(r, courseIds[..i]).None?
    ensures ListingsFault(r, courseIds[..i + 1]) == FeedFault(Listing(r, i))
    ensures ListingsFault(r, courseIds[..i + 1]).Some? ==>
      ListingsFault(r, courseIds) == FeedFault(Listing(r, i))
    ensures Steps(start, tenant, ListingsScript(r, user, courseIds[..i + 1]), clock)
         == Steps(Steps(start, tenant, ListingsScript(r, user, courseIds[..i]), clock),
                  tenant, AssignmentsScript(Listing(r, i).items, user, courseIds[i]), clock)
  {
    hide AssignmentsScript, FeedFault;
    var head := courseIds[..i + 1];
    assert head[..|head| - 1] == courseIds[..i];
    StepsAppend(start, tenant, ListingsScript(r, user, courseIds[..i]),
                AssignmentsScript(Listing(r, i).items, user, courseIds[i]), clock);
    if ListingsFault(r, head).Some? {
      FirstFaultStays(r, courseIds, i + 1);
    }
  }

  lemma NoListings(r: Replies, user: CanvasId)
    ensures ListingsScript(r, user, []) == [] && ListingsFault(r, []).None?
  {}

  /** The assignment listing of every favourite course, in order, until one fails. */
  method SyncListings(session: Session, replies: Replies, tenant: Tenant, user: CanvasId,
                      courseIds: seq<CanvasId>, counts: Counters, clock: Clock)
    returns (fault: Option<Fault>)
    requires session.Valid() && session.Ready()
    modifies session`current, session`db, counts
    ensures session.Valid()
    ensures fault == ListingsFault(replies, courseIds)
    ensures fault.None? ==>
      ProgressOf(session, counts)
        == Steps(old(ProgressOf(session, counts)), tenant, ListingsScript(replies, user, courseIds), clock)
  {
    hide Session.Valid, Steps, ListingsScript, ListingsFault, FeedFault, AssignmentsScript;
    ghost var start := ProgressOf(session, counts);
    assert courseIds[..0] == [];
    NoListings(replies, user);
    StepsNone(start, tenant, clock);
    for i := 0 to |courseIds|
      invariant session.Valid() && ListingsFault(replies, courseIds[..i]).None?
      invariant ProgressOf(session, counts)
             == Steps(start, tenant, ListingsScript(replies, user, courseIds[..i]), clock)
    {
      NextListing(start, tenant, replies, user, courseIds, i, clock);
      fault := SyncCourseAssignments(session, Listing(replies, i), tenant, user,
                                     courseIds[i], counts, clock);
      if fault.Some? {
        return;
      }
    }
    assert courseIds[..|courseIds|] == courseIds;
    fault := None;
  }

  lemma RunSteps(start: Progress, tenant: Tenant, r: Replies, clock: Clock)
    requires SelfFault(r).None?
    ensures var p1 := Step(start, tenant, SaveUser(r.self.value.dto), clock);
            var p2 := Steps(p1, tenant, CoursesScript(r.courses.items, SelfId(r)), clock);
            var p3 := Steps(p2, tenant, EnrollmentsScript(r), clock);
            Steps(start, tenant, RunScript(r), clock)
              == Steps(p3, tenant, ListingsScript(r, SelfId(r), CourseIds(r.courses.items)), clock)
  {
    hide Steps, Step, SaveUser, CoursesScript, EnrollmentsScript, ListingsScript, CourseIds;
    var a := [SaveUser(r.self.value.dto)];
    var b := CoursesScript(r.courses.items, SelfId(r));
    var c := EnrollmentsScript(r);
    var d := ListingsScript(r, SelfId(r), CourseIds(r.courses.items));
    StepsAppend(start, tenant, a + b + c, d, clock);
    StepsAppend(start, tenant, a + b, c, clock);
    FirstThenRest(start, tenant, SaveUser(r.self.value.dto), b, clock);
  }

  /** The reads of one run, and the writes they lead to. */
  method SyncResources(session: Session, replies: Replies, tenant: Tenant, counts: Counters, clock: Clock)
    returns (fault: Option<Fault>)
    requires session.Valid() && session.Ready()
    modifies session`current, session`db, counts
    ensures session.Valid()
    ensures fault == RunFault(replies)
    ensures fault.None? ==>
      && SelfFault(replies).None?
      && ProgressOf(session, counts)
           == Steps(old(ProgressOf(session, counts)), tenant, RunScript(replies), clock)
  {
    hide Session.Valid, Steps, Step, CoursesScript, EnrollmentsScript, ListingsScript, CourseIds,
         EmbeddedTotal, FeedFault, FallbackFault, ListingsFault, FallbackScript, RunScript, SelfFault;
    ghost var start := ProgressOf(session, counts);
    var self := SyncSelfUser(session, replies, tenant, counts, clock);
    if self.Err? {
      return Some(self.error);
    }
    var user := self.value;
    var favorites := SyncFavoriteCourses(session, replies.courses, tenant, user, counts, clock);
    if favorites.Err? {
      return Some(favorites.error);
    }
    var (courseIds, embedded) := favorites.value;
    ghost var p2 := ProgressOf(session, counts);
    if embedded == 0 {
      fault := SyncFallbackEnrollments(session, replies.enrollments, tenant, user, counts, clock);
      if fault.Some? {
        return;
      }
    }
    EnrollmentSteps(p2, tenant, replies, clock);
    fault := SyncListings(session, replies, tenant, user, courseIds, counts, clock);
    if fault.None? {
      RunSteps(start, tenant, replies, clock);
    }
  }

  lemma EnrollmentSteps(p: Progress, tenant: Tenant, r: Replies, clock: Clock)
    requires SelfFault(r).None?
    ensures Steps(p, tenant, EnrollmentsScript(r), clock)
         == if EmbeddedTotal(r.courses.items, SelfId(r)) == 0
            then Steps(p, tenant, FallbackScript(r.enrollments.items, SelfId(r)), clock) else p
  {
    StepsNone(p, tenant, clock);
  }

  // ---- The run ----

  /** The last success a state row attests: its watermark, or the time of a run recorded as ok. */
  function LastSuccessfulAt(db: Database, tenant: Tenant): Option<Instant> {
    var k := StateKey(tenant, SYNC_STATE_TABLE);
    if Watermark(db, tenant, SYNC_STATE_TABLE).Some? then Watermark(db, tenant, SYNC_STATE_TABLE)
    else if k in db.states && db.states[k].lastStatus == "ok" then db.states[k].lastRunAt
    else None
  }

  /** What ends the work early: a refused write, of which the user's is the first, or a fault in the
      answers. */
  function WorkFault(r: Replies, writeFails: bool): Option<Fault> {
    if writeFails && SelfFault(r).None? then Some(OtherError) else RunFault(r)
  }

  /** What ends a run early: that, or else a refused commit. */
  function FateOf(busy: bool, r: Replies, io: DbFaults): Option<Fault> {
    if !busy && WorkFault(r, io.writeFails).Some? then WorkFault(r, io.writeFails)
    else if io.commitFails then Some(OtherError)
    else None
  }

  /** The replica after a run that found `db`: the completed work, or the marker of a failure, or
      nothing at all for a busy lock, a cancellation, or a marker that could not be written. */
  function AfterRun(db: Database, tenant: Tenant, canvas: CanvasApi, busy: bool, runAt: Instant, clock: Clock, io: DbFaults): Database {
    var previous := Watermark(db, tenant, SYNC_STATE_TABLE);
    var r := canvas(previous);
    match FateOf(busy, r, io)
    case None => if busy then db else Completed(db, tenant, r, clock, runAt)
    case Some(fault) =>
      if fault.Cancelled? || io.markerFails then db
      else Marked(db, tenant, runAt, previous, Classify(fault))
  }

  /** What a run that found `db` reports.  The counters of a failed run are those it had reached. */
  ghost predicate Reports(outcome: Outcome, db: Database, tenant: Tenant, canvas: CanvasApi, busy: bool,
                          runAt: Instant, clock: Clock, io: DbFaults) {
    var r := canvas(Watermark(db, tenant, SYNC_STATE_TABLE));
    match FateOf(busy, r, io)
    case None =>
      outcome == Returned(
        if busy then SyncResult(tenant, Locked, None, LastSuccessfulAt(db, tenant), runAt, NO_COUNTS, false)
        else SyncResult(tenant, Status.Ok, None, Some(runAt), runAt,
                        Steps(Progress(db, NO_COUNTS), tenant, RunScript(r), clock).counts, true))
    case Some(fault) =>
      if fault.Cancelled? then outcome == Raised
      else outcome.Returned?
           && outcome.result == SyncResult(tenant, Failed, Some(Classify(fault)), LastSuccessfulAt(db, tenant),
                                           runAt, outcome.result.counts, false)
  }

  /** The result of a run, as its caller gets it. */
  function Summary(tenant: Tenant, fault: Option<Fault>, acquired: bool, previousSuccess: Option<Instant>, runAt: Instant,
                   counts: Counts): Outcome
  {
    if fault.None? then
      Returned(if acquired then SyncResult(tenant, Status.Ok, None, Some(runAt), runAt, counts, true)
               else SyncResult(tenant, Locked, None, previousSuccess, runAt, counts, false))
    else if fault.value.Cancelled? then Raised
    else Returned(SyncResult(tenant, Failed, Some(Classify(fault.value)), previousSuccess, runAt, counts, false))
  }

  lemma FateDecides(db: Database, tenant: Tenant, canvas: CanvasApi, busy: bool, runAt: Instant, clock: Clock,
                       io: DbFaults, fault: Option<Fault>, counts: Counts)
    requires fault == FateOf(busy, canvas(Watermark(db, tenant, SYNC_STATE_TABLE)), io)
    requires fault.None? && busy ==> counts == NO_COUNTS
    requires var r := canvas(Watermark(db, tenant, SYNC_STATE_TABLE));
      fault.None? && !busy ==>
        SelfFault(r).None? && counts == Steps(Progress(db, NO_COUNTS), tenant, RunScript(r), clock).counts
    ensures Reports(Summary(tenant, fault, !busy, LastSuccessfulAt(db, tenant), runAt, counts),
                    db, tenant, canvas, busy, runAt, clock, io)
    ensures LosesMarker(db, tenant, canvas, busy, io) <==> fault.Some? && !fault.value.Cancelled? && io.markerFails
    ensures AfterRun(db, tenant, canvas, busy, runAt, clock, io)
            == var previous := Watermark(db, tenant, SYNC_STATE_TABLE);
               if fault.None? then if busy then db else Completed(db, tenant, canvas(previous), clock, runAt)
               else if fault.value.Cancelled? || io.markerFails then db
               else Marked(db, tenant, runAt, previous, Classify(fault.value))
  {}

  /** The class a failure is reported with and the text it is stored with: a request Canvas rejects as
      unauthorized or forbidden; any other that fails; answers of the wrong form; everything else. */
  predicate NamesFailure(fault: Fault, e: ErrorClass, text: string) {
    && (fault.RequestFailed? ==>
          && (fault.statusCode == Some(401) || fault.statusCode == Some(403) <==> e == AuthRejected)
          && (fault.statusCode == Some(401) || fault.statusCode == Some(403) <==> text == "auth_rejected")
          && (fault.statusCode != Some(401) && fault.statusCode != Some(403) ==>
                e == CanvasUnavailable && text == "canvas_unavailable"))
    && (fault.SchemaDrift? || fault.PaginationBroken? || fault.ValidationFailed? ==>
          e == SchemaDriftError && text == "schema_drift")
    && (fault.HttpFailed? ==>
          && (fault.mentionsPayload ==> e == SchemaDriftError && text == "schema_drift")
          && (!fault.mentionsPayload ==> e == CanvasUnavailable && text == "canvas_unavailable"))
    && (fault.MethodRejected? || fault.OtherError? ==> e == Unexpected && text == "unexpected")
  }

  /** The sync-state row of the pipeline. */
  function StateRow(db: Database, tenant: Tenant): Option<SyncState> {
    var k := StateKey(tenant, "users");
    if k in db.states then Some(db.states[k]) else None
  }

  /** What a failed run reports and leaves: the class of what ended it, the time, and its marker with the
      text of that class and the cursor it found, if the marker can be written. */
  ghost predicate TellsFailure(outcome: Outcome, before: Database, after: Database, tenant: Tenant, fault: Fault,
                               runAt: Instant, markerFails: bool) {
    && outcome.Returned?
    && var result := outcome.result;
       var row := StateRow(after, tenant);
       && result.tenant == tenant && result.status == Failed && !result.lockAcquired && result.lastRunAt == runAt
       && result.lastErrorClass.Some?
       && (markerFails ==>
             row == StateRow(before, tenant) && exists text :: NamesFailure(fault, result.lastErrorClass.value, text))
       && (!markerFails ==>
             && row.Some? && row.value.lastStatus == "failed" && row.value.lastRunAt == Some(runAt)
             && row.value.lastWatermark == Watermark(before, tenant, "users")
             && row.value.lastErrorClass.Some?
             && NamesFailure(fault, result.lastErrorClass.value, row.value.lastErrorClass.value))
  }

  lemma FailureIsTold(db: Database, tenant: Tenant, canvas: CanvasApi, busy: bool, runAt: Instant, clock: Clock,
                      io: DbFaults, outcome: Outcome)
    requires Reports(outcome, db, tenant, canvas, busy, runAt, clock, io)
    ensures var fate := FateOf(busy, canvas(Watermark(db, tenant, SYNC_STATE_TABLE)), io);
      fate.Some? && !fate.value.Cancelled? ==>
        TellsFailure(outcome, db, AfterRun(db, tenant, canvas, busy, runAt, clock, io), tenant, fate.value, runAt, io.markerFails)
  {
    var fate := FateOf(busy, canvas(Watermark(db, tenant, SYNC_STATE_TABLE)), io);
    hide WorkFault, Completed, NamesFailure;
    if fate.Some? && !fate.value.Cancelled? { ClassIsNamed(fate.value); }
  }

  lemma ClassIsNamed(fault: Fault)
    requires !fault.Cancelled?
    ensures NamesFailure(fault, Classify(fault), ErrorName(Classify(fault)))
  {
    assert "auth_rejected"[0] == 'a' && "canvas_unavailable"[0] == 'c';
  }

  /** Whether a failed run cannot write its marker.  Inside a caller's transaction that undoes the scope
      the caller is in, its pending writes included. */
  predicate LosesMarker(db: Database, tenant: Tenant, canvas: CanvasApi, busy: bool, io: DbFaults) {
    var fate := FateOf(busy, canvas(Watermark(db, tenant, SYNC_STATE_TABLE)), io);
    fate.Some? && !fate.value.Cancelled? && io.markerFails
  }

  /** Synchronize one tenant atomically.  `lockHeld` says the caller already has the tenant's lock. */
  method SyncTenant(session: Session, tenant: Tenant, canvas: CanvasApi, lockHeld: bool,
                    runAt: Instant, clock: Clock, io: DbFaults)
    returns (outcome: Outcome)
    requires session.Valid() && !session.doomed
    modifies session, session.registry
    ensures session.Valid() && session.inTransaction == old(session.inTransaction)
    ensures var busy := !lockHeld && tenant in old(session.registry.Locked());
      && session.doomed == (old(session.inTransaction) && LosesMarker(old(session.db), tenant, canvas, busy, io))
      && session.db == (if session.doomed then old(session.Innermost())
                        else AfterRun(old(session.db), tenant, canvas, busy, runAt, clock, io))
      && Reports(outcome, old(session.db), tenant, canvas, busy, runAt, clock, io)
      && var fate := FateOf(busy, canvas(Watermark(old(session.db), tenant, SYNC_STATE_TABLE)), io);
         (fate.Some? && !fate.value.Cancelled? && !session.doomed ==>
            TellsFailure(outcome, old(session.db), session.db, tenant, fate.value, runAt, io.markerFails))
    ensures session.committedDb
         == if old(session.inTransaction) then old(session.committedDb) else session.db
    ensures session.savedDbs == old(session.savedDbs)
    ensures session.heldLocks == old(session.heldLocks)
    ensures session.registry.Locked() == old(session.registry.Locked())
  {
    hide Session.Valid, Steps, RunScript, FateOf, Completed, Marked, LastSuccessfulAt, Watermark,
         Classify, Counters.Value, SelfFault, Reports, Summary, AfterRun, LosesMarker, TellsFailure;
    SessionFacts(session);
    ghost var before := session.db;
    var counts := new Counters();
    var fault, previousSuccess, acquired := RunInScope(session, tenant, canvas, lockHeld, runAt, counts, clock, io);
    outcome := Summary(tenant, fault, acquired, previousSuccess, runAt, counts.Value());
    FateDecides(before, tenant, canvas, !acquired, runAt, clock, io, fault, counts.Value());
    FailureIsTold(before, tenant, canvas, !acquired, runAt, clock, io, outcome);
    if !lockHeld && acquired {
      session.ReleaseSyncLock(tenant);
    }
  }

  /** The transaction scope of a run with what an exception that reaches it leads to. */
  method RunInScope(session: Session, tenant: Tenant, canvas: CanvasApi, lockHeld: bool, runAt: Instant,
                    counts: Counters, clock: Clock, io: DbFaults)
    returns (fault: Option<Fault>, previousSuccess: Option<Instant>, acquired: bool)
    requires session.Valid() && !session.doomed && counts.Value() == NO_COUNTS
    modifies session, session.registry, counts
    ensures session.Valid() && session.inTransaction == old(session.inTransaction)
    ensures acquired <==> lockHeld || tenant !in old(session.registry.Locked())
    ensures previousSuccess == LastSuccessfulAt(old(session.db), tenant)
    ensures var r := canvas(Watermark(old(session.db), tenant, SYNC_STATE_TABLE));
      && fault == FateOf(!acquired, r, io)
      && (fault.None? && !acquired ==> counts.Value() == NO_COUNTS)
      && (fault.None? && acquired ==>
            && SelfFault(r).None?
            && counts.Value() == Steps(Progress(old(session.db), NO_COUNTS), tenant, RunScript(r), clock).counts)
    ensures session.doomed == (old(session.inTransaction) && LosesMarker(old(session.db), tenant, canvas, !acquired, io))
    ensures session.db == if session.doomed then old(session.Innermost())
                          else AfterRun(old(session.db), tenant, canvas, !acquired, runAt, clock, io)
    ensures session.committedDb == if old(session.inTransaction) then old(session.committedDb) else session.db
    ensures session.savedDbs == old(session.savedDbs)
    ensures var kept := if old(session.inTransaction) && acquired && !lockHeld then {tenant} else {};
      && session.heldLocks == old(session.heldLocks) + kept
      && session.registry.Locked() == old(session.registry.Locked()) + kept
  {
    hide Session.Valid, Steps, RunScript, WorkFault, Completed, Marked, LastSuccessfulAt, Watermark,
         Classify, Counters.Value, SelfFault;
    SessionFacts(session);
    var owns, previous;
    owns, previous, previousSuccess, acquired := EnterScope(session, tenant, lockHeld);
    fault := DoWork(session, tenant, canvas(previous), acquired, runAt, counts, clock, io.writeFails);
    if fault.None? && io.commitFails {
      fault := Some(OtherError);
    }
    LeaveScope(session, tenant, owns, fault, runAt, previous, io.markerFails);
  }

  /** Opening the transaction scope: the watermark is read inside it, before the lock is tried. */
  method EnterScope(session: Session, tenant: Tenant, lockHeld: bool)
    returns (owns: bool, previous: Option<Instant>, previousSuccess: Option<Instant>, acquired: bool)
    requires session.Valid() && !session.doomed
    modifies session`savepoints, session`inTransaction, session`savedDbs, session`heldLocks, session.registry
    ensures session.Valid() && session.Ready() && owns == !old(session.inTransaction)
    ensures session.savedDbs == if owns then [] else old(session.savedDbs) + [session.db]
    ensures previous == Watermark(session.db, tenant, SYNC_STATE_TABLE)
    ensures previousSuccess == LastSuccessfulAt(session.db, tenant)
    ensures acquired <==> lockHeld || tenant !in old(session.registry.Locked())
    ensures session.registry.Locked()
         == old(session.registry.Locked()) + (if lockHeld then {} else {tenant})
    ensures session.heldLocks
         == old(session.heldLocks) + (if acquired && !lockHeld then {tenant} else {})
  {
    hide Session.Valid, LastSuccessfulAt, Watermark;
    owns := session.BeginScope();
    previous := session.ReadWatermark(tenant, SYNC_STATE_TABLE);
    previousSuccess := ReadLastSuccess(session, tenant, previous);
    acquired := true;
    if !lockHeld {
      acquired := session.TryAcquireSyncLock(tenant);
    }
  }

  /** The body of the transaction scope, once it is known whether the lock was free.  Where a refused write
      raises does not matter: whatever was done by then is undone with the scope. */
  method DoWork(session: Session, tenant: Tenant, replies: Replies, acquired: bool, runAt: Instant,
                counts: Counters, clock: Clock, writeFails: bool)
    returns (fault: Option<Fault>)
    requires session.Valid() && session.Ready() && counts.Value() == NO_COUNTS
    modifies session`current, session`db, counts
    ensures session.Valid()
    ensures !acquired ==> fault.None? && session.db == old(session.db) && counts.Value() == NO_COUNTS
    ensures acquired ==>
      && fault == WorkFault(replies, writeFails)
      && (fault.None? ==>
            && SelfFault(replies).None?
            && session.db == Completed(old(session.db), tenant, replies, clock, runAt)
            && counts.Value() == Steps(Progress(old(session.db), NO_COUNTS), tenant, RunScript(replies), clock).counts)
  {
    hide Session.Valid, Steps, RunScript, RunFault, Completed;
    fault := None;
    if acquired {
      ghost var before := session.db;
      fault := SyncResources(session, replies, tenant, counts, clock);
      if writeFails && SelfFault(replies).None? {
        fault := Some(OtherError);
      }
      if fault.None? {
        CompletedFromSteps(before, tenant, replies, clock, runAt);
        session.AdvanceWatermark(tenant, SYNC_STATE_TABLE, runAt, "ok", None, runAt);
      }
    }
  }

  /** Leaving the transaction scope, and what follows an exception that reached it. */
  method LeaveScope(session: Session, tenant: Tenant, owns: bool, fault: Option<Fault>, runAt: Instant,
                    previous: Option<Instant>, markerFails: bool)
    requires session.Valid() && session.Ready() && (owns <==> session.savedDbs == [])
    modifies session, session.registry
    ensures session.Valid() && session.inTransaction == !owns
    ensures session.doomed == (!owns && fault.Some? && !fault.value.Cancelled? && markerFails)
    ensures fault.None? ==> session.db == old(session.db)
    ensures fault.Some? ==>
      session.db == if session.doomed then session.Innermost()
                    else if fault.value.Cancelled? || markerFails then old(session.Innermost())
                    else Marked(old(session.Innermost()), tenant, runAt, previous, Classify(fault.value))
    ensures session.committedDb == if owns then session.db else old(session.committedDb)
    ensures session.savedDbs == if owns then [] else old(session.savedDbs[..|session.savedDbs| - 1])
    ensures session.heldLocks == if owns then {} else old(session.heldLocks)
    ensures session.registry.Locked()
         == old(session.registry.Locked()) - (if owns then old(session.heldLocks) else {})
  {
    hide Session.Valid, Marked;
    if fault.None? {
      session.CommitScope(owns);
    } else {
      session.RollbackScope(owns);
      if !fault.value.Cancelled? {
        FinishFailure(session, tenant, runAt, previous, Classify(fault.value), owns, markerFails);
      }
    }
  }

  lemma SessionFacts(session: Session)
    requires session.Valid()
    ensures session.heldLocks <= session.registry.Locked()
    ensures !session.inTransaction ==>
      session.savedDbs == [] && session.db == session.committedDb && !session.doomed && session.heldLocks == {}
  {}

  lemma CompletedFromSteps(db: Database, tenant: Tenant, r: Replies, clock: Clock, runAt: Instant)
    requires SelfFault(r).None?
    ensures var done := Steps(Progress(db, NO_COUNTS), tenant, RunScript(r), clock).db;
            Completed(db, tenant, r, clock, runAt)
              == done.(states := done.states[StateKey(tenant, SYNC_STATE_TABLE) :=
                   SyncState(Some(runAt), Some(runAt), "ok", None)])
  {
    hide Steps, RunScript, ApplyAll;
    StepsDb(Progress(db, NO_COUNTS), tenant, RunScript(r), clock);
  }

  method ReadLastSuccess(session: Session, tenant: Tenant, watermark: Option<Instant>)
    returns (at: Option<Instant>)
    requires session.Valid() && watermark == Watermark(session.db, tenant, SYNC_STATE_TABLE)
    ensures at == LastSuccessfulAt(session.db, tenant)
  {
    if watermark.Some? {
      return watermark;
    }
    var k := StateKey(tenant, SYNC_STATE_TABLE);
    if k in session.current.states && session.current.states[k].lastStatus == "ok" {
      return session.current.states[k].lastRunAt;
    }
    at := None;
  }

  /** Record the failure: in a transaction of its own, or inside the caller's.  The write is not in a
      scope of its own there, so its failure, though swallowed, undoes the caller's scope. */
  method FinishFailure(session: Session, tenant: Tenant, runAt: Instant, previous: Option<Instant>,
                       e: ErrorClass, owns: bool, markerFails: bool)
    requires session.Valid() && session.inTransaction == !owns && !session.doomed
    modifies session, session.registry
    ensures session.Valid() && session.inTransaction == !owns && session.doomed == (!owns && markerFails)
    ensures session.db == if session.doomed then session.Innermost()
                          else if markerFails then old(session.db)
                          else Marked(old(session.db), tenant, runAt, previous, e)
    ensures session.committedDb == if owns then session.db else old(session.committedDb)
    ensures session.savedDbs == old(session.savedDbs)
    ensures session.heldLocks == old(session.heldLocks)
    ensures session.registry.Locked() == old(session.registry.Locked())
  {
    if owns {
      var root := session.BeginScope();
      if markerFails {
        session.FailFlush();
        session.RollbackScope(root);
      } else {
        WriteFailureState(session, tenant, runAt, previous, e);
        session.CommitScope(root);
      }
    } else if markerFails {
      session.FailFlush();
    } else {
      WriteFailureState(session, tenant, runAt, previous, e);
    }
  }

  method WriteFailureState(session: Session, tenant: Tenant, runAt: Instant, previous: Option<Instant>, e: ErrorClass)
    requires session.Valid() && session.Ready()
    modifies session`current, session`db
    ensures session.Valid() && session.db == Marked(old(session.db), tenant, runAt, previous, e)
  {
    var k := StateKey(tenant, SYNC_STATE_TABLE);
    if k !in session.current.states {
      session.PutState(k, SyncState(previous, Some(runAt), "failed", Some(ErrorName(e))));
    } else {
      var state := session.current.states[k];
      state := state.(lastRunAt := Some(runAt), lastStatus := "failed", lastErrorClass := Some(ErrorName(e)));
      session.PutState(k, state);
    }
  }
}
