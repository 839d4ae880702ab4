/** What Canvas answers during one run, as already validated records, and the script of repository
    writes those answers ask for. */
module Replies {
  import opened Wrappers
  import opened Texts
  import opened Tables

  // ---- Records ----
  // `attrs` are the non-null scalar fields Canvas sent, known to the DTO or not; the fields that
  // steer the pipeline have a member of their own.

  datatype UserDto = UserDto(id: CanvasId, attrs: Cells)

  datatype EnrollmentDto = EnrollmentDto(
    id: Option<CanvasId>,
    userId: Option<CanvasId>,
    nestedUserId: Option<CanvasId>, // the id inside the embedded `user` object
    courseId: Option<CanvasId>,
    state: Option<string>,
    attrs: Cells)

  datatype CourseDto = CourseDto(
    id: CanvasId,
    state: Option<string>,
    calendarIcs: Option<Value>,
    enrollments: seq<EnrollmentDto>,
    attrs: Cells)

  datatype SubmissionDto = SubmissionDto(
    id: CanvasId,
    assignmentId: Option<CanvasId>,
    userId: Option<CanvasId>,
    state: Option<string>,
    attrs: Cells)

  datatype AssignmentDto = AssignmentDto(
    id: CanvasId,
    state: Option<string>,
    submission: Option<SubmissionDto>,
    attrs: Cells)

  /** One element of a response: not an object, an object its DTO (or the whitelist of a nested
      object) rejects, or a record. */
  datatype Item<+T> = NotAnObject | Malformed | Parsed(dto: T)

  datatype Fault =
    | MethodRejected
    | RequestFailed(statusCode: Option<int>)
    | SchemaDrift
    | PaginationBroken
    | HttpFailed(mentionsPayload: bool)
    | ValidationFailed
    | OtherError
    | Cancelled

  /** The items a paginated endpoint yields before it ends or fails. */
  datatype Feed<+T> = Feed(items: seq<Item<T>>, fault: Option<Fault>)

  datatype Replies = Replies(
    self: Result<Item<UserDto>, Fault>,
    courses: Feed<CourseDto>,
    enrollments: Feed<EnrollmentDto>,
    assignments: seq<Feed<AssignmentDto>>) // the i-th listing is of the i-th course

  // Canvas answers a run according to its `updated_after` parameter.
  type CanvasApi = Option<Instant> -> Replies

  // The wall clock when a row is soft-deleted.  At most one soft delete of a row takes effect in a
  // run, so one reading per row is all a run can use.
  type Clock = Key -> Instant

  /** The answer to the i-th assignment listing; Canvas has nothing to list where none is given. */
  function Listing(r: Replies, i: nat): Feed<AssignmentDto> {
    if i < |r.assignments| then r.assignments[i] else Feed([], None)
  }

  // ---- Peer data ----

  const SENSITIVE_FIELDS: set<Column> := {Body, PreviewUrl, Url, Attachments}

  predicate SameUser(value: Option<CanvasId>, tenantUserId: CanvasId) {
    value == Some(tenantUserId)
  }

  function EnrollmentUserId(e: EnrollmentDto): Option<CanvasId> {
    if e.userId.Some? then e.userId else e.nestedUserId
  }

  function StripEnrollment(e: EnrollmentDto, tenantUserId: CanvasId): Option<EnrollmentDto> {
    if SameUser(EnrollmentUserId(e), tenantUserId) then Some(e) else None
  }

  function StripEnrollments(es: seq<EnrollmentDto>, tenantUserId: CanvasId): seq<EnrollmentDto> {
    if es == [] then []
    else
      var kept := StripEnrollments(es[..|es| - 1], tenantUserId);
      var last := es[|es| - 1];
      if SameUser(EnrollmentUserId(last), tenantUserId) then kept + [last] else kept
  }

  function StripCourse(c: CourseDto, tenantUserId: CanvasId): CourseDto {
    c.(enrollments := StripEnrollments(c.enrollments, tenantUserId))
  }

  function StripAssignment(a: AssignmentDto, tenantUserId: CanvasId): AssignmentDto {
    if a.submission.Some? && !SameUser(a.submission.value.userId, tenantUserId) then
      var s := a.submission.value;
      a.(submission := Some(s.(attrs := s.attrs - SENSITIVE_FIELDS)))
    else a
  }

  // ---- Payloads ----

  /** The DTO fields a payload keeps, apart from ids, links, states and the calendar. */
  predicate PayloadField(table: Table, c: Column) {
    match table
    case Users =>
      c.Name? || c.SortableName? || c.ShortName? || c.Locale? || c.EffectiveLocale?
    case Courses =>
      c.Name? || c.CourseCode? || c.AccountId? || c.RootAccountId? || c.EnrollmentTermId? ||
      c.CourseUuid? || c.StartAt? || c.EndAt? || c.DefaultView? || c.IsPublic? || c.License? ||
      c.TimeZone? || c.StorageQuotaMb? || c.EnrollmentsCount?
    case Enrollments =>
      c.Role? || c.RoleId? || c.LimitPrivilegesToCourseSection?
    case Assignments =>
      c.Name? || c.Description? || c.PointsPossible? || c.DueAt? || c.LockAt? || c.UnlockAt? ||
      c.GradingType? || c.SubmissionTypes? || c.HtmlUrl? || c.ImportantDates? || c.Muted? ||
      c.AvailabilityStatus? || c.LockInfo? || c.IntegrationData? || c.ScoreStatistics?
    case Submissions =>
      c.SubmissionType? || c.SubmittedAt? || c.Score? || c.EnteredScore? || c.Grade? ||
      c.EnteredGrade? || c.GradeMatchesCurrentSubmission? || c.GradedAt? || c.PostedAt? ||
      c.CachedDueDate? || c.Late? || c.Missing? || c.Excused? || c.RedoRequest? || c.Attempt? ||
      c.SecondsLate? || c.LatePolicyStatus? || c.Body? || c.Url? || c.PreviewUrl? ||
      c.PointsDeducted? || c.ExtraAttempts?
  }

  function Only(attrs: Cells, table: Table): Cells {
    map c | c in attrs && PayloadField(table, c) :: attrs[c]
  }

  /** `exclude_none`: an absent value is no entry. */
  function With(cells: Cells, column: Column, value: Option<Value>): Cells {
    if value.Some? then cells[column := value.value] else cells
  }

  function AsText(s: Option<string>): Option<Value> {
    if s.Some? then Some(Text(s.value)) else None
  }

  function AsNumber(n: Option<CanvasId>): Option<Value> {
    if n.Some? then Some(Whole(n.value)) else None
  }

  /** `late_policy_status` is an integer or a string; the column holds its text. */
  function LatePolicyText(v: Value): Value {
    match v
    case Whole(n) => Text(if n < 0 then "-" + DigitsOf(-n) else DigitsOf(n))
    case _ => v
  }

  function UserPayload(u: UserDto): Cells {
    Only(u.attrs, Users)
  }

  function CoursePayload(c: CourseDto): Cells {
    With(With(Only(c.attrs, Courses), WorkflowState, AsText(c.state)), CalendarIcs, c.calendarIcs)
  }

  function EnrollmentPayload(e: EnrollmentDto): Cells {
    With(With(With(Only(e.attrs, Enrollments), EnrollmentState, AsText(e.state)),
      UserId, AsNumber(e.userId)), CourseId, AsNumber(e.courseId))
  }

  function AssignmentPayload(a: AssignmentDto): Cells {
    With(Only(a.attrs, Assignments), WorkflowState, AsText(a.state))
  }

  function SubmissionPayload(s: SubmissionDto): Cells {
    With(With(With(Only(s.attrs, Submissions), WorkflowState, AsText(s.state)),
      AssignmentId, AsNumber(s.assignmentId)), UserId, AsNumber(s.userId))
  }

  /** Python's `a or b` on optional ids: zero counts as absent. */
  function OrElse(a: Option<CanvasId>, b: Option<CanvasId>): Option<CanvasId> {
    if a.Some? && a.value != 0 then a else b
  }

  // ---- The script ----

  // A column that holds the local id of the record `canvasId` of `table`.
  datatype Link = Link(column: Column, table: Table, canvasId: Option<CanvasId>)

  /** One repository write: overlay `cells` with the links replaced by local ids where they resolve
      and left out where not, then soft-delete if the workflow state is inactive.  Or one peer record
      dropped. */
  datatype Action =
    | Save(table: Table, canvasId: CanvasId, cells: Cells, links: seq<Link>, state: Option<string>)
    | DropPeer

  function SaveUser(u: UserDto): Action {
    Save(Users, u.id, UserPayload(u), [], None)
  }

  function SaveCourse(c: CourseDto): Action {
    Save(Courses, c.id, CoursePayload(c), [], c.state)
  }

  function SaveEnrollment(e: EnrollmentDto, fallbackCourseId: Option<CanvasId>): Action
    requires e.id.Some?
  {
    Save(Enrollments, e.id.value, EnrollmentPayload(e),
         [Link(CourseId, Courses, OrElse(e.courseId, fallbackCourseId)), Link(UserId, Users, e.userId)],
         e.state)
  }

  function SaveAssignment(a: AssignmentDto, courseId: CanvasId): Action {
    Save(Assignments, a.id, AssignmentPayload(a), [Link(CourseId, Courses, Some(courseId))], a.state)
  }

  function LatePolicyNormalized(payload: Cells): Cells {
    if LatePolicyStatus in payload
    then payload[LatePolicyStatus := LatePolicyText(payload[LatePolicyStatus])]
    else payload
  }

  function SaveSubmission(s: SubmissionDto, assignmentId: CanvasId): Action {
    Save(Submissions, s.id, LatePolicyNormalized(SubmissionPayload(s)),
         [Link(AssignmentId, Assignments, OrElse(s.assignmentId, Some(assignmentId))),
          Link(UserId, Users, s.userId)],
         s.state)
  }

  /** An enrollment embedded in a course: dropped without an id or with a foreign user id. */
  predicate KeepsEmbedded(e: EnrollmentDto, user: CanvasId) {
    e.id.Some? && (e.userId.None? || SameUser(e.userId, user))
  }

  function EmbeddedAction(e: EnrollmentDto, user: CanvasId, courseId: CanvasId): Action {
    if KeepsEmbedded(e, user) then SaveEnrollment(e, Some(courseId)) else DropPeer
  }

  function FallbackAction(e: EnrollmentDto, user: CanvasId): Action {
    if StripEnrollment(e, user).Some? && e.id.Some? then SaveEnrollment(e, e.courseId) else DropPeer
  }

  function EmbeddedScript(es: seq<EnrollmentDto>, user: CanvasId, courseId: CanvasId): (script: seq<Action>)
    ensures |script| == |es|
  {
    seq(|es|, i requires 0 <= i < |es| => EmbeddedAction(es[i], user, courseId))
  }

  function CourseScript(c: CourseDto, user: CanvasId): seq<Action> {
    [SaveCourse(c)] + EmbeddedScript(StripCourse(c, user).enrollments, user, c.id)
  }

  function SubmissionScript(a: AssignmentDto, user: CanvasId): seq<Action> {
    var submission := StripAssignment(a, user).submission;
    if submission.None? then []
    else if submission.value.userId.Some? && !SameUser(submission.value.userId, user) then [DropPeer]
    else [SaveSubmission(submission.value, a.id)]
  }

  function AssignmentScript(a: AssignmentDto, user: CanvasId, courseId: CanvasId): seq<Action> {
    [SaveAssignment(a, courseId)] + SubmissionScript(a, user)
  }

  // The pages are read front to back, so the scripts are built from their prefixes.

  function CoursesScript(items: seq<Item<CourseDto>>, user: CanvasId): seq<Action> {
    if items == [] then []
    else
      var last := items[|items| - 1];
      CoursesScript(items[..|items| - 1], user)
        + if last.Parsed? then CourseScript(last.dto, user) else []
  }

  function CourseIds(items: seq<Item<CourseDto>>): seq<CanvasId> {
    if items == [] then []
    else
      var last := items[|items| - 1];
      CourseIds(items[..|items| - 1]) + if last.Parsed? then [last.dto.id] else []
  }

  function EmbeddedKept(es: seq<EnrollmentDto>, user: CanvasId): nat {
    if es == [] then 0
    else EmbeddedKept(es[..|es| - 1], user) + if KeepsEmbedded(es[|es| - 1], user) then 1 else 0
  }

  function EmbeddedTotal(items: seq<Item<CourseDto>>, user: CanvasId): nat {
    if items == [] then 0
    else
      var last := items[|items| - 1];
      EmbeddedTotal(items[..|items| - 1], user)
        + if last.Parsed? then EmbeddedKept(StripCourse(last.dto, user).enrollments, user) else 0
  }

  function FallbackScript(items: seq<Item<EnrollmentDto>>, user: CanvasId): seq<Action> {
    if items == [] then []
    else
      var last := items[|items| - 1];
      FallbackScript(items[..|items| - 1], user)
        + if last.Parsed? then [FallbackAction(last.dto, user)] else []
  }

  function AssignmentsScript(items: seq<Item<AssignmentDto>>, user: CanvasId, courseId: CanvasId): seq<Action> {
    if items == [] then []
    else
      var last := items[|items| - 1];
      AssignmentsScript(items[..|items| - 1], user, courseId)
        + if last.Parsed? then AssignmentScript(last.dto, user, courseId) else []
  }

  function ListingsScript(r: Replies, user: CanvasId, courseIds: seq<CanvasId>): seq<Action> {
    if courseIds == [] then []
    else
      var n := |courseIds| - 1;
      ListingsScript(r, user, courseIds[..n])
        + AssignmentsScript(Listing(r, n).items, user, courseIds[n])
  }

  // ---- Where a run stops ----

  predicate AllParsed<T>(items: seq<Item<T>>) {
    forall i :: 0 <= i < |items| ==> items[i].Parsed?
  }

  function SelfFault(r: Replies): Option<Fault> {
    match r.self
    case Err(fault) => Some(fault)
    case Ok(item) => if item.Parsed? then None else Some(SchemaDrift)
  }

  function FeedFault<T>(feed: Feed<T>): Option<Fault> {
    if AllParsed(feed.items) then feed.fault else Some(SchemaDrift)
  }

  /** The self enrollment endpoint is optional: a 404 ends it without failing the run. */
  function FallbackFault(feed: Feed<EnrollmentDto>): Option<Fault> {
    if FeedFault(feed) == Some(RequestFailed(Some(404))) then None else FeedFault(feed)
  }

  function ListingsFault(r: Replies, courseIds: seq<CanvasId>): Option<Fault> {
    if courseIds == [] then None
    else
      var n := |courseIds| - 1;
      var earlier := ListingsFault(r, courseIds[..n]);
      if earlier.Some? then earlier else FeedFault(Listing(r, n))
  }

  function SelfId(r: Replies): CanvasId
    requires SelfFault(r).None?
  {
    r.self.value.dto.id
  }

  predicate UsesFallback(r: Replies)
    requires SelfFault(r).None?
  {
    EmbeddedTotal(r.courses.items, SelfId(r)) == 0
  }

  function RunFault(r: Replies): Option<Fault> {
    if SelfFault(r).Some? then SelfFault(r)
    else if FeedFault(r.courses).Some? then FeedFault(r.courses)
    else if UsesFallback(r) && FallbackFault(r.enrollments).Some? then FallbackFault(r.enrollments)
    else ListingsFault(r, CourseIds(r.courses.items))
  }

  function EnrollmentsScript(r: Replies): seq<Action>
    requires SelfFault(r).None?
  {
    if UsesFallback(r) then FallbackScript(r.enrollments.items, SelfId(r)) else []
  }

  /** Everything a run that does not stop early writes, in order. */
  function RunScript(r: Replies): seq<Action>
    requires SelfFault(r).None?
  {
    [SaveUser(r.self.value.dto)]
      + CoursesScript(r.courses.items, SelfId(r))
      + EnrollmentsScript(r)
      + ListingsScript(r, SelfId(r), CourseIds(r.courses.items))
  }
}
