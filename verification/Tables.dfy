/** The replica as a value: the five domain tables, keyed by their natural key, and the sync-state
    rows.  `Upserted` and `SoftDeleted` are what the repository primitives do to it; the class in
    Sessions.dfy does the same on stored records and is proved against them. */
module Tables {
  import opened Wrappers
  import opened Texts

  type Tenant = nat
  type CanvasId = int
  type Instant = int  // microseconds since the epoch, UTC
  type RowId = nat    // a uuid4, drawn as the next unused number

  datatype Table = Users | Courses | Enrollments | Assignments | Submissions

  datatype Value =
    | Text(text: string)
    | Whole(number: int)
    | Decimal(amount: real)
    | Flag(flag: bool)
    | Moment(at: Instant)
    | Json(document: string)
    | Ref(row: RowId)

  // The columns of the five tables, and the field names of Canvas records.
  datatype Column =
    | Name | ShortName | SortableName | Email | Locale | EffectiveLocale | CourseCode | AccountId
    | RootAccountId | EnrollmentTermId | CourseUuid | WorkflowState | StartAt | EndAt | DefaultView
    | IsPublic | License | TimeZone | EnrollmentsCount | CalendarIcs | CourseId | UserId | Role
    | RoleId | EnrollmentState | LimitPrivilegesToCourseSection | Description | PointsPossible
    | DueAt | LockAt | UnlockAt | GradingType | SubmissionTypes | HtmlUrl | ImportantDates | Muted
    | AvailabilityStatus | LockInfo | IntegrationData | ScoreStatistics | AssignmentId
    | SubmissionType | SubmittedAt | Score | EnteredScore | Grade | EnteredGrade
    | GradeMatchesCurrentSubmission | GradedAt | PostedAt | CachedDueDate | Late | Missing | Excused
    | RedoRequest | Attempt | SecondsLate | LatePolicyStatus | Body | Url | PreviewUrl
    | PointsDeducted | ExtraAttempts | TenantId | CanvasId | DeletedAt | RowIdentifier | CreatedAt
    | UpdatedAt | StorageQuotaMb | Attachments | Unknown(field: string)

  // The columns of a row that are not NULL.
  type Cells = map<Column, Value>

  datatype Key = Key(table: Table, tenant: Tenant, canvasId: CanvasId)

  datatype Row = Row(id: RowId, cells: Cells)

  datatype SyncState = SyncState(
    lastWatermark: Option<Instant>,
    lastRunAt: Option<Instant>,
    lastStatus: string,
    lastErrorClass: Option<string>)

  datatype StateKey = StateKey(tenant: Tenant, tableName: string)

  datatype Database = Database(rows: map<Key, Row>, states: map<StateKey, SyncState>, nextId: RowId)

  // The canonical sync-state row of the pipeline.
  const SYNC_STATE_TABLE := "users"

  const INACTIVE_WORKFLOW_STATES: set<string> :=
    {"deleted", "inactive", "completed", "concluded", "unpublished"}

  /** The columns that carry a value of their own in each table. */
  predicate OwnColumn(table: Table, c: Column) {
    match table
    case Users =>
      c.Name? || c.ShortName? || c.SortableName? || c.Email? || c.Locale? || c.EffectiveLocale?
    case Courses =>
      c.Name? || c.CourseCode? || c.AccountId? || c.RootAccountId? || c.EnrollmentTermId? ||
      c.CourseUuid? || c.WorkflowState? || c.StartAt? || c.EndAt? || c.DefaultView? ||
      c.IsPublic? || c.License? || c.TimeZone? || c.EnrollmentsCount? || c.CalendarIcs?
    case Enrollments =>
      c.CourseId? || c.UserId? || c.Role? || c.RoleId? || c.EnrollmentState? ||
      c.LimitPrivilegesToCourseSection?
    case Assignments =>
      c.CourseId? || c.Name? || c.Description? || c.PointsPossible? || c.DueAt? || c.LockAt? ||
      c.UnlockAt? || c.WorkflowState? || c.GradingType? || c.SubmissionTypes? || c.HtmlUrl? ||
      c.ImportantDates? || c.Muted? || c.AvailabilityStatus? || c.LockInfo? || c.IntegrationData? ||
      c.ScoreStatistics?
    case Submissions =>
      c.AssignmentId? || c.UserId? || c.WorkflowState? || c.SubmissionType? || c.SubmittedAt? ||
      c.Score? || c.EnteredScore? || c.Grade? || c.EnteredGrade? ||
      c.GradeMatchesCurrentSubmission? || c.GradedAt? || c.PostedAt? || c.CachedDueDate? ||
      c.Late? || c.Missing? || c.Excused? || c.RedoRequest? || c.Attempt? || c.SecondsLate? ||
      c.LatePolicyStatus? || c.Body? || c.Url? || c.PreviewUrl? || c.PointsDeducted? ||
      c.ExtraAttempts?
  }

  // Given by the caller of an upsert, not by its payload.
  const KEY_COLUMNS: set<Column> := {TenantId, CanvasId}

  /** What a payload may write: the known columns without the server-stamped ones. */
  predicate IsWritable(table: Table, c: Column) {
    OwnColumn(table, c) || c in KEY_COLUMNS || c.DeletedAt?
  }

  function Writable(table: Table, payload: Cells): Cells {
    map c | c in payload && IsWritable(table, c) :: payload[c]
  }

  /** The foreign keys: which table a column points into. */
  function ForeignTable(table: Table, column: Column): Option<Table> {
    match table
    case Enrollments =>
      if column == CourseId then Some(Courses)
      else if column == UserId then Some(Users) else None
    case Assignments => if column == CourseId then Some(Courses) else None
    case Submissions =>
      if column == AssignmentId then Some(Assignments)
      else if column == UserId then Some(Users) else None
    case _ => None
  }

  /** Insert or overlay the row at `k`.  Columns the payload does not name keep their value. */
  function Upserted(db: Database, k: Key, payload: Cells): Database {
    var filtered := Writable(k.table, payload) - KEY_COLUMNS;
    if k in db.rows then
      db.(rows := db.rows[k := db.rows[k].(cells := db.rows[k].cells + filtered)])
    else
      db.(rows := db.rows[k := Row(db.nextId, filtered)], nextId := db.nextId + 1)
  }

  predicate Inactive(workflowState: Option<string>) {
    workflowState.Some? && Lower(workflowState.value) in INACTIVE_WORKFLOW_STATES
  }

  /** The five states that soft-delete a record, in letters of any case. */
  predicate SaysInactive(s: string) {
    || SameLetters("deleted", s) || SameLetters("inactive", s) || SameLetters("completed", s)
    || SameLetters("concluded", s) || SameLetters("unpublished", s)
  }

  lemma InactiveExactly(workflowState: Option<string>)
    ensures Inactive(workflowState) <==> workflowState.Some? && SaysInactive(workflowState.value)
  {
    if workflowState.Some? {
      var s := workflowState.value;
      forall w | w in INACTIVE_WORKFLOW_STATES ensures NoCapitals(w) && (Lower(s) == w <==> SameLetters(w, s)) {
        assert NoCapitals("deleted") && NoCapitals("inactive") && NoCapitals("completed");
        assert NoCapitals("concluded") && NoCapitals("unpublished");
        LowerIsSpelling(w, s);
      }
    }
  }

  predicate SoftDeletes(db: Database, k: Key, workflowState: Option<string>) {
    Inactive(workflowState) && k in db.rows && DeletedAt !in db.rows[k].cells
  }

  function SoftDeleted(db: Database, k: Key, workflowState: Option<string>, now: Instant): Database {
    if SoftDeletes(db, k, workflowState) then
      db.(rows := db.rows[k := db.rows[k].(cells := db.rows[k].cells[DeletedAt := Moment(now)])])
    else db
  }

  /** The local id a Canvas id stands for, if that record is stored for the tenant. */
  function ResolvedId(rows: map<Key, Row>, table: Table, tenant: Tenant, canvasId: Option<CanvasId>): Option<RowId> {
    if canvasId.Some? && Key(table, tenant, canvasId.value) in rows
    then Some(rows[Key(table, tenant, canvasId.value)].id) else None
  }

  function Watermark(db: Database, tenant: Tenant, tableName: string): Option<Instant> {
    var k := StateKey(tenant, tableName);
    if k in db.states then db.states[k].lastWatermark else None
  }
}
