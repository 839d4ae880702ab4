/** Which columns a row takes, column by column. */
module Columns {
  import opened Wrappers
  import opened Tables

  /** Whether a table has a column, its keys and the soft-delete mark apart. */
  predicate InTable(table: Table, c: Column) {
    match c
    case Name => table.Users? || table.Courses? || table.Assignments?
    case ShortName => table.Users?
    case SortableName => table.Users?
    case Email => table.Users?
    case Locale => table.Users?
    case EffectiveLocale => table.Users?
    case CourseCode => table.Courses?
    case AccountId => table.Courses?
    case RootAccountId => table.Courses?
    case EnrollmentTermId => table.Courses?
    case CourseUuid => table.Courses?
    case WorkflowState => table.Courses? || table.Assignments? || table.Submissions?
    case StartAt => table.Courses?
    case EndAt => table.Courses?
    case DefaultView => table.Courses?
    case IsPublic => table.Courses?
    case License => table.Courses?
    case TimeZone => table.Courses?
    case EnrollmentsCount => table.Courses?
    case CalendarIcs => table.Courses?
    case CourseId => table.Enrollments? || table.Assignments?
    case UserId => table.Enrollments? || table.Submissions?
    case Role => table.Enrollments?
    case RoleId => table.Enrollments?
    case EnrollmentState => table.Enrollments?
    case LimitPrivilegesToCourseSection => table.Enrollments?
    case Description => table.Assignments?
    case PointsPossible => table.Assignments?
    case DueAt => table.Assignments?
    case LockAt => table.Assignments?
    case UnlockAt => table.Assignments?
    case GradingType => table.Assignments?
    case SubmissionTypes => table.Assignments?
    case HtmlUrl => table.Assignments?
    case ImportantDates => table.Assignments?
    case Muted => table.Assignments?
    case AvailabilityStatus => table.Assignments?
    case LockInfo => table.Assignments?
    case IntegrationData => table.Assignments?
    case ScoreStatistics => table.Assignments?
    case AssignmentId => table.Submissions?
    case SubmissionType => table.Submissions?
    case SubmittedAt => table.Submissions?
    case Score => table.Submissions?
    case EnteredScore => table.Submissions?
    case Grade => table.Submissions?
    case EnteredGrade => table.Submissions?
    case GradeMatchesCurrentSubmission => table.Submissions?
    case GradedAt => table.Submissions?
    case PostedAt => table.Submissions?
    case CachedDueDate => table.Submissions?
    case Late => table.Submissions?
    case Missing => table.Submissions?
    case Excused => table.Submissions?
    case RedoRequest => table.Submissions?
    case Attempt => table.Submissions?
    case SecondsLate => table.Submissions?
    case LatePolicyStatus => table.Submissions?
    case Body => table.Submissions?
    case Url => table.Submissions?
    case PreviewUrl => table.Submissions?
    case PointsDeducted => table.Submissions?
    case ExtraAttempts => table.Submissions?
    case _ => false
  }

  predicate IsGiven(c: Column) {
    c.TenantId? || c.CanvasId? || c.DeletedAt?
  }

  lemma ColumnsAreWritable(table: Table, c: Column)
    ensures IsWritable(table, c) <==> InTable(table, c) || IsGiven(c)
    ensures IsGiven(c) ==> !InTable(table, c)
  {
    GivenIsNoColumn(table, c);
    OwnColumns(table, c);
    hide OwnColumn, InTable;
  }

  lemma GivenIsNoColumn(table: Table, c: Column)
    ensures IsGiven(c) ==> !InTable(table, c)
  {}

  lemma OwnColumns(table: Table, c: Column)
    ensures OwnColumn(table, c) <==> InTable(table, c)
  {
    hide OwnColumn, InTable;
    match table {
      case Users => UserColumns(c);
      case Courses => CourseColumns(c);
      case Enrollments => EnrollmentColumns(c);
      case Assignments => AssignmentColumns(c);
      case Submissions => SubmissionColumns(c);
    }
  }

  lemma UserColumns(c: Column)
    ensures OwnColumn(Users, c) <==> InTable(Users, c)
  {}

  lemma CourseColumns(c: Column)
    ensures OwnColumn(Courses, c) <==> InTable(Courses, c)
  {}

  lemma EnrollmentColumns(c: Column)
    ensures OwnColumn(Enrollments, c) <==> InTable(Enrollments, c)
  {}

  lemma AssignmentColumns(c: Column)
    ensures OwnColumn(Assignments, c) <==> InTable(Assignments, c)
  {}

  lemma SubmissionColumns(c: Column)
    ensures OwnColumn(Submissions, c) <==> InTable(Submissions, c)
  {}

  // ---- One upsert ----

  function CellAt(rows: map<Key, Row>, k: Key, c: Column): Option<Value> {
    if k in rows && c in rows[k].cells then Some(rows[k].cells[c]) else None
  }

  /** The row at `k` after an upsert: each column of the table has the payload's value if there is one and
      else the one it had, and there is no other column. */
  ghost predicate TakesColumns(before: Database, after: Database, k: Key, payload: Cells) {
    k in after.rows
    && forall c :: CellAt(after.rows, k, c)
                   == if c in payload && (InTable(k.table, c) || c == DeletedAt) then Some(payload[c])
                      else CellAt(before.rows, k, c)
  }

  lemma PayloadIsFiltered(table: Table, payload: Cells, c: Column)
    ensures var filtered := Writable(table, payload) - KEY_COLUMNS;
      && (c in filtered <==> c in payload && (InTable(table, c) || c == DeletedAt))
      && (c in filtered ==> filtered[c] == payload[c])
  {
    ColumnsAreWritable(table, c);
    hide IsWritable, InTable;
  }

  lemma UpsertOverlays(db: Database, k: Key, payload: Cells, c: Column)
    ensures var filtered := Writable(k.table, payload) - KEY_COLUMNS;
      CellAt(Upserted(db, k, payload).rows, k, c) == if c in filtered then Some(filtered[c]) else CellAt(db.rows, k, c)
  {
    hide Writable;
  }

  lemma UpsertTakesColumn(db: Database, k: Key, payload: Cells, c: Column)
    ensures CellAt(Upserted(db, k, payload).rows, k, c)
            == if c in payload && (InTable(k.table, c) || c == DeletedAt) then Some(payload[c]) else CellAt(db.rows, k, c)
  {
    hide Writable, InTable, Upserted, CellAt;
    PayloadIsFiltered(k.table, payload, c);
    UpsertOverlays(db, k, payload, c);
  }

  lemma UpsertTakesColumns(db: Database, k: Key, payload: Cells)
    ensures TakesColumns(db, Upserted(db, k, payload), k, payload)
  {
    assert k in Upserted(db, k, payload).rows by { hide Writable; }
    hide Upserted, InTable, CellAt;
    forall c
      ensures CellAt(Upserted(db, k, payload).rows, k, c)
              == if c in payload && (InTable(k.table, c) || c == DeletedAt) then Some(payload[c]) else CellAt(db.rows, k, c)
    {
      UpsertTakesColumn(db, k, payload, c);
    }
  }
}
