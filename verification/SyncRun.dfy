/** The effect of a script and of a whole run on the replica, as functions. */
module SyncRun {
  import opened Wrappers
  import opened Tables
  import opened Replies

  datatype Counts = Counts(
    users: nat, courses: nat, enrollments: nat, assignments: nat, submissions: nat,
    softDeleted: nat, droppedPeer: nat)

  const NO_COUNTS := Counts(0, 0, 0, 0, 0, 0, 0)

  function KeyOf(tenant: Tenant, a: Action): Key
    requires a.Save?
  {
    Key(a.table, tenant, a.canvasId)
  }

  /** `payload.pop(column)` when nothing is stored under the link, else the local id. */
  function Relinked(payload: Cells, column: Column, id: Option<RowId>): Cells {
    if id.None? then payload - {column} else payload[column := Ref(id.value)]
  }

  function LinkId(rows: map<Key, Row>, tenant: Tenant, link: Link): Option<RowId> {
    ResolvedId(rows, link.table, tenant, link.canvasId)
  }

  function AllRelinked(rows: map<Key, Row>, tenant: Tenant, payload: Cells, links: seq<Link>): Cells
    decreases |links|
  {
    if links == [] then payload
    else AllRelinked(rows, tenant, Relinked(payload, links[0].column, LinkId(rows, tenant, links[0])), links[1..])
  }

  function PayloadOf(rows: map<Key, Row>, tenant: Tenant, a: Action): Cells
    requires a.Save?
  {
    AllRelinked(rows, tenant, a.cells, a.links)
  }

  predicate HasColumn(links: seq<Link>, c: Column)
    decreases |links|
  {
    links != [] && (links[0].column == c || HasColumn(links[1..], c))
  }

  /** What every write the pipeline makes looks like: its cells name neither a key column nor the
      soft-delete column, its links are of different columns and point where the column's foreign key
      does, and a foreign key is never written except through a link. */
  predicate WellFormed(a: Action) {
    a.Save? ==>
      && (forall c :: c in a.cells ==>
            && c !in KEY_COLUMNS && !c.DeletedAt?
            && (ForeignTable(a.table, c).Some? ==> HasColumn(a.links, c)))
      && LinksMatch(a.table, a.links)
      && (forall i, j :: 0 <= i < j < |a.links| ==> a.links[i].column != a.links[j].column)
  }

  predicate LinksMatch(table: Table, links: seq<Link>) {
    forall i :: 0 <= i < |links| ==> ForeignTable(table, links[i].column) == Some(links[i].table)
  }

  predicate RefersTo(rows: map<Key, Row>, tenant: Tenant, table: Table, v: Value) {
    exists k :: k in rows && k.table == table && k.tenant == tenant && v == Ref(rows[k].id)
  }

  lemma {:induction false} RelinkedColumn(rows: map<Key, Row>, tenant: Tenant, table: Table,
                                          payload: Cells, links: seq<Link>, c: Column)
    requires LinksMatch(table, links) && c in AllRelinked(rows, tenant, payload, links)
    requires HasColumn(links, c) || (c in payload && ForeignTable(table, c).Some? &&
               RefersTo(rows, tenant, ForeignTable(table, c).value, payload[c]))
    ensures ForeignTable(table, c).Some?
    ensures RefersTo(rows, tenant, ForeignTable(table, c).value, AllRelinked(rows, tenant, payload, links)[c])
    decreases |links|
  {
    if links != [] {
      var x := links[0];
      var id := LinkId(rows, tenant, x);
      if x.column == c && id.Some? {
        assert Key(x.table, tenant, x.canvasId.value) in rows;
      }
      var relinked := Relinked(payload, x.column, id);
      if x.column == c && id.None? && !HasColumn(links[1..], c) {
        RelinkedOther(rows, tenant, relinked, links[1..], c);
      } else {
        RelinkedColumn(rows, tenant, table, relinked, links[1..], c);
      }
    }
  }

  lemma {:induction false} RelinkedOther(rows: map<Key, Row>, tenant: Tenant, payload: Cells, links: seq<Link>, c: Column)
    requires !HasColumn(links, c)
    ensures c in AllRelinked(rows, tenant, payload, links) <==> c in payload
    ensures c in payload ==> AllRelinked(rows, tenant, payload, links)[c] == payload[c]
    decreases |links|
  {
    if links != [] {
      var x := links[0];
      RelinkedOther(rows, tenant, Relinked(payload, x.column, LinkId(rows, tenant, x)), links[1..], c);
    }
  }

  lemma {:induction false} LinkedColumn(table: Table, links: seq<Link>, c: Column)
    requires LinksMatch(table, links) && HasColumn(links, c)
    ensures ForeignTable(table, c).Some?
    decreases |links|
  {
    if links[0].column != c {
      LinkedColumn(table, links[1..], c);
    }
  }

  /** A prepared payload writes no key column and no soft-delete mark, and its foreign keys are local
      ids of stored rows of the right table and the same tenant. */
  lemma PayloadIsSafe(rows: map<Key, Row>, tenant: Tenant, a: Action, c: Column)
    requires a.Save? && WellFormed(a) && c in PayloadOf(rows, tenant, a)
    ensures c !in KEY_COLUMNS && !c.DeletedAt?
    ensures ForeignTable(a.table, c).Some? ==>
      RefersTo(rows, tenant, ForeignTable(a.table, c).value, PayloadOf(rows, tenant, a)[c])
  {
    if HasColumn(a.links, c) {
      RelinkedColumn(rows, tenant, a.table, a.cells, a.links, c);
    } else {
      RelinkedOther(rows, tenant, a.cells, a.links, c);
    }
  }

  lemma SaveUserWellFormed(u: UserDto)
    ensures WellFormed(SaveUser(u))
  {}

  lemma SaveCourseWellFormed(c: CourseDto)
    ensures WellFormed(SaveCourse(c))
  {}

  lemma TwoColumns(x: Link, y: Link, c: Column)
    ensures HasColumn([x, y], c) <==> c == x.column || c == y.column
  {
    assert [x, y][1..] == [y] && [y][1..] == [];
    assert HasColumn([y], c) <==> y.column == c || HasColumn([], c);
  }

  /** The scalar fields of a payload are neither keys nor links nor the soft-delete mark. */
  lemma PayloadColumn(table: Table, c: Column)
    requires PayloadField(table, c)
    ensures c !in KEY_COLUMNS && !c.DeletedAt? && ForeignTable(table, c).None?
  {}

  lemma EnrollmentColumns(e: EnrollmentDto, c: Column)
    requires c in EnrollmentPayload(e)
    ensures c !in KEY_COLUMNS && !c.DeletedAt?
    ensures ForeignTable(Enrollments, c).Some? ==> c == CourseId || c == UserId
  {
    if PayloadField(Enrollments, c) { PayloadColumn(Enrollments, c); }
    hide PayloadField;
  }

  lemma SubmissionColumns(s: SubmissionDto, c: Column)
    requires c in LatePolicyNormalized(SubmissionPayload(s))
    ensures c !in KEY_COLUMNS && !c.DeletedAt?
    ensures ForeignTable(Submissions, c).Some? ==> c == AssignmentId || c == UserId
  {
    assert c in SubmissionPayload(s) by { hide SubmissionPayload; }
    if PayloadField(Submissions, c) { PayloadColumn(Submissions, c); }
    hide PayloadField, LatePolicyNormalized;
  }

  lemma SaveEnrollmentWellFormed(e: EnrollmentDto, fallback: Option<CanvasId>)
    requires e.id.Some?
    ensures WellFormed(SaveEnrollment(e, fallback))
  {
    var a := SaveEnrollment(e, fallback);
    forall c | c in a.cells
      ensures c !in KEY_COLUMNS && !c.DeletedAt? && (ForeignTable(Enrollments, c).Some? ==> HasColumn(a.links, c))
    {
      EnrollmentColumns(e, c);
      TwoColumns(a.links[0], a.links[1], c);
    }
  }

  lemma SaveAssignmentWellFormed(a: AssignmentDto, courseId: CanvasId)
    ensures WellFormed(SaveAssignment(a, courseId))
  {}

  lemma SaveSubmissionWellFormed(s: SubmissionDto, parentId: CanvasId)
    ensures WellFormed(SaveSubmission(s, parentId))
  {
    var a := SaveSubmission(s, parentId);
    forall c | c in a.cells
      ensures c !in KEY_COLUMNS && !c.DeletedAt? && (ForeignTable(Submissions, c).Some? ==> HasColumn(a.links, c))
    {
      SubmissionColumns(s, c);
      TwoColumns(a.links[0], a.links[1], c);
    }
  }

  function Saved(db: Database, tenant: Tenant, a: Action): Database
    requires a.Save?
  {
    Upserted(db, KeyOf(tenant, a), PayloadOf(db.rows, tenant, a))
  }

  function Apply(db: Database, tenant: Tenant, a: Action, clock: Clock): Database {
    if a.DropPeer? then db
    else SoftDeleted(Saved(db, tenant, a), KeyOf(tenant, a), a.state, clock(KeyOf(tenant, a)))
  }

  function ApplyAll(db: Database, tenant: Tenant, script: seq<Action>, clock: Clock): Database {
    if script == [] then db
    else Apply(ApplyAll(db, tenant, script[..|script| - 1], clock), tenant, script[|script| - 1], clock)
  }

  function CountSaved(c: Counts, table: Table): Counts {
    match table
    case Users => c.(users := c.users + 1)
    case Courses => c.(courses := c.courses + 1)
    case Enrollments => c.(enrollments := c.enrollments + 1)
    case Assignments => c.(assignments := c.assignments + 1)
    case Submissions => c.(submissions := c.submissions + 1)
  }

  function Count(c: Counts, db: Database, tenant: Tenant, a: Action): Counts {
    if a.DropPeer? then c.(droppedPeer := c.droppedPeer + 1)
    else
      var c' := CountSaved(c, a.table);
      if SoftDeletes(Saved(db, tenant, a), KeyOf(tenant, a), a.state)
      then c'.(softDeleted := c'.softDeleted + 1) else c'
  }

  /** The replica and the counters, as the pipeline advances both together. */
  datatype Progress = Progress(db: Database, counts: Counts)

  function Step(p: Progress, tenant: Tenant, a: Action, clock: Clock): Progress {
    Progress(Apply(p.db, tenant, a, clock), Count(p.counts, p.db, tenant, a))
  }

  function Steps(p: Progress, tenant: Tenant, script: seq<Action>, clock: Clock): Progress {
    if script == [] then p
    else Step(Steps(p, tenant, script[..|script| - 1], clock), tenant, script[|script| - 1], clock)
  }

  lemma {:induction false} StepsDb(p: Progress, tenant: Tenant, script: seq<Action>, clock: Clock)
    ensures Steps(p, tenant, script, clock).db == ApplyAll(p.db, tenant, script, clock)
  {
    if script != [] {
      StepsDb(p, tenant, script[..|script| - 1], clock);
    }
  }

  lemma {:induction false} StepsAppend(p: Progress, tenant: Tenant, a: seq<Action>, b: seq<Action>, clock: Clock)
    ensures Steps(p, tenant, a + b, clock) == Steps(Steps(p, tenant, a, clock), tenant, b, clock)
  {
    if b == [] {
      assert a + b == a;
    } else {
      var n := |b| - 1;
      assert (a + b)[..|a + b| - 1] == a + b[..n];
      StepsAppend(p, tenant, a, b[..n], clock);
    }
  }

  lemma {:induction false} ApplyAllAppend(db: Database, tenant: Tenant, a: seq<Action>, b: seq<Action>, clock: Clock)
    ensures ApplyAll(db, tenant, a + b, clock) == ApplyAll(ApplyAll(db, tenant, a, clock), tenant, b, clock)
  {
    if b == [] {
      assert a + b == a;
    } else {
      var n := |b| - 1;
      assert (a + b)[..|a + b| - 1] == a + b[..n];
      ApplyAllAppend(db, tenant, a, b[..n], clock);
    }
  }

  lemma StepsNone(p: Progress, tenant: Tenant, clock: Clock)
    ensures Steps(p, tenant, [], clock) == p
  {}

  lemma StepsOne(p: Progress, tenant: Tenant, a: Action, clock: Clock)
    ensures Steps(p, tenant, [a], clock) == Step(p, tenant, a, clock)
  {
    assert [a][..0] == [];
  }

  // ---- Whole runs ----

  datatype ErrorClass = CanvasUnavailable | SchemaDriftError | AuthRejected | Unexpected

  function ErrorName(e: ErrorClass): string {
    match e
    case CanvasUnavailable => "canvas_unavailable"
    case SchemaDriftError => "schema_drift"
    case AuthRejected => "auth_rejected"
    case Unexpected => "unexpected"
  }

  /** The except clauses of the sync boundary, in order; cancellation passes through them all. */
  function Classify(f: Fault): ErrorClass
    requires !f.Cancelled?
  {
    match f
    case MethodRejected => Unexpected
    case RequestFailed(status) =>
      if status == Some(401) || status == Some(403) then AuthRejected else CanvasUnavailable
    case SchemaDrift => SchemaDriftError
    case PaginationBroken => SchemaDriftError
    case HttpFailed(mentionsPayload) => if mentionsPayload then SchemaDriftError else CanvasUnavailable
    case ValidationFailed => SchemaDriftError
    case OtherError => Unexpected
  }

  /** The replica after the work of a run, before anything is committed. */
  function Completed(db: Database, tenant: Tenant, r: Replies, clock: Clock, runAt: Instant): Database
    requires SelfFault(r).None?
  {
    var done := ApplyAll(db, tenant, RunScript(r), clock);
    done.(states := done.states[StateKey(tenant, SYNC_STATE_TABLE) :=
      SyncState(Some(runAt), Some(runAt), "ok", None)])
  }

  /** The failure marker: the watermark stays what it was. */
  function Marked(db: Database, tenant: Tenant, runAt: Instant, previous: Option<Instant>, e: ErrorClass): Database {
    var k := StateKey(tenant, SYNC_STATE_TABLE);
    var watermark := if k in db.states then db.states[k].lastWatermark else previous;
    db.(states := db.states[k := SyncState(watermark, Some(runAt), "failed", Some(ErrorName(e)))])
  }
}
