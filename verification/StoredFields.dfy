/** Every field a record brings arrives in its row, and nothing else does. */
module StoredFields {
  import opened Wrappers
  import opened Texts
  import opened Tables
  import opened Columns
  import opened Replies
  import opened SyncRun
  import opened Referential
  import opened Convergence
  import opened FirstRunExactly
  import opened Agreement
  import opened Deliveries
  import opened History

  // ---- What a record brings ----

  /** The columns a record fills from a field of the same name. */
  predicate IsField(table: Table, c: Column) {
    InTable(table, c)
    && !c.Email? && !c.WorkflowState? && !c.EnrollmentState? && !c.CalendarIcs?
    && !c.CourseId? && !c.UserId? && !c.AssignmentId?
  }

  function Field(attrs: Cells, table: Table, c: Column): Option<Value> {
    if IsField(table, c) && c in attrs then Some(attrs[c]) else None
  }

  function State(state: Option<string>): Option<Value> {
    if state.Some? then Some(Text(state.value)) else None
  }

  function UserBrings(u: UserDto, c: Column): Option<Value> {
    Field(u.attrs, Users, c)
  }

  function CourseBrings(x: CourseDto, c: Column): Option<Value> {
    if c.WorkflowState? then State(x.state) else if c.CalendarIcs? then x.calendarIcs else Field(x.attrs, Courses, c)
  }

  function EnrollmentBrings(e: EnrollmentDto, c: Column): Option<Value> {
    if c.EnrollmentState? then State(e.state) else Field(e.attrs, Enrollments, c)
  }

  function AssignmentBrings(a: AssignmentDto, c: Column): Option<Value> {
    if c.WorkflowState? then State(a.state) else Field(a.attrs, Assignments, c)
  }

  predicate IsContent(c: Column) {
    c.Body? || c.PreviewUrl? || c.Url? || c.Attachments?
  }

  /** A numeric late-policy status is stored as its numeral.  The four fields of content come only with the
      user's own id. */
  function SubmissionBrings(s: SubmissionDto, user: CanvasId, c: Column): Option<Value> {
    if c.WorkflowState? then State(s.state)
    else if IsContent(c) && s.userId != Some(user) then None
    else
      match Field(s.attrs, Submissions, c)
      case Some(Whole(n)) =>
        if c.LatePolicyStatus? then Some(Text(if n < 0 then "-" + DigitsOf(-n) else DigitsOf(n))) else Some(Whole(n))
      case v => v
  }

  function CellIn(cells: Cells, c: Column): Option<Value> {
    if c in cells then Some(cells[c]) else None
  }

  // ---- Its write says it ----

  lemma FieldsArePayload(table: Table, c: Column)
    ensures IsField(table, c) <==> PayloadField(table, c) && InTable(table, c)
  {
    match table
    case Users => UserFields(c);
    case Courses => CourseFields(c);
    case Enrollments => EnrollmentFields(c);
    case Assignments => AssignmentFields(c);
    case Submissions => SubmissionFields(c);
  }

  lemma UserFields(c: Column)
    ensures IsField(Users, c) <==> PayloadField(Users, c) && InTable(Users, c)
  {}

  lemma CourseFields(c: Column)
    ensures IsField(Courses, c) <==> PayloadField(Courses, c) && InTable(Courses, c)
  {}

  lemma EnrollmentFields(c: Column)
    ensures IsField(Enrollments, c) <==> PayloadField(Enrollments, c) && InTable(Enrollments, c)
  {}

  lemma AssignmentFields(c: Column)
    ensures IsField(Assignments, c) <==> PayloadField(Assignments, c) && InTable(Assignments, c)
  {}

  lemma SubmissionFields(c: Column)
    ensures IsField(Submissions, c) <==> PayloadField(Submissions, c) && InTable(Submissions, c)
  {}

  /** A column of the table that is no link and that the payload may name. */
  predicate IsPlain(table: Table, c: Column) {
    InTable(table, c) && ForeignTable(table, c).None?
  }

  lemma BroughtIsPlain(table: Table, c: Column)
    ensures IsField(table, c) ==> IsPlain(table, c)
    ensures c.WorkflowState? && (table.Courses? || table.Assignments? || table.Submissions?) ==> IsPlain(table, c)
    ensures c.CalendarIcs? && table.Courses? ==> IsPlain(table, c)
    ensures c.EnrollmentState? && table.Enrollments? ==> IsPlain(table, c)
  {}

  lemma UserSays(u: UserDto, c: Column)
    requires IsPlain(Users, c)
    ensures CellIn(SaveUser(u).cells, c) == UserBrings(u, c)
  {
    FieldsArePayload(Users, c);
    hide IsField, PayloadField, InTable;
  }

  lemma CourseSays(x: CourseDto, c: Column)
    requires IsPlain(Courses, c)
    ensures CellIn(SaveCourse(x).cells, c) == CourseBrings(x, c)
  {
    FieldsArePayload(Courses, c);
    assert c.WorkflowState? || c.CalendarIcs? ==> !PayloadField(Courses, c);
    hide IsField, PayloadField, InTable;
  }

  lemma EnrollmentSays(e: EnrollmentDto, fallback: Option<CanvasId>, c: Column)
    requires e.id.Some? && IsPlain(Enrollments, c)
    ensures CellIn(SaveEnrollment(e, fallback).cells, c) == EnrollmentBrings(e, c)
  {
    FieldsArePayload(Enrollments, c);
    assert c.EnrollmentState? ==> !PayloadField(Enrollments, c);
    assert c != CourseId && c != UserId;
    hide IsField, PayloadField, InTable;
  }

  lemma AssignmentSays(a: AssignmentDto, courseId: CanvasId, c: Column)
    requires IsPlain(Assignments, c)
    ensures CellIn(SaveAssignment(a, courseId).cells, c) == AssignmentBrings(a, c)
  {
    FieldsArePayload(Assignments, c);
    assert c.WorkflowState? ==> !PayloadField(Assignments, c);
    hide IsField, PayloadField, InTable;
  }

  lemma SubmissionPayloadSays(s: SubmissionDto, c: Column)
    requires IsPlain(Submissions, c)
    ensures CellIn(SubmissionPayload(s), c) == if c.WorkflowState? then State(s.state) else Field(s.attrs, Submissions, c)
  {
    FieldsArePayload(Submissions, c);
    assert c.WorkflowState? ==> !PayloadField(Submissions, c);
    assert c != AssignmentId && c != UserId;
    hide IsField, PayloadField, InTable;
  }

  /** A numeric late-policy status is normalized, and nothing else. */
  lemma NormalizedSays(payload: Cells, c: Column)
    ensures CellIn(LatePolicyNormalized(payload), c)
            == match CellIn(payload, c)
               case Some(Whole(n)) =>
                 if c.LatePolicyStatus? then Some(Text(if n < 0 then "-" + DigitsOf(-n) else DigitsOf(n))) else Some(Whole(n))
               case v => v
  {
    hide DigitsOf;
  }

  lemma ContentIsSensitive(c: Column)
    ensures c in SENSITIVE_FIELDS <==> IsContent(c)
  {}

  lemma StrippedBrings(a: AssignmentDto, s: SubmissionDto, user: CanvasId, c: Column)
    requires a.submission == Some(s)
    ensures var stripped := StripAssignment(a, user).submission;
      && stripped.Some? && stripped.value.state == s.state && stripped.value.id == s.id
      && Field(stripped.value.attrs, Submissions, c)
         == if IsContent(c) && s.userId != Some(user) then None else Field(s.attrs, Submissions, c)
  {
    ContentIsSensitive(c);
    hide IsField, IsContent, SENSITIVE_FIELDS;
  }

  /** The submission as it is saved, without its content unless it has the user's own id. */
  lemma SubmissionSays(a: AssignmentDto, s: SubmissionDto, user: CanvasId, parent: CanvasId, c: Column)
    requires a.submission == Some(s) && IsPlain(Submissions, c)
    ensures StripAssignment(a, user).submission.Some?
    ensures CellIn(SaveSubmission(StripAssignment(a, user).submission.value, parent).cells, c) == SubmissionBrings(s, user, c)
  {
    StrippedBrings(a, s, user, c);
    var stripped := StripAssignment(a, user).submission.value;
    SubmissionPayloadSays(stripped, c);
    NormalizedSays(SubmissionPayload(stripped), c);
    hide CellIn, LatePolicyNormalized, SubmissionPayload, StripAssignment, Field, DigitsOf, InTable, ForeignTable;
  }

  // ---- What its links name ----

  function Named(tenant: Tenant, table: Table, id: Option<CanvasId>): Option<Key> {
    if id.Some? then Some(Key(table, tenant, id.value)) else None
  }

  lemma LinksName(tenant: Tenant, x: Link, y: Link, c: Column)
    requires x.column != y.column
    ensures TargetOf(tenant, [x, y], c)
            == if c == x.column then Named(tenant, x.table, x.canvasId)
               else if c == y.column then Named(tenant, y.table, y.canvasId) else None
  {
    assert [x, y][1..] == [y] && [y][1..] == [];
    assert TargetOf(tenant, [], c) == None;
  }

  /** An enrollment names the course of its own id, unless that is missing or zero; then the course it is
      embedded in.  And it names its user. */
  lemma EnrollmentNames(tenant: Tenant, e: EnrollmentDto, fallback: Option<CanvasId>, c: Column)
    requires e.id.Some?
    ensures TargetOf(tenant, SaveEnrollment(e, fallback).links, c)
            == if c.CourseId? then Named(tenant, Courses, if e.courseId.Some? && e.courseId.value != 0 then e.courseId else fallback)
               else if c.UserId? then Named(tenant, Users, e.userId) else None
  {
    var links := SaveEnrollment(e, fallback).links;
    LinksName(tenant, links[0], links[1], c);
    assert links == [links[0], links[1]];
  }

  /** A submission likewise names its assignment, and its user. */
  lemma SubmissionNames(tenant: Tenant, s: SubmissionDto, parent: CanvasId, c: Column)
    ensures TargetOf(tenant, SaveSubmission(s, parent).links, c)
            == if c.AssignmentId? then
                 Named(tenant, Assignments, if s.assignmentId.Some? && s.assignmentId.value != 0 then s.assignmentId else Some(parent))
               else if c.UserId? then Named(tenant, Users, s.userId) else None
  {
    hide LatePolicyNormalized, SubmissionPayload;
    var links := SaveSubmission(s, parent).links;
    LinksName(tenant, links[0], links[1], c);
    assert links == [links[0], links[1]];
  }

  /** An assignment names the course of its listing. */
  lemma AssignmentNames(tenant: Tenant, a: AssignmentDto, courseId: CanvasId, c: Column)
    ensures TargetOf(tenant, SaveAssignment(a, courseId).links, c)
            == if c.CourseId? then Some(Key(Courses, tenant, courseId)) else None
  {
    hide AssignmentPayload;
    var links := SaveAssignment(a, courseId).links;
    assert links[1..] == [] && TargetOf(tenant, [], c) == None;
  }

  // ---- The last word on a cell ----

  /** Every other word on the cell is followed by this one. */
  ghost predicate Uncontradicted(tenant: Tenant, script: seq<Action>, k: Key, c: Column, v: Value) {
    forall i :: 0 <= i < |script| && Writes(tenant, script[i], k) && c in script[i].cells && script[i].cells[c] != v ==>
      exists j :: i < j < |script| && SaysOf(tenant, script[j], k, c, v)
  }

  predicate SaysOf(tenant: Tenant, a: Action, k: Key, c: Column, v: Value) {
    Writes(tenant, a, k) && CellIn(a.cells, c) == Some(v)
  }

  lemma {:induction false} LastWordStays(db: Database, tenant: Tenant, script: seq<Action>, clock: Clock, k: Key, c: Column, v: Value)
    requires AllWellFormed(script) && IsPlain(k.table, c) && Uncontradicted(tenant, script, k, c, v)
    requires exists i :: 0 <= i < |script| && SaysOf(tenant, script[i], k, c, v)
    ensures CellAt(ApplyAll(db, tenant, script, clock).rows, k, c) == Some(v)
  {
    var n := |script| - 1;
    var a, here := script[n], ApplyAll(db, tenant, script[..n], clock);
    if Writes(tenant, a, k) && c in a.cells {
      assert a.cells[c] == v;
      PlainIsStored(here, tenant, a, clock, c);
    } else {
      SaidBefore(tenant, script, k, c, v);
      hide Writes, WellFormed, Apply, Uncontradicted, SaysOf, IsPlain;
      LastWordStays(db, tenant, script[..n], clock, k, c, v);
      CellStays(here, tenant, a, clock, k, c);
    }
  }

  lemma SaidBefore(tenant: Tenant, script: seq<Action>, k: Key, c: Column, v: Value)
    requires Uncontradicted(tenant, script, k, c, v)
    requires exists i :: 0 <= i < |script| && SaysOf(tenant, script[i], k, c, v)
    requires !(Writes(tenant, script[|script| - 1], k) && c in script[|script| - 1].cells)
    ensures var head := script[..|script| - 1];
      Uncontradicted(tenant, head, k, c, v) && exists i :: 0 <= i < |head| && SaysOf(tenant, head[i], k, c, v)
  {
    var n := |script| - 1;
    var head := script[..n];
    assert !SaysOf(tenant, script[n], k, c, v);
    var i :| 0 <= i < |script| && SaysOf(tenant, script[i], k, c, v);
    assert SaysOf(tenant, head[i], k, c, v);
    hide SaysOf, Writes;
    forall i | 0 <= i < n && Writes(tenant, head[i], k) && c in head[i].cells && head[i].cells[c] != v
      ensures exists j :: i < j < n && SaysOf(tenant, head[j], k, c, v)
    {
      assert head[i] == script[i];
      var j :| i < j < |script| && SaysOf(tenant, script[j], k, c, v);
      assert head[j] == script[j];
    }
  }

  lemma PlainIsStored(here: Database, tenant: Tenant, a: Action, clock: Clock, c: Column)
    requires a.Save? && WellFormed(a) && IsPlain(a.table, c) && c in a.cells
    ensures CellAt(Apply(here, tenant, a, clock).rows, KeyOf(tenant, a), c) == Some(a.cells[c])
  {
    ColumnsAreWritable(a.table, c);
    PlainIsWritten(here.rows, tenant, a, c);
    hide Apply, WrittenTo, InTable, IsWritable, ForeignTable;
    ApplyRows(here, tenant, a, clock);
    CellsAfter(here, tenant, a, clock, KeyOf(tenant, a), c);
  }

  /** A cell nobody speaks of stays. */
  lemma CellStays(here: Database, tenant: Tenant, a: Action, clock: Clock, k: Key, c: Column)
    requires WellFormed(a) && IsPlain(k.table, c) && !(Writes(tenant, a, k) && c in a.cells)
    ensures CellAt(here.rows, k, c).Some? ==> CellAt(Apply(here, tenant, a, clock).rows, k, c) == CellAt(here.rows, k, c)
  {
    ColumnsAreWritable(k.table, c);
    if a.Save? {
      if KeyOf(tenant, a) == k { PlainIsWritten(here.rows, tenant, a, c); }
      ApplyRows(here, tenant, a, clock);
    }
    hide Apply, WrittenTo, InTable, IsWritable, ForeignTable;
    CellsAfter(here, tenant, a, clock, k, c);
  }

  // ---- After a run ----

  /** What a write of a run says of a cell is there after the run, unless something else is said later. */
  lemma SaidIsStored(db: Database, tenant: Tenant, r: Replies, clock: Clock, a: Action, c: Column)
    requires SelfFault(r).None? && a in RunScript(r) && a.Save? && IsPlain(a.table, c) && CellIn(a.cells, c).Some?
    requires Uncontradicted(tenant, RunScript(r), KeyOf(tenant, a), c, CellIn(a.cells, c).value)
    ensures CellAt(ApplyAll(db, tenant, RunScript(r), clock).rows, KeyOf(tenant, a), c) == CellIn(a.cells, c)
  {
    hide RunScript, CellAt, ApplyAll, IsPlain;
    RunScriptWellFormed(r);
    var i :| 0 <= i < |RunScript(r)| && RunScript(r)[i] == a;
    assert SaysOf(tenant, RunScript(r)[i], KeyOf(tenant, a), c, CellIn(a.cells, c).value);
    LastWordStays(db, tenant, RunScript(r), clock, KeyOf(tenant, a), c, CellIn(a.cells, c).value);
  }

  lemma {:induction false} RecordIsInScript(recs: seq<Record>, user: CanvasId, rec: Record, a: Action)
    requires rec in recs && a in ScriptOf(rec, user)
    ensures a in ScriptOfAll(recs, user)
  {
    hide ScriptOf;
    var n := |recs| - 1;
    if recs[n] != rec { RecordIsInScript(recs[..n], user, rec, a); }
  }

  lemma DeliveredIsInScript(r: Replies, rec: Record, a: Action)
    requires SelfFault(r).None? && rec in Delivered(r) && a in ScriptOf(rec, SelfId(r))
    ensures a in RunScript(r)
  {
    hide Delivered, ScriptOf, RunScript;
    RunScriptIsDelivered(r);
    RecordIsInScript(Delivered(r), SelfId(r), rec, a);
  }

  lemma {:induction false} CourseIsDelivered(items: seq<Item<CourseDto>>, x: CourseDto)
    requires Parsed(x) in items
    ensures ACourse(x) in CoursesIn(items)
  {
    var n := |items| - 1;
    if items[n] != Parsed(x) { CourseIsDelivered(items[..n], x); }
  }

  lemma {:induction false} EnrollmentIsDelivered(items: seq<Item<EnrollmentDto>>, e: EnrollmentDto)
    requires Parsed(e) in items
    ensures AnEnrollment(e) in EnrollmentsIn(items)
  {
    var n := |items| - 1;
    if items[n] != Parsed(e) { EnrollmentIsDelivered(items[..n], e); }
  }

  lemma {:induction false} AssignmentIsDelivered(items: seq<Item<AssignmentDto>>, a: AssignmentDto, courseId: CanvasId)
    requires Parsed(a) in items
    ensures AnAssignment(a, courseId) in AssignmentsIn(items, courseId)
  {
    var n := |items| - 1;
    if items[n] != Parsed(a) { AssignmentIsDelivered(items[..n], a, courseId); }
  }

  lemma {:induction false} ListingIsDelivered(r: Replies, ids: seq<CanvasId>, n: nat, rec: Record)
    requires n < |ids| && rec in AssignmentsIn(Listing(r, n).items, ids[n])
    ensures rec in ListingsIn(r, ids)
  {
    var m := |ids| - 1;
    if n < m { ListingIsDelivered(r, ids[..m], n, rec); }
  }

  /** The user's own, with an id: by its own user id if it has one, else by that of its user. */
  predicate IsOwn(e: EnrollmentDto, user: CanvasId) {
    e.id.Some? && (if e.userId.Some? then e.userId.value == user else e.nestedUserId == Some(user))
  }

  lemma {:induction false} OwnIsKept(es: seq<EnrollmentDto>, user: CanvasId, e: EnrollmentDto)
    requires e in es && IsOwn(e, user)
    ensures e in StripEnrollments(es, user) && KeepsEmbedded(e, user) && StripEnrollment(e, user).Some?
  {
    var n := |es| - 1;
    if es[n] != e { OwnIsKept(es[..n], user, e); }
  }

  /** The user of the answers: every field it brings. */
  lemma UserIsStored(db: Database, tenant: Tenant, r: Replies, clock: Clock, c: Column)
    requires SelfFault(r).None? && UserBrings(r.self.value.dto, c).Some?
    requires var u := r.self.value.dto;
      Uncontradicted(tenant, RunScript(r), Key(Users, tenant, u.id), c, UserBrings(u, c).value)
    ensures var u := r.self.value.dto;
      CellAt(ApplyAll(db, tenant, RunScript(r), clock).rows, Key(Users, tenant, u.id), c) == UserBrings(u, c)
  {
    BroughtIsPlain(Users, c);
    var u := r.self.value.dto;
    UserSays(u, c);
    assert TheUser(u) in Delivered(r) && SaveUser(u) in ScriptOf(TheUser(u), SelfId(r));
    hide RunScript, Delivered, ScriptOf, UserPayload, UserBrings;
    DeliveredIsInScript(r, TheUser(u), SaveUser(u));
    SaidIsStored(db, tenant, r, clock, SaveUser(u), c);
  }

  /** Every course of the answers. */
  lemma CourseIsStored(db: Database, tenant: Tenant, r: Replies, clock: Clock, x: CourseDto, c: Column)
    requires SelfFault(r).None? && Parsed(x) in r.courses.items && CourseBrings(x, c).Some?
    requires Uncontradicted(tenant, RunScript(r), Key(Courses, tenant, x.id), c, CourseBrings(x, c).value)
    ensures CellAt(ApplyAll(db, tenant, RunScript(r), clock).rows, Key(Courses, tenant, x.id), c) == CourseBrings(x, c)
  {
    BroughtIsPlain(Courses, c);
    CourseSays(x, c);
    CourseIsDelivered(r.courses.items, x);
    assert ACourse(x) in Delivered(r) by { hide CoursesIn, ListingsIn, EnrollmentsIn; }
    assert SaveCourse(x) in ScriptOf(ACourse(x), SelfId(r));
    hide RunScript, Delivered, ScriptOf, CoursePayload, CourseBrings;
    DeliveredIsInScript(r, ACourse(x), SaveCourse(x));
    SaidIsStored(db, tenant, r, clock, SaveCourse(x), c);
  }

  ghost predicate Embeds(r: Replies, x: CourseDto, e: EnrollmentDto) {
    Parsed(x) in r.courses.items && e in x.enrollments
  }

  /** The write a run makes of an enrollment of the user. */
  lemma EnrollmentIsWritten(r: Replies, e: EnrollmentDto) returns (fallback: Option<CanvasId>)
    requires SelfFault(r).None? && IsOwn(e, SelfId(r))
    requires (exists x :: Embeds(r, x, e)) || (UsesFallback(r) && Parsed(e) in r.enrollments.items)
    ensures SaveEnrollment(e, fallback) in RunScript(r)
  {
    var user := SelfId(r);
    if x :| Embeds(r, x, e) {
      fallback := Some(x.id);
      CourseIsDelivered(r.courses.items, x);
      assert ACourse(x) in Delivered(r) by { hide CoursesIn, ListingsIn, EnrollmentsIn; }
      OwnIsKept(x.enrollments, user, e);
      EmbeddedIsInScript(x, user, e);
      hide RunScript, Delivered, ScriptOf;
      DeliveredIsInScript(r, ACourse(x), SaveEnrollment(e, fallback));
    } else {
      fallback := e.courseId;
      EnrollmentIsDelivered(r.enrollments.items, e);
      assert AnEnrollment(e) in Delivered(r) by { hide CoursesIn, ListingsIn, EnrollmentsIn, UsesFallback; }
      OwnIsKept([e], user, e);
      assert SaveEnrollment(e, fallback) in ScriptOf(AnEnrollment(e), user);
      hide RunScript, Delivered, ScriptOf;
      DeliveredIsInScript(r, AnEnrollment(e), SaveEnrollment(e, fallback));
    }
  }

  lemma EmbeddedIsInScript(x: CourseDto, user: CanvasId, e: EnrollmentDto)
    requires e in StripEnrollments(x.enrollments, user) && KeepsEmbedded(e, user)
    ensures SaveEnrollment(e, Some(x.id)) in ScriptOf(ACourse(x), user)
  {
    var es := StripEnrollments(x.enrollments, user);
    var i :| 0 <= i < |es| && es[i] == e;
    assert EmbeddedScript(es, user, x.id)[i] == SaveEnrollment(e, Some(x.id));
  }

  /** Every enrollment of the user, embedded in a course, or in the fallback if that is read. */
  lemma EnrollmentIsStored(db: Database, tenant: Tenant, r: Replies, clock: Clock, e: EnrollmentDto, c: Column)
    requires SelfFault(r).None? && IsOwn(e, SelfId(r)) && EnrollmentBrings(e, c).Some?
    requires (exists x :: Embeds(r, x, e)) || (UsesFallback(r) && Parsed(e) in r.enrollments.items)
    requires Uncontradicted(tenant, RunScript(r), Key(Enrollments, tenant, e.id.value), c, EnrollmentBrings(e, c).value)
    ensures CellAt(ApplyAll(db, tenant, RunScript(r), clock).rows, Key(Enrollments, tenant, e.id.value), c)
            == EnrollmentBrings(e, c)
  {
    BroughtIsPlain(Enrollments, c);
    assert IsPlain(Enrollments, c);
    hide RunScript, UsesFallback, EnrollmentPayload, EnrollmentBrings;
    var fallback := EnrollmentIsWritten(r, e);
    EnrollmentSays(e, fallback, c);
    SaidIsStored(db, tenant, r, clock, SaveEnrollment(e, fallback), c);
  }

  lemma AssignmentIsWritten(r: Replies, n: nat, a: AssignmentDto)
    requires SelfFault(r).None? && n < |CourseIds(r.courses.items)| && Parsed(a) in Listing(r, n).items
    ensures AnAssignment(a, CourseIds(r.courses.items)[n]) in Delivered(r)
  {
    var ids := CourseIds(r.courses.items);
    AssignmentIsDelivered(Listing(r, n).items, a, ids[n]);
    ListingIsDelivered(r, ids, n, AnAssignment(a, ids[n]));
    hide CoursesIn, ListingsIn, EnrollmentsIn, UsesFallback, CourseIds, AssignmentsIn, Listing;
  }

  /** Every assignment of the listing of any course. */
  lemma AssignmentIsStored(db: Database, tenant: Tenant, r: Replies, clock: Clock, n: nat, a: AssignmentDto, c: Column)
    requires SelfFault(r).None? && n < |CourseIds(r.courses.items)| && n < |r.assignments|
    requires Parsed(a) in r.assignments[n].items
    requires AssignmentBrings(a, c).Some?
    requires Uncontradicted(tenant, RunScript(r), Key(Assignments, tenant, a.id), c, AssignmentBrings(a, c).value)
    ensures CellAt(ApplyAll(db, tenant, RunScript(r), clock).rows, Key(Assignments, tenant, a.id), c) == AssignmentBrings(a, c)
  {
    BroughtIsPlain(Assignments, c);
    var id := CourseIds(r.courses.items)[n];
    AssignmentSays(a, id, c);
    AssignmentIsWritten(r, n, a);
    assert SaveAssignment(a, id) in ScriptOf(AnAssignment(a, id), SelfId(r));
    hide RunScript, Delivered, ScriptOf, AssignmentPayload, AssignmentBrings, CourseIds, Listing;
    DeliveredIsInScript(r, AnAssignment(a, id), SaveAssignment(a, id));
    SaidIsStored(db, tenant, r, clock, SaveAssignment(a, id), c);
  }

  /** And its submission, unless it is somebody else's. */
  lemma SubmissionIsStored(db: Database, tenant: Tenant, r: Replies, clock: Clock, n: nat, a: AssignmentDto, s: SubmissionDto,
                           c: Column)
    requires SelfFault(r).None? && n < |CourseIds(r.courses.items)| && n < |r.assignments|
    requires Parsed(a) in r.assignments[n].items
    requires a.submission == Some(s) && (s.userId.None? || s.userId == Some(SelfId(r)))
    requires SubmissionBrings(s, SelfId(r), c).Some?
    requires Uncontradicted(tenant, RunScript(r), Key(Submissions, tenant, s.id), c, SubmissionBrings(s, SelfId(r), c).value)
    ensures CellAt(ApplyAll(db, tenant, RunScript(r), clock).rows, Key(Submissions, tenant, s.id), c)
            == SubmissionBrings(s, SelfId(r), c)
  {
    BroughtIsPlain(Submissions, c);
    var id, user := CourseIds(r.courses.items)[n], SelfId(r);
    SubmissionSays(a, s, user, a.id, c);
    StrippedBrings(a, s, user, c);
    var said := SaveSubmission(StripAssignment(a, user).submission.value, a.id);
    AssignmentIsWritten(r, n, a);
    SubmissionIsInScript(a, s, user, id);
    hide RunScript, Delivered, ScriptOf, SubmissionBrings, CourseIds, Listing, StripAssignment, CellIn;
    DeliveredIsInScript(r, AnAssignment(a, id), said);
    SaidIsStored(db, tenant, r, clock, said, c);
  }

  lemma SubmissionIsInScript(a: AssignmentDto, s: SubmissionDto, user: CanvasId, courseId: CanvasId)
    requires a.submission == Some(s) && (s.userId.None? || s.userId == Some(user))
    ensures StripAssignment(a, user).submission.Some?
    ensures SaveSubmission(StripAssignment(a, user).submission.value, a.id) in ScriptOf(AnAssignment(a, courseId), user)
  {
    hide SENSITIVE_FIELDS, SaveSubmission, SaveAssignment;
  }

  // ---- No other column ----

  predicate OnlyColumns(rows: map<Key, Row>, k: Key) {
    k in rows ==> forall c :: c in rows[k].cells ==> InTable(k.table, c) || c == DeletedAt
  }

  lemma WriteKeepsColumns(db: Database, tenant: Tenant, a: Action, clock: Clock, k: Key)
    requires OnlyColumns(db.rows, k)
    ensures OnlyColumns(Apply(db, tenant, a, clock).rows, k)
  {
    if a.Save? {
      UpsertTakesColumns(db, KeyOf(tenant, a), PayloadOf(db.rows, tenant, a));
      hide PayloadOf, Writable, InTable;
      var saved := Saved(db, tenant, a);
      assert OnlyColumns(saved.rows, k) by {
        if k == KeyOf(tenant, a) {
          forall c | c in saved.rows[k].cells ensures InTable(k.table, c) || c == DeletedAt {
            assert CellAt(saved.rows, k, c).Some?;
          }
        }
      }
      hide Upserted, Saved;
    }
  }

  lemma {:induction false} ScriptKeepsColumns(db: Database, tenant: Tenant, script: seq<Action>, clock: Clock, k: Key)
    requires OnlyColumns(db.rows, k)
    ensures OnlyColumns(ApplyAll(db, tenant, script, clock).rows, k)
  {
    hide Apply, OnlyColumns;
    if script != [] {
      var n := |script| - 1;
      ScriptKeepsColumns(db, tenant, script[..n], clock, k);
      WriteKeepsColumns(ApplyAll(db, tenant, script[..n], clock), tenant, script[n], clock, k);
    }
  }

  /** Over every history no row has another column than its table's and the soft-delete mark. */
  lemma {:induction false} HistoryKeepsColumns(db: Database, runs: seq<Run>, k: Key)
    requires OnlyColumns(db.rows, k)
    ensures OnlyColumns(Replay(db, runs).rows, k)
  {
    hide OnlyColumns, After, Succeeds, RunScript;
    if runs != [] {
      var n := |runs| - 1;
      var here, run := Replay(db, runs[..n]), runs[n];
      HistoryKeepsColumns(db, runs[..n], k);
      if Succeeds(here, run) {
        SuccessfulRunCompletes(here, run);
        ScriptKeepsColumns(here, run.tenant, RunScript(run.canvas(Watermark(here, run.tenant, SYNC_STATE_TABLE))), run.clock, k);
      } else {
        FailedRunLeavesOnlyItsMarker(here, run);
      }
    }
  }
}
