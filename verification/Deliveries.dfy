/** A run as the records Canvas delivers to it, in order, each with the writes it asks for, and the links
    that are made whatever was stored before. */
module Deliveries {
  import opened Wrappers
  import opened Tables
  import opened Replies
  import opened SyncRun
  import opened Convergence
  import opened FirstRun
  import opened FirstRunExactly
  import opened Agreement

  datatype Record =
    | TheUser(user: UserDto)
    | ACourse(course: CourseDto)             // with the enrollments embedded in it
    | AnEnrollment(enrollment: EnrollmentDto) // of the fallback endpoint
    | AnAssignment(assignment: AssignmentDto, courseId: CanvasId) // with its submission

  function ScriptOf(rec: Record, user: CanvasId): seq<Action> {
    match rec
    case TheUser(u) => [SaveUser(u)]
    case ACourse(c) => CourseScript(c, user)
    case AnEnrollment(e) => [FallbackAction(e, user)]
    case AnAssignment(a, courseId) => AssignmentScript(a, user, courseId)
  }

  function ScriptOfAll(recs: seq<Record>, user: CanvasId): seq<Action> {
    if recs == [] then [] else ScriptOfAll(recs[..|recs| - 1], user) + ScriptOf(recs[|recs| - 1], user)
  }

  function CoursesIn(items: seq<Item<CourseDto>>): seq<Record> {
    if items == [] then []
    else
      var last := items[|items| - 1];
      CoursesIn(items[..|items| - 1]) + if last.Parsed? then [ACourse(last.dto)] else []
  }

  function EnrollmentsIn(items: seq<Item<EnrollmentDto>>): seq<Record> {
    if items == [] then []
    else
      var last := items[|items| - 1];
      EnrollmentsIn(items[..|items| - 1]) + if last.Parsed? then [AnEnrollment(last.dto)] else []
  }

  function AssignmentsIn(items: seq<Item<AssignmentDto>>, courseId: CanvasId): seq<Record> {
    if items == [] then []
    else
      var last := items[|items| - 1];
      AssignmentsIn(items[..|items| - 1], courseId) + if last.Parsed? then [AnAssignment(last.dto, courseId)] else []
  }

  function ListingsIn(r: Replies, courseIds: seq<CanvasId>): seq<Record> {
    if courseIds == [] then []
    else
      var n := |courseIds| - 1;
      ListingsIn(r, courseIds[..n]) + AssignmentsIn(Listing(r, n).items, courseIds[n])
  }

  /** Everything a run that does not stop early reads and handles, in order. */
  function Delivered(r: Replies): seq<Record>
    requires SelfFault(r).None?
  {
    [TheUser(r.self.value.dto)]
      + CoursesIn(r.courses.items)
      + (if UsesFallback(r) then EnrollmentsIn(r.enrollments.items) else [])
      + ListingsIn(r, CourseIds(r.courses.items))
  }

  // ---- The script of a run is that of its deliveries ----

  lemma {:induction false} ScriptsAppend(a: seq<Record>, b: seq<Record>, user: CanvasId)
    ensures ScriptOfAll(a + b, user) == ScriptOfAll(a, user) + ScriptOfAll(b, user)
  {
    hide ScriptOf;
    if b == [] {
      assert a + b == a;
    } else {
      var n := |b| - 1;
      assert (a + b)[..|a + b| - 1] == a + b[..n];
      ScriptsAppend(a, b[..n], user);
    }
  }

  lemma ScriptOfOne(rec: Record, user: CanvasId)
    ensures ScriptOfAll([rec], user) == ScriptOf(rec, user)
  {
    hide ScriptOf;
    assert [rec][..0] == [] && ScriptOfAll([], user) == [];
  }

  lemma {:induction false} CoursesScripts(items: seq<Item<CourseDto>>, user: CanvasId)
    ensures ScriptOfAll(CoursesIn(items), user) == CoursesScript(items, user)
  {
    if items != [] {
      var n := |items| - 1;
      CoursesScripts(items[..n], user);
      if items[n].Parsed? {
        ScriptsAppend(CoursesIn(items[..n]), [ACourse(items[n].dto)], user);
        ScriptOfOne(ACourse(items[n].dto), user);
      } else {
        assert CoursesIn(items) == CoursesIn(items[..n]);
      }
    }
  }

  lemma {:induction false} EnrollmentsScripts(items: seq<Item<EnrollmentDto>>, user: CanvasId)
    ensures ScriptOfAll(EnrollmentsIn(items), user) == FallbackScript(items, user)
  {
    hide FallbackAction;
    if items != [] {
      var n := |items| - 1;
      EnrollmentsScripts(items[..n], user);
      if items[n].Parsed? {
        ScriptsAppend(EnrollmentsIn(items[..n]), [AnEnrollment(items[n].dto)], user);
        ScriptOfOne(AnEnrollment(items[n].dto), user);
      } else {
        assert EnrollmentsIn(items) == EnrollmentsIn(items[..n]);
      }
    }
  }

  lemma {:induction false} AssignmentsScripts(items: seq<Item<AssignmentDto>>, user: CanvasId, courseId: CanvasId)
    ensures ScriptOfAll(AssignmentsIn(items, courseId), user) == AssignmentsScript(items, user, courseId)
  {
    hide AssignmentScript;
    if items != [] {
      var n := |items| - 1;
      AssignmentsScripts(items[..n], user, courseId);
      if items[n].Parsed? {
        ScriptsAppend(AssignmentsIn(items[..n], courseId), [AnAssignment(items[n].dto, courseId)], user);
        ScriptOfOne(AnAssignment(items[n].dto, courseId), user);
      } else {
        assert AssignmentsIn(items, courseId) == AssignmentsIn(items[..n], courseId);
      }
    }
  }

  lemma {:induction false} ListingsScripts(r: Replies, user: CanvasId, courseIds: seq<CanvasId>)
    ensures ScriptOfAll(ListingsIn(r, courseIds), user) == ListingsScript(r, user, courseIds)
  {
    if courseIds != [] {
      var n := |courseIds| - 1;
      ListingsScripts(r, user, courseIds[..n]);
      AssignmentsScripts(Listing(r, n).items, user, courseIds[n]);
      ScriptsAppend(ListingsIn(r, courseIds[..n]), AssignmentsIn(Listing(r, n).items, courseIds[n]), user);
    }
  }

  lemma RunScriptIsDelivered(r: Replies)
    requires SelfFault(r).None?
    ensures RunScript(r) == ScriptOfAll(Delivered(r), SelfId(r))
  {
    var user := SelfId(r);
    var a, b := [TheUser(r.self.value.dto)], CoursesIn(r.courses.items);
    var c := if UsesFallback(r) then EnrollmentsIn(r.enrollments.items) else [];
    var d := ListingsIn(r, CourseIds(r.courses.items));
    ScriptOfOne(TheUser(r.self.value.dto), user);
    CoursesScripts(r.courses.items, user);
    EnrollmentsScripts(r.enrollments.items, user);
    ListingsScripts(r, user, CourseIds(r.courses.items));
    assert ScriptOfAll([], user) == [];
    hide ScriptOfAll, CoursesScript, FallbackScript, ListingsScript, SaveUser, UsesFallback;
    ScriptsAppend(a, b, user);
    ScriptsAppend(a + b, c, user);
    ScriptsAppend(a + b + c, d, user);
  }

  // ---- What is stored when a record is handled ----

  function UserKey(tenant: Tenant, user: CanvasId): Key {
    Key(Users, tenant, user)
  }

  function CourseKeys(tenant: Tenant, ids: seq<CanvasId>): set<Key> {
    set id | id in ids :: Key(Courses, tenant, id)
  }

  /** The records stored around one: the user, and for all but the courses every course of the answers. */
  function Around(tenant: Tenant, user: CanvasId, ids: seq<CanvasId>, rec: Record): set<Key> {
    match rec
    case TheUser(_) => {}
    case ACourse(_) => {UserKey(tenant, user)}
    case _ => {UserKey(tenant, user)} + CourseKeys(tenant, ids)
  }

  /** The records the links of one may count on: those around it, and itself for the ones it embeds. */
  function Promised(tenant: Tenant, user: CanvasId, ids: seq<CanvasId>, rec: Record): set<Key> {
    match rec
    case ACourse(c) => Around(tenant, user, ids, rec) + {Key(Courses, tenant, c.id)}
    case AnAssignment(a, _) => Around(tenant, user, ids, rec) + {Key(Assignments, tenant, a.id)}
    case _ => Around(tenant, user, ids, rec)
  }

  /** Each record is handled after the records around it. */
  ghost predicate InOrder(stored: set<Key>, tenant: Tenant, user: CanvasId, ids: seq<CanvasId>, recs: seq<Record>) {
    recs != [] ==>
      var n := |recs| - 1;
      && InOrder(stored, tenant, user, ids, recs[..n])
      && Around(tenant, user, ids, recs[n]) <= stored + SavedKeys(tenant, ScriptOfAll(recs[..n], user))
  }

  lemma {:induction false} InOrderAppend(stored: set<Key>, tenant: Tenant, user: CanvasId, ids: seq<CanvasId>,
                                         a: seq<Record>, b: seq<Record>)
    requires InOrder(stored, tenant, user, ids, a)
    requires InOrder(stored + SavedKeys(tenant, ScriptOfAll(a, user)), tenant, user, ids, b)
    ensures InOrder(stored, tenant, user, ids, a + b)
  {
    hide ScriptOf, Around, ScriptOfAll;
    if b == [] {
      assert a + b == a;
    } else {
      var n := |b| - 1;
      assert (a + b)[..|a + b| - 1] == a + b[..n];
      InOrderAppend(stored, tenant, user, ids, a, b[..n]);
      ScriptsAppend(a, b[..n], user);
      SavedKeysAppend(tenant, ScriptOfAll(a, user), ScriptOfAll(b[..n], user));
    }
  }

  /** Records around which everything is stored are in any order. */
  lemma {:induction false} AllStoredInOrder(stored: set<Key>, tenant: Tenant, user: CanvasId, ids: seq<CanvasId>, recs: seq<Record>)
    requires forall rec <- recs :: Around(tenant, user, ids, rec) <= stored
    ensures InOrder(stored, tenant, user, ids, recs)
  {
    hide ScriptOfAll, Around;
    if recs != [] {
      var n := |recs| - 1;
      assert forall rec <- recs[..n] :: rec in recs;
      AllStoredInOrder(stored, tenant, user, ids, recs[..n]);
      assert recs[n] in recs;
    }
  }

  lemma {:induction false} CoursesAreCourses(items: seq<Item<CourseDto>>)
    ensures forall rec <- CoursesIn(items) :: rec.ACourse?
    ensures forall id :: id in CourseIds(items) ==> exists rec :: rec in CoursesIn(items) && rec.ACourse? && rec.course.id == id
  {
    if items != [] {
      var n := |items| - 1;
      CoursesAreCourses(items[..n]);
      if items[n].Parsed? {
        assert ACourse(items[n].dto) in CoursesIn(items);
      }
      forall id | id in CourseIds(items[..n]) ensures exists rec :: rec in CoursesIn(items) && rec.ACourse? && rec.course.id == id {
        var rec :| rec in CoursesIn(items[..n]) && rec.ACourse? && rec.course.id == id;
        assert rec in CoursesIn(items);
      }
    }
  }

  lemma {:induction false} EnrollmentsAreEnrollments(items: seq<Item<EnrollmentDto>>)
    ensures forall rec <- EnrollmentsIn(items) :: rec.AnEnrollment?
  {
    if items != [] { EnrollmentsAreEnrollments(items[..|items| - 1]); }
  }

  lemma {:induction false} AssignmentsAreOfCourse(items: seq<Item<AssignmentDto>>, courseId: CanvasId)
    ensures forall rec <- AssignmentsIn(items, courseId) :: rec.AnAssignment? && rec.courseId == courseId
  {
    if items != [] { AssignmentsAreOfCourse(items[..|items| - 1], courseId); }
  }

  lemma {:induction false} ListingsAreOfCourses(r: Replies, courseIds: seq<CanvasId>)
    ensures forall rec <- ListingsIn(r, courseIds) :: rec.AnAssignment? && rec.courseId in courseIds
  {
    if courseIds != [] {
      var n := |courseIds| - 1;
      ListingsAreOfCourses(r, courseIds[..n]);
      AssignmentsAreOfCourse(Listing(r, n).items, courseIds[n]);
    }
  }

  lemma {:induction false} SavedByRecord(tenant: Tenant, user: CanvasId, recs: seq<Record>, rec: Record, a: Action)
    requires rec in recs && a in ScriptOf(rec, user) && a.Save?
    ensures KeyOf(tenant, a) in SavedKeys(tenant, ScriptOfAll(recs, user))
  {
    hide ScriptOf;
    var n := |recs| - 1;
    SavedKeysAppend(tenant, ScriptOfAll(recs[..n], user), ScriptOf(recs[n], user));
    if recs[n] == rec {
      SavedByScript(tenant, ScriptOf(rec, user), a);
    } else {
      SavedByRecord(tenant, user, recs[..n], rec, a);
    }
  }

  lemma {:induction false} SavedByScript(tenant: Tenant, script: seq<Action>, a: Action)
    requires a in script && a.Save?
    ensures KeyOf(tenant, a) in SavedKeys(tenant, script)
  {
    var n := |script| - 1;
    if script[n] != a {
      SavedByScript(tenant, script[..n], a);
    }
  }

  lemma CourseIsSaved(tenant: Tenant, r: Replies, user: CanvasId, id: CanvasId)
    requires id in CourseIds(r.courses.items)
    ensures Key(Courses, tenant, id) in SavedKeys(tenant, ScriptOfAll(CoursesIn(r.courses.items), user))
  {
    hide CoursesIn, CourseIds, SavedKeys, ScriptOfAll;
    CoursesAreCourses(r.courses.items);
    var rec :| rec in CoursesIn(r.courses.items) && rec.ACourse? && rec.course.id == id;
    var a := SaveCourse(rec.course);
    assert ScriptOf(rec, user)[0] == a;
    SavedByRecord(tenant, user, CoursesIn(r.courses.items), rec, a);
  }

  /** What is stored after a part of the deliveries. */
  function StoredAfter(stored: set<Key>, tenant: Tenant, user: CanvasId, recs: seq<Record>): set<Key> {
    stored + SavedKeys(tenant, ScriptOfAll(recs, user))
  }

  lemma PartInOrder(stored: set<Key>, tenant: Tenant, user: CanvasId, ids: seq<CanvasId>, before: seq<Record>, part: seq<Record>)
    requires InOrder(stored, tenant, user, ids, before)
    requires forall rec <- part :: Around(tenant, user, ids, rec) <= StoredAfter(stored, tenant, user, before)
    ensures InOrder(stored, tenant, user, ids, before + part)
    ensures StoredAfter(stored, tenant, user, before + part)
            == StoredAfter(stored, tenant, user, before) + SavedKeys(tenant, ScriptOfAll(part, user))
  {
    hide ScriptOfAll, SavedKeys, InOrder, Around;
    AllStoredInOrder(StoredAfter(stored, tenant, user, before), tenant, user, ids, part);
    InOrderAppend(stored, tenant, user, ids, before, part);
    ScriptsAppend(before, part, user);
    SavedKeysAppend(tenant, ScriptOfAll(before, user), ScriptOfAll(part, user));
  }

  lemma UserIsSaved(tenant: Tenant, r: Replies)
    requires SelfFault(r).None?
    ensures var a := [TheUser(r.self.value.dto)];
      UserKey(tenant, SelfId(r)) in SavedKeys(tenant, ScriptOfAll(a, SelfId(r)))
  {
    var rec := TheUser(r.self.value.dto);
    assert ScriptOf(rec, SelfId(r))[0] == SaveUser(r.self.value.dto);
    SavedByRecord(tenant, SelfId(r), [rec], rec, SaveUser(r.self.value.dto));
  }

  /** The user and the courses, and what is stored after them. */
  lemma CoursesInOrder(stored: set<Key>, tenant: Tenant, r: Replies)
    requires SelfFault(r).None?
    ensures var user, ids, recs := SelfId(r), CourseIds(r.courses.items), [TheUser(r.self.value.dto)] + CoursesIn(r.courses.items);
      && InOrder(stored, tenant, user, ids, recs)
      && {UserKey(tenant, user)} + CourseKeys(tenant, ids) <= StoredAfter(stored, tenant, user, recs)
  {
    var user, ids := SelfId(r), CourseIds(r.courses.items);
    var a, b := [TheUser(r.self.value.dto)], CoursesIn(r.courses.items);
    UserIsSaved(tenant, r);
    CoursesAreCourses(r.courses.items);
    assert Around(tenant, user, ids, a[0]) == {};
    forall rec <- b ensures Around(tenant, user, ids, rec) == {UserKey(tenant, user)} {}
    hide ScriptOfAll, SavedKeys, InOrder, CoursesIn, CourseIds, Around, StoredAfter, SelfFault, SelfId;
    NothingYet(stored, tenant, user, ids);
    PartInOrder(stored, tenant, user, ids, [], a);
    assert [] + a == a;
    PartInOrder(stored, tenant, user, ids, a, b);
    forall id <- ids ensures Key(Courses, tenant, id) in StoredAfter(stored, tenant, user, a + b) {
      CourseIsSaved(tenant, r, user, id);
    }
  }

  lemma DeliveredInOrder(stored: set<Key>, tenant: Tenant, r: Replies)
    requires SelfFault(r).None?
    ensures InOrder(stored, tenant, SelfId(r), CourseIds(r.courses.items), Delivered(r))
  {
    var user, ids := SelfId(r), CourseIds(r.courses.items);
    var b := [TheUser(r.self.value.dto)] + CoursesIn(r.courses.items);
    var c := if UsesFallback(r) then EnrollmentsIn(r.enrollments.items) else [];
    var d := ListingsIn(r, ids);
    CoursesInOrder(stored, tenant, r);
    EnrollmentsAreEnrollments(r.enrollments.items);
    ListingsAreOfCourses(r, ids);
    assert Delivered(r) == b + c + d;
    forall rec <- c + d ensures Around(tenant, user, ids, rec) == {UserKey(tenant, user)} + CourseKeys(tenant, ids) {}
    hide ScriptOfAll, SavedKeys, InOrder, CoursesIn, EnrollmentsIn, ListingsIn, CourseIds, UsesFallback, Around, StoredAfter,
         SelfFault, SelfId, Delivered;
    assert forall rec <- c :: rec in c + d;
    PartInOrder(stored, tenant, user, ids, b, c);
    assert forall rec <- d :: rec in c + d;
    PartInOrder(stored, tenant, user, ids, b + c, d);
  }

  lemma NothingYet(stored: set<Key>, tenant: Tenant, user: CanvasId, ids: seq<CanvasId>)
    ensures InOrder(stored, tenant, user, ids, []) && StoredAfter(stored, tenant, user, []) == stored
  {
    assert ScriptOfAll([], user) == [] && SavedKeys(tenant, []) == {};
  }

  // ---- Which links a run always makes ----

  /** In the script of a record every link it may count on is stored when its turn comes. */
  lemma RecordMakesLinks(stored: set<Key>, tenant: Tenant, user: CanvasId, ids: seq<CanvasId>, rec: Record, a: Action, c: Column)
    requires Around(tenant, user, ids, rec) <= stored && a in ScriptOf(rec, user) && a.Save?
    requires NamesStored(Promised(tenant, user, ids, rec), tenant, a, c)
    ensures LinkMade(stored, tenant, ScriptOf(rec, user), KeyOf(tenant, a), c)
  {
    var script := ScriptOf(rec, user);
    var j :| 0 <= j < |script| && script[j] == a;
    if rec.ACourse? || rec.AnAssignment? {
      if j > 0 {
        FirstIsSaved(tenant, script, j);
      } else if rec.AnAssignment? {
        AssignmentNamesCourse(tenant, rec.assignment, rec.courseId, c);
      }
    }
    hide ScriptOf, Around, SavedKeys, TargetOf;
    assert MadeAt(stored, tenant, script, j, KeyOf(tenant, a), c);
  }

  lemma FirstIsSaved(tenant: Tenant, script: seq<Action>, j: nat)
    requires 0 < j <= |script| && script[0].Save?
    ensures KeyOf(tenant, script[0]) in SavedKeys(tenant, script[..j])
  {
    assert script[..j][0] == script[0];
    SavedByScript(tenant, script[..j], script[0]);
  }

  lemma AssignmentNamesCourse(tenant: Tenant, a: AssignmentDto, courseId: CanvasId, c: Column)
    ensures var t := TargetOf(tenant, SaveAssignment(a, courseId).links, c);
      t.Some? ==> t.value == Key(Courses, tenant, courseId)
  {
    var links := SaveAssignment(a, courseId).links;
    assert links[1..] == [] && TargetOf(tenant, [], c).None?;
  }

  lemma {:induction false} PromisedLinksAreMade(stored: set<Key>, tenant: Tenant, user: CanvasId, ids: seq<CanvasId>,
                                                recs: seq<Record>, rec: Record, a: Action, c: Column)
    requires InOrder(stored, tenant, user, ids, recs) && rec in recs && a in ScriptOf(rec, user) && a.Save?
    requires NamesStored(Promised(tenant, user, ids, rec), tenant, a, c)
    ensures LinkMade(stored, tenant, ScriptOfAll(recs, user), KeyOf(tenant, a), c)
  {
    hide ScriptOf, Around, Promised, NamesStored, LinkMade;
    var n := |recs| - 1;
    var before := ScriptOfAll(recs[..n], user);
    if recs[n] == rec {
      RecordMakesLinks(stored + SavedKeys(tenant, before), tenant, user, ids, rec, a, c);
      MadeInSecond(stored, tenant, before, ScriptOf(rec, user), KeyOf(tenant, a), c);
    } else {
      PromisedLinksAreMade(stored, tenant, user, ids, recs[..n], rec, a, c);
      MadeInFirst(stored, tenant, before, ScriptOf(recs[n], user), KeyOf(tenant, a), c);
    }
  }

  /** Whatever was stored before, a run links what it saves to the user, an enrollment of the fallback and
      an assignment to any course of the answers, and an embedded record to the one it is embedded in,
      wherever it names them. */
  lemma RunMakesLinks(stored: set<Key>, tenant: Tenant, r: Replies, rec: Record, a: Action, c: Column)
    requires SelfFault(r).None? && rec in Delivered(r) && a in ScriptOf(rec, SelfId(r)) && a.Save?
    requires NamesStored(Promised(tenant, SelfId(r), CourseIds(r.courses.items), rec), tenant, a, c)
    ensures LinkMade(stored, tenant, RunScript(r), KeyOf(tenant, a), c)
  {
    hide ScriptOf, ScriptOfAll, Promised, NamesStored, LinkMade, Delivered, RunScript, SelfId, SelfFault, CourseIds, InOrder;
    RunScriptIsDelivered(r);
    DeliveredInOrder(stored, tenant, r);
    PromisedLinksAreMade(stored, tenant, SelfId(r), CourseIds(r.courses.items), Delivered(r), rec, a, c);
  }

  // ---- What a run does not read ----

  lemma {:induction false} SavedIsOfRecord(recs: seq<Record>, user: CanvasId, a: Action) returns (rec: Record)
    requires a in ScriptOfAll(recs, user)
    ensures rec in recs && a in ScriptOf(rec, user)
  {
    hide ScriptOf;
    var n := |recs| - 1;
    if a in ScriptOf(recs[n], user) {
      rec := recs[n];
    } else {
      rec := SavedIsOfRecord(recs[..n], user, a);
    }
  }

  lemma AssignmentsOfRecord(rec: Record, user: CanvasId, a: Action)
    requires a in ScriptOf(rec, user) && a.Save? && a.table == Assignments
    ensures rec.AnAssignment? && a == SaveAssignment(rec.assignment, rec.courseId)
  {}

  /** Only assignments of the courses in the answers are saved, each under its course. */
  lemma AssignmentIsOfListedCourse(r: Replies, a: Action) returns (id: CanvasId)
    requires SelfFault(r).None? && a in RunScript(r) && a.Save? && a.table == Assignments
    ensures id in CourseIds(r.courses.items) && a.links == [Link(CourseId, Courses, Some(id))]
  {
    var ids := CourseIds(r.courses.items);
    RunScriptIsDelivered(r);
    CoursesAreCourses(r.courses.items);
    EnrollmentsAreEnrollments(r.enrollments.items);
    ListingsAreOfCourses(r, ids);
    hide ScriptOf, ScriptOfAll, RunScript, CoursesIn, EnrollmentsIn, ListingsIn, CourseIds;
    var rec := SavedIsOfRecord(Delivered(r), SelfId(r), a);
    AssignmentsOfRecord(rec, SelfId(r), a);
    id := rec.courseId;
  }
}
