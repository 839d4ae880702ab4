/** When the first run already reaches the state all later ones keep: every record it names by a
    nested id is stored when it is named, or is never stored at all. */
module FirstRun {
  import opened Wrappers
  import opened Tables
  import opened Replies
  import opened SyncRun
  import opened Referential
  import opened Convergence

  function LinkKey(tenant: Tenant, link: Link): Key
    requires link.canvasId.Some?
  {
    Key(link.table, tenant, link.canvasId.value)
  }

  /** A link is settled where the keys `known` are stored and those of `final` will be. */
  predicate NameSettled(known: set<Key>, final: set<Key>, tenant: Tenant, link: Link) {
    link.canvasId.Some? ==> LinkKey(tenant, link) in known || LinkKey(tenant, link) !in final
  }

  predicate LinksSettled(known: set<Key>, final: set<Key>, tenant: Tenant, links: seq<Link>) {
    forall i :: 0 <= i < |links| ==> NameSettled(known, final, tenant, links[i])
  }

  /** Every link of the script is settled when its turn comes. */
  ghost predicate NamesSettled(known: set<Key>, final: set<Key>, tenant: Tenant, script: seq<Action>) {
    script != [] ==>
      var n := |script| - 1;
      && NamesSettled(known, final, tenant, script[..n])
      && (script[n].Save? ==>
            LinksSettled(known + SavedKeys(tenant, script[..n]), final, tenant, script[n].links))
  }

  predicate Extends(rows: map<Key, Row>, rows': map<Key, Row>) {
    forall k :: k in rows ==> k in rows' && rows'[k].id == rows[k].id
  }

  lemma {:induction false} NamesSettle(db: Database, tenant: Tenant, script: seq<Action>, clock: Clock, final: map<Key, Row>)
    requires NamesSettled(db.rows.Keys, final.Keys, tenant, script)
    requires Extends(ApplyAll(db, tenant, script, clock).rows, final)
    ensures Settled(db, tenant, script, clock, final)
  {
    hide Apply;
    if script != [] {
      var n := |script| - 1;
      var here := ApplyAll(db, tenant, script[..n], clock);
      if script[n].Save? {
        ApplyRows(here, tenant, script[n], clock);
      } else {
        DropChangesNothing(here, tenant, clock);
      }
      NamesSettle(db, tenant, script[..n], clock, final);
      ApplyAllKeys(db, tenant, script[..n], clock);
    }
  }

  /** A first run with settled names is already a fixed point. */
  lemma SettledFirstRunIsFinal(db: Database, tenant: Tenant, r: Replies, c1: Clock, c2: Clock)
    requires SelfFault(r).None?
    requires NamesSettled(db.rows.Keys, db.rows.Keys + SavedKeys(tenant, RunScript(r)), tenant, RunScript(r))
    ensures var first := ApplyAll(db, tenant, RunScript(r), c1);
            ApplyAll(first, tenant, RunScript(r), c2) == first
  {
    hide RunScript, ApplyAll, AllWellFormed, NamesSettled, Settled, SelfFault;
    var script := RunScript(r);
    var first := ApplyAll(db, tenant, script, c1);
    RunScriptWellFormed(r);
    ApplyAllKeys(db, tenant, script, c1);
    NamesSettle(db, tenant, script, c1, first.rows);
    AppliedAgain(db, tenant, script, c1, c2);
  }

  // ---- The condition on the answers ----

  /** A nested id that is absent, names the enclosing record, or names a stored one. */
  predicate PlainId(stored: set<Key>, table: Table, tenant: Tenant, nested: Option<CanvasId>, parent: CanvasId) {
    var id := OrElse(nested, Some(parent)).value;
    id == parent || Key(table, tenant, id) in stored
  }

  predicate PlainCourse(stored: set<Key>, tenant: Tenant, item: Item<CourseDto>) {
    item.Parsed? ==>
      forall e :: e in item.dto.enrollments ==> PlainId(stored, Courses, tenant, e.courseId, item.dto.id)
  }

  predicate PlainAssignment(stored: set<Key>, tenant: Tenant, item: Item<AssignmentDto>) {
    item.Parsed? && item.dto.submission.Some? ==>
      PlainId(stored, Assignments, tenant, item.dto.submission.value.assignmentId, item.dto.id)
  }

  /** Each nested course id and assignment id of the answers is plain for what is stored. */
  predicate PlainAnswers(stored: set<Key>, tenant: Tenant, r: Replies) {
    && (forall i :: 0 <= i < |r.courses.items| ==> PlainCourse(stored, tenant, r.courses.items[i]))
    && (forall n, i :: 0 <= n < |r.assignments| && 0 <= i < |r.assignments[n].items| ==>
          PlainAssignment(stored, tenant, r.assignments[n].items[i]))
  }

  lemma {:induction false} SavedKeysAppend(tenant: Tenant, a: seq<Action>, b: seq<Action>)
    ensures SavedKeys(tenant, a + b) == SavedKeys(tenant, a) + SavedKeys(tenant, b)
  {
    if b == [] {
      assert a + b == a;
    } else {
      assert (a + b)[..|a + b| - 1] == a + b[..|b| - 1];
      SavedKeysAppend(tenant, a, b[..|b| - 1]);
    }
  }

  lemma {:induction false} NamesAppend(known: set<Key>, final: set<Key>, tenant: Tenant, a: seq<Action>, b: seq<Action>)
    requires NamesSettled(known, final, tenant, a)
    requires NamesSettled(known + SavedKeys(tenant, a), final, tenant, b)
    ensures NamesSettled(known, final, tenant, a + b)
  {
    hide LinksSettled;
    if b == [] {
      assert a + b == a;
    } else {
      var n := |b| - 1;
      assert (a + b)[..|a + b| - 1] == a + b[..n];
      NamesAppend(known, final, tenant, a, b[..n]);
      SavedKeysAppend(tenant, a, b[..n]);
      assert known + SavedKeys(tenant, a) + SavedKeys(tenant, b[..n]) == known + (SavedKeys(tenant, a + b[..n]));
    }
  }

  lemma OneName(known: set<Key>, final: set<Key>, tenant: Tenant, a: Action)
    requires a.Save? ==> LinksSettled(known, final, tenant, a.links)
    ensures NamesSettled(known, final, tenant, [a])
    ensures SavedKeys(tenant, [a]) == if a.Save? then {KeyOf(tenant, a)} else {}
  {
    assert [a][..0] == [];
    assert SavedKeys(tenant, []) == {};
    assert known + {} == known;
  }

  lemma {:induction false} EmbeddedNames(known: set<Key>, final: set<Key>, stored: set<Key>, tenant: Tenant,
                                         es: seq<EnrollmentDto>, user: CanvasId, courseId: CanvasId)
    requires stored <= known && Key(Users, tenant, user) in known && Key(Courses, tenant, courseId) in known
    requires forall e :: e in es ==> PlainId(stored, Courses, tenant, e.courseId, courseId)
    ensures NamesSettled(known, final, tenant, EmbeddedScript(es, user, courseId))
  {
    if es != [] {
      var n := |es| - 1;
      EmbeddedNames(known, final, stored, tenant, es[..n], user, courseId);
      var script := EmbeddedScript(es, user, courseId);
      assert script[..n] == EmbeddedScript(es[..n], user, courseId);
      if script[n].Save? {
        assert PlainId(stored, Courses, tenant, es[n].courseId, courseId);
      }
    }
  }

  lemma {:induction false} StrippedAreGiven(es: seq<EnrollmentDto>, user: CanvasId)
    ensures forall e :: e in StripEnrollments(es, user) ==> e in es
  {
    if es != [] {
      StrippedAreGiven(es[..|es| - 1], user);
    }
  }

  lemma {:induction false} CoursesNames(known: set<Key>, final: set<Key>, stored: set<Key>, tenant: Tenant,
                                        items: seq<Item<CourseDto>>, user: CanvasId)
    requires stored <= known && Key(Users, tenant, user) in known
    requires forall i :: 0 <= i < |items| ==> PlainCourse(stored, tenant, items[i])
    ensures NamesSettled(known, final, tenant, CoursesScript(items, user))
    ensures forall id :: id in CourseIds(items) ==>
      Key(Courses, tenant, id) in SavedKeys(tenant, CoursesScript(items, user))
  {
    hide EmbeddedScript;
    if items != [] {
      var n := |items| - 1;
      CoursesNames(known, final, stored, tenant, items[..n], user);
      if items[n].Parsed? {
        var c := items[n].dto;
        var before := CoursesScript(items[..n], user);
        var here := known + SavedKeys(tenant, before);
        var embedded := EmbeddedScript(StripCourse(c, user).enrollments, user, c.id);
        OneName(here, final, tenant, SaveCourse(c));
        StrippedAreGiven(c.enrollments, user);
        assert PlainCourse(stored, tenant, items[n]);
        EmbeddedNames(here + SavedKeys(tenant, [SaveCourse(c)]), final, stored, tenant,
                      StripCourse(c, user).enrollments, user, c.id);
        NamesAppend(here, final, tenant, [SaveCourse(c)], embedded);
        NamesAppend(known, final, tenant, before, CourseScript(c, user));
        SavedKeysAppend(tenant, before, CourseScript(c, user));
        SavedKeysAppend(tenant, [SaveCourse(c)], embedded);
      } else {
        assert CoursesScript(items, user) == CoursesScript(items[..n], user);
      }
    }
  }

  lemma {:induction false} FallbackNames(known: set<Key>, final: set<Key>, tenant: Tenant,
                                         items: seq<Item<EnrollmentDto>>, user: CanvasId)
    requires Key(Users, tenant, user) in known
    requires forall k :: k in final && k.table.Courses? ==> k in known
    ensures NamesSettled(known, final, tenant, FallbackScript(items, user))
  {
    if items != [] {
      var n := |items| - 1;
      FallbackNames(known, final, tenant, items[..n], user);
      if items[n].Parsed? {
        var before := FallbackScript(items[..n], user);
        OneName(known + SavedKeys(tenant, before), final, tenant, FallbackAction(items[n].dto, user));
        NamesAppend(known, final, tenant, before, [FallbackAction(items[n].dto, user)]);
      } else {
        assert FallbackScript(items, user) == FallbackScript(items[..n], user);
      }
    }
  }

  lemma AssignmentNames(known: set<Key>, final: set<Key>, stored: set<Key>, tenant: Tenant,
                        item: Item<AssignmentDto>, user: CanvasId, courseId: CanvasId)
    requires item.Parsed? && PlainAssignment(stored, tenant, item)
    requires stored <= known && Key(Users, tenant, user) in known && Key(Courses, tenant, courseId) in known
    ensures NamesSettled(known, final, tenant, AssignmentScript(item.dto, user, courseId))
  {
    hide NamesSettled, SavedKeys;
    var a := item.dto;
    OneName(known, final, tenant, SaveAssignment(a, courseId));
    var here := known + SavedKeys(tenant, [SaveAssignment(a, courseId)]);
    var rest := SubmissionScript(a, user);
    if rest == [] {
      NoNames(here, final, tenant);
    } else {
      OneName(here, final, tenant, rest[0]);
      assert rest == [rest[0]];
    }
    NamesAppend(known, final, tenant, [SaveAssignment(a, courseId)], rest);
  }

  lemma NoNames(known: set<Key>, final: set<Key>, tenant: Tenant)
    ensures NamesSettled(known, final, tenant, [])
  {}

  lemma {:induction false} AssignmentsNames(known: set<Key>, final: set<Key>, stored: set<Key>, tenant: Tenant,
                                            items: seq<Item<AssignmentDto>>, user: CanvasId, courseId: CanvasId)
    requires stored <= known && Key(Users, tenant, user) in known && Key(Courses, tenant, courseId) in known
    requires forall i :: 0 <= i < |items| ==> PlainAssignment(stored, tenant, items[i])
    ensures NamesSettled(known, final, tenant, AssignmentsScript(items, user, courseId))
  {
    hide AssignmentScript, PlainAssignment;
    if items != [] {
      var n := |items| - 1;
      AssignmentsNames(known, final, stored, tenant, items[..n], user, courseId);
      if items[n].Parsed? {
        var before := AssignmentsScript(items[..n], user, courseId);
        AssignmentNames(known + SavedKeys(tenant, before), final, stored, tenant, items[n], user, courseId);
        NamesAppend(known, final, tenant, before, AssignmentScript(items[n].dto, user, courseId));
      } else {
        assert AssignmentsScript(items, user, courseId) == AssignmentsScript(items[..n], user, courseId);
      }
    }
  }

  lemma {:induction false} ListingsNames(known: set<Key>, final: set<Key>, stored: set<Key>, tenant: Tenant,
                                         r: Replies, user: CanvasId, courseIds: seq<CanvasId>)
    requires stored <= known && Key(Users, tenant, user) in known
    requires forall id :: id in courseIds ==> Key(Courses, tenant, id) in known
    requires PlainAnswers(stored, tenant, r)
    ensures NamesSettled(known, final, tenant, ListingsScript(r, user, courseIds))
  {
    hide AssignmentsScript, PlainAssignment, PlainCourse;
    if courseIds != [] {
      var n := |courseIds| - 1;
      ListingsNames(known, final, stored, tenant, r, user, courseIds[..n]);
      var before := ListingsScript(r, user, courseIds[..n]);
      AssignmentsNames(known + SavedKeys(tenant, before), final, stored, tenant, Listing(r, n).items, user, courseIds[n]);
      NamesAppend(known, final, tenant, before, AssignmentsScript(Listing(r, n).items, user, courseIds[n]));
    }
  }

  /** Only the favourites listing creates courses. */
  predicate SavesNoCourse(script: seq<Action>) {
    forall i :: 0 <= i < |script| && script[i].Save? ==> !script[i].table.Courses?
  }

  lemma {:induction false} NoCourseKeys(tenant: Tenant, script: seq<Action>)
    requires SavesNoCourse(script)
    ensures forall k :: k in SavedKeys(tenant, script) ==> !k.table.Courses?
  {
    if script != [] {
      NoCourseKeys(tenant, script[..|script| - 1]);
    }
  }

  lemma {:induction false} ListingsSaveNoCourse(r: Replies, user: CanvasId, courseIds: seq<CanvasId>)
    ensures SavesNoCourse(ListingsScript(r, user, courseIds))
  {
    if courseIds != [] {
      var n := |courseIds| - 1;
      ListingsSaveNoCourse(r, user, courseIds[..n]);
      AssignmentsSaveNoCourse(Listing(r, n).items, user, courseIds[n]);
    }
  }

  lemma {:induction false} AssignmentsSaveNoCourse(items: seq<Item<AssignmentDto>>, user: CanvasId, courseId: CanvasId)
    ensures SavesNoCourse(AssignmentsScript(items, user, courseId))
  {
    if items != [] {
      AssignmentsSaveNoCourse(items[..|items| - 1], user, courseId);
    }
  }

  lemma {:induction false} FallbackSavesNoCourse(items: seq<Item<EnrollmentDto>>, user: CanvasId)
    ensures SavesNoCourse(FallbackScript(items, user))
  {
    if items != [] {
      FallbackSavesNoCourse(items[..|items| - 1], user);
    }
  }

  /** Plain answers settle every name of the whole run. */
  lemma PlainAnswersSettle(stored: set<Key>, tenant: Tenant, r: Replies)
    requires SelfFault(r).None? && PlainAnswers(stored, tenant, r)
    ensures NamesSettled(stored, stored + SavedKeys(tenant, RunScript(r)), tenant, RunScript(r))
  {
    hide NamesSettled, SavedKeys, CoursesScript, FallbackScript, ListingsScript, CourseIds, PlainCourse,
         PlainAssignment, EmbeddedTotal;
    var user := SelfId(r);
    var s0 := [SaveUser(r.self.value.dto)];
    var s1 := CoursesScript(r.courses.items, user);
    var s2 := EnrollmentsScript(r);
    var s3 := ListingsScript(r, user, CourseIds(r.courses.items));
    var final := stored + SavedKeys(tenant, RunScript(r));
    SavedKeysAppend(tenant, s0, s1);
    SavedKeysAppend(tenant, s0 + s1, s2);
    SavedKeysAppend(tenant, s0 + s1 + s2, s3);
    var k0 := stored + SavedKeys(tenant, s0);
    OneName(stored, final, tenant, s0[0]);
    CoursesNames(k0, final, stored, tenant, r.courses.items, user);
    var k1 := stored + SavedKeys(tenant, s0 + s1);
    assert k1 == k0 + SavedKeys(tenant, s1);
    ListingsSaveNoCourse(r, user, CourseIds(r.courses.items));
    NoCourseKeys(tenant, s3);
    FallbackSavesNoCourse(r.enrollments.items, user);
    NoNames(k1, final, tenant);
    if s2 != [] {
      NoCourseKeys(tenant, s2);
      FallbackNames(k1, final, tenant, r.enrollments.items, user);
    }
    var k2 := stored + SavedKeys(tenant, s0 + s1 + s2);
    assert k2 == k1 + SavedKeys(tenant, s2);
    ListingsNames(k2, final, stored, tenant, r, user, CourseIds(r.courses.items));
    NamesAppend(stored, final, tenant, s0, s1);
    NamesAppend(stored, final, tenant, s0 + s1, s2);
    NamesAppend(stored, final, tenant, s0 + s1 + s2, s3);
  }

  /** With plain answers the second run already changes nothing at all. */
  lemma PlainFirstRunIsFinal(db: Database, tenant: Tenant, r: Replies, c1: Clock, c2: Clock)
    requires SelfFault(r).None? && PlainAnswers(db.rows.Keys, tenant, r)
    ensures var first := ApplyAll(db, tenant, RunScript(r), c1);
            ApplyAll(first, tenant, RunScript(r), c2) == first
  {
    hide PlainAnswers, NamesSettled, RunScript, ApplyAll;
    PlainAnswersSettle(db.rows.Keys, tenant, r);
    SettledFirstRunIsFinal(db, tenant, r, c1, c2);
  }

  // ---- Where it fails ----

  const FORWARD_ENROLLMENT := EnrollmentDto(Some(9), Some(7), None, Some(2), None, map[])

  // Course 1 embeds the user's enrollment in course 2, which the listing delivers only afterwards.
  const FORWARD_ANSWERS := Replies(
    Ok(Parsed(UserDto(7, map[]))),
    Feed([Parsed(CourseDto(1, None, None, [FORWARD_ENROLLMENT], map[])),
          Parsed(CourseDto(2, None, None, [], map[]))], None),
    Feed([], None),
    [])

  lemma TwoCourses(a: CourseDto, b: CourseDto, user: CanvasId)
    ensures var items := [Parsed(a), Parsed(b)];
      && CoursesScript(items, user) == CourseScript(a, user) + CourseScript(b, user)
      && CourseIds(items) == [a.id, b.id]
      && EmbeddedTotal(items, user) == EmbeddedKept(StripCourse(a, user).enrollments, user)
                                       + EmbeddedKept(StripCourse(b, user).enrollments, user)
  {
    hide CourseScript, EmbeddedKept, StripCourse;
    var items := [Parsed(a), Parsed(b)];
    assert items[..1] == [Parsed(a)] && items[..1][..0] == [];
    assert CoursesScript([], user) == [] && CourseIds([]) == [] && EmbeddedTotal([], user) == 0;
    assert CoursesScript(items[..1], user) == CourseScript(a, user) && CourseIds(items[..1]) == [a.id];
    assert EmbeddedTotal(items[..1], user) == EmbeddedKept(StripCourse(a, user).enrollments, user);
  }

  lemma {:induction false} NothingListed(r: Replies, user: CanvasId, courseIds: seq<CanvasId>)
    requires r.assignments == []
    ensures ListingsScript(r, user, courseIds) == [] && ListingsFault(r, courseIds).None?
  {
    if courseIds != [] {
      NothingListed(r, user, courseIds[..|courseIds| - 1]);
    }
  }

  lemma ForwardCourse()
    ensures StripCourse(FORWARD_ANSWERS.courses.items[0].dto, 7).enrollments == [FORWARD_ENROLLMENT]
    ensures EmbeddedKept([FORWARD_ENROLLMENT], 7) == 1
    ensures EmbeddedScript([FORWARD_ENROLLMENT], 7, 1) == [SaveEnrollment(FORWARD_ENROLLMENT, Some(1))]
    ensures StripCourse(FORWARD_ANSWERS.courses.items[1].dto, 7).enrollments == []
    ensures EmbeddedScript([], 7, 2) == []
  {
    hide SaveEnrollment;
    var es := [FORWARD_ENROLLMENT];
    assert es[..0] == [] && StripEnrollments([], 7) == [] && EmbeddedKept([], 7) == 0;
    assert StripEnrollments(es, 7) == [] + es;
  }

  lemma ForwardScript()
    ensures SelfFault(FORWARD_ANSWERS).None? && RunFault(FORWARD_ANSWERS).None?
    ensures RunScript(FORWARD_ANSWERS) == [
      SaveUser(UserDto(7, map[])), SaveCourse(FORWARD_ANSWERS.courses.items[0].dto),
      SaveEnrollment(FORWARD_ENROLLMENT, Some(1)), SaveCourse(FORWARD_ANSWERS.courses.items[1].dto)]
  {
    hide SaveCourse, SaveEnrollment, SaveUser, EmbeddedScript, StripCourse, CoursesScript, CourseIds,
         EmbeddedTotal, EmbeddedKept, ListingsScript, ListingsFault;
    var a, b := FORWARD_ANSWERS.courses.items[0].dto, FORWARD_ANSWERS.courses.items[1].dto;
    TwoCourses(a, b, 7);
    ForwardCourse();
    NothingListed(FORWARD_ANSWERS, 7, CourseIds(FORWARD_ANSWERS.courses.items));
  }

  lemma ForwardCells(db: Database, tenant: Tenant, clock: Clock)
    ensures var k, after := Key(Enrollments, tenant, 9), Apply(db, tenant, SaveEnrollment(FORWARD_ENROLLMENT, Some(1)), clock);
            CourseId in CellsAt(after, k) <==> Key(Courses, tenant, 2) in db.rows || CourseId in CellsAt(db, k)
  {
    var a := SaveEnrollment(FORWARD_ENROLLMENT, Some(1));
    var x, y := a.links[0], a.links[1];
    assert a.links[1..] == [y] && [y][1..] == [];
    var once := Relinked(a.cells, CourseId, LinkId(db.rows, tenant, x));
    assert PayloadOf(db.rows, tenant, a) == AllRelinked(db.rows, tenant, once, [y])
        == Relinked(once, UserId, LinkId(db.rows, tenant, y)) by {
      assert AllRelinked(db.rows, tenant, Relinked(once, UserId, LinkId(db.rows, tenant, y)), [])
          == Relinked(once, UserId, LinkId(db.rows, tenant, y));
    }
    assert CourseId in PayloadOf(db.rows, tenant, a) <==> Key(Courses, tenant, 2) in db.rows;
  }

  lemma FourSteps(db: Database, tenant: Tenant, a: Action, b: Action, c: Action, d: Action, clock: Clock)
    ensures ApplyAll(db, tenant, [a, b, c, d], clock)
         == Apply(Apply(Apply(Apply(db, tenant, a, clock), tenant, b, clock), tenant, c, clock), tenant, d, clock)
  {
    hide Apply;
    assert [a, b, c, d][..3] == [a, b, c] && [a, b, c][..2] == [a, b] && [a, b][..1] == [a] && [a][..0] == [];
    assert ApplyAll(db, tenant, [], clock) == db;
    assert ApplyAll(db, tenant, [a], clock) == Apply(db, tenant, a, clock);
    assert ApplyAll(db, tenant, [a, b], clock) == Apply(Apply(db, tenant, a, clock), tenant, b, clock);
  }

  lemma TwoWrites(db: Database, tenant: Tenant, a: Action, b: Action, clock: Clock, k: Key)
    requires a.Save? && b.Save? && KeyOf(tenant, a) != k && KeyOf(tenant, b) != k
    ensures var db' := Apply(Apply(db, tenant, a, clock), tenant, b, clock);
      db'.rows.Keys == db.rows.Keys + {KeyOf(tenant, a), KeyOf(tenant, b)} && CellsAt(db', k) == CellsAt(db, k)
  {
    hide Apply;
    OtherWrite(db, tenant, a, clock, k);
    OtherWrite(Apply(db, tenant, a, clock), tenant, b, clock, k);
  }

  lemma OtherWrite(db: Database, tenant: Tenant, a: Action, clock: Clock, k: Key)
    requires a.Save? && KeyOf(tenant, a) != k
    ensures var db' := Apply(db, tenant, a, clock);
      db'.rows.Keys == db.rows.Keys + {KeyOf(tenant, a)} && CellsAt(db', k) == CellsAt(db, k)
  {
    hide Apply;
    ApplyRows(db, tenant, a, clock);
  }

  /** Four writes, of which the third is to row `k` and the fourth to another. */
  lemma ThirdOfFour(db: Database, tenant: Tenant, a: Action, b: Action, c: Action, d: Action, clock: Clock, k: Key)
    returns (before: Database)
    requires a.Save? && b.Save? && c.Save? && d.Save?
    requires KeyOf(tenant, c) == k && KeyOf(tenant, a) != k && KeyOf(tenant, b) != k && KeyOf(tenant, d) != k
    ensures var after := ApplyAll(db, tenant, [a, b, c, d], clock);
      && k in after.rows && KeyOf(tenant, d) in after.rows
      && CellsAt(after, k) == CellsAt(Apply(before, tenant, c, clock), k)
    ensures before.rows.Keys == db.rows.Keys + {KeyOf(tenant, a), KeyOf(tenant, b)} && CellsAt(before, k) == CellsAt(db, k)
  {
    hide Apply, ApplyAll, CellsAt, KeyOf;
    FourSteps(db, tenant, a, b, c, d, clock);
    TwoWrites(db, tenant, a, b, clock, k);
    before := Apply(Apply(db, tenant, a, clock), tenant, b, clock);
    var third := Apply(before, tenant, c, clock);
    assert k in third.rows by { ApplyRows(before, tenant, c, clock); }
    OtherWrite(third, tenant, d, clock, k);
  }

  /** What a run with those answers makes of the enrollment's course. */
  lemma ForwardRun(db: Database, tenant: Tenant, clock: Clock)
    ensures SelfFault(FORWARD_ANSWERS).None?
    ensures var k := Key(Enrollments, tenant, 9);
            var after := ApplyAll(db, tenant, RunScript(FORWARD_ANSWERS), clock);
            && k in after.rows && Key(Courses, tenant, 2) in after.rows
            && (CourseId in after.rows[k].cells <==> Key(Courses, tenant, 2) in db.rows || CourseId in CellsAt(db, k))
  {
    hide Apply, ApplyAll, RunScript, UserPayload, CoursePayload, EnrollmentPayload;
    ForwardScript();
    var s, k := RunScript(FORWARD_ANSWERS), Key(Enrollments, tenant, 9);
    var before := ThirdOfFour(db, tenant, s[0], s[1], s[2], s[3], clock, k);
    ForwardCells(before, tenant, clock);
    assert Key(Courses, tenant, 2) in before.rows <==> Key(Courses, tenant, 2) in db.rows;
  }

  /** The first run leaves the enrollment's course unset; the second sets it. */
  lemma FirstRunMayDiffer(tenant: Tenant, c1: Clock, c2: Clock)
    ensures SelfFault(FORWARD_ANSWERS).None?
    ensures var k := Key(Enrollments, tenant, 9);
            var first := ApplyAll(Database(map[], map[], 0), tenant, RunScript(FORWARD_ANSWERS), c1);
            var second := ApplyAll(first, tenant, RunScript(FORWARD_ANSWERS), c2);
            && k in first.rows && k in second.rows
            && CourseId !in first.rows[k].cells && CourseId in second.rows[k].cells
  {
    hide ApplyAll, RunScript;
    var empty := Database(map[], map[], 0);
    ForwardRun(empty, tenant, c1);
    ForwardRun(ApplyAll(empty, tenant, RunScript(FORWARD_ANSWERS), c1), tenant, c2);
  }
}
