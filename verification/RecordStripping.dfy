/** The stripping of validated records in the pipeline is the stripping of the JSON they dump to. */
module RecordStripping {
  import opened Wrappers
  import opened Tables
  import R = Replies
  import P = PeerStripping

  /** How the scalar fields of a record dump to JSON. */
  type Encoding = Cells -> map<P.Field, P.Json>

  // The fields that steer the stripping; the records keep them apart from the scalar ones.
  const STEERING: set<P.Field> :=
    {P.Enrollments, P.Submission, P.UserId, P.User, P.Id, P.CourseId, P.EnrollmentState}

  /** Scalar fields dump to fields of their own, the four sensitive ones of a submission to the
      sensitive fields and nothing else to them. */
  ghost predicate Faithful(encode: Encoding) {
    && (forall attrs: Cells :: encode(attrs).Keys !! STEERING)
    && (forall attrs: Cells :: encode(attrs - R.SENSITIVE_FIELDS) == encode(attrs) - P.SENSITIVE)
  }

  function Number(n: Option<CanvasId>): P.Json {
    if n.Some? then P.Int(n.value) else P.Null
  }

  function Word(s: Option<string>): P.Json {
    if s.Some? then P.Str(s.value) else P.Null
  }

  function DumpEnrollment(encode: Encoding, e: R.EnrollmentDto): P.Mapping {
    P.Object(encode(e.attrs) + map[
      P.Id := Number(e.id), P.UserId := Number(e.userId), P.CourseId := Number(e.courseId),
      P.EnrollmentState := Word(e.state),
      P.User := if e.nestedUserId.Some? then P.Object(map[P.Id := P.Int(e.nestedUserId.value)]) else P.Null])
  }

  function DumpEnrollments(encode: Encoding, es: seq<R.EnrollmentDto>): (items: seq<P.Json>)
    ensures |items| == |es|
  {
    if es == [] then []
    else DumpEnrollments(encode, es[..|es| - 1]) + [DumpEnrollment(encode, es[|es| - 1])]
  }

  function DumpCourse(encode: Encoding, c: R.CourseDto): P.Mapping {
    P.Object(encode(c.attrs)[P.Id := P.Int(c.id)][P.Enrollments := P.List(DumpEnrollments(encode, c.enrollments))])
  }

  function DumpSubmission(encode: Encoding, s: R.SubmissionDto): P.Mapping {
    P.Object(encode(s.attrs) + map[P.Id := P.Int(s.id), P.UserId := Number(s.userId)])
  }

  function DumpAssignment(encode: Encoding, a: R.AssignmentDto): P.Mapping {
    var submission := if a.submission.Some? then DumpSubmission(encode, a.submission.value) else P.Null;
    P.Object(encode(a.attrs)[P.Id := P.Int(a.id)][P.Submission := submission])
  }

  /** Records without a sensitive field among their scalar ones, as enrollments, courses and assignments
      are. */
  predicate NothingSensitive(encode: Encoding, attrs: Cells) {
    encode(attrs).Keys !! P.SENSITIVE
  }

  lemma DumpedOwner(encode: Encoding, e: R.EnrollmentDto, user: CanvasId)
    requires Faithful(encode)
    ensures var d := DumpEnrollment(encode, e);
      && P.LooksLikeEnrollment(d)
      && (P.SameUser(user)(P.EnrollmentUserId(d)) <==> R.SameUser(R.EnrollmentUserId(e), user))
  {
    var d := DumpEnrollment(encode, e);
    assert P.User in d.fields.Keys * P.ENROLLMENT_MARKS;
  }

  lemma EnrollmentFields(encode: Encoding, e: R.EnrollmentDto)
    requires Faithful(encode) && NothingSensitive(encode, e.attrs)
    ensures var d := DumpEnrollment(encode, e);
      P.Enrollments !in d.fields && P.Submission !in d.fields && d.fields.Keys !! P.SENSITIVE
  {
    assert encode(e.attrs).Keys !! STEERING;
  }

  /** An enrollment: dropped exactly if the record is, and unchanged otherwise. */
  lemma EnrollmentStripped(encode: Encoding, e: R.EnrollmentDto, user: CanvasId)
    requires Faithful(encode) && NothingSensitive(encode, e.attrs)
    ensures P.Strip(DumpEnrollment(encode, e), P.SameUser(user))
            == if R.StripEnrollment(e, user).Some? then Some(DumpEnrollment(encode, e)) else None
  {
    DumpedOwner(encode, e, user);
    EnrollmentFields(encode, e);
    P.StripFixesClean(DumpEnrollment(encode, e), P.SameUser(user));
    hide DumpEnrollment, Faithful, P.SameUser, P.LooksLikeEnrollment, P.EnrollmentUserId;
  }

  ghost predicate NoneSensitive(encode: Encoding, es: seq<R.EnrollmentDto>) {
    forall i :: 0 <= i < |es| ==> NothingSensitive(encode, es[i].attrs)
  }

  lemma {:induction false} EnrollmentsStripped(encode: Encoding, es: seq<R.EnrollmentDto>, user: CanvasId)
    requires Faithful(encode) && NoneSensitive(encode, es)
    ensures P.StripList(DumpEnrollments(encode, es), P.SameUser(user))
            == DumpEnrollments(encode, R.StripEnrollments(es, user))
  {
    hide Faithful, DumpEnrollment, NothingSensitive, P.Strip;
    if es != [] {
      var n := |es| - 1;
      var dumped, kept := DumpEnrollments(encode, es), R.StripEnrollments(es[..n], user);
      EnrollmentsStripped(encode, es[..n], user);
      EnrollmentStripped(encode, es[n], user);
      DumpedOwner(encode, es[n], user);
      hide P.SameUser, P.EnrollmentUserId, R.EnrollmentUserId, R.SameUser, P.LooksLikeEnrollment;
      assert dumped[..n] == DumpEnrollments(encode, es[..n]) && dumped[n] == DumpEnrollment(encode, es[n]);
      assert (kept + [es[n]])[..|kept|] == kept;
    }
  }

  /** A record of nobody in particular with a list of enrollments. */
  lemma ListStripped(m: map<P.Field, P.Json>, items: seq<P.Json>, same: P.Owner)
    requires P.UserId !in m && P.User !in m && P.Submission !in m
    ensures P.Strip(P.Object(m[P.Enrollments := P.List(items)]), same)
            == Some(P.Object(m[P.Enrollments := P.List(P.StripList(items, same))]))
  {
    hide P.StripList;
    var v := P.Object(m[P.Enrollments := P.List(items)]);
    assert !P.IsPeer(v, same) && !P.HidesItsOwn(v, same) && !P.IsPeerSubmission(P.Get(v, P.Submission), same);
    assert m[P.Enrollments := P.List(items)][P.Enrollments := P.List(P.StripList(items, same))]
        == m[P.Enrollments := P.List(P.StripList(items, same))];
  }

  /** A record of nobody in particular with a submission. */
  lemma SubmissionFieldStripped(m: map<P.Field, P.Json>, submission: P.Json, same: P.Owner)
    requires P.UserId !in m && P.User !in m && P.Enrollments !in m
    ensures P.Strip(P.Object(m[P.Submission := submission]), same) == Some(P.Object(m[P.Submission :=
              if P.IsPeerSubmission(submission, same) then P.WithoutSensitive(submission) else submission]))
  {
    hide P.StripList, P.WithoutSensitive;
    var v := P.Object(m[P.Submission := submission]);
    assert !P.IsPeer(v, same) && !P.HidesItsOwn(v, same) && P.Get(v, P.Submission) == submission;
    if P.IsPeerSubmission(submission, same) {
      assert m[P.Submission := submission][P.Submission := P.WithoutSensitive(submission)]
          == m[P.Submission := P.WithoutSensitive(submission)];
    }
  }

  /** A course: the stripped record's dump is the stripped dump. */
  lemma CourseStripped(encode: Encoding, c: R.CourseDto, user: CanvasId)
    requires Faithful(encode) && NoneSensitive(encode, c.enrollments)
    ensures P.Strip(DumpCourse(encode, c), P.SameUser(user)) == Some(DumpCourse(encode, R.StripCourse(c, user)))
  {
    assert encode(c.attrs).Keys !! STEERING;
    EnrollmentsStripped(encode, c.enrollments, user);
    ListStripped(encode(c.attrs)[P.Id := P.Int(c.id)], DumpEnrollments(encode, c.enrollments), P.SameUser(user));
    hide P.Strip, P.StripList, P.SameUser, DumpEnrollments, Faithful, R.StripEnrollments, NoneSensitive;
  }

  /** An assignment likewise: a submission without the user's own id loses its content. */
  lemma AssignmentStripped(encode: Encoding, a: R.AssignmentDto, user: CanvasId)
    requires Faithful(encode)
    ensures P.Strip(DumpAssignment(encode, a), P.SameUser(user)) == Some(DumpAssignment(encode, R.StripAssignment(a, user)))
  {
    assert encode(a.attrs).Keys !! STEERING;
    var same, m := P.SameUser(user), encode(a.attrs)[P.Id := P.Int(a.id)];
    if a.submission.Some? {
      SubmissionStripped(encode, a.submission.value, user);
      SubmissionFieldStripped(m, DumpSubmission(encode, a.submission.value), same);
    } else {
      SubmissionFieldStripped(m, P.Null, same);
      assert !P.IsPeerSubmission(P.Null, same);
    }
    hide P.Strip, P.StripList, P.SameUser, P.IsPeerSubmission, P.WithoutSensitive, DumpSubmission, Faithful;
  }

  lemma SubmissionStripped(encode: Encoding, s: R.SubmissionDto, user: CanvasId)
    requires Faithful(encode)
    ensures P.IsPeerSubmission(DumpSubmission(encode, s), P.SameUser(user)) <==> !R.SameUser(s.userId, user)
    ensures P.WithoutSensitive(DumpSubmission(encode, s))
            == DumpSubmission(encode, s.(attrs := s.attrs - R.SENSITIVE_FIELDS))
  {
    var d := DumpSubmission(encode, s);
    assert encode(s.attrs).Keys !! STEERING;
    assert d.fields - P.SENSITIVE
        == (encode(s.attrs) - P.SENSITIVE) + map[P.Id := P.Int(s.id), P.UserId := Number(s.userId)];
  }
}
