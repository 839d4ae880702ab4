/** Removing other students' data from a Canvas payload: peer enrollments go, and so do the contents of
    peer submissions.  `same` is the ownership test; it rejects a missing id whoever the user is. */
module PeerStripping {
  import opened Wrappers
  import opened Texts

  /** The keys the stripping looks at; every other key of a payload is an Other. */
  datatype Field =
    | Enrollments | Submission
    | UserId | User | Id
    | Role | RoleId | EnrollmentState | LimitPrivilegesToCourseSection | CourseId
    | Body | PreviewUrl | Url | Attachments
    | Other(name: string)

  datatype Json =
    | Null
    | Bool(b: bool)
    | Int(n: int)
    | Real(x: real)
    | Str(s: string)
    | List(items: seq<Json>)
    | Object(fields: map<Field, Json>)

  type Mapping = j: Json | j.Object? witness Object(map[])

  type Owner = same: Json -> bool | !same(Null) witness _ => false

  const SENSITIVE: set<Field> := {Body, PreviewUrl, Url, Attachments}
  const ENROLLMENT_MARKS: set<Field> :=
    {Role, RoleId, EnrollmentState, LimitPrivilegesToCourseSection, CourseId, User}

  // ---- Whose record it is ----

  function Get(v: Mapping, k: Field): Json {
    if k in v.fields then v.fields[k] else Null
  }

  /** The integer a JSON value converts to; text counts when it is plain decimal digits. */
  function IntOf(v: Json): Option<int> {
    match v
    case Bool(b) => Some(if b then 1 else 0)
    case Int(n) => Some(n)
    case Real(x) => Some(if x < 0.0 then -((-x).Floor) else x.Floor)
    case Str(s) =>
      if s != "" && s[0] == '-' then Negated(Digits(s[1..])) else Digits(s)
    case _ => None
  }

  function Negated(n: Option<int>): Option<int> {
    if n.Some? then Some(-n.value) else None
  }

  function Digits(s: string): Option<int> {
    if s == "" then None
    else
      var n, last := |s| - 1, s[|s| - 1];
      if !('0' <= last <= '9') then None
      else
        var digit := last as int - '0' as int;
        if n == 0 then Some(digit)
        else
          var high := Digits(s[..n]);
          if high.None? then None else Some(10 * high.value + digit)
  }

  /** The ownership test of a numeric Canvas user. */
  function SameUser(user: int): Owner {
    v => IntOf(v) == Some(user)
  }

  predicate AllDigits(s: string) {
    s != "" && forall i :: 0 <= i < |s| ==> 48 <= s[i] as int <= 57
  }

  lemma {:induction false} DigitsAreValue(s: string)
    ensures Digits(s) == if AllDigits(s) then Some(ValueOf(s)) else None
  {
    if s != "" {
      var n := |s| - 1;
      if n > 0 { DigitsAreValue(s[..n]); }
      assert n == 0 ==> s[..n] == "";
      if AllDigits(s[..n]) && 48 <= s[n] as int <= 57 {
        forall i | 0 <= i < |s| ensures 48 <= s[i] as int <= 57 { if i < n { assert s[..n][i] == s[i]; } }
      }
      if AllDigits(s) { forall i | 0 <= i < n ensures 48 <= s[..n][i] as int <= 57 {} }
    }
  }

  /** The same number, or a numeral of it, with a minus if it is negative; a fraction counts as the whole
      number it is reduced to towards zero. */
  lemma SameUserInWords(user: int, v: Json)
    ensures SameUser(user)(v)
            <==> match v
                 case Null => false
                 case Bool(b) => user == if b then 1 else 0
                 case Int(n) => n == user
                 case Real(x) =>
                   if x >= 0.0 then user as real <= x < user as real + 1.0 else user as real - 1.0 < x <= user as real
                 case Str(s) =>
                   (AllDigits(s) && ValueOf(s) == user)
                   || (s != "" && s[0] == '-' && AllDigits(s[1..]) && -ValueOf(s[1..]) == user)
                 case List(_) => false
                 case Object(_) => false
  {
    if v.Str? {
      DigitsAreValue(v.s);
      if v.s != "" { DigitsAreValue(v.s[1..]); }
      hide Digits, ValueOf;
    }
  }

  function EnrollmentUserId(v: Mapping): Json {
    if !Get(v, UserId).Null? then v.fields[UserId]
    else if !Get(v, User).Object? then Null
    else if Id in v.fields[User].fields then v.fields[User].fields[Id]
    else Get(v.fields[User], UserId)
  }

  predicate LooksLikeEnrollment(v: Mapping) {
    (UserId in v.fields || Get(v, User).Object?) && v.fields.Keys * ENROLLMENT_MARKS != {}
  }

  predicate IsPeer(v: Mapping, same: Owner) {
    LooksLikeEnrollment(v) && !same(EnrollmentUserId(v))
  }

  /** An element of an enrollment list that stays. */
  predicate IsOwn(v: Json, same: Owner) {
    v.Object? && same(EnrollmentUserId(v))
  }

  predicate IsPeerSubmission(v: Json, same: Owner) {
    v.Object? && !same(Get(v, UserId))
  }

  predicate HidesItsOwn(v: Mapping, same: Owner) {
    UserId in v.fields && !same(v.fields[UserId])
  }

  // ---- Stripping ----

  function WithoutSensitive(v: Mapping): Mapping {
    Object(v.fields - SENSITIVE)
  }

  function Strip(v: Mapping, same: Owner): Option<Mapping>
    decreases v
  {
    if IsPeer(v, same) then None
    else
      var kept :=
        if Get(v, Enrollments).List?
        then v.fields[Enrollments := List(StripList(v.fields[Enrollments].items, same))] else v.fields;
      var shown :=
        if IsPeerSubmission(Get(v, Submission), same)
        then kept[Submission := WithoutSensitive(v.fields[Submission])] else kept;
      Some(if HidesItsOwn(v, same) then Object(shown - SENSITIVE) else Object(shown))
  }

  function StripList(items: seq<Json>, same: Owner): seq<Json>
    decreases items
  {
    if items == [] then []
    else
      var n, last := |items| - 1, items[|items| - 1];
      var kept := StripList(items[..n], same);
      if !IsOwn(last, same) then kept
      else
        var cleaned := Strip(last, same);
        if cleaned.Some? then kept + [cleaned.value] else kept
  }

  method StripMapping(v: Mapping, same: Owner) returns (r: Option<Mapping>)
    ensures r == Strip(v, same)
    ensures IsStripped(v, r, same)
    decreases v
  {
    StrippedInWords(v, same);
    hide IsStripped, SENSITIVE, ENROLLMENT_MARKS;
    var fields := v.fields;
    if LooksLikeEnrollment(v) && !same(EnrollmentUserId(v)) {
      return None;
    }
    if Get(v, Enrollments).List? {
      var items := v.fields[Enrollments].items;
      var kept: seq<Json> := [];
      for i := 0 to |items|
        invariant kept == StripList(items[..i], same)
      {
        hide Strip, EnrollmentUserId, LooksLikeEnrollment;
        assert items[..i + 1][..i] == items[..i];
        if !items[i].Object? {
          continue;
        }
        if !same(EnrollmentUserId(items[i])) {
          continue;
        }
        var cleaned := StripMapping(items[i], same);
        if cleaned.Some? {
          kept := kept + [cleaned.value];
        }
      }
      assert items[..|items|] == items;
      fields := fields[Enrollments := List(kept)];
    }
    var submission := Get(Object(fields), Submission);
    if submission.Object? && !same(Get(submission, UserId)) {
      fields := fields[Submission := Object(submission.fields - SENSITIVE)];
    }
    if UserId in fields && fields.Keys * SENSITIVE != {} && !same(fields[UserId]) {
      fields := fields - SENSITIVE;
    }
    NothingSensitive(fields);
    r := Some(Object(fields));
  }

  lemma NothingSensitive(fields: map<Field, Json>)
    ensures fields.Keys * SENSITIVE == {} ==> fields - SENSITIVE == fields
    ensures fields - SENSITIVE - SENSITIVE == fields - SENSITIVE
  {
    if fields.Keys * SENSITIVE == {} {
      forall k | k in fields ensures k !in SENSITIVE {
        assert k in SENSITIVE ==> k in fields.Keys * SENSITIVE;
      }
    }
  }

  // ---- In words ----

  /** The owner's id is `user_id` unless that is missing or null; then it is the `id` of `user`, or its
      `user_id` if it has no `id`. */
  predicate BelongsTo(v: Mapping, same: Owner) {
    if UserId in v.fields && !v.fields[UserId].Null? then same(v.fields[UserId])
    else User in v.fields && v.fields[User].Object?
         && var user := v.fields[User].fields;
            if Id in user then same(user[Id]) else UserId in user && same(user[UserId])
  }

  /** It has an owner, and one of six fields. */
  predicate SeemsEnrollment(v: Mapping) {
    && (UserId in v.fields || (User in v.fields && v.fields[User].Object?))
    && (Role in v.fields || RoleId in v.fields || EnrollmentState in v.fields
        || LimitPrivilegesToCourseSection in v.fields || CourseId in v.fields || User in v.fields)
  }

  /** The four fields of content. */
  predicate IsContent(k: Field) {
    k.Body? || k.PreviewUrl? || k.Url? || k.Attachments?
  }

  predicate NoContent(fields: map<Field, Json>) {
    Body !in fields && PreviewUrl !in fields && Url !in fields && Attachments !in fields
  }

  /** A submission whose own `user_id` is missing or another user's. */
  predicate IsOthers(v: Json, same: Owner) {
    v.Object? && !(UserId in v.fields && same(v.fields[UserId]))
  }

  /** No content of others, in the record, in its submission, and in the enrollments in it, at any depth. */
  ghost predicate ContentGone(v: Mapping, same: Owner)
    decreases v
  {
    && (Submission in v.fields && IsOthers(v.fields[Submission], same) ==> NoContent(v.fields[Submission].fields))
    && (UserId in v.fields && !same(v.fields[UserId]) ==> NoContent(v.fields))
    && (Enrollments in v.fields && v.fields[Enrollments].List? ==> ContentGoneIn(v.fields[Enrollments].items, same))
  }

  ghost predicate ContentGoneIn(items: seq<Json>, same: Owner)
    decreases items
  {
    forall i :: 0 <= i < |items| ==> items[i].Object? && ContentGone(items[i], same)
  }

  /** Everything else is kept: of the record, of its submission, and of the user's own enrollments in it,
      which stay in order. */
  ghost predicate Keeps(v: Mapping, w: Mapping, same: Owner)
    decreases v
  {
    && (forall k :: k in w.fields <==>
          k in v.fields && !(IsContent(k) && UserId in v.fields && !same(v.fields[UserId])))
    && (forall k :: k in w.fields && k != Submission && k != Enrollments ==> w.fields[k] == v.fields[k])
    && (Submission in v.fields ==>
          if IsOthers(v.fields[Submission], same)
          then w.fields[Submission].Object? && SameButContent(v.fields[Submission].fields, w.fields[Submission].fields)
          else w.fields[Submission] == v.fields[Submission])
    && (Enrollments in v.fields ==>
          if v.fields[Enrollments].List?
          then w.fields[Enrollments].List? && KeepsOwn(v.fields[Enrollments].items, w.fields[Enrollments].items, same)
          else w.fields[Enrollments] == v.fields[Enrollments])
  }

  ghost predicate SameButContent(a: map<Field, Json>, b: map<Field, Json>) {
    && (forall k :: k in b <==> k in a && !IsContent(k))
    && (forall k :: k in b ==> b[k] == a[k])
  }

  ghost predicate KeepsOwn(items: seq<Json>, kept: seq<Json>, same: Owner)
    decreases items
  {
    if items == [] then kept == []
    else
      var n, m, last := |items| - 1, |kept| - 1, items[|items| - 1];
      if last.Object? && BelongsTo(last, same)
      then kept != [] && kept[m].Object? && KeepsOwn(items[..n], kept[..m], same) && Keeps(last, kept[m], same)
      else KeepsOwn(items[..n], kept, same)
  }

  /** Another user's enrollment goes altogether; of anything else only the content of others does. */
  ghost predicate IsStripped(v: Mapping, r: Option<Mapping>, same: Owner) {
    && (r.None? <==> SeemsEnrollment(v) && !BelongsTo(v, same))
    && (r.Some? ==> ContentGone(r.value, same) && Keeps(v, r.value, same))
  }

  lemma OwnerInWords(v: Mapping, same: Owner)
    ensures BelongsTo(v, same) <==> same(EnrollmentUserId(v))
  {}

  lemma EnrollmentInWords(v: Mapping)
    ensures SeemsEnrollment(v) <==> LooksLikeEnrollment(v)
  {
    if SeemsEnrollment(v) {
      var k :| k in v.fields && k in [Role, RoleId, EnrollmentState, LimitPrivilegesToCourseSection, CourseId, User];
      assert k in v.fields.Keys * ENROLLMENT_MARKS;
    }
    if k :| k in v.fields.Keys * ENROLLMENT_MARKS {
      assert k in ENROLLMENT_MARKS;
    }
  }

  lemma ContentInWords(k: Field)
    ensures k in SENSITIVE <==> IsContent(k)
  {}

  lemma NoContentInWords(fields: map<Field, Json>)
    ensures fields.Keys !! SENSITIVE <==> NoContent(fields)
  {
    forall k ensures k in SENSITIVE <==> IsContent(k) { ContentInWords(k); }
    hide SENSITIVE;
  }

  lemma {:induction false} CleanInWords(v: Mapping, same: Owner)
    requires Clean(v, same)
    ensures ContentGone(v, same)
    decreases v
  {
    NoContentInWords(v.fields);
    if Get(v, Submission).Object? { NoContentInWords(v.fields[Submission].fields); }
    hide IsPeer, NoContent, SENSITIVE;
    if Get(v, Enrollments).List? {
      var items := v.fields[Enrollments].items;
      forall i | 0 <= i < |items| ensures items[i].Object? && ContentGone(items[i], same) {
        CleanInWords(items[i], same);
      }
    }
  }

  lemma {:induction false} StripKeeps(v: Mapping, same: Owner)
    requires Strip(v, same).Some?
    ensures Keeps(v, Strip(v, same).value, same)
    decreases v
  {
    StripAt(v, same);
    forall k ensures k in SENSITIVE <==> IsContent(k) { ContentInWords(k); }
    if Get(v, Submission).Object? { WithoutInWords(v.fields[Submission]); }
    if Get(v, Enrollments).List? { StripListKeeps(v.fields[Enrollments].items, same); }
    hide Strip, StripList, IsPeer, SENSITIVE, WithoutSensitive, SameButContent, KeepsOwn;
  }

  lemma WithoutInWords(v: Mapping)
    ensures SameButContent(v.fields, WithoutSensitive(v).fields)
  {
    forall k ensures k in SENSITIVE <==> IsContent(k) { ContentInWords(k); }
    hide SENSITIVE, IsContent;
  }

  lemma {:induction false} StripListKeeps(items: seq<Json>, same: Owner)
    ensures KeepsOwn(items, StripList(items, same), same)
    decreases items
  {
    if items != [] {
      var n, last := |items| - 1, items[|items| - 1];
      var kept := StripList(items[..n], same);
      StripListKeeps(items[..n], same);
      if last.Object? {
        OwnerInWords(last, same);
        if IsOwn(last, same) {
          assert !IsPeer(last, same);
          StripKeeps(last, same);
          hide Strip, Keeps, IsPeer, BelongsTo;
          assert Strip(last, same).Some? by { StripIsSome(last, same); }
          assert (kept + [Strip(last, same).value])[..|kept|] == kept;
        }
      }
    }
  }

  lemma StripIsSome(v: Mapping, same: Owner)
    ensures Strip(v, same).Some? <==> !IsPeer(v, same)
  {}

  lemma StrippedInWords(v: Mapping, same: Owner)
    ensures IsStripped(v, Strip(v, same), same)
  {
    OwnerInWords(v, same);
    EnrollmentInWords(v);
    StripIsSome(v, same);
    if !IsPeer(v, same) {
      StripLeavesClean(v, same);
      CleanInWords(Strip(v, same).value, same);
      StripKeeps(v, same);
    }
  }

  // ---- What stripping leaves ----

  /** No peer data anywhere the stripping looks. */
  ghost predicate Clean(v: Mapping, same: Owner)
    decreases v
  {
    && !IsPeer(v, same)
    && (Get(v, Enrollments).List? ==> CleanList(v.fields[Enrollments].items, same))
    && (IsPeerSubmission(Get(v, Submission), same) ==> v.fields[Submission].fields.Keys !! SENSITIVE)
    && (HidesItsOwn(v, same) ==> v.fields.Keys !! SENSITIVE)
  }

  ghost predicate CleanList(items: seq<Json>, same: Owner)
    decreases items
  {
    forall i :: 0 <= i < |items| ==> IsOwn(items[i], same) && Clean(items[i], same)
  }

  function StrippedField(v: Mapping, k: Field, same: Owner): Json
    requires k in v.fields
  {
    if k == Enrollments && v.fields[k].List? then List(StripList(v.fields[k].items, same))
    else if k == Submission && IsPeerSubmission(v.fields[k], same) then WithoutSensitive(v.fields[k])
    else v.fields[k]
  }

  /** Stripping, field by field: a field goes only if it is sensitive in a peer's own record, and changes
      only if it is an enrollment list or a peer submission. */
  lemma StripAt(v: Mapping, same: Owner)
    requires !IsPeer(v, same)
    ensures var r := Strip(v, same).value;
      && (forall k :: k in r.fields <==> k in v.fields && !(HidesItsOwn(v, same) && k in SENSITIVE))
      && (forall k :: k in r.fields ==> r.fields[k] == StrippedField(v, k, same))
  {}

  /** What is left still belongs to the same user and still is, or is not, an enrollment. */
  lemma StripKeepsOwner(v: Mapping, same: Owner)
    requires !IsPeer(v, same)
    ensures var r := Strip(v, same).value;
      && EnrollmentUserId(r) == EnrollmentUserId(v)
      && (LooksLikeEnrollment(r) <==> LooksLikeEnrollment(v))
      && (HidesItsOwn(r, same) <==> HidesItsOwn(v, same))
  {
    StripAt(v, same);
    assert ENROLLMENT_MARKS !! SENSITIVE && UserId !in SENSITIVE;
    assert forall k :: k == User || k == UserId ==> (k in v.fields ==> StrippedField(v, k, same) == v.fields[k]);
    hide Strip, StripList, LooksLikeEnrollment, EnrollmentUserId, StrippedField, HidesItsOwn, IsPeer;
    SameOwner(v, Strip(v, same).value, same);
  }

  /** Whose record it is, and whether it is an enrollment, depends on a few fields only. */
  lemma SameOwner(v: Mapping, w: Mapping, same: Owner)
    requires forall k :: k in ENROLLMENT_MARKS || k == UserId ==> (k in w.fields <==> k in v.fields)
    requires forall k :: k == User || k == UserId ==> (k in v.fields ==> w.fields[k] == v.fields[k])
    ensures EnrollmentUserId(w) == EnrollmentUserId(v)
    ensures LooksLikeEnrollment(w) <==> LooksLikeEnrollment(v)
    ensures HidesItsOwn(w, same) <==> HidesItsOwn(v, same)
  {
    assert User in ENROLLMENT_MARKS;
    assert w.fields.Keys * ENROLLMENT_MARKS == v.fields.Keys * ENROLLMENT_MARKS;
  }

  /** Every surviving nested enrollment belongs to the user, at every depth, and no peer submission or
      peer record has content left. */
  lemma {:induction false} StripLeavesClean(v: Mapping, same: Owner)
    requires !IsPeer(v, same)
    ensures Clean(Strip(v, same).value, same)
    decreases v
  {
    StripAt(v, same);
    StripKeepsOwner(v, same);
    if Get(v, Enrollments).List? {
      StripListLeavesClean(v.fields[Enrollments].items, same);
    }
    hide Strip, StripList;
  }

  lemma {:induction false} StripListLeavesClean(items: seq<Json>, same: Owner)
    ensures CleanList(StripList(items, same), same)
    decreases items
  {
    if items != [] {
      var n, last := |items| - 1, items[|items| - 1];
      StripListLeavesClean(items[..n], same);
      if IsOwn(last, same) {
        StripLeavesClean(last, same);
        StripKeepsOwner(last, same);
      }
    }
  }

  /** Stripping changes nothing exactly when there is no peer data. */
  lemma {:induction false} StripFixesClean(v: Mapping, same: Owner)
    ensures Strip(v, same) == Some(v) <==> Clean(v, same)
    decreases v
  {
    if Strip(v, same) == Some(v) {
      StripLeavesClean(v, same);
    }
    if Clean(v, same) {
      StripAt(v, same);
      if Get(v, Enrollments).List? {
        StripListFixesClean(v.fields[Enrollments].items, same);
      }
      hide Strip, StripList;
      assert IsPeerSubmission(Get(v, Submission), same) ==> WithoutSensitive(v.fields[Submission]) == v.fields[Submission];
      assert Strip(v, same).value.fields == v.fields;
    }
  }

  lemma {:induction false} StripListFixesClean(items: seq<Json>, same: Owner)
    requires CleanList(items, same)
    ensures StripList(items, same) == items
    decreases items
  {
    if items != [] {
      var n := |items| - 1;
      StripListFixesClean(items[..n], same);
      StripFixesClean(items[n], same);
    }
  }

  lemma StripIsIdempotent(v: Mapping, same: Owner)
    requires Strip(v, same).Some?
    ensures Strip(Strip(v, same).value, same) == Strip(v, same)
  {
    StripLeavesClean(v, same);
    StripFixesClean(Strip(v, same).value, same);
  }

  // ---- What stripping does not depend on ----

  ghost predicate SameAt(v: Mapping, w: Mapping, k: Field) {
    (k in v.fields <==> k in w.fields) && (k in v.fields ==> v.fields[k] == w.fields[k])
  }

  /** Two payloads that differ only in peer data: inside peer enrollments, in how many of them there
      are, in the contents of peer submissions. */
  ghost predicate DifferInPeerData(v: Mapping, w: Mapping, same: Owner)
    decreases v, w
  {
    if IsPeer(v, same) || IsPeer(w, same) then IsPeer(v, same) && IsPeer(w, same)
    else
      && (forall k :: k !in SENSITIVE && k != Enrollments && k != Submission ==> SameAt(v, w, k))
      && (HidesItsOwn(v, same) || forall k <- SENSITIVE :: SameAt(v, w, k))
      && (SameAt(v, w, Enrollments)
          || (Get(v, Enrollments).List? && Get(w, Enrollments).List?
              && ListsDifferInPeerData(v.fields[Enrollments].items, w.fields[Enrollments].items, same)))
      && SubmissionsDifferInPeerData(v, w, same)
  }

  ghost predicate SubmissionsDifferInPeerData(v: Mapping, w: Mapping, same: Owner) {
    SameAt(v, w, Submission)
    || (IsPeerSubmission(Get(v, Submission), same) && IsPeerSubmission(Get(w, Submission), same)
        && forall k :: k !in SENSITIVE ==> SameAt(v.fields[Submission], w.fields[Submission], k))
  }

  /** Peers may be anywhere in either list; the user's own entries correspond one to one. */
  ghost predicate ListsDifferInPeerData(a: seq<Json>, b: seq<Json>, same: Owner)
    decreases a, b
  {
    if a != [] && !IsOwn(a[|a| - 1], same) then ListsDifferInPeerData(a[..|a| - 1], b, same)
    else if b != [] && !IsOwn(b[|b| - 1], same) then ListsDifferInPeerData(a, b[..|b| - 1], same)
    else if a == [] || b == [] then a == [] && b == []
    else
      && DifferInPeerData(a[|a| - 1], b[|b| - 1], same)
      && ListsDifferInPeerData(a[..|a| - 1], b[..|b| - 1], same)
  }

  /** Peer submissions that agree outside the sensitive fields are the same without them. */
  lemma SubmissionsAgree(v: Mapping, w: Mapping)
    ensures WithoutSensitive(v) == WithoutSensitive(w) <==> forall k :: k !in SENSITIVE ==> SameAt(v, w, k)
    ensures Get(WithoutSensitive(v), UserId) == Get(v, UserId)
  {
    if WithoutSensitive(v) == WithoutSensitive(w) {
      forall k | k !in SENSITIVE ensures SameAt(v, w, k) {
        assert k in WithoutSensitive(v).fields <==> k in v.fields;
        assert k in WithoutSensitive(w).fields <==> k in w.fields;
      }
    }
    if forall k :: k !in SENSITIVE ==> SameAt(v, w, k) {
      assert WithoutSensitive(v).fields == WithoutSensitive(w).fields;
    }
  }

  lemma SubmissionFieldAgrees(v: Mapping, w: Mapping, same: Owner)
    requires Submission in v.fields && Submission in w.fields
    ensures StrippedField(v, Submission, same) == StrippedField(w, Submission, same)
            <==> SubmissionsDifferInPeerData(v, w, same)
  {
    if Get(v, Submission).Object? && Get(w, Submission).Object? {
      SubmissionsAgree(v.fields[Submission], w.fields[Submission]);
      SubmissionsAgree(w.fields[Submission], v.fields[Submission]);
    } else if Get(v, Submission).Object? {
      SubmissionsAgree(v.fields[Submission], v.fields[Submission]);
    } else if Get(w, Submission).Object? {
      SubmissionsAgree(w.fields[Submission], w.fields[Submission]);
    }
  }

  /** What the induction hypothesis says of the enrollment lists of two payloads. */
  ghost predicate ListsSettled(v: Mapping, w: Mapping, same: Owner) {
    Get(v, Enrollments).List? && Get(w, Enrollments).List? ==>
      (StripList(v.fields[Enrollments].items, same) == StripList(w.fields[Enrollments].items, same)
       <==> ListsDifferInPeerData(v.fields[Enrollments].items, w.fields[Enrollments].items, same))
  }

  lemma FieldAgrees(v: Mapping, w: Mapping, same: Owner, k: Field)
    requires !IsPeer(v, same) && !IsPeer(w, same) && ListsSettled(v, w, same)
    requires DifferInPeerData(v, w, same)
    ensures Strip(v, same).Some? && Strip(w, same).Some?
    ensures var x, y := Strip(v, same).value, Strip(w, same).value;
      (k in x.fields <==> k in y.fields) && (k in x.fields ==> x.fields[k] == y.fields[k])
  {
    StripAt(v, same);
    StripAt(w, same);
    if k == Submission && Submission in v.fields && Submission in w.fields {
      SubmissionFieldAgrees(v, w, same);
    }
    hide Strip, StripList, IsPeer, ListsDifferInPeerData;
    assert SameAt(v, w, UserId);
    assert SameAt(v, w, k) || k == Enrollments || k == Submission || k in SENSITIVE;
  }

  lemma PeerDataIsIgnored(v: Mapping, w: Mapping, same: Owner)
    requires !IsPeer(v, same) && !IsPeer(w, same) && ListsSettled(v, w, same)
    requires DifferInPeerData(v, w, same)
    ensures Strip(v, same) == Strip(w, same)
  {
    hide Strip, IsPeer, ListsSettled, DifferInPeerData;
    assert Strip(v, same).Some? && Strip(w, same).Some? by { FieldAgrees(v, w, same, UserId); }
    var x, y := Strip(v, same).value, Strip(w, same).value;
    forall k ensures (k in x.fields <==> k in y.fields) && (k in x.fields ==> x.fields[k] == y.fields[k]) {
      FieldAgrees(v, w, same, k);
    }
    assert x.fields == y.fields;
  }

  /** Away from lists and submissions the result shows the payload. */
  lemma ResultShowsField(v: Mapping, w: Mapping, same: Owner, k: Field)
    requires !IsPeer(v, same) && !IsPeer(w, same) && Strip(v, same) == Strip(w, same)
    requires k !in SENSITIVE || (!HidesItsOwn(v, same) && !HidesItsOwn(w, same))
    ensures k in v.fields <==> k in w.fields
    ensures k in v.fields ==> StrippedField(v, k, same) == StrippedField(w, k, same)
  {
    StripAt(v, same);
    StripAt(w, same);
    hide Strip, StripList, IsPeer, StrippedField;
    var r := Strip(v, same).value;
    assert k in r.fields <==> k in v.fields;
    assert k in r.fields <==> k in w.fields;
  }

  lemma OnlyPeerDataIsIgnored(v: Mapping, w: Mapping, same: Owner)
    requires !IsPeer(v, same) && !IsPeer(w, same) && ListsSettled(v, w, same)
    requires Strip(v, same) == Strip(w, same)
    ensures DifferInPeerData(v, w, same)
  {
    if Submission in v.fields && Submission in w.fields {
      SubmissionFieldAgrees(v, w, same);
    } else if Submission !in v.fields && Submission !in w.fields {
      NoSubmissions(v, w, same);
    }
    hide Strip, StripList, IsPeer, ListsDifferInPeerData, IsPeerSubmission, SubmissionsDifferInPeerData;
    ResultShowsField(v, w, same, UserId);
    ResultShowsField(v, w, same, Enrollments);
    ResultShowsField(v, w, same, Submission);
    forall k | k !in SENSITIVE && k != Enrollments && k != Submission ensures SameAt(v, w, k) {
      ResultShowsField(v, w, same, k);
    }
    if !HidesItsOwn(v, same) {
      forall k <- SENSITIVE ensures SameAt(v, w, k) {
        ResultShowsField(v, w, same, k);
      }
    }
  }

  lemma NoSubmissions(v: Mapping, w: Mapping, same: Owner)
    requires Submission !in v.fields && Submission !in w.fields
    ensures SubmissionsDifferInPeerData(v, w, same)
  {}

  /** Non-interference, both ways: the result of stripping is the same exactly for payloads that differ
      only in peer data. */
  lemma {:induction false} StripIgnoresExactlyPeerData(v: Mapping, w: Mapping, same: Owner)
    ensures Strip(v, same) == Strip(w, same) <==> DifferInPeerData(v, w, same)
    decreases v, w
  {
    if !IsPeer(v, same) && !IsPeer(w, same) {
      if Get(v, Enrollments).List? && Get(w, Enrollments).List? {
        StripListIgnoresExactlyPeers(v.fields[Enrollments].items, w.fields[Enrollments].items, same);
      }
      assert ListsSettled(v, w, same);
      hide ListsSettled, Strip, DifferInPeerData;
      if DifferInPeerData(v, w, same) {
        PeerDataIsIgnored(v, w, same);
      }
      if Strip(v, same) == Strip(w, same) {
        OnlyPeerDataIsIgnored(v, w, same);
      }
    }
  }

  lemma {:induction false} StripListIgnoresExactlyPeers(a: seq<Json>, b: seq<Json>, same: Owner)
    ensures StripList(a, same) == StripList(b, same) <==> ListsDifferInPeerData(a, b, same)
    decreases a, b
  {
    var m, n := |a| - 1, |b| - 1;
    if a != [] && !IsOwn(a[m], same) {
      StripListIgnoresExactlyPeers(a[..m], b, same);
    } else if b != [] && !IsOwn(b[n], same) {
      StripListIgnoresExactlyPeers(a, b[..n], same);
    } else if a != [] && b != [] {
      OwnIsKept(a, same);
      OwnIsKept(b, same);
      StripIgnoresExactlyPeerData(a[m], b[n], same);
      StripListIgnoresExactlyPeers(a[..m], b[..n], same);
      hide Strip, StripList, DifferInPeerData;
      SnocsAgree(StripList(a[..m], same), Strip(a[m], same).value, StripList(b[..n], same), Strip(b[n], same).value);
    } else if a != [] {
      OwnIsKept(a, same);
    } else if b != [] {
      OwnIsKept(b, same);
    }
  }

  lemma OwnIsKept(items: seq<Json>, same: Owner)
    requires items != [] && IsOwn(items[|items| - 1], same)
    ensures var n := |items| - 1;
      Strip(items[n], same).Some? && StripList(items, same) == StripList(items[..n], same) + [Strip(items[n], same).value]
  {}

  lemma SnocsAgree(s: seq<Json>, x: Json, t: seq<Json>, y: Json)
    ensures s + [x] == t + [y] <==> s == t && x == y
  {
    if s + [x] == t + [y] {
      assert s == (s + [x])[..|s|];
      assert t == (t + [y])[..|t|];
      assert (s + [x])[|s|] == x && (t + [y])[|t|] == y;
    }
  }
}
