/** Texts between two braces and two braces: which of them the expression of a slot name matches, which
    are placeholders, and what a substitution makes of them, for slot names without braces. */
module SlotNames {
  import opened Wrappers
  import opened Templates
  import opened TemplateRendering

  predicate BraceFree(s: string) {
    forall i :: 0 <= i < |s| ==> s[i] != '{' && s[i] != '}'
  }

  /** How long the text goes on without a brace. */
  function Plain(s: string): (n: nat)
    ensures n <= |s|
  {
    if s == "" || s[0] == '{' || s[0] == '}' then 0 else 1 + Plain(s[1..])
  }

  /** What a text has between two braces and two braces right at its start, if it has no brace there. */
  function Group(s: string): Option<string> {
    if |s| >= 2 && s[0] == '{' && s[1] == '{' && Closes(s[2..], Plain(s[2..]))
    then Some(s[2..2 + Plain(s[2..])]) else None
  }

  /** A text that begins with a group. */
  function InBraces(x: string, t: string): string {
    "{{" + x + "}}" + t
  }

  function Trim(s: string): string {
    if s == "" then ""
    else if Space(s[0]) then Trim(s[1..])
    else if Space(s[|s| - 1]) then Trim(s[..|s| - 1])
    else s
  }

  /** The inside of a group is a key with white space around it, the first `d` characters in front. */
  predicate FitsAt(key: string, x: string, d: nat) {
    && d + |key| <= |x|
    && (forall i :: 0 <= i < d ==> Space(x[i]))
    && (forall i :: d <= i < d + |key| ==> x[i] == key[i - d])
    && (forall i :: d + |key| <= i < |x| ==> Space(x[i]))
  }

  ghost predicate Fits(key: string, x: string) {
    exists d: nat :: FitsAt(key, x, d)
  }

  lemma {:induction false} PlainPrefix(s: string)
    ensures BraceFree(s[..Plain(s)])
    ensures Plain(s) < |s| ==> s[Plain(s)] == '{' || s[Plain(s)] == '}'
  {
    if s != "" && s[0] != '{' && s[0] != '}' {
      PlainPrefix(s[1..]);
      assert s[..Plain(s)] == [s[0]] + s[1..][..Plain(s[1..])];
    }
  }

  lemma {:induction false} PlainIs(s: string, n: nat)
    requires n <= |s| && BraceFree(s[..n]) && (n < |s| ==> s[n] == '{' || s[n] == '}')
    ensures Plain(s) == n
  {
    if n > 0 {
      assert s[0] == s[..n][0];
      assert s[1..][..n - 1] == s[..n][1..];
      PlainIs(s[1..], n - 1);
    }
  }

  lemma {:induction false} SpaceRunIs(s: string, n: nat)
    requires n <= |s| && forall i :: 0 <= i < n ==> Space(s[i])
    ensures n <= SpaceRun(s)
    ensures n < |s| && !Space(s[n]) ==> SpaceRun(s) == n
  {
    if n > 0 {
      SpaceRunIs(s[1..], n - 1);
    }
  }

  lemma SpaceIsNoBrace(c: char)
    requires Space(c)
    ensures c != '{' && c != '}'
  {}

  lemma FittedIsBraceFree(key: string, x: string, d: nat)
    requires FitsAt(key, x, d) && BraceFree(key)
    ensures BraceFree(x)
  {
    forall i | 0 <= i < |x| ensures x[i] != '{' && x[i] != '}' {
      if d <= i < d + |key| {
        assert x[i] == key[i - d];
      } else {
        SpaceIsNoBrace(x[i]);
      }
    }
  }

  /** One attempt of the expression: the key, white space and two braces after `d` characters. */
  predicate MatchesAt(key: string, u: string, d: nat)
    requires d <= |u|
  {
    key <= u[d..] && Closes(u[d..], EndOf(key, u[d..]))
  }

  lemma MatchIsFit(key: string, u: string, d: nat)
    requires d <= |u| && (forall i :: 0 <= i < d ==> Space(u[i])) && MatchesAt(key, u, d)
    ensures d + EndOf(key, u[d..]) <= |u| && FitsAt(key, u[..d + EndOf(key, u[d..])], d)
  {
    var v, k := u[d..], |key|;
    var rest := v[k..];
    SpaceRunEnds(rest);
    hide Space, SpaceRun;
    var x := u[..d + EndOf(key, v)];
    forall i | d <= i < d + k ensures x[i] == key[i - d] {
      assert x[i] == v[i - d];
    }
    forall i | d + k <= i < |x| ensures Space(x[i]) {
      assert x[i] == rest[i - d - k];
    }
  }

  /** A key that matches after `d` blanks fits the group there. */
  lemma MatchFits(key: string, u: string, d: nat)
    requires BraceFree(key) && d <= |u| && (forall i :: 0 <= i < d ==> Space(u[i])) && MatchesAt(key, u, d)
    ensures d + EndOf(key, u[d..]) == Plain(u) && Closes(u, Plain(u)) && FitsAt(key, u[..Plain(u)], d)
  {
    var n := d + EndOf(key, u[d..]);
    MatchIsFit(key, u, d);
    FittedIsBraceFree(key, u[..n], d);
    assert u[n] == u[d..][n - d] && u[n + 1] == u[d..][n + 1 - d];
    hide FitsAt, BraceFree, EndOf;
    PlainIs(u, n);
  }

  /** A key that fits the group after `d` blanks matches there. */
  lemma FitMatches(key: string, u: string, n: nat, d: nat)
    requires n <= |u| && Closes(u, n) && FitsAt(key, u[..n], d)
    ensures d <= SpaceRun(u) && d <= |u| && MatchesAt(key, u, d)
  {
    hide FitsAt, Space, SpaceRun, EndOf, Closes;
    FitStarts(key, u, n, d);
    FitHasKey(key, u, n, d);
    FitEnds(key, u, n, d);
    ClosesLater(u, n, d);
  }

  lemma ClosesLater(u: string, n: nat, d: nat)
    requires Closes(u, n) && d <= n
    ensures Closes(u[d..], n - d)
  {
    assert u[d..][n - d] == u[n] && u[d..][n - d + 1] == u[n + 1];
  }

  lemma FitStarts(key: string, u: string, n: nat, d: nat)
    requires n <= |u| && FitsAt(key, u[..n], d)
    ensures d <= SpaceRun(u)
  {
    forall i | 0 <= i < d ensures Space(u[i]) { assert u[i] == u[..n][i]; }
    hide FitsAt, Space;
    SpaceRunIs(u, d);
  }

  lemma FitHasKey(key: string, u: string, n: nat, d: nat)
    requires n <= |u| && FitsAt(key, u[..n], d)
    ensures key <= u[d..]
  {
    hide Space;
    forall i | 0 <= i < |key| ensures u[d..][i] == key[i] {
      assert u[..n][d + i] == key[d + i - d];
    }
    assert u[d..][..|key|] == key;
  }

  lemma FitEnds(key: string, u: string, n: nat, d: nat)
    requires n <= |u| && Closes(u, n) && FitsAt(key, u[..n], d)
    ensures d <= n && EndOf(key, u[d..]) == n - d
  {
    var k := |key|;
    var rest := u[d..][k..];
    forall i | 0 <= i < n - d - k ensures Space(rest[i]) {
      assert rest[i] == u[..n][d + k + i];
    }
    assert rest[n - d - k] == '}' && !Space('}');
    hide FitsAt, Space;
    SpaceRunIs(rest, n - d - k);
  }

  predicate GroupFits(key: string, u: string, d: nat) {
    Closes(u, Plain(u)) && FitsAt(key, u[..Plain(u)], d)
  }

  lemma AttemptFits(key: string, u: string, d: nat)
    requires BraceFree(key) && d <= SpaceRun(u)
    ensures MatchesAt(key, u, d) <==> GroupFits(key, u, d)
    ensures MatchesAt(key, u, d) ==> d + EndOf(key, u[d..]) == Plain(u)
  {
    SpaceRunEnds(u);
    hide BraceFree, Closes, EndOf, Space, SpaceRun, Plain, FitsAt, MatchesAt;
    if MatchesAt(key, u, d) { MatchFits(key, u, d); }
    if GroupFits(key, u, d) { FitMatches(key, u, Plain(u), d); }
  }

  ghost predicate FitsBy(key: string, u: string, most: nat) {
    exists d: nat :: d <= most && GroupFits(key, u, d)
  }

  lemma {:induction false} MatchFromFits(key: string, s: string, d: nat)
    requires BraceFree(key) && |s| >= 2 && d <= SpaceRun(s[2..])
    ensures MatchFrom(key, s, 2 + d) == if FitsBy(key, s[2..], d) then Plain(s[2..]) + 4 else 0
  {
    hide BraceFree, SpaceRun, MatchesAt, MatchFrom, Plain, EndOf, GroupFits;
    AttemptFits(key, s[2..], d);
    MatchFromOnce(key, s, d);
    if !MatchesAt(key, s[2..], d) && d > 0 {
      MatchFromFits(key, s, d - 1);
      assert FitsBy(key, s[2..], d) == FitsBy(key, s[2..], d - 1);
    }
  }

  lemma MatchFromOnce(key: string, s: string, d: nat)
    requires 2 + d <= |s|
    ensures var u := s[2..];
      MatchFrom(key, s, 2 + d) ==
        if MatchesAt(key, u, d) then d + EndOf(key, u[d..]) + 4
        else if d > 0 then MatchFrom(key, s, 2 + d - 1) else 0
  {
    assert s[2..][d..] == s[2 + d..];
  }

  lemma GroupIsPlain(s: string)
    requires |s| >= 2 && s[0] == '{' && s[1] == '{'
    ensures var u := s[2..]; Group(s) == if Closes(u, Plain(u)) then Some(u[..Plain(u)]) else None
  {
    assert s[2..2 + Plain(s[2..])] == s[2..][..Plain(s[2..])];
  }

  /** The regular expression built for a key without braces, identifier or not, matches exactly the
      groups it fits. */
  lemma KeyMatchIsGroup(key: string, s: string)
    requires BraceFree(key)
    ensures MatchLength(key, s) == if Group(s).Some? && Fits(key, Group(s).value) then |Group(s).value| + 4 else 0
  {
    if |s| >= 2 && s[0] == '{' && s[1] == '{' {
      var u := s[2..];
      MatchFromFits(key, s, SpaceRun(u));
      GroupIsPlain(s);
      hide FitsAt, Group, MatchFrom, SpaceRun, MatchesAt, Plain, Closes;
      if Group(s).Some? && Fits(key, Group(s).value) {
        var d: nat :| FitsAt(key, Group(s).value, d);
        FitMatches(key, u, Plain(u), d);
        assert GroupFits(key, u, d);
      }
    }
  }

  // ---- Trimming ----

  predicate HasNoEdge(s: string) {
    s != "" ==> !Space(s[0]) && !Space(s[|s| - 1])
  }

  /** What is left of a text is in it, between blanks. */
  lemma {:induction false} TrimFits(x: string) returns (d: nat)
    ensures FitsAt(Trim(x), x, d) && HasNoEdge(Trim(x))
  {
    d := 0;
    if x != "" && Space(x[0]) {
      var e := TrimFits(x[1..]);
      FitsAfterBlank(Trim(x[1..]), x, e);
      d := e + 1;
    } else if x != "" && Space(x[|x| - 1]) {
      d := TrimFits(x[..|x| - 1]);
      FitsBeforeBlank(Trim(x[..|x| - 1]), x, d);
    }
  }

  lemma FitsAfterBlank(t: string, x: string, e: nat)
    requires x != "" && Space(x[0])
    ensures FitsAt(t, x, e + 1) <==> FitsAt(t, x[1..], e)
  {
    hide Space;
    var y := x[1..];
    if FitsAt(t, x, e + 1) {
      assert forall i :: 0 <= i < |y| ==> y[i] == x[i + 1];
    }
    if FitsAt(t, y, e) {
      assert forall i :: 1 <= i < |x| ==> x[i] == y[i - 1];
    }
  }

  lemma FitsBeforeBlank(t: string, x: string, d: nat)
    requires x != "" && Space(x[|x| - 1]) && d + |t| < |x|
    ensures FitsAt(t, x, d) <==> FitsAt(t, x[..|x| - 1], d)
  {
    hide Space;
    var y := x[..|x| - 1];
    assert forall i :: 0 <= i < |y| ==> y[i] == x[i];
    if FitsAt(t, y, d) {
      assert forall i :: 0 <= i < |x| - 1 ==> x[i] == y[i];
    }
  }

  /** And nothing else is left. */
  lemma {:induction false} TrimIs(t: string, x: string, d: nat)
    requires FitsAt(t, x, d) && t != "" && HasNoEdge(t)
    ensures Trim(x) == t
    decreases |x|
  {
    var k := |t|;
    assert x[d] == t[d - d] && x[d + k - 1] == t[d + k - 1 - d];
    if d > 0 {
      FitsAfterBlank(t, x, d - 1);
      TrimIs(t, x[1..], d - 1);
    } else if k < |x| {
      FitsBeforeBlank(t, x, d);
      TrimIs(t, x[..|x| - 1], 0);
    } else {
      assert x == t;
    }
  }

  /** A key that fits a text fits through what both trim to. */
  lemma FitJoins(t: string, key: string, x: string, e: nat, d: nat)
    requires FitsAt(t, key, e) && FitsAt(key, x, d)
    ensures FitsAt(t, x, d + e)
  {
    hide Space;
    var k, m := |key|, |t|;
    forall i | 0 <= i < |x| && (i < d + e || d + e + m <= i) ensures Space(x[i]) {
      if d <= i < d + k { assert x[i] == key[i - d]; }
    }
    forall i | d + e <= i < d + e + m ensures x[i] == t[i - (d + e)] {
      assert x[i] == key[i - d] == t[i - d - e];
    }
  }

  lemma FitTrimsAlike(key: string, x: string)
    requires Fits(key, x) && Trim(key) != ""
    ensures Trim(x) == Trim(key)
  {
    var d: nat :| FitsAt(key, x, d);
    var e := TrimFits(key);
    hide FitsAt, Trim;
    FitJoins(Trim(key), key, x, e, d);
    TrimIs(Trim(key), x, d + e);
  }

  lemma IdentifierHasNoEdge(name: string)
    requires IsIdentifier(name)
    ensures HasNoEdge(name) && name != "" && BraceFree(name) && Trim(name) == name
    ensures forall i :: 0 <= i < |name| ==> !Space(name[i]) && name[i] != ':'
  {
    forall i | 0 <= i < |name| ensures !Space(name[i]) && name[i] != ':' && name[i] != '{' && name[i] != '}' {
      var c := name[i];
      assert c in name;
      NameCharIsPlain(c);
    }
    hide Space, IsIdentifier;
    assert !Space(name[0]) && !Space(name[|name| - 1]);
  }

  lemma NameCharIsPlain(c: char)
    requires NameChar(c)
    ensures !Space(c) && c != ':' && c != '{' && c != '}'
  {}

  /** An identifier fits exactly the texts that trim to it. */
  lemma IdentifierFits(name: string, x: string)
    requires IsIdentifier(name)
    ensures Fits(name, x) <==> Trim(x) == name
  {
    IdentifierHasNoEdge(name);
    if Trim(x) == name {
      var d := TrimFits(x);
    }
    if Fits(name, x) {
      FitTrimsAlike(name, x);
    }
  }

  /** A placeholder is a group that trims to an identifier. */
  lemma PlaceholderIsGroup(s: string)
    ensures Placeholder(s)
            == if Group(s).Some? && IsIdentifier(Trim(Group(s).value))
               then Some(Found(Trim(Group(s).value), |Group(s).value| + 4)) else None
  {
    hide Group, Trim, Fits, IsIdentifier, MatchLength;
    if Group(s).Some? && IsIdentifier(Trim(Group(s).value)) {
      var name := Trim(Group(s).value);
      IdentifierHasNoEdge(name);
      IdentifierFits(name, Group(s).value);
      KeyMatchIsGroup(name, s);
      KeyMatchIsPlaceholder(name, s);
    } else if Placeholder(s).Some? {
      var name := Placeholder(s).value.name;
      NameIsIdentifier(Nothing, s);
      IdentifierHasNoEdge(name);
      KeyMatchIsGroup(name, s);
      KeyMatchIsPlaceholder(name, s);
      if Group(s).Some? { IdentifierFits(name, Group(s).value); }
    }
  }

  // ---- What a substitution leaves ----

  /** A text without a brace is copied. */
  lemma {:induction false} SubCopiesPlain(key: string, a: string, t: string)
    requires BraceFree(a)
    ensures Sub(key, a + t) == a + Sub(key, t)
  {
    if a == "" {
      assert a + t == t;
    } else {
      assert a + t == [a[0]] + (a[1..] + t);
      hide Sub;
      SubSkipsOther(key, a[0], a[1..] + t);
      SubCopiesPlain(key, a[1..], t);
      assert [a[0]] + (a[1..] + Sub(key, t)) == a + Sub(key, t);
    }
  }

  lemma GroupParts(s: string)
    requires Group(s).Some?
    ensures var x := Group(s).value;
      BraceFree(x) && |x| + 4 <= |s| && s == InBraces(x, s[|x| + 4..])
  {
    PlainPrefix(s[2..]);
    assert Group(s).value == s[2..][..Plain(s[2..])];
    assert s == s[..2] + s[2..][..Plain(s[2..])] + s[2 + Plain(s[2..])..];
  }

  lemma GroupIs(x: string, t: string)
    requires BraceFree(x)
    ensures Group(InBraces(x, t)) == Some(x)
  {
    var s := InBraces(x, t);
    assert s[2..] == x + "}}" + t && s[2..][..|x|] == x;
    PlainIs(s[2..], |x|);
    assert s[2..2 + |x|] == x;
  }

  /** A group the key does not fit is copied. */
  lemma SubCopiesGroup(key: string, x: string, t: string)
    requires BraceFree(key) && BraceFree(x) && !Fits(key, x)
    ensures Sub(key, InBraces(x, t)) == InBraces(x, Sub(key, t))
  {
    hide Group, Fits, InBraces, BraceFree;
    GroupIs(x, t);
    KeyMatchIsGroup(key, InBraces(x, t));
    GroupInParts(x, t);
    GroupInParts(x, Sub(key, t));
    SubSkipsOne(key, '{', "{" + (x + ("}}" + t)));
    OneBrace(key, x, t);
    hide MatchLength, Sub;
    SubCopiesPlain(key, x, "}}" + t);
    CopiesClosing(key, t);
  }

  lemma GroupInParts(x: string, t: string)
    ensures InBraces(x, t) == ['{'] + ("{" + (x + ("}}" + t)))
  {}

  lemma SubSkipsOne(key: string, c: char, t: string)
    requires MatchLength(key, [c] + t) == 0
    ensures Sub(key, [c] + t) == [c] + Sub(key, t)
  {
    assert ([c] + t)[1..] == t;
  }

  lemma SubSkipsOther(key: string, c: char, t: string)
    requires c != '{'
    ensures Sub(key, [c] + t) == [c] + Sub(key, t)
  {
    assert MatchLength(key, [c] + t) == 0;
    hide MatchLength;
    SubSkipsOne(key, c, t);
  }

  /** A single brace starts no group. */
  lemma OneBrace(key: string, x: string, t: string)
    requires BraceFree(x)
    ensures Sub(key, "{" + (x + ("}}" + t))) == "{" + Sub(key, x + ("}}" + t))
  {
    var s := "{" + (x + ("}}" + t));
    assert s[1] == if x == "" then '}' else x[0];
    assert MatchLength(key, s) == 0;
    hide MatchLength;
    assert s[1..] == x + ("}}" + t);
  }

  lemma ClosingInParts(t: string)
    ensures "}}" + t == ['}'] + (['}'] + t)
  {}

  lemma CopiesClosing(key: string, t: string)
    ensures Sub(key, "}}" + t) == "}}" + Sub(key, t)
  {
    hide Sub;
    ClosingInParts(t);
    ClosingInParts(Sub(key, t));
    SubSkipsOther(key, '}', ['}'] + t);
    SubSkipsOther(key, '}', t);
  }

  /** A group the key fits becomes a parameter. */
  lemma SubReplacesGroup(key: string, x: string, t: string)
    requires BraceFree(key) && BraceFree(x) && Fits(key, x)
    ensures Sub(key, InBraces(x, t)) == ":" + key + Sub(key, t)
  {
    AfterBraces(x, t);
    hide Group, MatchLength, Fits, InBraces, BraceFree;
    GroupIs(x, t);
    KeyMatchIsGroup(key, InBraces(x, t));
  }

  lemma AfterBraces(x: string, t: string)
    ensures |InBraces(x, t)| == |x| + 4 + |t| && InBraces(x, t)[|x| + 4..] == t
  {
  }
}
