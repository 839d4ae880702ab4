/** Masking credentials in log records: the patterns are substituted one after another in every text, and
    nested values are walked. */
module Redaction {
  import opened Wrappers
  import opened Texts
  import opened CredentialPatterns

  const MASK := "***REDACTED***"

  // ---- Texts ----

  /** Leftmost longest matches are replaced, from left to right. */
  function Sub(p: Pattern, s: string): string
    decreases |s|
  {
    if s == "" then ""
    else
      var n := MatchLength(p, s);
      if n > 0 then MASK + Sub(p, s[n..]) else [s[0]] + Sub(p, s[1..])
  }

  function RedactMessage(message: string): string {
    if message == "" then message else Sub(PgUrl, Sub(Bearer, Sub(Fernet, message)))
  }

  ghost predicate Contains(p: Pattern, s: string) {
    exists i, j :: 0 <= i <= j <= |s| && InLanguage(p, s[i..j])
  }

  predicate NoMatch(p: Pattern, s: string) {
    s == "" || (MatchLength(p, s) == 0 && NoMatch(p, s[1..]))
  }

  lemma SliceOfTail(s: string, i: nat, j: nat)
    requires 0 < i <= j <= |s|
    ensures s[i..j] == s[1..][i - 1..j - 1]
  {
    var a, b := s[i..j], s[1..][i - 1..j - 1];
    assert |a| == |b| && forall k :: 0 <= k < |a| ==> a[k] == b[k];
  }

  lemma {:induction false} NoMatchMeansNoCredential(p: Pattern, s: string)
    ensures NoMatch(p, s) <==> !Contains(p, s)
  {
    MatchIsLongestInLanguage(p, s);
    if s != "" {
      hide InLanguage, MatchLength;
      NoMatchMeansNoCredential(p, s[1..]);
      if Contains(p, s[1..]) {
        var i, j :| 0 <= i <= j <= |s[1..]| && InLanguage(p, s[1..][i..j]);
        SliceOfTail(s, i + 1, j + 1);
        assert InLanguage(p, s[i + 1..j + 1]);
      }
      if MatchLength(p, s) > 0 {
        assert InLanguage(p, s[0..MatchLength(p, s)]);
      }
      if i, j :| 0 <= i <= j <= |s| && InLanguage(p, s[i..j]) {
        if i > 0 {
          SliceOfTail(s, i, j);
          assert InLanguage(p, s[1..][i - 1..j - 1]);
        } else {
          assert s[0..j] == s[..j];
        }
      }
    }
  }

  /** A mask breaks off every unfinished match; only the tail of an address could run into it, and where
      a mask of that pattern stands it would have run into the masked text as well. */
  lemma {:induction false} SubCreatesNoMatch(r: Pattern, p: Pattern, q: State, t: string)
    requires r == PgUrl ==> p == PgUrl
    requires Longest(r, q, Sub(p, t)).Some?
    ensures Longest(r, q, t).Some?
    decreases |t|
  {
    if t != "" && !q.SomeBody? {
      var n := MatchLength(p, t);
      var u := Sub(p, t);
      if n > 0 {
        assert u[0] == '*';
        FirstOfMatch(p, t);
        MaskStops(r, q);
      } else {
        assert u[1..] == Sub(p, t[1..]);
        SubCreatesNoMatch(r, p, Step(r, q, t[0]).value, t[1..]);
      }
    }
  }

  lemma FirstOfMatch(p: Pattern, t: string)
    requires MatchLength(p, t) > 0
    ensures t != "" && WordChar(p, 0, t[0])
  {}

  /** Only inside an address may a mask go on, and there a letter may as well. */
  lemma MaskStops(r: Pattern, q: State)
    ensures !r.PgUrl? ==> Step(r, q, '*').None?
    ensures r.PgUrl? && Step(r, q, '*').Some? ==> Step(r, q, 'p') == Some(SomeBody)
  {}

  lemma {:induction false} MaskAddsNoMatch(r: Pattern, k: nat, x: string)
    requires k <= |MASK| && NoMatch(r, x)
    ensures NoMatch(r, MASK[k..] + x)
    decreases |MASK| - k
  {
    var s := MASK[k..] + x;
    if k == |MASK| {
      assert s == x;
    } else {
      MaskAddsNoMatch(r, k + 1, x);
      assert s[1..] == MASK[k + 1..] + x;
      assert s[0] == MASK[k];
      NoMatchStartsInMask(r, s, k);
      hide MatchLength;
    }
  }

  lemma NoMatchStartsInMask(r: Pattern, s: string, k: nat)
    requires s != "" && k < |MASK| && s[0] == MASK[k]
    ensures MatchLength(r, s) == 0
  {
    assert Step(r, START, MASK[k]).None?;
  }

  lemma {:induction false} NoMatchInSuffix(r: Pattern, s: string, k: nat)
    requires k <= |s| && NoMatch(r, s)
    ensures NoMatch(r, s[k..])
  {
    if k == 0 {
      assert s[0..] == s;
    } else {
      NoMatchInSuffix(r, s[1..], k - 1);
      assert s[1..][k - 1..] == s[k..];
    }
  }

  /** A substitution leaves no match of its own pattern, and none of another that was not there before;
      except that the address pattern must not run before another one. */
  lemma {:induction false} SubLeavesNoMatch(r: Pattern, p: Pattern, t: string)
    requires r == p || (!r.PgUrl? && NoMatch(r, t))
    ensures NoMatch(r, Sub(p, t))
    decreases |t|
  {
    if t != "" {
      var n := MatchLength(p, t);
      if n > 0 {
        if r != p { NoMatchInSuffix(r, t, n); }
        SubLeavesNoMatch(r, p, t[n..]);
        MaskAddsNoMatch(r, 0, Sub(p, t[n..]));
        assert MASK[0..] == MASK;
      } else {
        SubLeavesNoMatch(r, p, t[1..]);
        assert Sub(p, t)[1..] == Sub(p, t[1..]);
        if MatchLength(r, Sub(p, t)) > 0 {
          SubCreatesNoMatch(r, p, START, t);
          assert false;
        }
      }
    }
  }

  ghost predicate NoCredential(s: string) {
    forall p :: !Contains(p, s)
  }

  lemma ThreePassesLeaveNoMatch(message: string, p: Pattern)
    ensures NoMatch(p, Sub(PgUrl, Sub(Bearer, Sub(Fernet, message))))
  {
    hide Sub, NoMatch;
    var a := Sub(Fernet, message);
    var b := Sub(Bearer, a);
    match p {
      case Fernet =>
        SubLeavesNoMatch(Fernet, Fernet, message);
        SubLeavesNoMatch(Fernet, Bearer, a);
        SubLeavesNoMatch(Fernet, PgUrl, b);
      case Bearer =>
        SubLeavesNoMatch(Bearer, Bearer, a);
        SubLeavesNoMatch(Bearer, PgUrl, b);
      case PgUrl =>
        SubLeavesNoMatch(PgUrl, PgUrl, b);
    }
  }

  lemma RedactMessageIsThreePasses(message: string)
    ensures RedactMessage(message) == Sub(PgUrl, Sub(Bearer, Sub(Fernet, message)))
  {
    if message == "" {
      assert Sub(Fernet, "") == "" && Sub(Bearer, "") == "" && Sub(PgUrl, "") == "";
    }
  }

  /** The redacted message contains no substring of any of the three languages. */
  lemma RedactedHasNoCredential(message: string)
    ensures NoCredential(RedactMessage(message))
  {
    hide Contains, Sub, NoMatch, RedactMessage;
    RedactMessageIsThreePasses(message);
    forall p ensures !Contains(p, RedactMessage(message)) {
      ThreePassesLeaveNoMatch(message, p);
      NoMatchMeansNoCredential(p, RedactMessage(message));
    }
  }

  lemma {:induction false} SubKeepsText(p: Pattern, s: string)
    requires NoMatch(p, s)
    ensures Sub(p, s) == s
  {
    if s != "" {
      SubKeepsText(p, s[1..]);
    }
  }

  /** A message is left alone exactly when it has no credential; so redacting twice changes nothing. */
  lemma RedactionFixesCleanMessages(message: string)
    ensures RedactMessage(message) == message <==> NoCredential(message)
  {
    RedactedHasNoCredential(message);
    if NoCredential(message) {
      forall p ensures Sub(p, message) == message {
        assert !Contains(p, message);
        NoMatchMeansNoCredential(p, message);
        SubKeepsText(p, message);
      }
    }
  }

  lemma {:induction false} SubSkips(p: Pattern, s: string, k: nat)
    requires k <= |s| && forall i :: 0 <= i < k ==> MatchLength(p, s[i..]) == 0
    ensures Sub(p, s) == s[..k] + Sub(p, s[k..])
    decreases k
  {
    hide MatchLength;
    assert s[0..] == s;
    if k > 0 {
      forall i | 0 <= i < k - 1 ensures s[1..][i..] == s[i + 1..] {}
      SubSkips(p, s[1..], k - 1);
      assert s[1..][k - 1..] == s[k..];
      assert s[..k] == [s[0]] + s[1..][..k - 1];
    }
  }

  /** The leftmost longest match goes, the text before it stays, and the rest is treated alike. */
  lemma SubReplacesFirstMatch(p: Pattern, s: string, k: nat)
    requires k < |s| && MatchLength(p, s[k..]) > 0
    requires forall i :: 0 <= i < k ==> MatchLength(p, s[i..]) == 0
    ensures Sub(p, s) == s[..k] + MASK + Sub(p, s[k + MatchLength(p, s[k..])..])
  {
    hide MatchLength;
    SubSkips(p, s, k);
    assert s[k..][MatchLength(p, s[k..])..] == s[k + MatchLength(p, s[k..])..];
  }

  // ---- The order of the three passes ----

  lemma MatchBegins(p: Pattern, s: string)
    ensures MatchLength(p, s) > 0 ==> s != "" && WordChar(p, 0, s[0])
  {
    MatchIsLongestInLanguage(p, s);
    var n := MatchLength(p, s);
    hide MatchLength;
    if n > 0 { assert WordChar(p, 0, s[..n][0]); }
  }

  lemma BearerGoesOn(s: string)
    ensures MatchLength(Bearer, s) > 0 ==> |s| >= 8 && (Space(s[7]) || IsTokenChar(s[7]))
  {
    MatchIsLongestInLanguage(Bearer, s);
    var n := MatchLength(Bearer, s);
    hide MatchLength, Space, IsTokenChar;
    if n > 0 {
      BearerInWords(s[..n]);
      hide InLanguage;
      assert n >= 8 && s[..n][7] == s[7];
      BearerHolds(s[..n], 7);
    }
  }

  lemma SubLeaves(p: Pattern, s: string)
    requires forall i :: 0 <= i < |s| ==> MatchLength(p, s[i..]) == 0
    ensures Sub(p, s) == s
  {
    hide MatchLength;
    SubSkips(p, s, |s|);
    assert s[|s|..] == "" && s[..|s|] == s;
  }

  /** A match that reaches to the end, after a text without one. */
  lemma SubReplacesTail(p: Pattern, a: string, b: string)
    requires InLanguage(p, b) && forall i :: 0 <= i < |a| ==> MatchLength(p, (a + b)[i..]) == 0
    ensures Sub(p, a + b) == a + MASK
  {
    MatchIsLongestInLanguage(p, b);
    assert b[..|b|] == b;
    hide MatchLength, InLanguage;
    var s := a + b;
    assert s[|a|..] == b && s[..|a|] == a && b[|b|..] == "";
    SubReplacesFirstMatch(p, s, |a|);
    assert Sub(p, "") == "" && a + MASK + "" == a + MASK;
  }

  /** The word `bearer` in any letters and a blank. */
  predicate IsHead(head: string) {
    |head| == 7 && SameLetters("bearer", head[..6]) && Space(head[6])
  }

  lemma HeadLetters(head: string, i: nat)
    requires IsHead(head) && i < 7
    ensures head[i] != 'g' && head[i] != 'p' && (i > 0 ==> head[i] != 'b' && head[i] != 'B')
  {
    if i < 6 { assert SameLetter("bearer"[i], head[..6][i]); }
  }

  lemma MaskLetters(i: nat)
    requires i < |MASK|
    ensures MASK[i] != 'p' && MASK[i] != 'b' && MASK[i] != 'B' && MASK[0] == '*'
  {}

  /** The mask in the place of an envelope is no token. */
  lemma MaskedEnvelopeStays(head: string)
    requires IsHead(head)
    ensures Sub(Bearer, head + MASK) == head + MASK && Sub(PgUrl, head + MASK) == head + MASK
  {
    var s := head + MASK;
    hide MASK, IsHead, Sub, MatchLength;
    forall i | 0 <= i < |s| ensures MatchLength(Bearer, s[i..]) == 0 && MatchLength(PgUrl, s[i..]) == 0 {
      MatchBegins(PgUrl, s[i..]);
      MatchBegins(Bearer, s[i..]);
      MaskStands(head, i);
      BearerGoesOn(s[i..]);
    }
    SubLeaves(Bearer, s);
    SubLeaves(PgUrl, s);
  }

  lemma MaskStands(head: string, i: nat)
    requires IsHead(head) && i < |head + MASK|
    ensures var t := (head + MASK)[i..];
      && t != "" && !WordChar(PgUrl, 0, t[0]) && (i > 0 ==> !WordChar(Bearer, 0, t[0]))
      && (i == 0 ==> |t| >= 8 && !Space(t[7]) && !IsTokenChar(t[7]))
  {
    var s := head + MASK;
    if i < 7 { HeadLetters(head, i); } else { MaskLetters(i - 7); }
    MaskLetters(0);
    hide MASK, IsHead;
    assert s[i..][0] == s[i];
  }

  /** An envelope is masked before it is taken for a token: the word in front of it stays. */
  lemma EnvelopeGoesFirst(head: string, envelope: string)
    requires IsHead(head) && InLanguage(Fernet, envelope)
    ensures RedactMessage(head + envelope) == head + MASK
  {
    var s := head + envelope;
    forall i | 0 <= i < 7 ensures MatchLength(Fernet, s[i..]) == 0 {
      MatchBegins(Fernet, s[i..]);
      HeadLetters(head, i);
      assert s[i..][0] == head[i];
      hide MatchLength, IsHead, InLanguage;
    }
    hide Sub, MatchLength, InLanguage, MASK;
    SubReplacesTail(Fernet, head, envelope);
    MaskedEnvelopeStays(head);
    assert s != "";
  }

  lemma FernetGoesOn(s: string)
    ensures MatchLength(Fernet, s) > 0 ==> |s| >= 2 && s[0] == 'g' && s[1] == 'A'
  {
    MatchIsLongestInLanguage(Fernet, s);
    var n := MatchLength(Fernet, s);
    hide MatchLength;
    if n > 0 {
      FernetInWords(s[..n]);
      hide InLanguage;
      assert s[0] == s[..n][..5][0] == "gAAAA"[0] && s[1] == s[..n][..5][1] == "gAAAA"[1];
    }
  }

  /** A token after the head ends where a character is neither of a token nor white space. */
  lemma TokenLength(head: string, token: string, rest: string)
    requires IsHead(head) && token != "" && (forall i :: 0 <= i < |token| ==> IsTokenChar(token[i]))
    requires rest != "" && !Space(rest[0]) && !IsTokenChar(rest[0])
    ensures MatchLength(Bearer, head + token + rest) == 7 + |token|
  {
    var s, m := head + token + rest, 7 + |token|;
    hide MatchLength, Space, IsTokenChar;
    MatchIsLongestInLanguage(Bearer, s);
    assert s[..m] == head + token;
    HeadIsBearer(head, token);
    var n := MatchLength(Bearer, s);
    if n > m {
      assert s[..n][m] == rest[0];
      BearerHolds(s[..n], m);
    }
  }

  lemma BearerHolds(w: string, m: nat)
    requires InLanguage(Bearer, w) && 7 <= m < |w|
    ensures Space(w[m]) || IsTokenChar(w[m])
  {
    hide InLanguage, Space, IsTokenChar;
    BearerInWords(w);
    var k: nat :| IsBearerAt(w, k);
  }

  lemma HeadIsBearer(head: string, token: string)
    requires IsHead(head) && token != "" && (forall i :: 0 <= i < |token| ==> IsTokenChar(token[i]))
    ensures InLanguage(Bearer, head + token)
  {
    hide Space, IsTokenChar, InLanguage;
    var w := head + token;
    forall i | 0 <= i < 6 ensures w[i] == "bearer"[i] || w[i] as int == "bearer"[i] as int - 32 {
      assert SameLetter("bearer"[i], head[..6][i]);
    }
    assert IsBearerAt(w, 7);
    BearerInWords(w);
  }

  const ADDRESS := "postgres"
  const REST := "://u"

  /** A token is masked before it is taken for an address. */
  lemma TokenGoesBeforeUrl(head: string)
    requires IsHead(head)
    ensures RedactMessage(head + ADDRESS + REST) == MASK + REST
  {
    var s := head + ADDRESS + REST;
    AddressIsToken();
    TokenLength(head, ADDRESS, REST);
    NoEnvelope(head);
    RestStays();
    assert s[7 + |ADDRESS|..] == REST;
    assert Sub(Bearer, s) == MASK + Sub(Bearer, REST) by { hide MatchLength, InLanguage; }
    hide Sub;
  }

  lemma AddressIsToken()
    ensures ADDRESS != "" && (forall i :: 0 <= i < |ADDRESS| ==> IsTokenChar(ADDRESS[i]))
    ensures REST != "" && !Space(REST[0]) && !IsTokenChar(REST[0])
    ensures forall i :: 0 <= i < |ADDRESS| ==> ADDRESS[i] != 'A'
    ensures forall i :: 0 <= i < |REST| ==> REST[i] != 'g' && REST[i] != 'p' && REST[i] != 'b' && REST[i] != 'B'
  {}

  lemma NoEnvelope(head: string)
    requires IsHead(head)
    ensures var s := head + ADDRESS + REST; Sub(Fernet, s) == s
  {
    var s, n := head + ADDRESS + REST, |ADDRESS|;
    AddressIsToken();
    forall i | 0 <= i < 7 ensures head[i] != 'g' { HeadLetters(head, i); }
    hide Sub, MatchLength, IsHead, ADDRESS, REST;
    forall i | 0 <= i < |s| ensures MatchLength(Fernet, s[i..]) == 0 {
      FernetGoesOn(s[i..]);
      if 7 <= i < 7 + n - 1 {
        assert s[i + 1] == ADDRESS[i - 7 + 1];
      } else if i == 7 + n - 1 {
        assert s[i + 1] == REST[0];
      }
    }
    SubLeaves(Fernet, s);
  }

  lemma RestStays()
    ensures Sub(Bearer, REST) == REST && Sub(PgUrl, MASK + REST) == MASK + REST
  {
    AddressIsToken();
    forall i | 0 <= i < |MASK| ensures MASK[i] != 'p' { MaskLetters(i); }
    hide Sub, MatchLength, REST, MASK;
    forall i | 0 <= i < |REST| ensures MatchLength(Bearer, REST[i..]) == 0 { MatchBegins(Bearer, REST[i..]); }
    SubLeaves(Bearer, REST);
    var s := MASK + REST;
    forall i | 0 <= i < |s| ensures MatchLength(PgUrl, s[i..]) == 0 {
      MatchBegins(PgUrl, s[i..]);
      assert s[i..][0] == s[i];
    }
    SubLeaves(PgUrl, s);
  }

  // ---- Values ----

  datatype Label = Name(s: string) | OtherLabel(n: int)

  datatype Value =
    | Text(s: string)
    | Dict(entries: map<Label, Value>)
    | Items(items: seq<Value>)
    | Tuple(items: seq<Value>)
    | OtherValue(n: int)

  const SENSITIVE_KEYS: set<string> :=
    {"authorization", "token", "ciphertext", "password", "database_url", "supabase_database_url",
     "tenant_token_key", "backend_secret", "gemini_api_key", "canvas_api_token", "api_key", "secret"}

  predicate IsSensitive(key: Label) {
    key.Name? && Lower(key.s) in SENSITIVE_KEYS
  }

  /** One of the twelve names of secrets, in letters of any case. */
  predicate NamesSecret(s: string) {
    || SameLetters("authorization", s) || SameLetters("token", s) || SameLetters("ciphertext", s)
    || SameLetters("password", s) || SameLetters("database_url", s) || SameLetters("supabase_database_url", s)
    || SameLetters("tenant_token_key", s) || SameLetters("backend_secret", s) || SameLetters("gemini_api_key", s)
    || SameLetters("canvas_api_token", s) || SameLetters("api_key", s) || SameLetters("secret", s)
  }

  lemma SensitiveExactly(key: Label)
    ensures IsSensitive(key) <==> key.Name? && NamesSecret(key.s)
  {
    if key.Name? {
      KeysAreLower();
      hide Lower, SameLetters, NoCapitals;
      forall w | w in SENSITIVE_KEYS ensures Lower(key.s) == w <==> SameLetters(w, key.s) {
        LowerIsSpelling(w, key.s);
      }
    }
  }

  lemma KeysAreLower()
    ensures forall w :: w in SENSITIVE_KEYS ==> NoCapitals(w)
  {
    ShortKeysAreLower();
    LongKeysAreLower();
    hide NoCapitals;
  }

  lemma ShortKeysAreLower()
    ensures NoCapitals("authorization") && NoCapitals("token") && NoCapitals("ciphertext")
    ensures NoCapitals("password") && NoCapitals("api_key") && NoCapitals("secret")
  {}

  lemma LongKeysAreLower()
    ensures NoCapitals("database_url") && NoCapitals("supabase_database_url") && NoCapitals("tenant_token_key")
    ensures NoCapitals("backend_secret") && NoCapitals("gemini_api_key") && NoCapitals("canvas_api_token")
  {}

  function RedactValue(v: Value): Value {
    match v
    case Text(s) => Text(RedactMessage(s))
    case Dict(m) => Dict(map k | k in m :: if IsSensitive(k) then Text(MASK) else RedactValue(m[k]))
    case Items(vs) => Items(seq(|vs|, i requires 0 <= i < |vs| => RedactValue(vs[i])))
    case Tuple(vs) => Tuple(seq(|vs|, i requires 0 <= i < |vs| => RedactValue(vs[i])))
    case OtherValue(_) => v
  }

  /** No credential in a text, at any depth, and nothing but the mask under a sensitive key. */
  ghost predicate Safe(v: Value) {
    match v
    case Text(s) => NoCredential(s)
    case Dict(m) => forall k :: k in m ==> if IsSensitive(k) then m[k] == Text(MASK) else Safe(m[k])
    case Items(vs) => forall i :: 0 <= i < |vs| ==> Safe(vs[i])
    case Tuple(vs) => forall i :: 0 <= i < |vs| ==> Safe(vs[i])
    case OtherValue(_) => true
  }

  /** The same containers with the same keys and lengths, down to the texts and the masked values. */
  ghost predicate SameShape(v: Value, w: Value) {
    match v
    case Text(_) => w.Text?
    case Dict(m) =>
      w.Dict? && w.entries.Keys == m.Keys
      && forall k :: k in m ==> if IsSensitive(k) then w.entries[k] == Text(MASK) else SameShape(m[k], w.entries[k])
    case Items(vs) =>
      w.Items? && |w.items| == |vs| && forall i :: 0 <= i < |vs| ==> SameShape(vs[i], w.items[i])
    case Tuple(vs) =>
      w.Tuple? && |w.items| == |vs| && forall i :: 0 <= i < |vs| ==> SameShape(vs[i], w.items[i])
    case OtherValue(_) => w == v
  }

  lemma {:induction false} RedactedIsSafe(v: Value)
    ensures Safe(RedactValue(v)) && SameShape(v, RedactValue(v))
  {
    hide RedactMessage, NoCredential;
    match v
    case Text(s) => RedactedHasNoCredential(s);
    case Dict(m) => forall k | k in m { RedactedIsSafe(m[k]); }
    case Items(vs) => forall i | 0 <= i < |vs| { RedactedIsSafe(vs[i]); }
    case Tuple(vs) => forall i | 0 <= i < |vs| { RedactedIsSafe(vs[i]); }
    case OtherValue(_) =>
  }

  /** Redaction changes nothing exactly in values that are safe already. */
  lemma {:induction false} RedactionFixesSafeValues(v: Value)
    ensures RedactValue(v) == v <==> Safe(v)
  {
    RedactedIsSafe(v);
    hide RedactMessage, NoCredential;
    if Safe(v) {
      match v
      case Text(s) => RedactionFixesCleanMessages(s);
      case Dict(m) => forall k | k in m && !IsSensitive(k) { RedactionFixesSafeValues(m[k]); }
      case Items(vs) => forall i | 0 <= i < |vs| { RedactionFixesSafeValues(vs[i]); }
      case Tuple(vs) => forall i | 0 <= i < |vs| { RedactionFixesSafeValues(vs[i]); }
      case OtherValue(_) =>
    }
  }

  lemma RedactionIsIdempotent(v: Value)
    ensures RedactValue(RedactValue(v)) == RedactValue(v)
  {
    RedactedIsSafe(v);
    RedactionFixesSafeValues(RedactValue(v));
  }

  /** At every depth there is nothing but the mask under the name of a secret. */
  ghost predicate SecretsMasked(v: Value) {
    match v
    case Dict(m) =>
      forall k :: k in m ==>
        if k.Name? && NamesSecret(k.s) then m[k] == Text("***REDACTED***") else SecretsMasked(m[k])
    case Items(vs) => forall i :: 0 <= i < |vs| ==> SecretsMasked(vs[i])
    case Tuple(vs) => forall i :: 0 <= i < |vs| ==> SecretsMasked(vs[i])
    case _ => true
  }

  lemma {:induction false} RedactedMasksSecrets(v: Value)
    ensures SecretsMasked(RedactValue(v))
  {
    hide RedactMessage, NamesSecret, IsSensitive;
    match v
    case Text(_) =>
    case Dict(m) =>
      forall k | k in m
        ensures var x := RedactValue(v).entries[k];
          if k.Name? && NamesSecret(k.s) then x == Text("***REDACTED***") else SecretsMasked(x)
      {
        SensitiveExactly(k);
        RedactedMasksSecrets(m[k]);
      }
    case Items(vs) => forall i | 0 <= i < |vs| { RedactedMasksSecrets(vs[i]); }
    case Tuple(vs) => forall i | 0 <= i < |vs| { RedactedMasksSecrets(vs[i]); }
    case OtherValue(_) =>
  }

  method RedactDict(payload: map<Label, Value>) returns (redacted: map<Label, Value>)
    ensures Dict(redacted) == RedactValue(Dict(payload))
    ensures redacted.Keys == payload.Keys && SecretsMasked(Dict(redacted))
    ensures forall key :: key in payload ==>
      redacted[key] == if key.Name? && NamesSecret(key.s) then Text("***REDACTED***") else RedactValue(payload[key])
  {
    hide NamesSecret, IsSensitive, RedactMessage, SecretsMasked;
    RedactedMasksSecrets(Dict(payload));
    redacted := map[];
    var todo := payload.Keys;
    while todo != {}
      invariant todo <= payload.Keys && redacted.Keys == payload.Keys - todo
      invariant forall k :: k in redacted ==>
        redacted[k] == if IsSensitive(k) then Text(MASK) else RedactValue(payload[k])
    {
      var key :| key in todo;
      if IsSensitive(key) {
        redacted := redacted[key := Text(MASK)];
      } else {
        redacted := redacted[key := RedactValue(payload[key])];
      }
      todo := todo - {key};
    }
    forall key | key in payload ensures IsSensitive(key) <==> key.Name? && NamesSecret(key.s) { SensitiveExactly(key); }
  }
}
