/** The three regular expressions for credentials: their languages, and the automaton that finds the
    longest match at a place. */
module CredentialPatterns {
  import opened Wrappers

  datatype Pattern = Fernet | Bearer | PgUrl

  // ---- The regular expressions ----

  predicate Letter(c: char) {
    'a' <= c <= 'z' || 'A' <= c <= 'Z'
  }

  predicate Digit(c: char) {
    '0' <= c <= '9'
  }

  /** White space as regular expressions over text see it. */
  predicate Space(c: char) {
    || '\t' <= c <= '\r' || '\U{1C}' <= c <= ' ' || c == '\U{85}' || c == '\U{A0}' || c == '\U{1680}'
    || '\U{2000}' <= c <= '\U{200A}' || c == '\U{2028}' || c == '\U{2029}' || c == '\U{202F}'
    || c == '\U{205F}' || c == '\U{3000}'
  }

  /** The letters a case-insensitive A-Z adds to the ASCII ones. */
  predicate FoldsToLetter(c: char) {
    c == '\U{130}' || c == '\U{131}' || c == '\U{17F}' || c == '\U{212A}'
  }

  /** The characters of the secret part. */
  predicate BodyChar(p: Pattern, c: char) {
    match p
    case Fernet => Letter(c) || Digit(c) || c == '_' || c == '-' || c == '='
    case Bearer =>
      Letter(c) || FoldsToLetter(c) || Digit(c)
      || c == '.' || c == '_' || c == '-' || c == '+' || c == '/' || c == '='
    case PgUrl => !Space(c) && c != '"' && c != '\'' && c != '<' && c != '>'
  }

  function Word(p: Pattern): string {
    match p case Fernet => "gAAAA" case Bearer => "bearer" case PgUrl => "postgres"
  }

  /** Only the second pattern ignores case. */
  predicate WordChar(p: Pattern, i: nat, c: char)
    requires i < |Word(p)|
  {
    c == Word(p)[i] || (p.Bearer? && c == Word(p)[i] - '\U{20}')
  }

  predicate StartsWithWord(p: Pattern, w: string) {
    |w| >= |Word(p)| && forall i :: 0 <= i < |Word(p)| ==> WordChar(p, i, w[i])
  }

  predicate Body(p: Pattern, w: string) {
    w != "" && forall c <- w :: BodyChar(p, c)
  }

  predicate Driver(w: string) {
    w == "" || (|w| > 1 && w[0] == '+' && forall c <- w[1..] :: Letter(c))
  }

  /** What stands between the word and the secret part. */
  predicate Middle(p: Pattern, w: string) {
    match p
    case Fernet => w == ""
    case Bearer => w != "" && forall c <- w :: Space(c)
    case PgUrl => EndsInSlashes(w) && MiddleOfUrl(w[..|w| - 3])
  }

  /** It ends in `://`. */
  predicate EndsInSlashes(w: string) {
    |w| >= 3 && w[|w| - 3] == ':' && w[|w| - 2] == '/' && w[|w| - 1] == '/'
  }

  predicate MiddleOfUrl(w: string) {
    Driver(w) || (|w| >= 2 && w[0] == 'q' && w[1] == 'l' && Driver(w[2..]))
  }

  /** The language of a pattern: `gAAAA` and the envelope; `Bearer`, white space and the token;
      `postgres`, `ql` or not, a driver or not, `://` and the rest of the address. */
  ghost predicate InLanguage(p: Pattern, w: string) {
    StartsWithWord(p, w)
    && exists k :: |Word(p)| <= k <= |w| && Middle(p, w[|Word(p)|..k]) && Body(p, w[k..])
  }

  // ---- The languages in words, by the codes of their characters ----

  predicate IsAlnum(c: char) {
    48 <= c as int <= 57 || 65 <= c as int <= 90 || 97 <= c as int <= 122
  }

  /** White space: the control characters and blanks of Unicode that count as such. */
  lemma SpaceInWords(c: char)
    ensures Space(c)
            <==> var n := c as int;
                 9 <= n <= 13 || 28 <= n <= 32 || n == 133 || n == 160 || n == 5760 || 8192 <= n <= 8202
                 || n == 8232 || n == 8233 || n == 8239 || n == 8287 || n == 12288
  {}

  /** `gAAAA` and at least one more of letters, digits, underscores, hyphens and equals signs. */
  lemma FernetInWords(w: string)
    ensures InLanguage(Fernet, w)
            <==> |w| > 5 && w[..5] == "gAAAA"
                 && forall i :: 5 <= i < |w| ==> IsAlnum(w[i]) || w[i] == '_' || w[i] == '-' || w[i] == '='
  {
    var n := |Word(Fernet)|;
    if InLanguage(Fernet, w) {
      var k :| n <= k <= |w| && Middle(Fernet, w[n..k]) && Body(Fernet, w[k..]);
      assert forall i :: n <= i < |w| ==> w[i] == w[k..][i - k] && w[i] in w[k..];
    }
    if |w| > 5 && w[..5] == "gAAAA" && forall i :: 5 <= i < |w| ==> IsAlnum(w[i]) || w[i] == '_' || w[i] == '-' || w[i] == '=' {
      assert forall i :: 0 <= i < 5 ==> w[i] == w[..5][i];
      assert Middle(Fernet, w[n..n]) && Body(Fernet, w[n..]);
    }
  }

  predicate IsTokenChar(c: char) {
    IsAlnum(c) || c == '.' || c == '_' || c == '-' || c == '+' || c == '/' || c == '='
    || c as int == 0x130 || c as int == 0x131 || c as int == 0x17F || c as int == 0x212A
  }

  predicate IsBearerAt(w: string, k: nat) {
    && 7 <= k < |w|
    && (forall i :: 0 <= i < 6 ==> w[i] == "bearer"[i] || w[i] as int == "bearer"[i] as int - 32)
    && (forall i :: 6 <= i < k ==> Space(w[i])) && (forall i :: k <= i < |w| ==> IsTokenChar(w[i]))
  }

  lemma BearerIsAt(w: string) returns (k: nat)
    requires InLanguage(Bearer, w)
    ensures IsBearerAt(w, k)
  {
    var n := |Word(Bearer)|;
    k :| n <= k <= |w| && Middle(Bearer, w[n..k]) && Body(Bearer, w[k..]);
    assert forall i :: 0 <= i < n ==> WordChar(Bearer, i, w[i]);
    assert forall i :: n <= i < k ==> w[i] == w[n..k][i - n] && w[i] in w[n..k];
    hide Space;
    assert forall i :: k <= i < |w| ==> w[i] == w[k..][i - k] && w[i] in w[k..];
  }

  lemma BearerFrom(w: string, k: nat)
    requires IsBearerAt(w, k)
    ensures InLanguage(Bearer, w)
  {
    var n := |Word(Bearer)|;
    assert forall i :: 0 <= i < n ==> WordChar(Bearer, i, w[i]);
    hide Space;
    assert forall c <- w[n..k] :: Space(c);
    assert forall c <- w[k..] :: BodyChar(Bearer, c);
    assert Middle(Bearer, w[n..k]) && Body(Bearer, w[k..]);
  }

  /** `bearer` in letters of any case, white space, and a token. */
  lemma BearerInWords(w: string)
    ensures InLanguage(Bearer, w) <==> exists k: nat :: IsBearerAt(w, k)
  {
    hide InLanguage, IsBearerAt;
    if InLanguage(Bearer, w) { var k := BearerIsAt(w); }
    if k: nat :| IsBearerAt(w, k) { BearerFrom(w, k); }
  }

  /** `postgres` or `postgresql`, with a driver or without. */
  predicate IsSchemeOf(w: string, name: string, driver: string) {
    w == name + driver && (name == "postgres" || name == "postgresql") && IsDriver(driver)
  }

  ghost predicate IsScheme(w: string) {
    exists name, driver :: IsSchemeOf(w, name, driver)
  }

  ghost predicate IsUrlAt(w: string, k: nat) {
    && 3 <= k < |w| && w[k - 3] == ':' && w[k - 2] == '/' && w[k - 1] == '/' && IsScheme(w[..k - 3])
    && forall i :: k <= i < |w| ==>
         !Space(w[i]) && w[i] as int != 34 && w[i] as int != 39 && w[i] as int != 60 && w[i] as int != 62
  }

  predicate IsDriver(w: string) {
    w == "" || (|w| > 1 && w[0] == '+'
                && forall i :: 1 <= i < |w| ==> 65 <= w[i] as int <= 90 || 97 <= w[i] as int <= 122)
  }

  lemma DriverInWords(w: string)
    ensures Driver(w) <==> IsDriver(w)
  {
    if |w| > 1 {
      assert forall i :: 1 <= i < |w| ==> w[i] == w[1..][i - 1];
      assert Driver(w) ==> forall i :: 1 <= i < |w| ==> w[i] in w[1..];
    }
  }

  lemma PostgresIs(w: string)
    ensures StartsWithWord(PgUrl, w) <==> |w| >= 8 && w[..8] == "postgres"
  {
    if |w| >= 8 && w[..8] == "postgres" {
      forall i | 0 <= i < 8 ensures WordChar(PgUrl, i, w[i]) { assert w[i] == w[..8][i]; }
    }
    if StartsWithWord(PgUrl, w) {
      forall i | 0 <= i < 8 ensures w[..8][i] == "postgres"[i] { assert WordChar(PgUrl, i, w[i]); }
    }
  }

  /** What follows the word up to `://`, and the scheme as a whole. */
  lemma SchemeIs(w: string)
    requires |w| >= 8 && w[..8] == "postgres"
    ensures MiddleOfUrl(w[8..]) <==> IsScheme(w)
  {
    var m := w[8..];
    assert w == "postgres" + m;
    DriverInWords(m);
    if |m| >= 2 { DriverInWords(m[2..]); }
    hide Driver, IsDriver;
    if MiddleOfUrl(m) {
      if Driver(m) {
        assert IsSchemeOf(w, "postgres", m);
      } else {
        assert m == "ql" + m[2..];
        assert IsSchemeOf(w, "postgresql", m[2..]);
      }
    }
    if name, driver :| IsSchemeOf(w, name, driver) {
      if name == "postgres" {
        assert m == driver;
      } else {
        assert m == "ql" + driver && m[2..] == driver;
      }
    }
  }

  lemma RestIs(w: string, k: nat)
    requires k <= |w|
    ensures Body(PgUrl, w[k..])
            <==> k < |w| && forall i :: k <= i < |w| ==>
                   !Space(w[i]) && w[i] as int != 34 && w[i] as int != 39 && w[i] as int != 60 && w[i] as int != 62
  {
    hide Space;
    assert forall i :: k <= i < |w| ==> w[i] == w[k..][i - k];
    if Body(PgUrl, w[k..]) {
      assert forall i :: k <= i < |w| ==> w[i] in w[k..];
    }
  }

  lemma UrlIsAt(w: string, k: nat)
    requires 8 <= k <= |w| && w[..8] == "postgres"
    ensures Middle(PgUrl, w[8..k]) && Body(PgUrl, w[k..]) <==> IsUrlAt(w, k) && k >= 11
  {
    RestIs(w, k);
    if k >= 11 {
      assert w[..k - 3][..8] == "postgres" && w[..k - 3][8..] == w[8..k][..k - 11];
      SchemeIs(w[..k - 3]);
    }
    hide Body, MiddleOfUrl, IsScheme, Space;
  }

  /** `postgres` or `postgresql`, a driver or not, `://`, and the rest of the address. */
  lemma PgUrlInWords(w: string)
    ensures InLanguage(PgUrl, w) <==> exists k: nat :: IsUrlAt(w, k)
  {
    PostgresIs(w);
    hide StartsWithWord, Middle, Body, IsScheme;
    if InLanguage(PgUrl, w) {
      var k :| 8 <= k <= |w| && Middle(PgUrl, w[8..k]) && Body(PgUrl, w[k..]);
      UrlIsAt(w, k);
    }
    if k: nat :| IsUrlAt(w, k) {
      SchemeIsLong(w[..k - 3]);
      assert w[..8] == w[..k - 3][..8];
      UrlIsAt(w, k);
    }
  }

  lemma SchemeIsLong(w: string)
    requires IsScheme(w)
    ensures |w| >= 8 && w[..8] == "postgres"
  {
    var name, driver :| IsSchemeOf(w, name, driver);
    hide IsDriver;
    assert name[..8] == "postgres";
  }

  // ---- Matching ----

  /** How much of the pattern is behind: some letters of the word; white space; parts of an address;
      nothing or something of the secret part. */
  datatype State =
    | InWord(at: nat)
    | Gap | Gaps
    | Scheme | Q | Ql | Plus | InDriver | Colon | Slash
    | NoBody | SomeBody

  const START := InWord(0)

  function AfterWord(p: Pattern): State {
    match p case Fernet => NoBody case Bearer => Gap case PgUrl => Scheme
  }

  function Step(p: Pattern, q: State, c: char): Option<State> {
    match q
    case InWord(i) =>
      if i < |Word(p)| && WordChar(p, i, c) then Some(if i + 1 == |Word(p)| then AfterWord(p) else InWord(i + 1))
      else None
    case Gap => if Space(c) then Some(Gaps) else None
    case Gaps => if Space(c) then Some(Gaps) else if BodyChar(p, c) then Some(SomeBody) else None
    case Scheme => if c == 'q' then Some(Q) else AfterName(c)
    case Q => if c == 'l' then Some(Ql) else None
    case Ql => AfterName(c)
    case Plus => if Letter(c) then Some(InDriver) else None
    case InDriver => if Letter(c) then Some(InDriver) else if c == ':' then Some(Colon) else None
    case Colon => if c == '/' then Some(Slash) else None
    case Slash => if c == '/' then Some(NoBody) else None
    case NoBody => if BodyChar(p, c) then Some(SomeBody) else None
    case SomeBody => if BodyChar(p, c) then Some(SomeBody) else None
  }

  function AfterName(c: char): Option<State> {
    if c == '+' then Some(Plus) else if c == ':' then Some(Colon) else None
  }

  /** The length of the longest prefix that completes the pattern from a state. */
  function Longest(p: Pattern, q: State, s: string): (n: Option<nat>)
    ensures n.Some? ==> n.value <= |s|
    decreases s
  {
    var further :=
      if s == "" || Step(p, q, s[0]).None? then None else Longest(p, Step(p, q, s[0]).value, s[1..]);
    if further.Some? then Some(further.value + 1)
    else if q.SomeBody? then Some(0)
    else None
  }

  predicate Accepts(p: Pattern, q: State, w: string)
    decreases w
  {
    if w == "" then q.SomeBody?
    else Step(p, q, w[0]).Some? && Accepts(p, Step(p, q, w[0]).value, w[1..])
  }

  lemma {:induction false} LongestIsAccepted(p: Pattern, q: State, s: string)
    requires Longest(p, q, s).Some?
    ensures Accepts(p, q, s[..Longest(p, q, s).value])
    decreases s
  {
    hide Step;
    var n := Longest(p, q, s).value;
    if n > 0 {
      LongestIsAccepted(p, Step(p, q, s[0]).value, s[1..]);
      assert s[..n][1..] == s[1..][..n - 1];
    }
  }

  lemma {:induction false} LongestIsLongest(p: Pattern, q: State, s: string, m: nat)
    requires m <= |s| && Accepts(p, q, s[..m])
    ensures Longest(p, q, s).Some? && m <= Longest(p, q, s).value
    decreases s
  {
    hide Step;
    if m > 0 {
      assert s[..m][1..] == s[1..][..m - 1];
      LongestIsLongest(p, Step(p, q, s[0]).value, s[1..], m - 1);
    }
  }

  // ---- The states accept the language ----

  lemma {:induction false} BodyIsAccepted(p: Pattern, q: State, w: string)
    requires q == NoBody || q == SomeBody
    ensures Accepts(p, q, w) <==> (w == "" && q.SomeBody?) || Body(p, w)
    decreases w
  {
    if w != "" {
      BodyIsAccepted(p, SomeBody, w[1..]);
      assert w == [w[0]] + w[1..];
    }
  }

  /** The states of a pattern between its word and its secret part. */
  predicate IsMiddle(p: Pattern, q: State) {
    match p
    case Fernet => q.NoBody?
    case Bearer => q.Gap? || q.Gaps?
    case PgUrl =>
      q.Scheme? || q.Q? || q.Ql? || q.Plus? || q.InDriver? || q.Colon? || q.Slash? || q.NoBody?
  }

  /** What may still come before the secret part. */
  predicate MiddleFrom(q: State, w: string) {
    match q
    case Gap => w != "" && forall c <- w :: Space(c)
    case Gaps => forall c <- w :: Space(c)
    case Colon => |w| == 2 && w[0] == '/' && w[1] == '/'
    case Slash => |w| == 1 && w[0] == '/'
    case NoBody => w == ""
    case _ => EndsInSlashes(w) && NameFrom(q, w[..|w| - 3])
  }

  predicate NameFrom(q: State, w: string) {
    match q
    case Scheme => MiddleOfUrl(w)
    case Q => w != "" && w[0] == 'l' && Driver(w[1..])
    case Ql => Driver(w)
    case Plus => w != "" && forall c <- w :: Letter(c)
    case InDriver => forall c <- w :: Letter(c)
    case _ => false
  }

  predicate IsName(q: State) {
    q.Scheme? || q.Q? || q.Ql? || q.Plus? || q.InDriver?
  }

  lemma NameStep(q: State, c: char, w: string)
    requires IsName(q)
    ensures NameFrom(q, [c] + w) <==> Step(PgUrl, q, c).Some? && NameFrom(Step(PgUrl, q, c).value, w)
    ensures NameFrom(q, "") <==> Step(PgUrl, q, ':') == Some(Colon)
    ensures Step(PgUrl, q, c) == Some(Colon) ==> c == ':'
  {
    var u := [c] + w;
    assert u[1..] == w;
    if w != "" {
      assert u[2..] == w[1..];
    }
  }

  lemma NameMiddleStep(q: State, c: char, w: string)
    requires IsName(q)
    ensures MiddleFrom(q, [c] + w)
            <==> Step(PgUrl, q, c).Some? && MiddleFrom(Step(PgUrl, q, c).value, w)
  {
    NextOfName(q, c);
    if |w| >= 3 {
      NameStep(q, c, w[..|w| - 3]);
      hide NameFrom, Step;
      SuffixStays(c, w);
    } else {
      NameStep(q, c, "");
      hide NameFrom, Step;
      SuffixBegins(c, w);
    }
  }

  lemma SuffixStays(c: char, w: string)
    requires |w| >= 3
    ensures var u := [c] + w; (EndsInSlashes(u) <==> EndsInSlashes(w)) && u[..|u| - 3] == [c] + w[..|w| - 3]
  {}

  lemma SuffixBegins(c: char, w: string)
    requires |w| < 3
    ensures var u := [c] + w;
      EndsInSlashes(u) <==> c == ':' && |w| == 2 && w[0] == '/' && w[1] == '/'
    ensures var u := [c] + w; |w| == 2 ==> u[..|u| - 3] == ""
  {}

  lemma NextOfName(q: State, c: char)
    requires IsName(q)
    ensures Step(PgUrl, q, c).Some? ==> IsName(Step(PgUrl, q, c).value) || Step(PgUrl, q, c).value.Colon?
    ensures forall w :: !NameFrom(Colon, w)
  {}

  lemma SpacesStep(c: char, w: string)
    ensures (forall d <- [c] + w :: Space(d)) <==> Space(c) && forall d <- w :: Space(d)
  {
    hide Space;
    assert forall d :: d in [c] + w <==> d == c || d in w;
  }

  lemma MiddleStep(p: Pattern, q: State, c: char, w: string)
    requires IsMiddle(p, q)
    ensures MiddleFrom(q, [c] + w)
            <==> Step(p, q, c).Some? && IsMiddle(p, Step(p, q, c).value) && MiddleFrom(Step(p, q, c).value, w)
  {
    if IsName(q) {
      hide MiddleFrom;
      NameMiddleStep(q, c, w);
      NextOfName(q, c);
    } else if p.Bearer? {
      hide Space;
      SpacesStep(c, w);
    } else {
      hide NameFrom;
      assert |[c] + w| == |w| + 1 && ([c] + w)[0] == c && ([c] + w)[1..] == w;
    }
  }

  ghost predicate Splits(p: Pattern, q: State, w: string, k: int) {
    0 <= k <= |w| && MiddleFrom(q, w[..k]) && Body(p, w[k..])
  }

  lemma SplitsLater(p: Pattern, q: State, w: string, k: nat)
    requires IsMiddle(p, q) && w != ""
    ensures Splits(p, q, w, k + 1)
            <==> Step(p, q, w[0]).Some? && IsMiddle(p, Step(p, q, w[0]).value)
                 && Splits(p, Step(p, q, w[0]).value, w[1..], k)
  {
    if k < |w| {
      assert w[..k + 1] == [w[0]] + w[1..][..k];
      assert w[1..][k..] == w[k + 1..];
      MiddleStep(p, q, w[0], w[1..][..k]);
    }
  }

  /** A state that allows the secret part to begin lets it. */
  lemma BodyStart(p: Pattern, q: State, w: string)
    requires IsMiddle(p, q) && MiddleFrom(q, "") && Body(p, w)
    ensures Accepts(p, q, w)
  {
    assert q.Gaps? || q.NoBody?;
    assert w[0] in w && BodyChar(p, w[0]);
    BodyIsAccepted(p, SomeBody, w[1..]);
    assert forall c <- w[1..] :: c in w && BodyChar(p, c);
    BodyCharIsNoSpace(p, w[0]);
    hide BodyChar, Space;
  }

  /** White space before a token cannot be taken for its beginning. */
  lemma BodyCharIsNoSpace(p: Pattern, c: char)
    requires BodyChar(p, c)
    ensures !Space(c)
  {}

  lemma MiddleNext(p: Pattern, q: State, c: char)
    requires IsMiddle(p, q) && Step(p, q, c).Some?
    ensures var q' := Step(p, q, c).value; IsMiddle(p, q') || (q'.SomeBody? && MiddleFrom(q, "") && BodyChar(p, c))
  {}

  lemma BodyBegins(p: Pattern, w: string)
    requires w != "" && BodyChar(p, w[0]) && Accepts(p, SomeBody, w[1..])
    ensures Body(p, w)
  {
    BodyIsAccepted(p, SomeBody, w[1..]);
    hide BodyChar;
    assert w == [w[0]] + w[1..];
  }

  lemma {:induction false} MiddleIsAccepted(p: Pattern, q: State, w: string)
    requires IsMiddle(p, q)
    ensures Accepts(p, q, w) <==> exists k :: Splits(p, q, w, k)
    decreases w
  {
    if w != "" {
      assert w[0..] == w;
      hide Step, Body, MiddleFrom;
      if Accepts(p, q, w) {
        var q' := Step(p, q, w[0]).value;
        MiddleNext(p, q, w[0]);
        if q'.SomeBody? {
          BodyBegins(p, w);
          assert Splits(p, q, w, 0) by { assert w[..0] == ""; }
        } else {
          MiddleIsAccepted(p, q', w[1..]);
          var k :| Splits(p, q', w[1..], k);
          SplitsLater(p, q, w, k);
        }
      }
      if k :| Splits(p, q, w, k) {
        if k == 0 {
          BodyStart(p, q, w) by { assert w[..0] == ""; }
        } else {
          SplitsLater(p, q, w, k - 1);
          MiddleIsAccepted(p, Step(p, q, w[0]).value, w[1..]);
        }
      }
    }
  }

  predicate WordFrom(p: Pattern, i: nat, w: string)
    requires i <= |Word(p)|
  {
    |w| >= |Word(p)| - i && forall j :: 0 <= j < |Word(p)| - i ==> WordChar(p, i + j, w[j])
  }

  lemma WordFromNext(p: Pattern, i: nat, w: string)
    requires i < |Word(p)| && w != ""
    ensures WordFrom(p, i, w) <==> WordChar(p, i, w[0]) && WordFrom(p, i + 1, w[1..])
  {
    hide WordChar;
    var n := |Word(p)|;
    if WordFrom(p, i, w) {
      assert WordChar(p, i + 0, w[0]);
      forall j | 0 <= j < n - i - 1 ensures WordChar(p, i + 1 + j, w[1..][j]) {
        assert WordChar(p, i + (j + 1), w[j + 1]);
      }
    }
    if WordChar(p, i, w[0]) && WordFrom(p, i + 1, w[1..]) {
      forall j | 0 <= j < n - i ensures WordChar(p, i + j, w[j]) {
        if j > 0 { assert WordChar(p, i + 1 + (j - 1), w[1..][j - 1]); }
      }
    }
  }

  lemma {:induction false} WordIsAccepted(p: Pattern, i: nat, w: string)
    requires i < |Word(p)|
    ensures Accepts(p, InWord(i), w) <==> WordFrom(p, i, w) && Accepts(p, AfterWord(p), w[|Word(p)| - i..])
    decreases |Word(p)| - i
  {
    if w != "" {
      var n, rest := |Word(p)|, w[1..];
      WordFromNext(p, i, w);
      WordStep(p, i, w[0]);
      assert Accepts(p, InWord(i), w) <==> Step(p, InWord(i), w[0]).Some? && Accepts(p, Step(p, InWord(i), w[0]).value, rest);
      assert |w| >= n - i ==> rest[n - i - 1..] == w[n - i..];
      if i + 1 < n {
        WordIsAccepted(p, i + 1, rest);
      } else {
        assert WordFrom(p, n, rest);
      }
      assert WordFrom(p, i, w) ==> |w| >= n - i;
      hide WordFrom, WordChar, Step, Accepts, AfterWord, Word;
    }
  }

  lemma WordStep(p: Pattern, i: nat, c: char)
    requires i < |Word(p)|
    ensures Step(p, InWord(i), c)
            == if !WordChar(p, i, c) then None
               else Some(if i + 1 == |Word(p)| then AfterWord(p) else InWord(i + 1))
  {}

  lemma MiddleAfterWord(p: Pattern, m: string)
    ensures MiddleFrom(AfterWord(p), m) == Middle(p, m)
  {}

  lemma SplitsAfterWord(p: Pattern, w: string, k: nat)
    requires |Word(p)| <= k <= |w|
    ensures var n := |Word(p)|;
      Splits(p, AfterWord(p), w[n..], k - n) <==> Middle(p, w[n..k]) && Body(p, w[k..])
  {
    hide Middle, MiddleFrom, Body, Word, AfterWord;
    var n := |Word(p)|;
    MiddleAfterWord(p, w[n..k]);
    assert w[n..k] == w[n..][..k - n] && w[k..] == w[n..][k - n..];
  }

  /** The automaton accepts exactly the language of the regular expression. */
  lemma AcceptsIsLanguage(p: Pattern, w: string)
    ensures Accepts(p, START, w) <==> InLanguage(p, w)
  {
    WordIsAccepted(p, 0, w);
    assert WordFrom(p, 0, w) <==> StartsWithWord(p, w);
    assert IsMiddle(p, AfterWord(p));
    hide Accepts, Middle, Body, Word, AfterWord, StartsWithWord, WordFrom;
    if StartsWithWord(p, w) {
      var rest, n := w[|Word(p)|..], |Word(p)|;
      MiddleIsAccepted(p, AfterWord(p), rest);
      if k :| Splits(p, AfterWord(p), rest, k) {
        SplitsAfterWord(p, w, n + k);
      }
      if k :| n <= k <= |w| && Middle(p, w[n..k]) && Body(p, w[k..]) {
        SplitsAfterWord(p, w, k);
      }
    }
  }

  function MatchLength(p: Pattern, s: string): (n: nat)
    ensures n <= |s|
  {
    if Longest(p, START, s).Some? then Longest(p, START, s).value else 0
  }

  lemma NothingIsNotAccepted(p: Pattern)
    ensures !Accepts(p, START, "")
  {}

  /** A match is the longest prefix in the language, and there is one whenever some prefix is. */
  lemma MatchIsLongestInLanguage(p: Pattern, s: string)
    ensures var n := MatchLength(p, s);
      (n > 0 ==> InLanguage(p, s[..n])) && forall m :: 0 <= m <= |s| && InLanguage(p, s[..m]) ==> 0 < m <= n
  {
    hide InLanguage, Accepts, Longest;
    var n := MatchLength(p, s);
    if n > 0 {
      LongestIsAccepted(p, START, s);
      AcceptsIsLanguage(p, s[..n]);
    }
    forall m | 0 <= m <= |s| && InLanguage(p, s[..m]) ensures 0 < m <= n {
      AcceptsIsLanguage(p, s[..m]);
      LongestIsLongest(p, START, s, m);
      NothingIsNotAccepted(p);
    }
  }
}
