/** The registry of SQL templates: `{{ name }}` placeholders become bound parameters `:name`, one slot
    after the other. */
module Templates {
  import opened Wrappers
  import CredentialPatterns

  datatype SqlTemplate = SqlTemplate(name: string, sql: string, slots: set<string>)

  datatype Refusal = UndeclaredPlaceholder | UnknownTemplate | WrongSlots

  // ---- Placeholders ----

  predicate Space(c: char) {
    CredentialPatterns.Space(c)
  }

  predicate NameStart(c: char) {
    CredentialPatterns.Letter(c) || c == '_'
  }

  predicate NameChar(c: char) {
    NameStart(c) || CredentialPatterns.Digit(c)
  }

  predicate IsIdentifier(name: string) {
    name != "" && NameStart(name[0]) && forall c <- name :: NameChar(c)
  }

  /** A letter or an underscore, and then digits too, by their codes. */
  lemma IdentifierInWords(name: string)
    ensures IsIdentifier(name)
            <==> name != ""
                 && (forall i :: 0 <= i < |name| ==>
                       var c := name[i] as int; 65 <= c <= 90 || 97 <= c <= 122 || c == 95 || (i > 0 && 48 <= c <= 57))
  {
    if IsIdentifier(name) {
      assert forall i :: 0 <= i < |name| ==> name[i] in name;
    }
  }

  /** How much of a placeholder is behind. */
  datatype Progress = Nothing | Brace | Braces | InName | AfterName | Closing | Closed

  function Step(q: Progress, c: char): Option<Progress> {
    match q
    case Nothing => if c == '{' then Some(Brace) else None
    case Brace => if c == '{' then Some(Braces) else None
    case Braces => if Space(c) then Some(Braces) else if NameStart(c) then Some(InName) else None
    case InName =>
      if NameChar(c) then Some(InName)
      else if Space(c) then Some(AfterName)
      else if c == '}' then Some(Closing) else None
    case AfterName => if Space(c) then Some(AfterName) else if c == '}' then Some(Closing) else None
    case Closing => if c == '}' then Some(Closed) else None
    case Closed => None
  }

  datatype Found = Found(name: string, length: nat)

  /** What is still to come of a placeholder's name, and how long it is. */
  function Run(q: Progress, s: string): (r: Option<Found>)
    ensures r.Some? ==> r.value.length <= |s|
    ensures r.Some? && !q.Closed? ==> r.value.length > 0
    decreases s
  {
    if q.Closed? then Some(Found("", 0))
    else if s == "" || Step(q, s[0]).None? then None
    else
      var q' := Step(q, s[0]).value;
      var r := Run(q', s[1..]);
      if r.None? then None
      else Some(Found(if q'.InName? then [s[0]] + r.value.name else r.value.name, r.value.length + 1))
  }

  /** The placeholder a text begins with: two braces, white space, an identifier, white space, two
      braces. */
  function Placeholder(s: string): Option<Found> {
    Run(Nothing, s)
  }

  /** The names found from left to right. */
  function Placeholders(sql: string): set<string>
    decreases |sql|
  {
    if sql == "" then {}
    else
      var p := Placeholder(sql);
      if p.Some? then {p.value.name} + Placeholders(sql[p.value.length..]) else Placeholders(sql[1..])
  }

  // ---- One slot at a time ----

  function SpaceRun(s: string): (n: nat)
    ensures n <= |s|
  {
    if s != "" && Space(s[0]) then 1 + SpaceRun(s[1..]) else 0
  }

  /** The regular expression of a key at the start of a text: the leading white space takes as much as
      it can and gives characters back while the rest does not match. */
  function MatchLength(key: string, s: string): (n: nat)
    ensures n <= |s|
  {
    if |s| >= 2 && s[0] == '{' && s[1] == '{' then MatchFrom(key, s, 2 + SpaceRun(s[2..])) else 0
  }

  function MatchFrom(key: string, s: string, i: nat): (n: nat)
    requires 2 <= i <= |s|
    ensures n <= |s|
  {
    var n := EndOf(key, s[i..]);
    if key <= s[i..] && Closes(s[i..], n) then i + n + 2
    else if i > 2 then MatchFrom(key, s, i - 1)
    else 0
  }

  /** Where a name and the white space after it end. */
  function EndOf(name: string, s: string): nat {
    |name| + if |name| <= |s| then SpaceRun(s[|name|..]) else 0
  }

  predicate Closes(s: string, n: nat) {
    n + 2 <= |s| && s[n] == '}' && s[n + 1] == '}'
  }

  function Sub(key: string, s: string): string
    decreases |s|
  {
    if s == "" then ""
    else
      var n := MatchLength(key, s);
      if n > 0 then ":" + key + Sub(key, s[n..]) else [s[0]] + Sub(key, s[1..])
  }

  function Rendered(sql: string, keys: seq<string>): string {
    if keys == [] then sql else Sub(keys[|keys| - 1], Rendered(sql, keys[..|keys| - 1]))
  }

  // ---- All slots at once ----

  function Substituted(slots: set<string>, s: string): string
    decreases |s|
  {
    if s == "" then ""
    else
      var p := Placeholder(s);
      if p.Some? && p.value.name in slots
      then ":" + p.value.name + Substituted(slots, s[p.value.length..])
      else [s[0]] + Substituted(slots, s[1..])
  }

  // ---- The registry ----

  function Names(keys: seq<string>): set<string> {
    set k | k in keys
  }

  function Registered(templates: map<string, SqlTemplate>, name: string, sql: string, slots: set<string>):
    Result<map<string, SqlTemplate>, Refusal>
  {
    if "tenant_id" !in Placeholders(sql) || !(Placeholders(sql) <= slots) then Err(UndeclaredPlaceholder)
    else Ok(templates[name := SqlTemplate(name, sql, slots)])
  }

  function Resolved(templates: map<string, SqlTemplate>, name: string, keys: seq<string>): Result<string, Refusal> {
    if name !in templates then Err(UnknownTemplate)
    else if Names(keys) != templates[name].slots then Err(WrongSlots)
    else Ok(Rendered(templates[name].sql, keys))
  }

  class AllowList {
    var templates: map<string, SqlTemplate>

    constructor ()
      ensures templates == map[] && Valid()
    {
      templates := map[];
    }

    /** What registration established for every template. */
    predicate Valid()
      reads this
    {
      forall name :: name in templates ==>
        "tenant_id" in Placeholders(templates[name].sql) && Placeholders(templates[name].sql) <= templates[name].slots
    }

    method Register(name: string, sql: string, slots: set<string>) returns (refusal: Option<Refusal>)
      requires Valid()
      modifies this
      ensures Valid()
      ensures var r := Registered(old(templates), name, sql, slots);
        if r.Ok? then refusal == None && templates == r.value
        else refusal == Some(r.error) && templates == old(templates)
      ensures if "tenant_id" in Placeholders(sql) && forall placeholder <- Placeholders(sql) :: placeholder in slots
              then refusal.None? && templates == old(templates)[name := SqlTemplate(name, sql, slots)]
              else refusal == Some(UndeclaredPlaceholder) && templates == old(templates)
    {
      var placeholders := {};
      var i := 0;
      while i < |sql|
        invariant i <= |sql| && placeholders + Placeholders(sql[i..]) == Placeholders(sql)
        decreases |sql| - i
      {
        var p := Placeholder(sql[i..]);
        if p.Some? {
          placeholders := placeholders + {p.value.name};
          assert sql[i..][p.value.length..] == sql[i + p.value.length..];
          i := i + p.value.length;
        } else {
          i := i + 1;
        }
      }
      if "tenant_id" !in placeholders || !(placeholders <= slots) {
        return Some(UndeclaredPlaceholder);
      }
      templates := templates[name := SqlTemplate(name, sql, slots)];
      refusal := None;
    }

    /** `keys` are the names of the slots given, in the order of the caller's mapping. */
    method Resolve(name: string, keys: seq<string>) returns (r: Result<string, Refusal>)
      ensures r == Resolved(templates, name, keys)
      ensures name !in templates <==> r == Err(UnknownTemplate)
      ensures name in templates ==>
        && ((exists key :: key in keys && key !in templates[name].slots) || (exists slot <- templates[name].slots :: slot !in keys)
            <==> r == Err(WrongSlots))
        && (r.Ok? ==> r == Ok(Rendered(templates[name].sql, keys)))
    {
      if name !in templates {
        return Err(UnknownTemplate);
      }
      var template := templates[name];
      var unknown := Names(keys) - template.slots;
      var missing := template.slots - Names(keys);
      if unknown != {} || missing != {} {
        return Err(WrongSlots);
      }
      assert Names(keys) == template.slots;
      var rendered := template.sql;
      for i := 0 to |keys|
        invariant rendered == Rendered(template.sql, keys[..i])
      {
        assert keys[..i + 1][..i] == keys[..i];
        rendered := Sub(keys[i], rendered);
      }
      assert keys[..|keys|] == keys;
      r := Ok(rendered);
    }
  }
}
