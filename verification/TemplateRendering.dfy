/** Rewriting a template slot by slot is one simultaneous substitution, whatever the order, as long as the
    slots are identifiers. */
module TemplateRendering {
  import opened Wrappers
  import opened Templates

  lemma {:induction false} NameIsIdentifier(q: Progress, s: string)
    requires Run(q, s).Some?
    ensures forall c <- Run(q, s).value.name :: NameChar(c)
    ensures q.Nothing? || q.Brace? || q.Braces? ==> IsIdentifier(Run(q, s).value.name)
    ensures q.AfterName? || q.Closing? || q.Closed? ==> Run(q, s).value.name == ""
    decreases s
  {
    if !q.Closed? {
      NameIsIdentifier(Step(q, s[0]).value, s[1..]);
    }
  }

  lemma ColonStops(q: Progress)
    ensures Step(q, ':').None?
  {}

  lemma BraceStops(q: Progress)
    ensures Step(q, '{').Some? <==> q.Nothing? || q.Brace?
    ensures Step(Nothing, '{') == Some(Brace) && Step(Brace, '{') == Some(Braces)
  {}

  lemma OnlyBraceOpens(c: char)
    ensures Step(Nothing, c).Some? ==> c == '{'
    ensures Step(Brace, c).Some? ==> c == '{'
  {}

  /** A placeholder cannot begin inside another one: two braces never follow one of its inner steps. */
  lemma NoneBeginsInside(q: Progress, s: string)
    requires !q.Nothing? && !q.Closed? && Run(q, s).Some?
    ensures Placeholder(s).None?
  {
    OnlyBraceOpens(s[0]);
    BraceStops(q);
    hide Step;
    if s[0] == '{' {
      var rest := s[1..];
      OnlyBraceOpens(rest[0]);
      BraceStops(Braces);
      assert Run(Braces, rest).Some? && Step(Braces, rest[0]).Some?;
      assert Run(Brace, rest).None?;
    }
  }

  /** Substitution neither creates nor destroys what is left of a placeholder, and copies it. */
  lemma {:induction false} SubstitutedContinuesAlike(slots: set<string>, q: Progress, s: string)
    requires !q.Nothing?
    ensures Run(q, Substituted(slots, s)) == Run(q, s)
    ensures Run(q, s).Some? ==> CopiesStart(slots, s, Run(q, s).value.length)
    decreases s
  {
    hide Step, Substituted, Placeholder, CopiesStart;
    if s == "" || q.Closed? {
      NothingFollows(slots, q, s);
    } else if Placeholder(s).Some? && Placeholder(s).value.name in slots {
      ReplacedStopsRun(slots, q, s);
    } else {
      KeptHead(slots, s);
      StepsOn(q, s[0]);
      if Step(q, s[0]).Some? {
        var q' := Step(q, s[0]).value;
        SubstitutedContinuesAlike(slots, q', s[1..]);
        if Run(q, s).Some? {
          CopiesOneMore(slots, s, Run(q', s[1..]).value.length);
        }
      }
    }
  }

  lemma NothingFollows(slots: set<string>, q: Progress, s: string)
    requires s == "" || q.Closed?
    ensures Run(q, Substituted(slots, s)) == Run(q, s) && (Run(q, s).Some? ==> CopiesStart(slots, s, Run(q, s).value.length))
  {
    CopiesNothing(slots, s);
    assert s == "" ==> Substituted(slots, s) == "";
  }

  lemma CopiesNothing(slots: set<string>, s: string)
    ensures CopiesStart(slots, s, 0)
  {
    hide Substituted;
    assert s[0..] == s && s[..0] == "";
  }

  lemma KeptHead(slots: set<string>, s: string)
    requires s != "" && (Placeholder(s).Some? ==> Placeholder(s).value.name !in slots)
    ensures var t := Substituted(slots, s);
      t == [s[0]] + Substituted(slots, s[1..]) && t != "" && t[0] == s[0] && t[1..] == Substituted(slots, s[1..])
  {}

  /** Where a placeholder is replaced none was going on, and the colon starts none. */
  lemma ReplacedStopsRun(slots: set<string>, q: Progress, s: string)
    requires !q.Nothing? && !q.Closed? && Placeholder(s).Some? && Placeholder(s).value.name in slots
    ensures Run(q, s).None? && Run(q, Substituted(slots, s)).None?
  {
    ColonStops(q);
    assert Substituted(slots, s)[0] == ':';
    if Run(q, s).Some? {
      NoneBeginsInside(q, s);
      assert false;
    }
  }

  lemma StepsOn(q: Progress, c: char)
    ensures Step(q, c).Some? ==> !Step(q, c).value.Nothing?
  {}

  ghost predicate CopiesStart(slots: set<string>, s: string, n: nat) {
    n <= |s| && Substituted(slots, s) == s[..n] + Substituted(slots, s[n..])
  }

  lemma CopiesOneMore(slots: set<string>, s: string, n: nat)
    requires s != "" && CopiesStart(slots, s[1..], n)
    requires Substituted(slots, s) == [s[0]] + Substituted(slots, s[1..])
    ensures CopiesStart(slots, s, n + 1)
  {
    OneMoreCopied(s, n, Substituted(slots, s[n + 1..]));
    hide Substituted;
    assert s[1..][n..] == s[n + 1..];
  }

  lemma OneMoreCopied(s: string, n: nat, t: string)
    requires n < |s|
    ensures [s[0]] + (s[1..][..n] + t) == s[..n + 1] + t
  {
    assert s[..n + 1] == [s[0]] + s[1..][..n];
  }

  /** The start of a text that is not replaced there: a placeholder stays, and none appears. */
  lemma SubstitutedStartsAlike(slots: set<string>, s: string)
    requires s != "" && (Placeholder(s).Some? ==> Placeholder(s).value.name !in slots)
    ensures Placeholder(Substituted(slots, s)) == Placeholder(s)
    ensures Placeholder(s).Some? ==> CopiesStart(slots, s, Placeholder(s).value.length)
  {
    var t := Substituted(slots, s);
    assert t[0] == s[0] && t[1..] == Substituted(slots, s[1..]);
    StepsOn(Nothing, s[0]);
    hide Step;
    if Step(Nothing, s[0]).Some? {
      var q := Step(Nothing, s[0]).value;
      SubstitutedContinuesAlike(slots, q, s[1..]);
      if Placeholder(s).Some? {
        CopiesOneMore(slots, s, Run(q, s[1..]).value.length);
      }
    }
  }

  lemma {:induction false} SubstitutedSkipsName(slots: set<string>, name: string, t: string)
    requires forall c <- name :: NameChar(c)
    ensures Substituted(slots, name + t) == name + Substituted(slots, t)
  {
    if name == "" {
      assert name + t == t;
    } else {
      assert (name + t)[1..] == name[1..] + t;
      assert NameChar(name[0]);
      OnlyBraceOpens(name[0]);
      assert forall c <- name[1..] :: c in name;
      SubstitutedSkipsName(slots, name[1..], t);
      assert (name + t)[0] == name[0];
    }
  }

  lemma SubstitutedSkipsParameter(slots: set<string>, name: string, t: string)
    requires forall c <- name :: NameChar(c)
    ensures Substituted(slots, ":" + name + t) == ":" + name + Substituted(slots, t)
  {
    OnlyBraceOpens(':');
    var u := ":" + name + t;
    assert u[0] == ':' && u[1..] == name + t;
    assert Substituted(slots, u) == [':'] + Substituted(slots, name + t);
    hide Substituted;
    SubstitutedSkipsName(slots, name, t);
    assert [':'] + (name + Substituted(slots, t)) == ":" + name + Substituted(slots, t);
  }

  /** Two substitutions in a row are one. */
  lemma {:induction false} SubstitutionsCompose(a: set<string>, b: set<string>, s: string)
    ensures Substituted(b, Substituted(a, s)) == Substituted(a + b, s)
    decreases |s|
  {
    if s != "" {
      var p := Placeholder(s);
      if p.Some? && p.value.name in a {
        NameIsIdentifier(Nothing, s);
        SubstitutedSkipsParameter(b, p.value.name, Substituted(a, s[p.value.length..]));
        SubstitutionsCompose(a, b, s[p.value.length..]);
      } else {
        SubstitutedStartsAlike(a, s);
        var t := Substituted(a, s);
        assert t[1..] == Substituted(a, s[1..]) && t[0] == s[0];
        if p.Some? && p.value.name in b {
          var n := p.value.length;
          assert t[n..] == Substituted(a, s[n..]);
          SubstitutionsCompose(a, b, s[n..]);
        } else {
          SubstitutionsCompose(a, b, s[1..]);
        }
      }
    }
  }

  // ---- The regular expression of an identifier ----

  lemma ClosingReads(s: string)
    ensures Run(Closing, s) == if s != "" && s[0] == '}' then Some(Found("", 1)) else None
  {
    if s != "" && s[0] == '}' {
      assert Run(Closed, s[1..]) == Some(Found("", 0));
    }
  }

  lemma {:induction false} AfterNameReads(s: string)
    ensures Run(AfterName, s) == if Closes(s, SpaceRun(s)) then Some(Found("", SpaceRun(s) + 2)) else None
  {
    if s != "" {
      if Space(s[0]) {
        AfterNameReads(s[1..]);
        assert Closes(s, SpaceRun(s)) <==> Closes(s[1..], SpaceRun(s[1..]));
      } else {
        ClosingReads(s[1..]);
      }
    }
  }

  predicate Reads(q: Progress, s: string, name: string, n: nat) {
    Run(q, s) == Some(Found(name, n))
  }

  lemma {:induction false} InNameReads(name: string, s: string)
    requires forall c <- name :: NameChar(c)
    ensures Reads(InName, s, name, EndOf(name, s) + 2) <==> name <= s && Closes(s, EndOf(name, s))
    ensures Run(InName, s).Some? && Run(InName, s).value.name == name ==> Reads(InName, s, name, EndOf(name, s) + 2)
  {
    if s != "" {
      InNameHead(s);
      assert s[0..] == s;
      if !NameChar(s[0]) {
        AfterNameReads(s);
        hide Run;
        if name != "" { assert NameChar(name[0]); }
      } else if name == "" {
        hide Run;
      } else {
        hide Run, Closes, EndOf, SpaceRun;
        assert forall c <- name[1..] :: c in name;
        InNameReads(name[1..], s[1..]);
        ReadsOneMore(name, s);
        RunOneMore(name, s, EndOf(name[1..], s[1..]) + 2);
      }
    }
  }

  lemma InNameHead(s: string)
    requires s != ""
    ensures NameChar(s[0]) ==> Step(InName, s[0]) == Some(InName) && !Space(s[0]) && s[0] != '}'
    ensures NameChar(s[0]) && Run(InName, s).Some? ==> Run(InName, s).value.name != ""
    ensures !NameChar(s[0]) ==> Run(InName, s) == Run(AfterName, s)
  {}

  lemma RunOneMore(name: string, s: string, n: nat)
    requires s != "" && Step(InName, s[0]) == Some(InName) && name != ""
    ensures Reads(InName, s, name, n + 1) <==> name[0] == s[0] && Reads(InName, s[1..], name[1..], n)
    ensures Run(InName, s).Some? <==> Run(InName, s[1..]).Some?
    ensures Run(InName, s).Some? ==>
      (Run(InName, s).value.name == name <==> name[0] == s[0] && Run(InName, s[1..]).value.name == name[1..])
  {
    if Run(InName, s[1..]).Some? {
      var rest := Run(InName, s[1..]).value.name;
      assert ([s[0]] + rest)[1..] == rest;
    }
    assert name == [name[0]] + name[1..];
  }

  lemma ReadsOneMore(name: string, s: string)
    requires name != "" && s != ""
    ensures EndOf(name, s) == EndOf(name[1..], s[1..]) + 1
    ensures Closes(s, EndOf(name, s)) <==> Closes(s[1..], EndOf(name[1..], s[1..]))
    ensures name <= s <==> name[0] == s[0] && name[1..] <= s[1..]
  {
    if |name| <= |s| {
      assert s[1..][|name| - 1..] == s[|name|..];
    }
    if name[0] == s[0] && name[1..] <= s[1..] {
      assert name == [name[0]] + name[1..] && s == [s[0]] + s[1..];
    }
  }

  lemma {:induction false} BracesSkipSpaces(s: string)
    ensures var m := SpaceRun(s);
      Run(Braces, s) == match Run(Braces, s[m..]) case None => None case Some(f) => Some(Found(f.name, m + f.length))
  {
    if s == "" || !Space(s[0]) {
      assert s[0..] == s;
    } else {
      BracesSkipSpaces(s[1..]);
      assert s[1..][SpaceRun(s[1..])..] == s[SpaceRun(s)..];
    }
  }

  lemma {:induction false} SpaceRunEnds(s: string)
    ensures SpaceRun(s) < |s| ==> !Space(s[SpaceRun(s)])
    ensures forall i :: 0 <= i < SpaceRun(s) ==> Space(s[i])
  {
    if s != "" && Space(s[0]) {
      SpaceRunEnds(s[1..]);
    }
  }

  /** An identifier is read the same way whether its first letter was still to come or not. */
  lemma BracesReadName(name: string, s: string)
    requires IsIdentifier(name) && (s != "" ==> !Space(s[0]))
    ensures Reads(Braces, s, name, EndOf(name, s) + 2) <==> name <= s && Closes(s, EndOf(name, s))
    ensures Run(Braces, s).Some? && Run(Braces, s).value.name == name ==> Reads(Braces, s, name, EndOf(name, s) + 2)
  {
    InNameReads(name, s);
    BracesHead(s);
    hide Run, EndOf, Closes, Space, NameStart;
    if s != "" {
      assert name <= s ==> s[0] == name[0];
    }
  }

  lemma BracesHead(s: string)
    requires s != "" ==> !Space(s[0])
    ensures Run(Braces, s) == if s != "" && NameStart(s[0]) then Run(InName, s) else None
  {}

  lemma {:induction false} MatchFromSpaces(key: string, s: string, i: nat)
    requires IsIdentifier(key) && 2 <= i <= |s| && forall x :: 2 <= x <= i ==> x < |s| && Space(s[x])
    ensures MatchFrom(key, s, i) == 0
    decreases i
  {
    assert s[i..][0] == s[i];
    if i > 2 {
      MatchFromSpaces(key, s, i - 1);
    }
  }

  /** The regular expression built for an identifier matches exactly the placeholders of that name. */
  lemma KeyMatchIsPlaceholder(key: string, s: string)
    requires IsIdentifier(key)
    ensures MatchLength(key, s)
            == if Placeholder(s).Some? && Placeholder(s).value.name == key then Placeholder(s).value.length else 0
  {
    if |s| >= 2 && s[0] == '{' && s[1] == '{' {
      var v := s[2 + SpaceRun(s[2..])..];
      assert v == s[2..][SpaceRun(s[2..])..];
      TwoBracesRead(s);
      BracesSkipSpaces(s[2..]);
      SpaceRunEnds(s[2..]);
      assert v != "" ==> v[0] == s[2..][SpaceRun(s[2..])];
      FirstAttemptDecides(key, s);
      hide MatchLength, Run, Placeholder, Space, SpaceRun, IsIdentifier, EndOf, Closes;
      BracesReadName(key, v);
    } else {
      FewerBracesRead(s);
    }
  }

  /** An identifier cannot match after fewer blanks than there are. */
  lemma FirstAttemptDecides(key: string, s: string)
    requires IsIdentifier(key) && |s| >= 2 && s[0] == '{' && s[1] == '{'
    ensures var m := SpaceRun(s[2..]);
      var v := s[2 + m..];
      MatchLength(key, s) == if key <= v && Closes(v, EndOf(key, v)) then m + EndOf(key, v) + 4 else 0
  {
    var m := SpaceRun(s[2..]);
    SpaceRunEnds(s[2..]);
    assert forall x :: 2 <= x < 2 + m ==> s[x] == s[2..][x - 2];
    hide Space, SpaceRun, IsIdentifier, EndOf, Closes;
    if m > 0 {
      MatchFromSpaces(key, s, 1 + m);
    }
  }

  lemma TwoBracesRead(s: string)
    requires |s| >= 2 && s[0] == '{' && s[1] == '{'
    ensures Placeholder(s) == match Run(Braces, s[2..]) case None => None case Some(f) => Some(Found(f.name, f.length + 2))
  {
    var t := s[1..];
    assert t[1..] == s[2..] && t[0] == '{';
    BraceStops(Brace);
    hide Step;
    assert Run(Brace, t) == match Run(Braces, t[1..]) case None => None case Some(f) => Some(Found(f.name, f.length + 1));
  }

  lemma FewerBracesRead(s: string)
    requires |s| < 2 || s[0] != '{' || s[1] != '{'
    ensures Placeholder(s).None?
  {
    if s != "" && s[0] == '{' {
      assert Run(Brace, s[1..]).None?;
    }
  }

  lemma {:induction false} SubIsSubstituted(key: string, s: string)
    requires IsIdentifier(key)
    ensures Sub(key, s) == Substituted({key}, s)
    decreases |s|
  {
    if s != "" {
      KeyMatchIsPlaceholder(key, s);
      var n := MatchLength(key, s);
      if n > 0 {
        SubIsSubstituted(key, s[n..]);
      } else {
        SubIsSubstituted(key, s[1..]);
      }
    }
  }

  // ---- The rendered text ----

  lemma {:induction false} NothingToSubstitute(s: string)
    ensures Substituted({}, s) == s
    decreases |s|
  {
    if s != "" {
      NothingToSubstitute(s[1..]);
    }
  }

  ghost predicate NoPlaceholder(s: string) {
    forall i :: 0 <= i <= |s| ==> Placeholder(s[i..]).None?
  }

  lemma {:induction false} NoneFoundMeansNone(s: string)
    ensures Placeholders(s) == {} <==> NoPlaceholder(s)
    decreases |s|
  {
    if s == "" {
      assert forall i :: 0 <= i <= |s| ==> s[i..] == "";
    } else {
      NoneFoundMeansNone(s[1..]);
      assert s[0..] == s;
      if NoPlaceholder(s) {
        assert Placeholder(s).None?;
        forall i | 0 <= i <= |s[1..]| ensures Placeholder(s[1..][i..]).None? {
          assert s[1..][i..] == s[i + 1..];
        }
      }
      if Placeholders(s) == {} {
        forall i | 0 < i <= |s| ensures Placeholder(s[i..]).None? {
          assert s[1..][i - 1..] == s[i..];
        }
      }
    }
  }

  lemma {:induction false} NoneInName(name: string, t: string)
    requires forall c <- name :: NameChar(c)
    ensures Placeholders(name + t) == Placeholders(t)
  {
    if name == "" {
      assert name + t == t;
    } else {
      assert (name + t)[1..] == name[1..] + t && (name + t)[0] == name[0];
      assert NameChar(name[0]);
      OnlyBraceOpens(name[0]);
      assert forall c <- name[1..] :: c in name;
      NoneInName(name[1..], t);
    }
  }

  lemma NoneInParameter(name: string, t: string)
    requires forall c <- name :: NameChar(c)
    ensures Placeholders(":" + name + t) == Placeholders(t)
  {
    NoneInName(name, t);
    assert (":" + name + t)[1..] == name + t;
    OnlyBraceOpens(':');
  }

  /** Where all the placeholders are slots, none remains. */
  lemma {:induction false} NoneRemains(slots: set<string>, s: string)
    requires Placeholders(s) <= slots
    ensures Placeholders(Substituted(slots, s)) == {}
    decreases |s|
  {
    if s != "" {
      var p := Placeholder(s);
      if p.Some? {
        NameIsIdentifier(Nothing, s);
        NoneRemains(slots, s[p.value.length..]);
        NoneInParameter(p.value.name, Substituted(slots, s[p.value.length..]));
      } else {
        NoneRemains(slots, s[1..]);
        SubstitutedStartsAlike(slots, s);
        var t := Substituted(slots, s);
        assert t[1..] == Substituted(slots, s[1..]);
      }
    }
  }

  ghost predicate Occurs(w: string, s: string) {
    exists i :: 0 <= i <= |s| && w <= s[i..]
  }

  lemma OccursLater(w: string, a: string, s: string)
    requires Occurs(w, s)
    ensures Occurs(w, a + s)
  {
    var i :| 0 <= i <= |s| && w <= s[i..];
    assert (a + s)[|a| + i..] == s[i..];
  }

  /** Every slot with a placeholder becomes a parameter of the result. */
  lemma {:induction false} SlotBecomesParameter(slots: set<string>, name: string, s: string)
    requires name in Placeholders(s) && name in slots
    ensures Occurs(":" + name, Substituted(slots, s))
    decreases |s|
  {
    var p := Placeholder(s);
    var t := Substituted(slots, s);
    if p.Some? && p.value.name == name {
      NameIsIdentifier(Nothing, s);
      if name in slots {
        assert t[0..] == t && ":" + name <= t;
      }
    } else if p.Some? {
      var n, rest := p.value.length, Substituted(slots, s[p.value.length..]);
      SlotBecomesParameter(slots, name, s[n..]);
      if p.value.name in slots {
        OccursLater(":" + name, ":" + p.value.name, rest);
      } else {
        SubstitutedStartsAlike(slots, s);
        OccursLater(":" + name, s[..n], rest);
      }
    } else {
      SlotBecomesParameter(slots, name, s[1..]);
      OccursLater(":" + name, [s[0]], Substituted(slots, s[1..]));
    }
  }
}
