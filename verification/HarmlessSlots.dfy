/** Exactly which slot sets keep what the registry promises of every template it accepts: it checks that
    the placeholders are declared, not what else is.  The names have no braces; apart from that they are
    arbitrary. */
module HarmlessSlots {
  import opened Wrappers
  import opened Templates
  import opened TemplateRendering
  import opened SlotNames

  const TENANT := "tenant_id"
  const PARAMETER := ":" + TENANT

  /** In every accepted template, whatever the order of its slots, the tenant parameter occurs. */
  ghost predicate KeepsTenant(slots: set<string>) {
    forall sql: string, keys: seq<string> ::
      Registered(map[], "", sql, slots).Ok? && Names(keys) == slots ==> Occurs(PARAMETER, Rendered(sql, keys))
  }

  /** A name that takes the tenant's placeholder and does not give its parameter. */
  predicate Steals(slot: string) {
    slot != "" && Space(slot[0]) && Trim(slot) == TENANT
  }

  ghost predicate AllBraceFree(slots: set<string>) {
    forall slot <- slots :: BraceFree(slot)
  }

  // ---- Words without spaces stay ----

  /** A word that neither a match nor the blanks around a key can cut. */
  predicate IsWord(w: string) {
    w != "" && BraceFree(w) && forall i :: 0 <= i < |w| ==> !Space(w[i])
  }

  lemma ParameterIsWord()
    ensures IsWord(PARAMETER) && IsIdentifier(TENANT) && BraceFree(TENANT) && Trim(TENANT) == TENANT && TENANT != ""
  {
    IdentifierHasNoEdge(TENANT);
    forall i | 0 <= i < |PARAMETER| ensures !Space(PARAMETER[i]) && PARAMETER[i] != '{' && PARAMETER[i] != '}' {
      if i > 0 { assert PARAMETER[i] == TENANT[i - 1]; }
    }
  }

  lemma WordInKey(w: string, key: string, x: string, d: nat, i: nat)
    requires IsWord(w) && FitsAt(key, x, d) && i <= |x| && w <= x[i..]
    ensures d <= i && i - d <= |key| && w <= key[i - d..]
  {
    assert forall j :: 0 <= j < |w| ==> x[i + j] == x[i..][j] == w[j];
    assert !Space(w[0]) && x[i] == w[0] && !Space(w[|w| - 1]) && x[i + (|w| - 1)] == w[|w| - 1];
    hide Space, BraceFree;
    assert d <= i && i + |w| <= d + |key|;
    forall j | 0 <= j < |w| ensures key[i - d..][j] == w[j] {
      assert key[i - d + j] == x[i + j];
    }
  }

  /** A word in a replaced group is in its key. */
  lemma WordSurvivesInGroup(w: string, key: string, x: string, t: string, i: nat)
    requires IsWord(w) && BraceFree(x) && Fits(key, x)
    requires i < |x| + 4 && w <= InBraces(x, t)[i..]
    ensures Occurs(w, ":" + key)
  {
    var s := InBraces(x, t);
    assert forall j :: 0 <= j < |w| ==> s[i + j] == s[i..][j] == w[j];
    assert s[0] == s[1] == '{' && s[|x| + 2] == s[|x| + 3] == '}';
    assert i >= 2 && i + |w| <= |x| + 2;
    assert s[i..][..|w|] == x[i - 2..][..|w|];
    var d: nat :| FitsAt(key, x, d);
    WordInKey(w, key, x, d, i - 2);
    assert (":" + key)[i - 2 - d + 1..] == key[i - 2 - d..];
  }

  lemma {:induction false} WordStays(w: string, key: string, s: string)
    requires IsWord(w) && BraceFree(key) && Occurs(w, s)
    ensures Occurs(w, Sub(key, s))
    decreases |s|
  {
    assert BraceFree(w);
    hide Group, Fits, InBraces, IsWord, MatchLength, BraceFree, Sub;
    var i :| 0 <= i <= |s| && w <= s[i..];
    KeyMatchIsGroup(key, s);
    if s == "" {
    } else if Group(s).Some? && Fits(key, Group(s).value) {
      var x := Group(s).value;
      GroupParts(s);
      var t := s[|x| + 4..];
      SubReplacesGroup(key, x, t);
      if i < |x| + 4 {
        WordSurvivesInGroup(w, key, x, t, i);
        OccursEarlier(w, ":" + key, Sub(key, t));
      } else {
        assert t[i - |x| - 4..] == s[i..];
        WordStays(w, key, t);
        OccursLater(w, ":" + key, Sub(key, t));
      }
    } else if i == 0 {
      assert s == w + s[|w|..] by { assert s[0..] == s; }
      SubCopiesPlain(key, w, s[|w|..]);
      assert Sub(key, s)[0..] == Sub(key, s);
    } else {
      assert s[1..][i - 1..] == s[i..];
      SubSteps(key, s);
      WordStays(w, key, s[1..]);
      OccursLater(w, [s[0]], Sub(key, s[1..]));
    }
  }

  lemma SubSteps(key: string, s: string)
    requires s != "" && MatchLength(key, s) == 0
    ensures Sub(key, s) == [s[0]] + Sub(key, s[1..])
  {
    hide MatchLength;
  }

  lemma OccursEarlier(w: string, a: string, b: string)
    requires Occurs(w, a)
    ensures Occurs(w, a + b)
  {
    var i :| 0 <= i <= |a| && w <= a[i..];
    assert (a + b)[i..] == a[i..] + b;
  }

  // ---- The tenant's placeholder ----

  ghost predicate HasTenantGroup(s: string) {
    exists i :: 0 <= i <= |s| && TenantGroupAt(s, i)
  }

  predicate TenantGroupAt(s: string, i: nat)
    requires i <= |s|
  {
    Group(s[i..]).Some? && Trim(Group(s[i..]).value) == TENANT
  }

  lemma TenantGroupLater(a: string, s: string)
    requires HasTenantGroup(s)
    ensures HasTenantGroup(a + s)
  {
    var i :| 0 <= i <= |s| && TenantGroupAt(s, i);
    assert (a + s)[|a| + i..] == s[i..];
    assert TenantGroupAt(a + s, |a| + i);
  }

  lemma PlaceholderGivesGroup(s: string)
    requires Placeholder(s).Some? && Placeholder(s).value.name == TENANT
    ensures HasTenantGroup(s)
  {
    PlaceholderIsGroup(s);
    hide Placeholder, Trim, Group;
    assert s[0..] == s;
    assert TenantGroupAt(s, 0);
  }

  lemma PlaceholdersAfter(s: string) returns (n: nat)
    requires TENANT in Placeholders(s)
    requires Placeholder(s).Some? ==> Placeholder(s).value.name != TENANT
    ensures 0 < n <= |s| && TENANT in Placeholders(s[n..])
  {
    n := if Placeholder(s).Some? then Placeholder(s).value.length else 1;
  }

  lemma {:induction false} PlaceholderHasGroup(s: string)
    requires TENANT in Placeholders(s)
    ensures HasTenantGroup(s)
    decreases |s|
  {
    hide Placeholders, Placeholder, HasTenantGroup, TenantGroupAt;
    if Placeholder(s).Some? && Placeholder(s).value.name == TENANT {
      PlaceholderGivesGroup(s);
    } else {
      var n := PlaceholdersAfter(s);
      PlaceholderHasGroup(s[n..]);
      TenantGroupLater(s[..n], s[n..]);
      assert s[..n] + s[n..] == s;
    }
  }

  /** A name that trims to the tenant's and starts without a space gives the parameter. */
  lemma HonestNameGivesParameter(key: string)
    requires Trim(key) == TENANT && !Steals(key)
    ensures Occurs(PARAMETER, ":" + key)
  {
    var d := TrimFits(key);
    assert d == 0;
    assert key[0..|TENANT|] == TENANT;
    assert (":" + key)[0..] == ":" + key && PARAMETER <= ":" + key;
  }

  lemma {:induction false} TenantGroupStaysOrGives(key: string, s: string)
    requires BraceFree(key) && !Steals(key) && HasTenantGroup(s)
    ensures Occurs(PARAMETER, Sub(key, s)) || (key != TENANT && HasTenantGroup(Sub(key, s)))
    decreases |s|
  {
    hide Fits, InBraces, IsWord, MatchLength, BraceFree, Sub, Occurs;
    var i :| 0 <= i <= |s| && TenantGroupAt(s, i);
    ParameterIsWord();
    KeyMatchIsGroup(key, s);
    if i == 0 {
      assert s[0..] == s;
      var x := Group(s).value;
      GroupParts(s);
      var t := s[|x| + 4..];
      if Fits(key, x) {
        SubReplacesGroup(key, x, t);
        KeyTrimsAlike(TENANT, key, x);
        HonestNameGivesParameter(key);
        OccursEarlier(PARAMETER, ":" + key, Sub(key, t));
      } else {
        IdentifierFits(TENANT, x);
        SubCopiesGroup(key, x, t);
        GroupIs(x, Sub(key, t));
        assert Sub(key, s)[0..] == Sub(key, s);
        assert TenantGroupAt(Sub(key, s), 0);
      }
    } else if Group(s).Some? && Fits(key, Group(s).value) {
      var x := Group(s).value;
      GroupParts(s);
      var t := s[|x| + 4..];
      SubReplacesGroup(key, x, t);
      NoGroupInside(s, i);
      assert t[i - |x| - 4..] == s[i..];
      assert TenantGroupAt(t, i - |x| - 4);
      TenantGroupStaysOrGives(key, t);
      Onwards(":" + key, Sub(key, t));
    } else {
      assert s[1..][i - 1..] == s[i..];
      assert TenantGroupAt(s[1..], i - 1);
      SubSteps(key, s);
      TenantGroupStaysOrGives(key, s[1..]);
      Onwards([s[0]], Sub(key, s[1..]));
    }
  }

  lemma Onwards(a: string, s: string)
    ensures Occurs(PARAMETER, s) ==> Occurs(PARAMETER, a + s)
    ensures HasTenantGroup(s) ==> HasTenantGroup(a + s)
  {
    if Occurs(PARAMETER, s) { OccursLater(PARAMETER, a, s); }
    if HasTenantGroup(s) { TenantGroupLater(a, s); }
  }

  lemma KeyTrimsAlike(name: string, key: string, x: string)
    requires Fits(key, x) && Trim(x) == name && name != ""
    ensures Trim(key) == name
  {
    hide Trim, FitsAt, HasNoEdge;
    var e := TrimFits(x);
    var d: nat :| FitsAt(key, x, d);
    FitsInside(name, key, x, e, d);
    TrimIs(name, key, e - d);
  }

  /** Of two keys that fit a text, one without an edge fits the other. */
  lemma FitsInside(t: string, key: string, x: string, e: nat, d: nat)
    requires FitsAt(t, x, e) && FitsAt(key, x, d) && t != "" && HasNoEdge(t)
    ensures d <= e && FitsAt(t, key, e - d)
  {
    hide Space;
    var k, m := |key|, |t|;
    assert x[e] == t[e - e] && x[e + m - 1] == t[e + m - 1 - e];
    assert d <= e && e + m <= d + k;
    forall i | 0 <= i < k ensures key[i] == x[i + d] {
      assert x[i + d] == key[i + d - d];
    }
  }

  /** Groups do not overlap. */
  lemma NoGroupInside(s: string, i: nat)
    requires Group(s).Some? && 0 < i <= |s| && Group(s[i..]).Some?
    ensures i >= |Group(s).value| + 4
  {
    var x := Group(s).value;
    GroupParts(s);
    assert s[i] == s[i..][0] == '{' && s[i + 1] == s[i..][1] == '{';
    assert forall j :: 2 <= j < |x| + 2 ==> s[j] == x[j - 2];
    assert s[|x| + 2] == '}' && s[|x| + 3] == '}';
  }

  // ---- When the tenant parameter is safe ----

  lemma {:induction false} HonestSlotsKeepTenant(sql: string, keys: seq<string>)
    requires HasTenantGroup(sql) && forall key <- keys :: BraceFree(key) && !Steals(key)
    ensures Occurs(PARAMETER, Rendered(sql, keys)) || (TENANT !in keys && HasTenantGroup(Rendered(sql, keys)))
  {
    hide Occurs, HasTenantGroup, Sub, Steals, BraceFree;
    if keys != [] {
      var n := |keys| - 1;
      assert forall key <- keys[..n] :: key in keys;
      HonestSlotsKeepTenant(sql, keys[..n]);
      assert keys == keys[..n] + [keys[n]];
      ParameterIsWord();
      if Occurs(PARAMETER, Rendered(sql, keys[..n])) {
        WordStays(PARAMETER, keys[n], Rendered(sql, keys[..n]));
      } else {
        TenantGroupStaysOrGives(keys[n], Rendered(sql, keys[..n]));
      }
    }
  }

  lemma {:induction false} SlotsInOrder(slots: set<string>) returns (keys: seq<string>)
    ensures Names(keys) == slots
    decreases |slots|
  {
    if slots == {} {
      keys := [];
    } else {
      var slot :| slot in slots;
      var rest := SlotsInOrder(slots - {slot});
      keys := rest + [slot];
      assert Names(keys) == Names(rest) + {slot};
    }
  }

  /** The order that gives one slot first. */
  lemma SlotFirst(slots: set<string>, slot: string) returns (rest: seq<string>)
    requires slot in slots
    ensures Names([slot] + rest) == slots && Names(rest) == slots - {slot}
  {
    rest := SlotsInOrder(slots - {slot});
    assert Names([slot] + rest) == {slot} + Names(rest);
  }

  lemma {:induction false} RenderedFirst(sql: string, slot: string, rest: seq<string>)
    ensures Rendered(sql, [slot] + rest) == Rendered(Sub(slot, sql), rest)
  {
    hide Sub;
    if rest == [] {
      assert [slot] + rest == [slot] && [slot][..0] == [];
    } else {
      var n := |rest| - 1;
      assert ([slot] + rest)[..n + 1] == [slot] + rest[..n];
      RenderedFirst(sql, slot, rest[..n]);
    }
  }

  lemma {:induction false} RenderedKeepsPlain(s: string, keys: seq<string>)
    requires BraceFree(s)
    ensures Rendered(s, keys) == s
  {
    if keys != [] {
      RenderedKeepsPlain(s, keys[..|keys| - 1]);
      SubKeepsPlain(keys[|keys| - 1], s);
    }
  }

  lemma SubKeepsPlain(key: string, s: string)
    requires BraceFree(s)
    ensures Sub(key, s) == s
  {
    SubCopiesPlain(key, s, "");
    assert s + "" == s && Sub(key, "") == "";
  }

  lemma FitsItself(key: string)
    ensures Fits(key, key)
  {
    assert key[..0] == "" && key[0..|key|] == key && key[|key|..] == "";
    assert FitsAt(key, key, 0);
  }

  /** A name in braces, as the whole text. */
  lemma NameInBraces(slot: string)
    requires BraceFree(slot)
    ensures Sub(slot, InBraces(slot, "")) == ":" + slot
    ensures Placeholders(InBraces(slot, "")) == if IsIdentifier(Trim(slot)) then {Trim(slot)} else {}
  {
    hide Group, Trim, Fits, Placeholder, IsIdentifier, BraceFree, InBraces;
    FitsItself(slot);
    SubReplacesGroup(slot, slot, "");
    AfterBraces(slot, "");
    PlaceholderInBraces(slot, "");
    PlaceholderInWhole(InBraces(slot, ""), |slot| + 4);
    OneBraceHasNoPlaceholder(slot);
    assert Sub(slot, "") == "" && ":" + slot + "" == ":" + slot;
  }

  lemma PlaceholderInWhole(s: string, n: nat)
    requires 0 < n == |s| && (Placeholder(s).Some? ==> Placeholder(s).value.length == n)
    ensures Placeholders(s) == if Placeholder(s).Some? then {Placeholder(s).value.name} else Placeholders(s[1..])
  {
    hide Placeholder;
    assert s[n..] == "" && Placeholders("") == {};
  }

  lemma PlaceholderInBraces(x: string, t: string)
    requires BraceFree(x)
    ensures Placeholder(InBraces(x, t)) == if IsIdentifier(Trim(x)) then Some(Found(Trim(x), |x| + 4)) else None
  {
    hide Trim, BraceFree, IsIdentifier, InBraces, Group, Placeholder;
    GroupIs(x, t);
    PlaceholderIsGroup(InBraces(x, t));
  }

  lemma OneBraceHasNoPlaceholder(x: string)
    requires BraceFree(x)
    ensures Placeholders(InBraces(x, "")[1..]) == {}
  {
    NoDoubleBrace(InBraces(x, "")[1..]);
  }

  lemma {:induction false} NoDoubleBrace(s: string)
    requires forall i :: 0 < i < |s| ==> s[i] != '{'
    ensures Placeholders(s) == {}
    decreases |s|
  {
    if s != "" {
      PlaceholderIsGroup(s);
      hide Placeholder, Trim, IsIdentifier;
      NoDoubleBrace(s[1..]);
    }
  }

  /** The parameter a stealing name leaves is not the tenant's. */
  lemma StolenParameterIsNot(slot: string)
    requires Steals(slot)
    ensures !Occurs(PARAMETER, ":" + slot)
  {
    var s := ":" + slot;
    var d := TrimFits(slot);
    IdentifierHasNoEdge(TENANT);
    var w := PARAMETER;
    assert w[0] == ':' && w[1] == 't' && !Space('t') && !Space(':');
    assert forall i :: 0 <= i < |TENANT| ==> TENANT[i] != ':';
    assert forall i :: 0 <= i < |slot| ==> slot[i] != ':';
    forall i | 0 <= i <= |s| ensures !(w <= s[i..]) {
      if i == 0 {
        assert s[i..][1] == slot[0];
      } else if i < |s| {
        assert s[i..][0] == slot[i - 1];
      }
    }
  }

  /** The tenant parameter is in every text an accepted template resolves to, in every order, if and only
      if no slot starts with white space and trims to the tenant's name. */
  lemma TenantIsKeptExactly(slots: set<string>)
    requires TENANT in slots && AllBraceFree(slots)
    ensures KeepsTenant(slots) <==> forall slot <- slots :: !Steals(slot)
  {
    if forall slot <- slots :: !Steals(slot) {
      forall sql: string, keys: seq<string> | Registered(map[], "", sql, slots).Ok? && Names(keys) == slots
        ensures Occurs(PARAMETER, Rendered(sql, keys))
      {
        hide Placeholders, Occurs, Rendered, HasTenantGroup, Steals, BraceFree;
        PlaceholderHasGroup(sql);
        assert TENANT in Names(keys);
        forall key <- keys ensures BraceFree(key) && !Steals(key) { assert key in Names(keys); }
        HonestSlotsKeepTenant(sql, keys);
      }
    }
    if slot :| slot in slots && Steals(slot) {
      StealingSlotLoses(slots, slot);
    }
  }

  lemma StealingSlotLoses(slots: set<string>, slot: string)
    requires TENANT in slots && AllBraceFree(slots) && slot in slots && Steals(slot)
    ensures !KeepsTenant(slots)
  {
    assert BraceFree(slot) && Trim(slot) == TENANT;
    var sql := InBraces(slot, "");
    IdentifierHasNoEdge(TENANT) by { ParameterIsWord(); }
    StolenParameterIsNot(slot);
    var rest := SlotFirst(slots, slot);
    hide Placeholders, Occurs, Placeholder, Rendered, Sub, Trim, IsIdentifier, BraceFree, HasNoEdge, Space, Steals;
    NameInBraces(slot);
    StolenRendered(slot, rest);
    assert Registered(map[], "", sql, slots).Ok?;
    assert !Occurs(PARAMETER, Rendered(sql, [slot] + rest));
  }

  const SPACED := " " + TENANT

  /** For example, a declared slot with a space in front takes the tenant's placeholder when it comes
      first: the template is registered and resolved, and the tenant parameter is missing. */
  lemma TenantParameterCanGetLost()
    ensures var sql, slots := InBraces(SPACED, ""), {TENANT, SPACED};
      Registered(map[], "", sql, slots).Ok? && !Occurs(PARAMETER, Rendered(sql, [SPACED, TENANT]))
  {
    SpacedNameSteals();
    StolenParameterIsNot(SPACED);
    IdentifierHasNoEdge(TENANT) by { ParameterIsWord(); }
    hide Placeholders, Occurs, Rendered, Trim, IsIdentifier, BraceFree, HasNoEdge, Space, InBraces;
    NameInBraces(SPACED);
    StolenRendered(SPACED, [TENANT]);
    assert [SPACED] + [TENANT] == [SPACED, TENANT];
  }

  lemma SpacedNameSteals()
    ensures Steals(SPACED) && Trim(SPACED) == TENANT && BraceFree(SPACED)
  {
    ParameterIsWord();
    IdentifierHasNoEdge(TENANT);
    assert forall i :: 1 <= i < |SPACED| ==> SPACED[i] == TENANT[i - 1];
    hide Trim;
    TrimIs(TENANT, SPACED, 1);
  }

  lemma StolenRendered(slot: string, rest: seq<string>)
    requires BraceFree(slot)
    ensures Rendered(InBraces(slot, ""), [slot] + rest) == ":" + slot
  {
    assert BraceFree(":" + slot);
    hide Placeholders, Rendered, Sub, BraceFree, Trim, IsIdentifier;
    NameInBraces(slot);
    RenderedFirst(InBraces(slot, ""), slot, rest);
    RenderedKeepsPlain(":" + slot, rest);
  }

  // ---- Names with braces ----

  lemma {:induction false} MatchEnds(key: string, s: string, i: nat)
    requires 2 <= i <= |s|
    ensures MatchFrom(key, s, i) > 0 ==> MatchFrom(key, s, i) > 2 && s[MatchFrom(key, s, i) - 1] == '}'
    decreases i
  {
    var n := EndOf(key, s[i..]);
    hide EndOf;
    if key <= s[i..] && Closes(s[i..], n) {
      assert s[i + n + 1] == s[i..][n + 1];
    } else if i > 2 {
      MatchEnds(key, s, i - 1);
    }
  }

  /** Where no brace closes after one opens, there is nothing to replace. */
  lemma {:induction false} SubKeepsUnclosed(key: string, s: string)
    requires forall i, j :: 0 <= i < j < |s| && s[i] == '{' ==> s[j] != '}'
    ensures Sub(key, s) == s
  {
    if s != "" {
      if |s| >= 2 && s[0] == '{' && s[1] == '{' { MatchEnds(key, s, 2 + SpaceRun(s[2..])); }
      assert MatchLength(key, s) == 0;
      hide MatchLength;
      SubKeepsUnclosed(key, s[1..]);
    }
  }

  lemma StopsAtOnce(u: string)
    requires u != "" && !Space(u[0])
    ensures SpaceRun(u) == 0
  {}

  lemma EndsAtBraces(key: string, tail: string)
    requires |tail| >= 2 && tail[0] == '}' && tail[1] == '}'
    ensures key <= key + tail && EndOf(key, key + tail) == |key| && Closes(key + tail, |key|)
  {
    assert (key + tail)[|key|..] == tail && !Space('}');
    StopsAtOnce(tail);
    hide SpaceRun, Space;
  }

  /** Any name that starts without a space, braces or not, matches itself in braces. */
  lemma NameMatchesItself(key: string)
    requires key != "" && !Space(key[0])
    ensures MatchLength(key, InBraces(key, "")) == |key| + 4
  {
    var s, u := InBraces(key, ""), key + "}}";
    assert s[2..] == u && |s| == |key| + 4 && s[0] == '{' && s[1] == '{';
    hide InBraces;
    StopsAtOnce(u);
    EndsAtBraces(key, "}}");
    hide Space, SpaceRun, EndOf, Closes;
    assert u[0..] == u;
    MatchFromOnce(key, s, 0);
    hide MatchFrom;
  }

  lemma NameReplacesItself(key: string)
    requires key != "" && !Space(key[0])
    ensures Sub(key, InBraces(key, "")) == ":" + key
  {
    NameMatchesItself(key);
    AfterBraces(key, "");
    hide MatchLength, InBraces, Space;
    assert Sub(key, "") == "" && ":" + key + "" == ":" + key;
  }

  const BRACED := "x}} {{" + TENANT

  lemma BracedSqlHasPlaceholders()
    ensures InBraces(BRACED, "") == InBraces("x", " " + InBraces(TENANT, ""))
    ensures Placeholders(InBraces(BRACED, "")) == {"x", TENANT}
  {
    var rest := InBraces(TENANT, "");
    assert IsIdentifier("x") && BraceFree("x") && Trim("x") == "x" by { IdentifierHasNoEdge("x"); }
    assert IsIdentifier(TENANT) && BraceFree(TENANT) && Trim(TENANT) == TENANT by { ParameterIsWord(); }
    assert InBraces(BRACED, "") == InBraces("x", " " + rest);
    hide InBraces, Trim, IsIdentifier, BraceFree;
    NameInBraces(TENANT);
    PlaceholderInBraces("x", " " + rest);
    AfterBraces("x", " " + rest);
    OnlyBraceOpens(' ');
    assert Placeholder(" " + rest).None? && (" " + rest)[1..] == rest;
    hide Placeholder;
    assert Placeholders(" " + rest) == {TENANT};
  }

  lemma BracedIsNoTenant()
    ensures var s := ":" + BRACED;
      !Occurs(PARAMETER, s) && forall i, j :: 0 <= i < j < |s| && s[i] == '{' ==> s[j] != '}'
  {
    var s, w := ":" + BRACED, PARAMETER;
    assert BraceFree(TENANT) && IsIdentifier(TENANT) by { ParameterIsWord(); }
    IdentifierHasNoEdge(TENANT);
    assert |s| == 7 + |TENANT| && s[0] == ':' && s[1] == 'x' && s[2] == s[3] == '}' && s[4] == ' ' && s[5] == s[6] == '{';
    assert forall i :: 7 <= i < |s| ==> s[i] == TENANT[i - 7];
    assert w[0] == ':' && w[1] == 't';
    forall i | 0 <= i <= |s| ensures !(w <= s[i..]) {
      if i == 0 {
        assert s[i..][1] == 'x';
      } else if i < |s| {
        assert s[i..][0] == s[i];
      }
    }
  }

  /** With braces in a name the condition is not enough: no slot of these steals, and a registered template
      loses the tenant parameter to one that reaches over two placeholders. */
  lemma BracedNameMayLoseTenant()
    ensures var sql, slots := InBraces(BRACED, ""), {TENANT, "x", BRACED};
      && Registered(map[], "", sql, slots).Ok? && (forall slot <- slots :: !Steals(slot))
      && !Occurs(PARAMETER, Rendered(sql, [BRACED, "x", TENANT]))
  {
    var sql := InBraces(BRACED, "");
    BracedStartsPlain();
    hide Placeholders, Occurs, Rendered, Sub, InBraces, Space, Trim;
    BracedSqlHasPlaceholders();
    BracedIsNoTenant();
    BracedRendered();
  }

  lemma BracedStartsPlain()
    ensures BRACED != "" && !Space(BRACED[0]) && forall slot <- {TENANT, "x", BRACED} :: !Steals(slot)
  {
    assert !Space('x') && !Space('t') && BRACED[0] == 'x' && TENANT[0] == 't';
    hide Space, Trim;
  }

  lemma BracedRendered()
    ensures Rendered(InBraces(BRACED, ""), [BRACED, "x", TENANT]) == ":" + BRACED
  {
    var sql, keys := InBraces(BRACED, ""), [BRACED, "x", TENANT];
    BracedStartsPlain();
    BracedIsNoTenant();
    hide Sub, InBraces, Space, Occurs, Steals;
    NameReplacesItself(BRACED);
    SubKeepsUnclosed("x", ":" + BRACED);
    SubKeepsUnclosed(TENANT, ":" + BRACED);
    assert keys == [BRACED] + (["x"] + ([TENANT] + []));
    RenderedFirst(sql, BRACED, ["x"] + ([TENANT] + []));
    RenderedFirst(":" + BRACED, "x", [TENANT] + []);
    RenderedFirst(":" + BRACED, TENANT, []);
  }

  // ---- When rendering is one substitution ----

  /** Every accepted template renders, in every order, to the one simultaneous substitution. */
  ghost predicate RendersAtOnce(slots: set<string>) {
    forall sql: string, keys: seq<string> ::
      Registered(map[], "", sql, slots).Ok? && Names(keys) == slots ==> Rendered(sql, keys) == Substituted(slots, sql)
  }

  /** An identifier, or a name that could only take the placeholder of an identifier nobody declared. */
  predicate Harmless(slot: string, slots: set<string>) {
    IsIdentifier(slot) || (IsIdentifier(Trim(slot)) && Trim(slot) !in slots)
  }

  function Identifiers(keys: seq<string>): set<string> {
    set key | key in keys && IsIdentifier(key)
  }

  /** The placeholders after the one that is going on. */
  lemma {:induction false} RunSkipsPlaceholders(q: Progress, s: string)
    requires !q.Nothing? && Run(q, s).Some?
    ensures Placeholders(s) == Placeholders(s[Run(q, s).value.length..])
    decreases s
  {
    if q.Closed? {
      assert s[0..] == s;
    } else {
      NoneBeginsInside(q, s);
      StepsOn(q, s[0]);
      hide Step, Placeholder;
      var q' := Step(q, s[0]).value;
      RunSkipsPlaceholders(q', s[1..]);
      var n := Run(q', s[1..]).value.length;
      assert s[1..][n..] == s[n + 1..];
    }
  }

  lemma LaterPlaceholders(s: string)
    requires s != ""
    ensures Placeholders(s[1..]) <= Placeholders(s)
  {
    if Placeholder(s).Some? {
      var q := Step(Nothing, s[0]).value;
      StepsOn(Nothing, s[0]);
      RunSkipsPlaceholders(q, s[1..]);
      var n := Run(q, s[1..]).value.length;
      assert s[1..][n..] == s[n + 1..];
    }
  }

  /** A key matches nothing where what it trims to is no placeholder. */
  lemma {:induction false} IdleKey(key: string, s: string)
    requires BraceFree(key) && IsIdentifier(Trim(key)) && Trim(key) !in Placeholders(s)
    ensures Sub(key, s) == s
    decreases |s|
  {
    if s != "" {
      KeyMatchIsGroup(key, s);
      PlaceholderIsGroup(s);
      if Group(s).Some? && Fits(key, Group(s).value) {
        IdentifierHasNoEdge(Trim(key));
        FitTrimsAlike(key, Group(s).value);
        assert false;
      }
      hide Trim, Group, Fits, IsIdentifier, Placeholder, BraceFree;
      LaterPlaceholders(s);
      IdleKey(key, s[1..]);
      assert MatchLength(key, s) == 0;
    }
  }

  lemma {:induction false} SubstitutionAddsNoPlaceholder(slots: set<string>, s: string)
    ensures Placeholders(Substituted(slots, s)) <= Placeholders(s)
    decreases |s|
  {
    if s != "" {
      var p := Placeholder(s);
      if p.Some? && p.value.name in slots {
        var rest := s[p.value.length..];
        NameIsIdentifier(Nothing, s);
        SubstitutionAddsNoPlaceholder(slots, rest);
        NoneInParameter(p.value.name, Substituted(slots, rest));
      } else if p.Some? {
        var n := p.value.length;
        SubstitutedStartsAlike(slots, s);
        SubstitutionAddsNoPlaceholder(slots, s[n..]);
        assert Substituted(slots, s)[n..] == Substituted(slots, s[n..]);
      } else {
        SubstitutedStartsAlike(slots, s);
        SubstitutionAddsNoPlaceholder(slots, s[1..]);
        assert Substituted(slots, s)[1..] == Substituted(slots, s[1..]);
      }
    }
  }

  /** Names that are no identifiers stand for no placeholder. */
  lemma {:induction false} OnlyIdentifiersAreSubstituted(a: set<string>, b: set<string>, s: string)
    requires forall name :: IsIdentifier(name) ==> (name in a <==> name in b)
    ensures Substituted(a, s) == Substituted(b, s)
    decreases |s|
  {
    if s != "" {
      var p := Placeholder(s);
      if p.Some? { NameIsIdentifier(Nothing, s); }
      if p.Some? && p.value.name in a {
        OnlyIdentifiersAreSubstituted(a, b, s[p.value.length..]);
      } else {
        OnlyIdentifiersAreSubstituted(a, b, s[1..]);
      }
    }
  }

  lemma {:induction false} HarmlessRendering(slots: set<string>, sql: string, keys: seq<string>)
    requires AllBraceFree(slots) && Placeholders(sql) <= slots
    requires forall key <- keys :: key in slots && Harmless(key, slots)
    ensures Rendered(sql, keys) == Substituted(Identifiers(keys), sql)
  {
    if keys == [] {
      assert Identifiers(keys) == {};
      NothingToSubstitute(sql);
    } else {
      var n := |keys| - 1;
      var key, before := keys[n], Identifiers(keys[..n]);
      assert keys == keys[..n] + [key] && forall k <- keys[..n] :: k in keys;
      HarmlessRendering(slots, sql, keys[..n]);
      assert Identifiers(keys) == before + if IsIdentifier(key) then {key} else {};
      hide Placeholders, Substituted, Sub, Trim, IsIdentifier, BraceFree;
      if IsIdentifier(key) {
        SubIsSubstituted(key, Substituted(before, sql));
        SubstitutionsCompose(before, {key}, sql);
      } else {
        SubstitutionAddsNoPlaceholder(before, sql);
        IdleKey(key, Substituted(before, sql));
        assert before + {} == before;
      }
    }
  }

  // ---- The witness against a harmful name ----

  function Witness(slot: string): string {
    InBraces(TENANT, InBraces(slot, ""))
  }

  lemma OnlyItselfFitsTenant(key: string)
    ensures Fits(key, TENANT) ==> key == TENANT
  {
    if Fits(key, TENANT) {
      var d: nat :| FitsAt(key, TENANT, d);
      ParameterIsWord();
      IdentifierHasNoEdge(TENANT);
      assert |key| == |TENANT| && d == 0;
      assert key == TENANT[0..|key|];
    }
  }

  lemma {:induction false} WitnessRendered(slot: string, rest: seq<string>)
    requires BraceFree(slot) && !IsIdentifier(slot) && forall key <- rest :: BraceFree(key)
    ensures Rendered(InBraces(TENANT, ":" + slot), rest)
            == if TENANT in rest then PARAMETER + (":" + slot) else InBraces(TENANT, ":" + slot)
  {
    var tail := ":" + slot;
    ParameterIsWord();
    assert BraceFree(tail) && BraceFree(PARAMETER + tail);
    if rest != [] {
      var n := |rest| - 1;
      var key := rest[n];
      assert rest == rest[..n] + [key] && forall k <- rest[..n] :: k in rest;
      WitnessRendered(slot, rest[..n]);
      hide BraceFree, Fits, Sub, Trim, IsIdentifier;
      SubKeepsPlain(key, tail);
      if TENANT in rest[..n] {
        SubKeepsPlain(key, PARAMETER + tail);
      } else if key == TENANT {
        FitsItself(TENANT);
        SubReplacesGroup(key, TENANT, tail);
      } else {
        OnlyItselfFitsTenant(key);
        SubCopiesGroup(key, TENANT, tail);
      }
    }
  }

  lemma WitnessPlaceholder(slot: string)
    requires BraceFree(slot)
    ensures Placeholder(Witness(slot)) == Some(Found(TENANT, |TENANT| + 4))
    ensures Witness(slot)[|TENANT| + 4..] == InBraces(slot, "")
  {
    ParameterIsWord();
    hide InBraces;
    AfterBraces(TENANT, InBraces(slot, ""));
    PlaceholderInBraces(TENANT, InBraces(slot, ""));
  }

  lemma WitnessIsAccepted(slots: set<string>, slot: string)
    requires TENANT in slots && AllBraceFree(slots) && slot in slots && !Harmless(slot, slots)
    ensures Registered(map[], "", Witness(slot), slots).Ok?
  {
    WitnessPlaceholder(slot);
    NameInBraces(slot);
    hide Placeholder, Trim, IsIdentifier, Sub, Witness;
    assert Placeholders(Witness(slot)) == {TENANT} + Placeholders(InBraces(slot, ""));
  }

  lemma WitnessAtOnce(slots: set<string>, slot: string)
    requires TENANT in slots && BraceFree(slot) && !Harmless(slot, slots)
    ensures Substituted(slots, Witness(slot)) != PARAMETER + (":" + slot)
  {
    var s := InBraces(slot, "");
    WitnessPlaceholder(slot);
    PlaceholderInBraces(slot, "");
    var tail := Substituted(slots, s);
    assert tail != ":" + slot by {
      if IsIdentifier(Trim(slot)) {
        assert s[|slot| + 4..] == "";
        assert tail == ":" + Trim(slot) + Substituted(slots, "");
        assert tail[1..] == Trim(slot) && (":" + slot)[1..] == slot;
      } else {
        assert tail[0] == '{';
      }
    }
    hide Placeholder, Trim, IsIdentifier, Harmless, Witness;
    assert Substituted(slots, Witness(slot)) == PARAMETER + tail;
    assert (PARAMETER + tail)[|PARAMETER|..] == tail && (PARAMETER + (":" + slot))[|PARAMETER|..] == ":" + slot;
  }

  lemma HarmfulSlotDiffers(slots: set<string>, slot: string)
    requires TENANT in slots && AllBraceFree(slots) && slot in slots && !Harmless(slot, slots)
    ensures !RendersAtOnce(slots)
  {
    hide Registered, Substituted, Sub, Trim, IsIdentifier, Harmless, Rendered;
    var sql := Witness(slot);
    WitnessIsAccepted(slots, slot);
    WitnessAtOnce(slots, slot);
    var rest := SlotFirst(slots, slot);
    WitnessInOrder(slots, slot, rest);
    assert Rendered(sql, [slot] + rest) == PARAMETER + (":" + slot);
  }

  lemma WitnessInOrder(slots: set<string>, slot: string, rest: seq<string>)
    requires TENANT in slots && AllBraceFree(slots) && slot in slots && !Harmless(slot, slots)
    requires Names(rest) == slots - {slot}
    ensures Rendered(Witness(slot), [slot] + rest) == PARAMETER + (":" + slot)
  {
    assert IsIdentifier(TENANT) && BraceFree(TENANT) by { ParameterIsWord(); }
    assert forall key <- rest :: key in Names(rest);
    assert TENANT in Names(rest);
    hide Rendered, Sub, Trim, IsIdentifier, Fits, BraceFree;
    OnlyItselfFitsTenant(slot);
    SubCopiesGroup(slot, TENANT, InBraces(slot, ""));
    NameInBraces(slot);
    RenderedFirst(Witness(slot), slot, rest);
    WitnessRendered(slot, rest);
  }

  /** Rendering slot by slot is one simultaneous substitution, for every accepted template and every
      order, if and only if each slot is an identifier or trims to an identifier nobody declared. */
  lemma RendersAtOnceExactly(slots: set<string>)
    requires TENANT in slots && AllBraceFree(slots)
    ensures RendersAtOnce(slots) <==> forall slot <- slots :: Harmless(slot, slots)
  {
    if forall slot <- slots :: Harmless(slot, slots) {
      forall sql: string, keys: seq<string> | Registered(map[], "", sql, slots).Ok? && Names(keys) == slots
        ensures Rendered(sql, keys) == Substituted(slots, sql)
      {
        hide Placeholders, Rendered, Substituted, Harmless, BraceFree;
        forall key <- keys ensures key in slots { assert key in Names(keys); }
        HarmlessRendering(slots, sql, keys);
        forall name ensures name in keys <==> name in slots { assert name in Names(keys) <==> name in keys; }
        OnlyIdentifiersAreSubstituted(Identifiers(keys), slots, sql);
      }
    }
    if slot :| slot in slots && !Harmless(slot, slots) {
      HarmfulSlotDiffers(slots, slot);
    }
  }

  /** What a caller of a registered template gets with such slots, in whatever order it gives them: every
      placeholder replaced at once, none left, and the tenant parameter in place. */
  lemma ResolvedTemplateIsBound(templates: map<string, SqlTemplate>, name: string, sql: string, slots: set<string>,
                                keys: seq<string>)
    requires AllBraceFree(slots) && forall slot <- slots :: Harmless(slot, slots)
    requires Registered(templates, name, sql, slots).Ok? && Names(keys) == slots
    ensures var r := Resolved(Registered(templates, name, sql, slots).value, name, keys);
      r == Ok(Substituted(slots, sql)) && NoPlaceholder(r.value) && Occurs(PARAMETER, r.value)
  {
    hide Rendered, Placeholders, Placeholder, Substituted, Harmless, BraceFree, NoPlaceholder, Occurs;
    RendersAtOnceExactly(slots);
    assert Registered(map[], "", sql, slots).Ok?;
    NoneRemains(slots, sql);
    NoneFoundMeansNone(Substituted(slots, sql));
    SlotBecomesParameter(slots, TENANT, sql);
  }
}
