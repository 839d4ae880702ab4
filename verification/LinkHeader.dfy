/** The `Link` response header: the parser, and a printer it inverts. */
module LinkHeader {
  import opened Wrappers
  import CredentialPatterns

  predicate Space(c: char) {
    CredentialPatterns.Space(c)
  }

  predicate Angle(c: char) {
    c == '<' || c == '>'
  }

  predicate Quote(c: char) {
    c == '"'
  }

  // ---- Text ----

  function IndexOf(s: string, c: char): (i: nat)
    ensures i <= |s|
  {
    if s == "" || s[0] == c then 0 else IndexOf(s[1..], c) + 1
  }

  function SplitOn(s: string, c: char): (pieces: seq<string>)
    ensures pieces != []
  {
    var i := IndexOf(s, c);
    if i == |s| then [s] else [s[..i]] + SplitOn(s[i + 1..], c)
  }

  function StripLeft(s: string, p: char -> bool): string {
    if s != "" && p(s[0]) then StripLeft(s[1..], p) else s
  }

  function StripRight(s: string, p: char -> bool): string {
    if s != "" && p(s[|s| - 1]) then StripRight(s[..|s| - 1], p) else s
  }

  function Strip(s: string, p: char -> bool): string {
    StripRight(StripLeft(s, p), p)
  }

  // ---- The parser ----

  function UrlOf(piece: string): string {
    Strip(Strip(Strip(piece, Space), Angle), Space)
  }

  function AddParam(rels: map<string, string>, url: string, param: string): map<string, string> {
    var p := Strip(param, Space);
    var i := IndexOf(p, '=');
    var value := if i < |p| then p[i + 1..] else "";
    if p[..i] == "rel" && value != "" then rels[Strip(Strip(value, Space), Quote) := url] else rels
  }

  function AddParams(rels: map<string, string>, url: string, params: seq<string>): map<string, string> {
    if params == [] then rels
    else AddParam(AddParams(rels, url, params[..|params| - 1]), url, params[|params| - 1])
  }

  function AddSection(rels: map<string, string>, part: string): map<string, string> {
    var section := Strip(part, Space);
    if section == "" || ';' !in section then rels
    else
      var pieces := SplitOn(section, ';');
      if UrlOf(pieces[0]) == "" then rels else AddParams(rels, UrlOf(pieces[0]), pieces[1..])
  }

  function AddSections(parts: seq<string>): map<string, string> {
    if parts == [] then map[] else AddSection(AddSections(parts[..|parts| - 1]), parts[|parts| - 1])
  }

  function Parse(header: string): map<string, string> {
    AddSections(SplitOn(header, ','))
  }

  /** The inner loop, over the parameters of one section. */
  method RecordRels(recorded: map<string, string>, url: string, params: seq<string>) returns (rels: map<string, string>)
    ensures rels == AddParams(recorded, url, params)
  {
    hide Strip, IndexOf;
    rels := recorded;
    for i := 0 to |params|
      invariant rels == AddParams(recorded, url, params[..i])
    {
      assert params[..i + 1][..i] == params[..i];
      var param := Strip(params[i], Space);
      var at := IndexOf(param, '=');
      var key, value := param[..at], if at < |param| then param[at + 1..] else "";
      if key == "rel" && value != "" {
        rels := rels[Strip(Strip(value, Space), Quote) := url];
      }
    }
    assert params[..|params|] == params;
  }

  method ParseLinkHeader(header: Option<string>) returns (rels: map<string, string>)
    ensures rels == if header.None? then map[] else Parse(header.value)
  {
    rels := map[];
    assert Parse("") == map[] by { assert SplitOn("", ',') == [""] && Strip("", Space) == ""; }
    if header.None? || header.value == "" {
      return;
    }
    hide Strip, SplitOn, IndexOf, UrlOf;
    var parts := SplitOn(header.value, ',');
    for i := 0 to |parts|
      invariant rels == AddSections(parts[..i])
    {
      assert parts[..i + 1][..i] == parts[..i];
      var section := Strip(parts[i], Space);
      if section == "" {
        continue;
      }
      if ';' !in section {
        continue;
      }
      var pieces := SplitOn(section, ';');
      var url := UrlOf(pieces[0]);
      if url == "" {
        continue;
      }
      rels := RecordRels(rels, url, pieces[1..]);
    }
    assert parts[..|parts|] == parts;
  }

  // ---- The printer ----

  datatype Link = Link(rel: string, url: string)

  function PrintLink(l: Link): string {
    "<" + l.url + ">; rel=\"" + l.rel + "\""
  }

  function Print(links: seq<Link>): string {
    if links == [] then ""
    else if |links| == 1 then PrintLink(links[0])
    else Print(links[..|links| - 1]) + "," + (" " + PrintLink(links[|links| - 1]))
  }

  /** The links as a map; of several with one relation the last counts. */
  function LastOf(links: seq<Link>): map<string, string> {
    if links == [] then map[]
    else
      var last := links[|links| - 1];
      LastOf(links[..|links| - 1])[last.rel := last.url]
  }

  predicate HasEdge(s: string, p: char -> bool) {
    s != "" && (p(s[0]) || p(s[|s| - 1]))
  }

  predicate CanBePrinted(l: Link) {
    && l.url != "" && ',' !in l.url && ';' !in l.url && !HasEdge(l.url, Space) && !HasEdge(l.url, Angle)
    && ',' !in l.rel && ';' !in l.rel && !HasEdge(l.rel, Quote)
  }

  // ---- Lemmas on text ----

  lemma NoneToSplit(s: string, c: char)
    requires c !in s
    ensures SplitOn(s, c) == [s]
  {
    IndexIsEnd(s, c);
  }

  lemma {:induction false} IndexIsEnd(s: string, c: char)
    ensures IndexOf(s, c) == |s| <==> c !in s
    ensures IndexOf(s, c) < |s| ==> s[IndexOf(s, c)] == c && c !in s[..IndexOf(s, c)]
  {
    if s != "" && s[0] != c {
      IndexIsEnd(s[1..], c);
      var i := IndexOf(s[1..], c);
      assert s == [s[0]] + s[1..];
      if i < |s[1..]| { assert s[..i + 1] == [s[0]] + s[1..][..i]; }
    }
  }

  lemma {:induction false} IndexIs(s: string, c: char, i: nat)
    requires i < |s| && s[i] == c && c !in s[..i]
    ensures IndexOf(s, c) == i
  {
    if i > 0 {
      assert s[0] in s[..i];
      assert forall d <- s[1..][..i - 1] :: d in s[..i];
      IndexIs(s[1..], c, i - 1);
    }
  }

  lemma {:induction false} SplitJoined(a: string, c: char, b: string)
    ensures SplitOn(a + [c] + b, c) == SplitOn(a, c) + SplitOn(b, c)
  {
    var s, j := a + [c] + b, IndexOf(a, c);
    IndexIsEnd(a, c);
    hide IndexOf;
    assert s[..j] == a[..j];
    IndexIs(s, c, j);
    if j < |a| {
      assert s[j + 1..] == a[j + 1..] + [c] + b;
      SplitJoined(a[j + 1..], c, b);
    } else {
      assert a[..j] == a && s[j + 1..] == b;
    }
  }

  lemma NoneToStrip(s: string, p: char -> bool)
    requires !HasEdge(s, p)
    ensures Strip(s, p) == s
  {}

  lemma {:induction false} StripLeftOf(a: string, s: string, p: char -> bool)
    requires forall c <- a :: p(c)
    ensures StripLeft(a + s, p) == StripLeft(s, p)
  {
    if a == "" {
      assert a + s == s;
    } else {
      assert (a + s)[0] == a[0] && (a + s)[1..] == a[1..] + s && a[0] in a;
      assert forall c <- a[1..] :: c in a;
      StripLeftOf(a[1..], s, p);
    }
  }

  // ---- The round trip ----

  lemma SpacedSection(s: string)
    requires !HasEdge(s, Space)
    ensures Strip(s, Space) == s && Strip(" " + s, Space) == s
  {
    NoneToStrip(s, Space);
    StripLeftOf(" ", s, Space);
  }

  /** The pieces of a printed link. */
  lemma PiecesOfLink(l: Link)
    requires ';' !in l.url && ';' !in l.rel
    ensures SplitOn(PrintLink(l), ';') == ["<" + l.url + ">", " rel=\"" + l.rel + "\""]
  {
    var a, b := "<" + l.url + ">", " rel=\"" + l.rel + "\"";
    assert PrintLink(l) == a + [';'] + b;
    SplitJoined(a, ';', b);
    NoneToSplit(a, ';');
    NoneToSplit(b, ';');
  }

  lemma {:induction false} StripRightOf(s: string, b: string, p: char -> bool)
    requires forall c <- b :: p(c)
    ensures StripRight(s + b, p) == StripRight(s, p)
  {
    if b == "" {
      assert s + b == s;
    } else {
      var n := |b| - 1;
      assert (s + b)[..|s| + n] == s + b[..n] && b[n] in b;
      assert forall c <- b[..n] :: c in b;
      StripRightOf(s, b[..n], p);
    }
  }

  lemma {:induction false} StripLeftThrough(s: string, b: string, p: char -> bool)
    requires forall c <- b :: p(c)
    ensures StripLeft(s + b, p) == if StripLeft(s, p) == "" then "" else StripLeft(s, p) + b
  {
    if s == "" {
      StripLeftOf(b, "", p);
      assert s + b == b == b + "";
    } else {
      assert (s + b)[0] == s[0] && (s + b)[1..] == s[1..] + b;
      if p(s[0]) { StripLeftThrough(s[1..], b, p); }
    }
  }

  /** Characters to strip on both sides of a text do not matter. */
  lemma StripBetween(a: string, s: string, b: string, p: char -> bool)
    requires (forall c <- a :: p(c)) && (forall c <- b :: p(c))
    ensures Strip(a + s + b, p) == Strip(s, p)
  {
    hide StripLeft, StripRight;
    assert a + s + b == a + (s + b);
    StripLeftOf(a, s + b, p);
    StripLeftThrough(s, b, p);
    StripRightOf(StripLeft(s, p), b, p);
  }

  /** What the parser makes of a bracketed URL. */
  lemma UrlOfPrinted(url: string)
    ensures UrlOf("<" + url + ">") == Strip(Strip(url, Angle), Space)
  {
    var piece := "<" + url + ">";
    assert piece[0] == '<' && piece[|piece| - 1] == '>';
    NoneToStrip(piece, Space);
    StripBetween("<", url, ">", Angle);
    hide Strip;
  }

  /** What the parser makes of a quoted relation. */
  lemma AddPrintedRel(rels: map<string, string>, url: string, rel: string)
    ensures AddParam(rels, url, " rel=\"" + rel + "\"") == rels[Strip(rel, Quote) := url]
  {
    var p, value := "rel=\"" + rel + "\"", "\"" + rel + "\"";
    assert " rel=\"" + rel + "\"" == " " + p && p[0] == 'r' && p[|p| - 1] == '"';
    SpacedSection(p);
    assert p[3] == '=' && p[..3] == "rel" && p[4..] == value;
    IndexIs(p, '=', 3);
    assert value[0] == '"' && value[|value| - 1] == '"';
    NoneToStrip(value, Space);
    StripBetween("\"", rel, "\"", Quote);
    hide Strip;
  }

  /** A printed link among the sections of a header. */
  lemma AddPrintedLink(rels: map<string, string>, l: Link, part: string)
    requires ';' !in l.url && ';' !in l.rel
    requires part == PrintLink(l) || part == " " + PrintLink(l)
    ensures var url := Strip(Strip(l.url, Angle), Space);
      AddSection(rels, part) == if url == "" then rels else rels[Strip(l.rel, Quote) := url]
  {
    var s, url := PrintLink(l), Strip(Strip(l.url, Angle), Space);
    assert s[0] == '<' && s[|s| - 1] == '"' && s[|l.url| + 2] == ';';
    SpacedSection(s);
    PiecesOfLink(l);
    UrlOfPrinted(l.url);
    AddPrintedRel(rels, url, l.rel);
    var params := SplitOn(s, ';')[1..];
    assert params == [" rel=\"" + l.rel + "\""] && params[..0] == [];
    hide Strip, PrintLink, AddParam, UrlOf;
    assert AddParams(rels, url, params) == AddParam(rels, url, params[0]);
  }

  lemma NoCommaInLink(l: Link)
    requires ',' !in l.url && ',' !in l.rel
    ensures ',' !in PrintLink(l) && ',' !in " " + PrintLink(l)
  {}

  function Sections(links: seq<Link>): seq<string> {
    seq(|links|, i requires 0 <= i < |links| => (if i == 0 then "" else " ") + PrintLink(links[i]))
  }

  predicate NoCommas(links: seq<Link>) {
    forall l <- links :: ',' !in l.url && ',' !in l.rel
  }

  lemma OneSection(links: seq<Link>)
    requires |links| == 1
    ensures Sections(links) == [PrintLink(links[0])]
  {
    assert "" + PrintLink(links[0]) == PrintLink(links[0]);
  }

  lemma LastSection(links: seq<Link>)
    requires |links| > 1
    ensures var n := |links| - 1;
      Sections(links) == Sections(links[..n]) + [" " + PrintLink(links[n])]
  {
    hide PrintLink;
  }

  lemma {:induction false} PrintedSections(links: seq<Link>)
    requires links != [] && NoCommas(links)
    ensures SplitOn(Print(links), ',') == Sections(links)
  {
    var n := |links| - 1;
    NoCommaInLink(links[n]);
    assert NoCommas(links[..n]) by { assert forall l <- links[..n] :: l in links; }
    hide PrintLink, NoCommas, SplitOn, Sections;
    if n == 0 {
      OneSection(links);
      NoneToSplit(PrintLink(links[0]), ',');
    } else {
      PrintedSections(links[..n]);
      LastSection(links);
      SplitJoined(Print(links[..n]), ',', " " + PrintLink(links[n]));
      NoneToSplit(" " + PrintLink(links[n]), ',');
    }
  }

  lemma {:induction false} SectionsOfLinks(links: seq<Link>)
    requires forall l <- links :: CanBePrinted(l)
    ensures AddSections(Sections(links)) == LastOf(links)
  {
    if links != [] {
      var n, parts := |links| - 1, Sections(links);
      assert forall l <- links[..n] :: l in links;
      SectionsOfLinks(links[..n]);
      assert parts[..n] == Sections(links[..n]);
      assert parts[n] == PrintLink(links[n]) || parts[n] == " " + PrintLink(links[n]);
      AddPlainLink(LastOf(links[..n]), links[n], parts[n]);
    }
  }

  lemma AddPlainLink(rels: map<string, string>, l: Link, part: string)
    requires CanBePrinted(l) && (part == PrintLink(l) || part == " " + PrintLink(l))
    ensures AddSection(rels, part) == rels[l.rel := l.url]
  {
    AddPrintedLink(rels, l, part);
    NoneToStrip(l.url, Angle);
    NoneToStrip(l.url, Space);
    NoneToStrip(l.rel, Quote);
  }

  /** Printing links and parsing them back gives the map of relations to URLs; of several links with one
      relation the last counts. */
  lemma RoundTrip(links: seq<Link>)
    requires forall l <- links :: CanBePrinted(l)
    ensures Parse(Print(links)) == LastOf(links)
  {
    if links == [] {
      assert SplitOn("", ',') == [""] && Strip("", Space) == "";
    } else {
      assert NoCommas(links);
      hide CanBePrinted, NoCommas;
      PrintedSections(links);
      SectionsOfLinks(links);
    }
  }

  // ---- Which links come back ----

  lemma {:induction false} StripShortens(s: string, p: char -> bool)
    ensures |Strip(s, p)| <= |s| && (HasEdge(s, p) ==> |Strip(s, p)| < |s|)
    ensures forall c <- Strip(s, p) :: c in s
  {
    StripLeftShortens(s, p);
    StripRightShortens(StripLeft(s, p), p);
  }

  lemma {:induction false} StripLeftShortens(s: string, p: char -> bool)
    ensures |StripLeft(s, p)| <= |s| && (StripLeft(s, p) == s || |StripLeft(s, p)| < |s|)
    ensures s != "" && p(s[0]) ==> |StripLeft(s, p)| < |s|
    ensures forall c <- StripLeft(s, p) :: c in s
  {
    if s != "" && p(s[0]) {
      StripLeftShortens(s[1..], p);
    }
  }

  lemma {:induction false} StripRightShortens(s: string, p: char -> bool)
    ensures |StripRight(s, p)| <= |s|
    ensures s != "" && p(s[|s| - 1]) ==> |StripRight(s, p)| < |s|
    ensures forall c <- StripRight(s, p) :: c in s
  {
    if s != "" && p(s[|s| - 1]) {
      StripRightShortens(s[..|s| - 1], p);
    }
  }

  lemma {:induction false} PiecesAvoid(s: string, c: char)
    ensures forall piece <- SplitOn(s, c) :: c !in piece
  {
    IndexIsEnd(s, c);
    var i := IndexOf(s, c);
    if i < |s| { PiecesAvoid(s[i + 1..], c); }
  }

  /** No character of a piece comes from nowhere. */
  lemma {:induction false} PiecesComeFrom(s: string, c: char, d: char)
    requires d !in s
    ensures forall piece <- SplitOn(s, c) :: d !in piece
  {
    var i := IndexOf(s, c);
    if i < |s| {
      assert forall x <- s[i + 1..] :: x in s;
      PiecesComeFrom(s[i + 1..], c, d);
    }
  }

  ghost predicate Avoids(rels: map<string, string>, d: char) {
    forall rel :: rel in rels ==> d !in rel && d !in rels[rel]
  }

  lemma AddParamAvoids(rels: map<string, string>, url: string, param: string, d: char)
    requires Avoids(rels, d) && d !in url && d !in param
    ensures Avoids(AddParam(rels, url, param), d)
  {
    var p := Strip(param, Space);
    StripShortens(param, Space);
    var i := IndexOf(p, '=');
    var value := if i < |p| then p[i + 1..] else "";
    StripShortens(value, Space);
    StripShortens(Strip(value, Space), Quote);
    assert forall c <- value :: c in p;
  }

  lemma {:induction false} AddParamsAvoids(rels: map<string, string>, url: string, params: seq<string>, d: char)
    requires Avoids(rels, d) && d !in url && forall param <- params :: d !in param
    ensures Avoids(AddParams(rels, url, params), d)
  {
    if params != [] {
      var n := |params| - 1;
      AddParamsAvoids(rels, url, params[..n], d);
      AddParamAvoids(AddParams(rels, url, params[..n]), url, params[n], d);
    }
  }

  lemma AddSectionAvoids(rels: map<string, string>, part: string, d: char)
    requires Avoids(rels, d) && (d == ';' || d !in part)
    ensures Avoids(AddSection(rels, part), d)
  {
    var section := Strip(part, Space);
    StripShortens(part, Space);
    var pieces := SplitOn(section, ';');
    if d == ';' {
      PiecesAvoid(section, ';');
    } else {
      PiecesComeFrom(section, ';', d);
    }
    var piece := pieces[0];
    assert d !in piece;
    StripShortens(piece, Space);
    StripShortens(Strip(piece, Space), Angle);
    StripShortens(Strip(Strip(piece, Space), Angle), Space);
    assert d !in UrlOf(piece);
    assert forall param <- pieces[1..] :: param in pieces;
    hide Strip, SplitOn, UrlOf;
    AddParamsAvoids(rels, UrlOf(piece), pieces[1..], d);
  }

  lemma {:induction false} AddSectionsAvoids(parts: seq<string>, d: char)
    requires d == ';' || forall part <- parts :: d !in part
    ensures Avoids(AddSections(parts), d)
  {
    if parts != [] {
      var n := |parts| - 1;
      AddSectionsAvoids(parts[..n], d);
      AddSectionAvoids(AddSections(parts[..n]), parts[n], d);
    }
  }

  /** No relation and no URL the parser returns, from whatever header, contains a separator. */
  lemma ParsedAvoidsSeparators(header: string)
    ensures Avoids(Parse(header), ',') && Avoids(Parse(header), ';')
  {
    PiecesAvoid(header, ',');
    AddSectionsAvoids(SplitOn(header, ','), ',');
    AddSectionsAvoids(SplitOn(header, ','), ';');
  }

  /** A link comes back from its printed form exactly when it has no separator and nothing the parser
      strips at its ends. */
  lemma ComesBackExactly(l: Link)
    ensures Parse(Print([l])) == map[l.rel := l.url] <==> CanBePrinted(l)
  {
    if CanBePrinted(l) {
      RoundTrip([l]);
      assert [l][..0] == [];
    }
    if Parse(Print([l])) == map[l.rel := l.url] {
      ParsedAvoidsSeparators(Print([l]));
      assert l.rel in map[l.rel := l.url];
      NoCommaInLink(l);
      NoneToSplit(PrintLink(l), ',');
      var part := PrintLink(l);
      assert [part][..0] == [];
      assert AddSections([part]) == AddSection(map[], part);
      AddPrintedLink(map[], l, part);
      StripShortens(l.url, Angle);
      StripShortens(Strip(l.url, Angle), Space);
      StripShortens(l.rel, Quote);
    }
  }
}
