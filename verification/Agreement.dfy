/** What Canvas knows about a record, which writes tell it, and which rows show it. */
module Agreement {
  import opened Wrappers
  import opened Tables
  import opened Replies
  import opened SyncRun
  import opened Referential
  import opened Convergence
  import opened FirstRun
  import opened FirstRunExactly

  /** The non-null payload fields of a record, the records its links name, and whether it is inactive. */
  datatype Content = Content(fields: Cells, names: map<Column, Key>, inactive: bool)

  /** A payload field that is no link. */
  predicate PlainColumn(a: Action, c: Column)
    requires a.Save?
  {
    c in a.cells && IsWritable(a.table, c) && ForeignTable(a.table, c).None?
  }

  /** A write that says nothing but what is so; a copy of a record may leave fields and links out. */
  ghost predicate Agrees(tenant: Tenant, a: Action, x: Content)
    requires a.Save?
  {
    && (forall c :: PlainColumn(a, c) ==> c in x.fields && x.fields[c] == a.cells[c])
    && (forall c :: TargetOf(tenant, a.links, c).Some? ==> c in x.names && x.names[c] == TargetOf(tenant, a.links, c).value)
    && (Inactive(a.state) ==> x.inactive)
  }

  /** A write that leaves nothing out. */
  ghost predicate Conveys(tenant: Tenant, a: Action, x: Content)
    requires a.Save?
  {
    && Agrees(tenant, a, x)
    && (forall c :: c in x.fields ==> PlainColumn(a, c))
    && (forall c :: c in x.names ==> TargetOf(tenant, a.links, c).Some?)
    && (x.inactive ==> Inactive(a.state))
  }

  /** What a write says of its record. */
  function ContentOf(tenant: Tenant, a: Action): Content
    requires a.Save?
  {
    Content(map c | c in a.cells && PlainColumn(a, c) :: a.cells[c],
            map c | c in Columns(a.links) && TargetOf(tenant, a.links, c).Some? :: TargetOf(tenant, a.links, c).value,
            Inactive(a.state))
  }

  function Columns(links: seq<Link>): set<Column> {
    set x | x in links :: x.column
  }

  lemma {:induction false} TargetIsInColumns(tenant: Tenant, links: seq<Link>, c: Column)
    requires TargetOf(tenant, links, c).Some?
    ensures c in Columns(links)
    decreases |links|
  {
    assert links[0] in links;
    if links[0].column != c {
      TargetIsInColumns(tenant, links[1..], c);
      var x :| x in links[1..] && x.column == c;
      assert x in links;
    }
  }

  /** Agreeing is saying part of it, and conveying is saying all of it. */
  lemma AgreesIsPart(tenant: Tenant, a: Action, x: Content)
    requires a.Save?
    ensures var y := ContentOf(tenant, a);
      Agrees(tenant, a, x)
      <==> (forall c <- y.fields :: c in x.fields && x.fields[c] == y.fields[c])
           && (forall c <- y.names :: c in x.names && x.names[c] == y.names[c]) && (y.inactive ==> x.inactive)
    ensures Conveys(tenant, a, x) <==> ContentOf(tenant, a) == x
  {
    var y := ContentOf(tenant, a);
    forall c ensures c in y.names <==> TargetOf(tenant, a.links, c).Some? {
      if TargetOf(tenant, a.links, c).Some? { TargetIsInColumns(tenant, a.links, c); }
    }
    hide TargetOf, PlainColumn, Inactive;
    if Conveys(tenant, a, x) {
      assert y.fields == x.fields && y.names == x.names;
    }
  }

  predicate Writes(tenant: Tenant, a: Action, k: Key) {
    a.Save? && KeyOf(tenant, a) == k
  }

  ghost predicate AllAgree(tenant: Tenant, script: seq<Action>, k: Key, x: Content) {
    forall a <- script :: Writes(tenant, a, k) ==> Agrees(tenant, a, x)
  }

  ghost predicate Told(tenant: Tenant, script: seq<Action>, k: Key, x: Content) {
    exists a :: a in script && Writes(tenant, a, k) && Conveys(tenant, a, x)
  }

  /** The row has every field, and the mark of an inactive record. */
  ghost predicate ShowsFields(rows: map<Key, Row>, k: Key, x: Content) {
    && k in rows
    && (forall c :: c in x.fields && ForeignTable(k.table, c).None? && !c.DeletedAt? ==>
          c in rows[k].cells && rows[k].cells[c] == x.fields[c])
    && (x.inactive ==> DeletedAt in rows[k].cells)
  }

  /** Column `c` of the row at `k` refers to the row at `t`. */
  predicate ShowsLink(rows: map<Key, Row>, k: Key, c: Column, t: Key) {
    && ForeignTable(k.table, c).Some?
    && k in rows && t in rows
    && c in rows[k].cells && rows[k].cells[c] == Ref(rows[t].id)
  }

  /** A write of the script names a record in column `c` of row `k` that is stored by then: before the
      script, or earlier in it. */
  ghost predicate LinkMade(stored: set<Key>, tenant: Tenant, script: seq<Action>, k: Key, c: Column) {
    exists j :: 0 <= j < |script| && MadeAt(stored, tenant, script, j, k, c)
  }

  predicate MadeAt(stored: set<Key>, tenant: Tenant, script: seq<Action>, j: nat, k: Key, c: Column)
    requires j < |script|
  {
    Writes(tenant, script[j], k) && NamesStored(stored + SavedKeys(tenant, script[..j]), tenant, script[j], c)
  }

  predicate NamesStored(stored: set<Key>, tenant: Tenant, a: Action, c: Column)
    requires a.Save?
  {
    var t := TargetOf(tenant, a.links, c);
    t.Some? && t.value in stored
  }

  // ---- One write ----

  lemma PlainIsWritten(rows: map<Key, Row>, tenant: Tenant, a: Action, c: Column)
    requires a.Save? && WellFormed(a) && ForeignTable(a.table, c).None?
    ensures var w := WrittenTo(rows, tenant, a, KeyOf(tenant, a));
      (c in w <==> PlainColumn(a, c)) && (c in w ==> w[c] == a.cells[c])
  {
    if HasColumn(a.links, c) {
      LinkedColumn(a.table, a.links, c);
    }
    RelinkedOther(rows, tenant, a.cells, a.links, c);
  }

  /** A write that leaves nothing out makes its row show the record; one that does leaves it so. */
  lemma WriteShowsFields(here: Database, tenant: Tenant, a: Action, clock: Clock, x: Content)
    requires a.Save? && WellFormed(a) && Agrees(tenant, a, x)
    requires Conveys(tenant, a, x) || ShowsFields(here.rows, KeyOf(tenant, a), x)
    ensures ShowsFields(Apply(here, tenant, a, clock).rows, KeyOf(tenant, a), x)
  {
    var k, after := KeyOf(tenant, a), Apply(here, tenant, a, clock);
    ApplyRows(here, tenant, a, clock);
    forall c | c in x.fields && ForeignTable(k.table, c).None? && !c.DeletedAt?
      ensures c in after.rows[k].cells && after.rows[k].cells[c] == x.fields[c]
    {
      PlainIsWritten(here.rows, tenant, a, c);
      CellsAfter(here, tenant, a, clock, k, c);
    }
    assert x.inactive ==> DeletedAt in after.rows[k].cells by {
      AppliedCells(here, tenant, a, clock, here.rows);
    }
  }

  /** A write that names a stored record links to it; one that agrees leaves the link so. */
  lemma WriteShowsLink(here: Database, tenant: Tenant, a: Action, clock: Clock, x: Content, c: Column)
    requires a.Save? && WellFormed(a) && Agrees(tenant, a, x) && c in x.names
    requires NamesStored(here.rows.Keys, tenant, a, c) || ShowsLink(here.rows, KeyOf(tenant, a), c, x.names[c])
    ensures ShowsLink(Apply(here, tenant, a, clock).rows, KeyOf(tenant, a), c, x.names[c])
  {
    var k := KeyOf(tenant, a);
    if TargetOf(tenant, a.links, c).Some? {
      TargetHasColumn(tenant, a.links, c);
      LinkedColumn(a.table, a.links, c);
    }
    hide Apply, WrittenTo, WellFormed;
    ApplyRows(here, tenant, a, clock);
    ForeignIsWritable(a.table, c);
    WrittenLink(here.rows, tenant, a, k, c);
    CellsAfter(here, tenant, a, clock, k, c);
  }

  /** Nothing that leaves the row and the ids alone changes what it shows. */
  lemma StillShows(rows: map<Key, Row>, rows': map<Key, Row>, k: Key, x: Content, c: Column)
    requires Extends(rows, rows') && (k in rows ==> rows'[k] == rows[k])
    ensures ShowsFields(rows, k, x) ==> ShowsFields(rows', k, x)
    ensures c in x.names && ShowsLink(rows, k, c, x.names[c]) ==> ShowsLink(rows', k, c, x.names[c])
  {}

  lemma OtherWriteShows(here: Database, tenant: Tenant, a: Action, clock: Clock, k: Key, x: Content, c: Column)
    requires !Writes(tenant, a, k)
    ensures var after := Apply(here, tenant, a, clock);
      && (ShowsFields(here.rows, k, x) ==> ShowsFields(after.rows, k, x))
      && (c in x.names && ShowsLink(here.rows, k, c, x.names[c]) ==> ShowsLink(after.rows, k, c, x.names[c]))
  {
    hide Apply, ShowsFields, ShowsLink;
    if a.Save? {
      ApplyRows(here, tenant, a, clock);
    } else {
      DropChangesNothing(here, tenant, clock);
    }
    StillShows(here.rows, Apply(here, tenant, a, clock).rows, k, x, c);
  }

  // ---- A script ----

  /** A script that says nothing else of a record makes its row show it if it tells it whole, and leaves
      it so in any case. */
  lemma {:induction false} ScriptShowsFields(db: Database, tenant: Tenant, script: seq<Action>, clock: Clock, k: Key, x: Content)
    requires AllWellFormed(script) && AllAgree(tenant, script, k, x)
    requires Told(tenant, script, k, x) || ShowsFields(db.rows, k, x)
    ensures ShowsFields(ApplyAll(db, tenant, script, clock).rows, k, x)
  {
    hide Apply, WellFormed, Agrees, Conveys, ShowsFields;
    if script != [] {
      var n := |script| - 1;
      var a := script[n];
      assert script == script[..n] + [a] && forall b <- script[..n] :: b in script;
      if Told(tenant, script[..n], k, x) || ShowsFields(db.rows, k, x) {
        ScriptShowsFields(db, tenant, script[..n], clock, k, x);
      }
      var here := ApplyAll(db, tenant, script[..n], clock);
      if Writes(tenant, a, k) {
        assert Agrees(tenant, a, x);
        WriteShowsFields(here, tenant, a, clock, x);
      } else {
        OtherWriteShows(here, tenant, a, clock, k, x, TenantId);
      }
    }
  }

  /** Likewise a link, once a write names its target when that is stored. */
  lemma {:induction false} ScriptShowsLink(db: Database, tenant: Tenant, script: seq<Action>, clock: Clock, k: Key,
                                           x: Content, c: Column)
    requires AllWellFormed(script) && AllAgree(tenant, script, k, x) && c in x.names
    requires LinkMade(db.rows.Keys, tenant, script, k, c) || ShowsLink(db.rows, k, c, x.names[c])
    ensures ShowsLink(ApplyAll(db, tenant, script, clock).rows, k, c, x.names[c])
  {
    hide Apply, WellFormed, Agrees, ShowsLink, NamesStored;
    if script != [] {
      var n := |script| - 1;
      var a := script[n];
      assert script == script[..n] + [a] && forall b <- script[..n] :: b in script;
      var here := ApplyAll(db, tenant, script[..n], clock);
      ApplyAllKeys(db, tenant, script[..n], clock);
      LastOrEarlier(db.rows.Keys, tenant, script, k, c);
      if LinkMade(db.rows.Keys, tenant, script[..n], k, c) || ShowsLink(db.rows, k, c, x.names[c]) {
        ScriptShowsLink(db, tenant, script[..n], clock, k, x, c);
      }
      if Writes(tenant, a, k) {
        assert Agrees(tenant, a, x);
        WriteShowsLink(here, tenant, a, clock, x, c);
      } else {
        OtherWriteShows(here, tenant, a, clock, k, x, c);
      }
    }
  }

  lemma LastOrEarlier(stored: set<Key>, tenant: Tenant, script: seq<Action>, k: Key, c: Column)
    requires script != []
    ensures var n := |script| - 1;
      LinkMade(stored, tenant, script, k, c)
      <==> LinkMade(stored, tenant, script[..n], k, c) || MadeAt(stored, tenant, script, n, k, c)
  {
    hide Writes, NamesStored;
    var n := |script| - 1;
    forall j | 0 <= j < n
      ensures MadeAt(stored, tenant, script, j, k, c) <==> MadeAt(stored, tenant, script[..n], j, k, c)
    {
      assert script[..n][..j] == script[..j];
    }
  }

  /** A row that nobody writes stays what it is. */
  lemma {:induction false} UnwrittenRowStays(db: Database, tenant: Tenant, script: seq<Action>, clock: Clock, k: Key)
    requires forall a <- script :: !Writes(tenant, a, k)
    ensures var after := ApplyAll(db, tenant, script, clock);
      (k in after.rows <==> k in db.rows) && (k in db.rows ==> after.rows[k] == db.rows[k])
  {
    hide Apply;
    if script != [] {
      var n := |script| - 1;
      assert script[n] in script && forall a <- script[..n] :: a in script;
      UnwrittenRowStays(db, tenant, script[..n], clock, k);
      if script[n].Save? {
        ApplyRows(ApplyAll(db, tenant, script[..n], clock), tenant, script[n], clock);
      } else {
        DropChangesNothing(ApplyAll(db, tenant, script[..n], clock), tenant, clock);
      }
    }
  }

  // ---- Which links are made ----

  lemma MadeInSecond(stored: set<Key>, tenant: Tenant, first: seq<Action>, second: seq<Action>, k: Key, c: Column)
    requires LinkMade(stored + SavedKeys(tenant, first), tenant, second, k, c)
    ensures LinkMade(stored, tenant, first + second, k, c)
  {
    hide Writes, NamesStored;
    var j :| 0 <= j < |second| && MadeAt(stored + SavedKeys(tenant, first), tenant, second, j, k, c);
    assert (first + second)[|first| + j] == second[j] && (first + second)[..|first| + j] == first + second[..j];
    SavedKeysAppend(tenant, first, second[..j]);
    assert stored + SavedKeys(tenant, first) + SavedKeys(tenant, second[..j])
        == stored + (SavedKeys(tenant, first) + SavedKeys(tenant, second[..j]));
    assert MadeAt(stored, tenant, first + second, |first| + j, k, c);
  }

  lemma MadeInFirst(stored: set<Key>, tenant: Tenant, first: seq<Action>, second: seq<Action>, k: Key, c: Column)
    requires LinkMade(stored, tenant, first, k, c)
    ensures LinkMade(stored, tenant, first + second, k, c)
  {
    hide Writes, NamesStored;
    var j :| 0 <= j < |first| && MadeAt(stored, tenant, first, j, k, c);
    assert (first + second)[j] == first[j] && (first + second)[..j] == first[..j];
    assert MadeAt(stored, tenant, first + second, j, k, c);
  }

  /** An enrollment embedded in a course and the fallback's copy of it say the same if the copy names the
      course the former is linked to and its other fields are equal. */
  lemma EmbeddedAndFallbackAlike(e: EnrollmentDto, parent: CanvasId, listed: EnrollmentDto, tenant: Tenant)
    requires e.id.Some? && listed == e.(courseId := OrElse(e.courseId, Some(parent)))
    ensures ContentOf(tenant, SaveEnrollment(e, Some(parent))) == ContentOf(tenant, SaveEnrollment(listed, listed.courseId))
  {
    var a, b := SaveEnrollment(e, Some(parent)), SaveEnrollment(listed, listed.courseId);
    assert a.links == b.links && a.state == b.state;
    forall c
      ensures PlainColumn(a, c) <==> PlainColumn(b, c)
      ensures PlainColumn(a, c) ==> a.cells[c] == b.cells[c]
    {}
    hide PlainColumn, TargetOf;
    assert ContentOf(tenant, a).fields == ContentOf(tenant, b).fields;
  }
}
