/** Exactly when the first run already reaches the state all later ones keep: for every row and foreign
    key, the last record named there that is stored after the run was stored when it was named. */
module FirstRunExactly {
  import opened Wrappers
  import opened Tables
  import opened Replies
  import opened SyncRun
  import opened Referential
  import opened Convergence
  import opened FirstRun

  /** The key a column's link names, if it names one. */
  function TargetOf(tenant: Tenant, links: seq<Link>, c: Column): Option<Key> {
    if links == [] then None
    else if links[0].column == c then
      if links[0].canvasId.Some? then Some(LinkKey(tenant, links[0])) else None
    else TargetOf(tenant, links[1..], c)
  }

  /** The record last named in column `c` of row `k` among those that are stored in the end, and whether
      it was stored when it was named. */
  datatype Naming = NothingNamed | Named(target: Key, stored: bool)

  function LastNamed(known: set<Key>, final: set<Key>, tenant: Tenant, script: seq<Action>, k: Key, c: Column): Naming {
    if script == [] then NothingNamed
    else
      var n := |script| - 1;
      NamedNext(known + SavedKeys(tenant, script[..n]), final, NamedBy(tenant, script[n], k, c),
                LastNamed(known, final, tenant, script[..n], k, c))
  }

  /** The key an action names in column `c` of row `k`. */
  function NamedBy(tenant: Tenant, a: Action, k: Key, c: Column): Option<Key> {
    if a.Save? && KeyOf(tenant, a) == k then TargetOf(tenant, a.links, c) else None
  }

  function NamedNext(stored: set<Key>, final: set<Key>, named: Option<Key>, earlier: Naming): Naming {
    if named.Some? && named.value in final then Named(named.value, named.value in stored) else earlier
  }

  /** What a caller can check before the run: it speaks of the stored keys and the answers alone. */
  ghost predicate LastNamesStored(known: set<Key>, tenant: Tenant, script: seq<Action>) {
    var final := known + SavedKeys(tenant, script);
    forall k, c :: LastNamed(known, final, tenant, script, k, c).Named? ==>
      LastNamed(known, final, tenant, script, k, c).stored
  }

  lemma {:induction false} LinkedCell(rows: map<Key, Row>, tenant: Tenant, payload: Cells, links: seq<Link>, c: Column)
    requires HasColumn(links, c) && forall i, j :: 0 <= i < j < |links| ==> links[i].column != links[j].column
    ensures var t := TargetOf(tenant, links, c);
      var relinked := AllRelinked(rows, tenant, payload, links);
      && (c in relinked <==> t.Some? && t.value in rows)
      && (c in relinked ==> relinked[c] == Ref(rows[t.value].id))
    decreases |links|
  {
    var x := links[0];
    var once := Relinked(payload, x.column, LinkId(rows, tenant, x));
    if x.column == c {
      OtherColumns(links[1..], c);
      RelinkedOther(rows, tenant, once, links[1..], c);
    } else {
      LinkedCell(rows, tenant, once, links[1..], c);
    }
  }

  lemma {:induction false} OtherColumns(links: seq<Link>, c: Column)
    requires forall i :: 0 <= i < |links| ==> links[i].column != c
    ensures !HasColumn(links, c)
    decreases |links|
  {
    if links != [] {
      OtherColumns(links[1..], c);
    }
  }

  lemma {:induction false} TargetHasColumn(tenant: Tenant, links: seq<Link>, c: Column)
    requires TargetOf(tenant, links, c).Some?
    ensures HasColumn(links, c)
    decreases |links|
  {
    if links[0].column != c {
      TargetHasColumn(tenant, links[1..], c);
    }
  }

  lemma ForeignIsWritable(table: Table, c: Column)
    requires ForeignTable(table, c).Some?
    ensures IsWritable(table, c) && c !in KEY_COLUMNS && !c.DeletedAt?
  {}

  /** What an action writes to row `k`. */
  function WrittenTo(rows: map<Key, Row>, tenant: Tenant, a: Action, k: Key): Cells {
    if a.Save? && KeyOf(tenant, a) == k then Written(rows, tenant, a) else map[]
  }

  /** A foreign key as an action writes it. */
  lemma WrittenLink(rows: map<Key, Row>, tenant: Tenant, a: Action, k: Key, c: Column)
    requires WellFormed(a) && ForeignTable(k.table, c).Some?
    ensures var t, w := NamedBy(tenant, a, k, c), WrittenTo(rows, tenant, a, k);
      && (c in w <==> t.Some? && t.value in rows)
      && (c in w ==> w[c] == Ref(rows[t.value].id))
  {
    if a.Save? && KeyOf(tenant, a) == k {
      ForeignIsWritable(a.table, c);
      if HasColumn(a.links, c) {
        LinkedCell(rows, tenant, a.cells, a.links, c);
      } else {
        RelinkedOther(rows, tenant, a.cells, a.links, c);
        if TargetOf(tenant, a.links, c).Some? { TargetHasColumn(tenant, a.links, c); }
      }
    }
  }

  /** Any other column is written whatever is stored. */
  lemma WrittenPlain(rows: map<Key, Row>, rows': map<Key, Row>, tenant: Tenant, a: Action, k: Key, c: Column)
    requires WellFormed(a) && ForeignTable(k.table, c).None?
    ensures var w, w' := WrittenTo(rows, tenant, a, k), WrittenTo(rows', tenant, a, k);
      (c in w <==> c in w') && (c in w ==> w[c] == w'[c])
  {
    if a.Save? && KeyOf(tenant, a) == k {
      if HasColumn(a.links, c) {
        LinkedColumn(a.table, a.links, c);
      }
      RelinkedOther(rows, tenant, a.cells, a.links, c);
      RelinkedOther(rows', tenant, a.cells, a.links, c);
    }
  }

  // ---- Following a column through the first run ----

  /** The row at `k` after an action whose links are looked up where it stands. */
  lemma CellsAfter(here: Database, tenant: Tenant, a: Action, clock: Clock, k: Key, c: Column)
    requires WellFormed(a) && !c.DeletedAt?
    ensures var before, after := CellsAt(here, k), CellsAt(Apply(here, tenant, a, clock), k);
      var w := WrittenTo(here.rows, tenant, a, k);
      if c in w then c in after && after[c] == w[c]
      else (c in after <==> c in before) && (c in before ==> after[c] == before[c])
  {
    hide WellFormed, Written;
    if a.DropPeer? {
      DropChangesNothing(here, tenant, clock);
    } else if KeyOf(tenant, a) == k {
      AppliedCells(here, tenant, a, clock, here.rows);
    } else {
      ApplyRows(here, tenant, a, clock);
    }
  }

  predicate UniqueIds(rows: map<Key, Row>) {
    forall k, k' :: k in rows && k' in rows && rows[k].id == rows[k'].id ==> k == k'
  }

  /** What the first run leaves in a foreign key: the record last named, if it was stored when it was
      named; if it was not, something else. */
  ghost predicate Traced(before: Cells, after: Cells, final: map<Key, Row>, naming: Naming, c: Column) {
    match naming
    case NothingNamed => (c in after <==> c in before) && (c in before ==> after[c] == before[c])
    case Named(target, stored) =>
      target in final
      && if stored then c in after && after[c] == Ref(final[target].id)
         else c in after ==> after[c] != Ref(final[target].id)
  }

  /** A foreign key cannot hold the id of a row that is only stored later. */
  lemma NotYetReferenced(here: Database, final: map<Key, Row>, k: Key, c: Column, target: Key)
    requires Sound(here) && Extends(here.rows, final) && UniqueIds(final)
    requires ForeignTable(k.table, c).Some? && target in final && target !in here.rows
    requires c in CellsAt(here, k)
    ensures CellsAt(here, k)[c] != Ref(final[target].id)
  {
    assert LinksSound(here.rows, k);
    var other :| other in here.rows && CellsAt(here, k)[c] == Ref(here.rows[other].id);
    assert final[other].id == here.rows[other].id;
  }

  lemma {:induction false} ForeignTrace(db: Database, tenant: Tenant, script: seq<Action>, clock: Clock,
                                        final: map<Key, Row>, k: Key, c: Column)
    requires Sound(db) && AllWellFormed(script) && ForeignTable(k.table, c).Some?
    requires Extends(ApplyAll(db, tenant, script, clock).rows, final) && UniqueIds(final)
    ensures Traced(CellsAt(db, k), CellsAt(ApplyAll(db, tenant, script, clock), k), final,
                   LastNamed(db.rows.Keys, final.Keys, tenant, script, k, c), c)
  {
    hide Apply, WellFormed, Sound, CellsAt, Extends, UniqueIds, NamedNext;
    if script == [] {
      NothingTraced(CellsAt(db, k), final, c);
    } else {
      hide Traced;
      var n := |script| - 1;
      var here, a := ApplyAll(db, tenant, script[..n], clock), script[n];
      PrefixExtends(db, tenant, script, clock, final);
      ForeignTrace(db, tenant, script[..n], clock, final, k, c);
      ApplyAllKeys(db, tenant, script[..n], clock);
      ApplyAllKeepsSound(db, tenant, script[..n], clock);
      TraceStep(CellsAt(db, k), here, tenant, a, clock, final, k, c,
                LastNamed(db.rows.Keys, final.Keys, tenant, script[..n], k, c));
    }
  }

  lemma NothingTraced(cells: Cells, final: map<Key, Row>, c: Column)
    ensures Traced(cells, cells, final, NothingNamed, c)
  {}

  lemma TraceStep(before: Cells, here: Database, tenant: Tenant, a: Action, clock: Clock, final: map<Key, Row>,
                  k: Key, c: Column, earlier: Naming)
    requires WellFormed(a) && ForeignTable(k.table, c).Some?
    requires Sound(here) && Extends(here.rows, final) && UniqueIds(final)
    requires Traced(before, CellsAt(here, k), final, earlier, c)
    ensures Traced(before, CellsAt(Apply(here, tenant, a, clock), k), final,
                   NamedNext(here.rows.Keys, final.Keys, NamedBy(tenant, a, k, c), earlier), c)
  {
    ForeignIsWritable(k.table, c);
    CellsAfter(here, tenant, a, clock, k, c);
    WrittenLink(here.rows, tenant, a, k, c);
    hide Apply, WrittenTo, WellFormed, Sound, UniqueIds, CellsAt, NamedBy, ForeignTable, Traced, Extends;
    var t := NamedBy(tenant, a, k, c);
    if t.Some? && t.value in final && t.value !in here.rows && c in CellsAt(here, k) {
      NotYetReferenced(here, final, k, c, t.value);
    }
    TracedOnwards(before, CellsAt(here, k), CellsAt(Apply(here, tenant, a, clock), k),
                  WrittenTo(here.rows, tenant, a, k), here.rows, final, t, earlier, c);
  }

  lemma TracedOnwards(before: Cells, mid: Cells, after: Cells, w: Cells, rows: map<Key, Row>, final: map<Key, Row>,
                      named: Option<Key>, earlier: Naming, c: Column)
    requires Traced(before, mid, final, earlier, c) && Extends(rows, final)
    requires if c in w then c in after && after[c] == w[c]
             else (c in after <==> c in mid) && (c in mid ==> after[c] == mid[c])
    requires c in w <==> named.Some? && named.value in rows
    requires c in w ==> w[c] == Ref(rows[named.value].id)
    requires named.Some? && named.value in final && named.value !in rows && c in mid ==>
      mid[c] != Ref(final[named.value].id)
    ensures Traced(before, after, final, NamedNext(rows.Keys, final.Keys, named, earlier), c)
  {}

  lemma PrefixExtends(db: Database, tenant: Tenant, script: seq<Action>, clock: Clock, final: map<Key, Row>)
    requires script != [] && Extends(ApplyAll(db, tenant, script, clock).rows, final)
    ensures Extends(ApplyAll(db, tenant, script[..|script| - 1], clock).rows, final)
  {
    hide Apply;
    var n := |script| - 1;
    var here := ApplyAll(db, tenant, script[..n], clock);
    if script[n].Save? {
      ApplyRows(here, tenant, script[n], clock);
    } else {
      DropChangesNothing(here, tenant, clock);
    }
  }

  lemma OverlayOneMore(final: map<Key, Row>, tenant: Tenant, script: seq<Action>, k: Key)
    requires script != []
    ensures var n := |script| - 1;
      Overlay(final, tenant, script, k) == Overlay(final, tenant, script[..n], k) + WrittenTo(final, tenant, script[n], k)
  {
    hide Written;
    assert Overlay(final, tenant, script[..|script| - 1], k) + map[] == Overlay(final, tenant, script[..|script| - 1], k);
  }

  /** The overlay of a later run, at a foreign key. */
  lemma {:induction false} ForeignOverlay(known: set<Key>, final: map<Key, Row>, tenant: Tenant, script: seq<Action>,
                                          k: Key, c: Column)
    requires AllWellFormed(script) && ForeignTable(k.table, c).Some?
    ensures var o, naming := Overlay(final, tenant, script, k), LastNamed(known, final.Keys, tenant, script, k, c);
      && (c in o <==> naming.Named?)
      && (naming.Named? ==> naming.target in final && o[c] == Ref(final[naming.target].id))
  {
    if script != [] {
      var n := |script| - 1;
      ForeignOverlay(known, final, tenant, script[..n], k, c);
      WrittenLink(final, tenant, script[n], k, c);
      OverlayOneMore(final, tenant, script, k);
      hide WrittenTo, WellFormed, NamedBy, ForeignTable, Overlay;
    }
  }

  /** Everything else a later run overlays is there after the first. */
  lemma {:induction false} PlainTrace(db: Database, tenant: Tenant, script: seq<Action>, clock: Clock,
                                      final: map<Key, Row>, k: Key, c: Column)
    requires AllWellFormed(script) && ForeignTable(k.table, c).None? && !c.DeletedAt?
    ensures var o, after := Overlay(final, tenant, script, k), CellsAt(ApplyAll(db, tenant, script, clock), k);
      c in o ==> c in after && after[c] == o[c]
  {
    hide Apply, WrittenTo, WellFormed, CellsAt;
    if script != [] {
      var n := |script| - 1;
      PlainTrace(db, tenant, script[..n], clock, final, k, c);
      CellsAfter(ApplyAll(db, tenant, script[..n], clock), tenant, script[n], clock, k, c);
      WrittenPlain(ApplyAll(db, tenant, script[..n], clock).rows, final, tenant, script[n], k, c);
      OverlayOneMore(final, tenant, script, k);
    }
  }

  lemma {:induction false} ClosedIsMarked(db: Database, tenant: Tenant, script: seq<Action>, clock: Clock, k: Key)
    requires AllWellFormed(script) && Closes(tenant, script, k)
    ensures DeletedAt in CellsAt(ApplyAll(db, tenant, script, clock), k)
  {
    hide Apply, WellFormed, Written;
    var n := |script| - 1;
    var here := ApplyAll(db, tenant, script[..n], clock);
    if Closes(tenant, script[..n], k) {
      ClosedIsMarked(db, tenant, script[..n], clock, k);
    }
    if script[n].DropPeer? {
      DropChangesNothing(here, tenant, clock);
    } else if KeyOf(tenant, script[n]) == k {
      AppliedCells(here, tenant, script[n], clock, here.rows);
    } else {
      ApplyRows(here, tenant, script[n], clock);
    }
  }

  // ---- The condition ----

  /** The second run, row by row. */
  lemma SecondRunCells(first: Database, tenant: Tenant, script: seq<Action>, clock: Clock, k: Key)
    requires AllWellFormed(script) && SavedKeys(tenant, script) <= first.rows.Keys
    ensures CellsAt(ApplyAll(first, tenant, script, clock), k)
         == MarkedDeleted(CellsAt(first, k) + Overlay(first.rows, tenant, script, k), Closes(tenant, script, k), clock(k))
  {
    RerunIsSettled(first, tenant, script, clock, first.rows);
    ClosedForm(first, tenant, script, clock, first.rows, k);
  }

  lemma NamedIsForeign(known: set<Key>, final: set<Key>, tenant: Tenant, script: seq<Action>, k: Key, c: Column)
    requires AllWellFormed(script) && LastNamed(known, final, tenant, script, k, c).Named?
    ensures ForeignTable(k.table, c).Some?
  {
    var n := |script| - 1;
    var last := script[n];
    if NamedBy(tenant, last, k, c).Some? {
      TargetHasColumn(tenant, last.links, c);
      LinkedColumn(last.table, last.links, c);
    } else {
      NamedIsForeign(known, final, tenant, script[..n], k, c);
    }
  }

  /** The first run is final exactly when every name that lasts was stored when it was named. */
  lemma FirstRunIsFinalExactly(db: Database, tenant: Tenant, r: Replies, c1: Clock, c2: Clock)
    requires Sound(db) && SelfFault(r).None?
    ensures var first := ApplyAll(db, tenant, RunScript(r), c1);
      ApplyAll(first, tenant, RunScript(r), c2) == first <==> LastNamesStored(db.rows.Keys, tenant, RunScript(r))
  {
    RunScriptWellFormed(r);
    hide RunScript, AllWellFormed, Sound, ApplyAll, SelfFault;
    var script := RunScript(r);
    var first := ApplyAll(db, tenant, script, c1);
    ApplyAllKeys(db, tenant, script, c1);
    RerunKeepsIds(first, tenant, script, c2);
    ApplyAllKeepsStates(first, tenant, script, c2);
    if LastNamesStored(db.rows.Keys, tenant, script) {
      StoredNamesAreFinal(db, tenant, script, c1, c2);
    } else {
      LateNamesAreNotFinal(db, tenant, script, c1, c2);
    }
  }

  /** What both directions know of the first run. */
  lemma FirstRunFacts(db: Database, tenant: Tenant, script: seq<Action>, clock: Clock, k: Key, c: Column)
    requires Sound(db) && AllWellFormed(script) && ForeignTable(k.table, c).Some?
    ensures var first, known := ApplyAll(db, tenant, script, clock), db.rows.Keys;
      var naming := LastNamed(known, known + SavedKeys(tenant, script), tenant, script, k, c);
      var o := Overlay(first.rows, tenant, script, k);
      && Traced(CellsAt(db, k), CellsAt(first, k), first.rows, naming, c)
      && (c in o <==> naming.Named?)
      && (naming.Named? ==> naming.target in first.rows && o[c] == Ref(first.rows[naming.target].id))
  {
    hide Apply, WellFormed, CellsAt, LastNamed, Overlay, Traced, ApplyAll, SavedKeys;
    var first := ApplyAll(db, tenant, script, clock);
    ApplyAllKeepsSound(db, tenant, script, clock);
    ApplyAllKeys(db, tenant, script, clock);
    ForeignTrace(db, tenant, script, clock, first.rows, k, c);
    ForeignOverlay(db.rows.Keys, first.rows, tenant, script, k, c);
  }

  lemma StoredNamesAreFinal(db: Database, tenant: Tenant, script: seq<Action>, c1: Clock, c2: Clock)
    requires Sound(db) && AllWellFormed(script) && LastNamesStored(db.rows.Keys, tenant, script)
    ensures var first := ApplyAll(db, tenant, script, c1);
      ApplyAll(first, tenant, script, c2) == first
  {
    hide ApplyAll, WellFormed, Sound, LastNamed, Overlay, Closes, SavedKeys, AllWellFormed;
    var first := ApplyAll(db, tenant, script, c1);
    var second := ApplyAll(first, tenant, script, c2);
    ApplyAllKeys(db, tenant, script, c1);
    RerunKeepsIds(first, tenant, script, c2);
    ApplyAllKeepsStates(first, tenant, script, c2);
    forall k | k in first.rows ensures second.rows[k] == first.rows[k] {
      OverlayIsThere(db, tenant, script, c1, k);
      SecondRunCells(first, tenant, script, c2, k);
      if Closes(tenant, script, k) {
        ClosedIsMarked(db, tenant, script, c1, k);
      }
      assert CellsAt(second, k) == CellsAt(first, k);
    }
    assert second.rows == first.rows;
  }

  lemma OverlayIsThere(db: Database, tenant: Tenant, script: seq<Action>, clock: Clock, k: Key)
    requires Sound(db) && AllWellFormed(script) && LastNamesStored(db.rows.Keys, tenant, script)
    ensures var first := ApplyAll(db, tenant, script, clock);
      CellsAt(first, k) + Overlay(first.rows, tenant, script, k) == CellsAt(first, k)
  {
    hide ApplyAll, WellFormed, Sound, LastNamed, Overlay, CellsAt, SavedKeys, AllWellFormed;
    var first := ApplyAll(db, tenant, script, clock);
    OverlayIsSafe(first.rows, tenant, script, k);
    forall c | c in Overlay(first.rows, tenant, script, k)
      ensures c in CellsAt(first, k) && CellsAt(first, k)[c] == Overlay(first.rows, tenant, script, k)[c]
    {
      if ForeignTable(k.table, c).Some? {
        FirstRunFacts(db, tenant, script, clock, k, c);
      } else {
        PlainTrace(db, tenant, script, clock, first.rows, k, c);
      }
    }
  }

  lemma LateNamesAreNotFinal(db: Database, tenant: Tenant, script: seq<Action>, c1: Clock, c2: Clock)
    requires Sound(db) && AllWellFormed(script) && !LastNamesStored(db.rows.Keys, tenant, script)
    ensures var first := ApplyAll(db, tenant, script, c1);
      ApplyAll(first, tenant, script, c2) != first
  {
    hide ApplyAll, WellFormed, Sound, LastNamed, Overlay, CellsAt, Closes, SavedKeys, AllWellFormed;
    var known := db.rows.Keys;
    var final := known + SavedKeys(tenant, script);
    var k, c :| LastNamed(known, final, tenant, script, k, c).Named? && !LastNamed(known, final, tenant, script, k, c).stored;
    var first := ApplyAll(db, tenant, script, c1);
    NamedIsForeign(known, final, tenant, script, k, c);
    ForeignIsWritable(k.table, c);
    FirstRunFacts(db, tenant, script, c1, k, c);
    ApplyAllKeys(db, tenant, script, c1);
    SecondRunCells(first, tenant, script, c2, k);
    var second := ApplyAll(first, tenant, script, c2);
    assert c in CellsAt(second, k) && CellsAt(second, k)[c] == Overlay(first.rows, tenant, script, k)[c];
  }
}
