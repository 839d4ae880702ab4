/** Databases that are alike for a tenant: the same rows with the same cells, up to the names of row ids,
    and the same sync states. */
module Alike {
  import opened Wrappers
  import opened Tables
  import opened Replies
  import opened SyncRun
  import opened Referential
  import opened Convergence
  import opened FirstRun
  import opened FirstRunExactly

  /** A foreign key refers to the same record of the tenant in both; any other value is the same. */
  ghost predicate SameValue(a: map<Key, Row>, b: map<Key, Row>, k: Key, c: Column)
    requires k in a && k in b && c in a[k].cells && c in b[k].cells
  {
    if ForeignTable(k.table, c).None? then a[k].cells[c] == b[k].cells[c]
    else exists t :: t in a && t in b && t.tenant == k.tenant && a[k].cells[c] == Ref(a[t].id) && b[k].cells[c] == Ref(b[t].id)
  }

  ghost predicate SameCell(a: map<Key, Row>, b: map<Key, Row>, k: Key, c: Column)
    requires k in a && k in b
  {
    (c in a[k].cells <==> c in b[k].cells) && (c in a[k].cells ==> SameValue(a, b, k, c))
  }

  ghost predicate RowsAlike(tenant: Tenant, a: map<Key, Row>, b: map<Key, Row>) {
    && (forall k: Key :: k.tenant == tenant ==> (k in a <==> k in b))
    && (forall k: Key, c :: k.tenant == tenant && k in a && k in b ==> SameCell(a, b, k, c))
  }

  predicate SameState(a: Database, b: Database, k: StateKey) {
    (k in a.states <==> k in b.states) && (k in a.states ==> a.states[k] == b.states[k])
  }

  ghost predicate StatesAlike(tenant: Tenant, a: Database, b: Database) {
    forall name :: SameState(a, b, StateKey(tenant, name))
  }

  /** The same rows to the letter. */
  ghost predicate SameRows(tenant: Tenant, a: map<Key, Row>, b: map<Key, Row>) {
    forall k: Key :: k.tenant == tenant ==> (k in a <==> k in b) && (k in a ==> a[k] == b[k])
  }

  ghost predicate AlikeFor(tenant: Tenant, a: Database, b: Database) {
    RowsAlike(tenant, a.rows, b.rows) && StatesAlike(tenant, a, b)
  }

  // ---- An equivalence ----

  lemma AlikeItself(tenant: Tenant, a: Database)
    requires Sound(a)
    ensures RowsAlike(tenant, a.rows, a.rows)
  {
    forall k: Key, c | k.tenant == tenant && k in a.rows ensures SameCell(a.rows, a.rows, k, c) {
      assert LinksSound(a.rows, k);
    }
  }

  lemma AlikeBack(tenant: Tenant, a: map<Key, Row>, b: map<Key, Row>)
    requires RowsAlike(tenant, a, b)
    ensures RowsAlike(tenant, b, a)
  {
    forall k: Key, c | k.tenant == tenant && k in a && k in b ensures SameCell(b, a, k, c) {
      assert SameCell(a, b, k, c);
    }
  }

  lemma AlikeThrough(tenant: Tenant, a: map<Key, Row>, db: Database, b: map<Key, Row>)
    requires Sound(db) && RowsAlike(tenant, a, db.rows) && RowsAlike(tenant, db.rows, b)
    ensures RowsAlike(tenant, a, b)
  {
    forall k: Key, c | k.tenant == tenant && k in a && k in b ensures SameCell(a, b, k, c) {
      assert SameCell(a, db.rows, k, c) && SameCell(db.rows, b, k, c);
    }
  }

  /** Rows that stay, stay alike. */
  lemma SameStaysAlike(tenant: Tenant, a: map<Key, Row>, a': map<Key, Row>, b: map<Key, Row>)
    requires SameRows(tenant, a, a') && RowsAlike(tenant, a, b)
    ensures RowsAlike(tenant, a', b)
  {
    forall k: Key, c | k.tenant == tenant && k in a' && k in b ensures SameCell(a', b, k, c) {
      assert SameCell(a, b, k, c);
      if c in a[k].cells && ForeignTable(k.table, c).Some? {
        var t :| t in a && t in b && t.tenant == k.tenant && a[k].cells[c] == Ref(a[t].id) && b[k].cells[c] == Ref(b[t].id);
        assert t in a';
      }
    }
  }

  // ---- Writes ----

  lemma MarkAfter(here: Database, tenant: Tenant, a: Action, clock: Clock)
    requires a.Save? && WellFormed(a)
    ensures var k := KeyOf(tenant, a);
      var before, after := CellsAt(here, k), CellsAt(Apply(here, tenant, a, clock), k);
      && (DeletedAt in after <==> DeletedAt in before || Inactive(a.state))
      && (DeletedAt in after ==> after[DeletedAt] == if DeletedAt in before then before[DeletedAt] else Moment(clock(k)))
  {
    AppliedCells(here, tenant, a, clock, here.rows);
    WrittenIsSafe(here.rows, tenant, a);
    hide Apply, Written, WellFormed;
  }

  /** The cell at `k` and `c` of both, if there is a row. */
  ghost predicate CellAlike(a: map<Key, Row>, b: map<Key, Row>, k: Key, c: Column) {
    (k in a <==> k in b) && (k in a ==> SameCell(a, b, k, c))
  }

  /** What a write leaves in a foreign key of its row. */
  predicate LinkLeft(before: Cells, after: Cells, ids: map<Key, Row>, named: Option<Key>, c: Column) {
    if named.Some? && named.value in ids then c in after && after[c] == Ref(ids[named.value].id)
    else (c in after <==> c in before) && (c in before ==> after[c] == before[c])
  }

  lemma LinkAfter(here: Database, tenant: Tenant, action: Action, clock: Clock, c: Column)
    requires action.Save? && WellFormed(action) && ForeignTable(action.table, c).Some?
    ensures var k, after := KeyOf(tenant, action), Apply(here, tenant, action, clock);
      && k in after.rows && Extends(here.rows, after.rows)
      && LinkLeft(CellsIn(here.rows, k), after.rows[k].cells, here.rows, NamedBy(tenant, action, k, c), c)
  {
    hide Apply, WrittenTo, WellFormed;
    var k := KeyOf(tenant, action);
    ApplyRows(here, tenant, action, clock);
    ForeignIsWritable(k.table, c);
    CellsAfter(here, tenant, action, clock, k, c);
    WrittenLink(here.rows, tenant, action, k, c);
  }

  function CellsIn(rows: map<Key, Row>, k: Key): Cells {
    if k in rows then rows[k].cells else map[]
  }

  predicate Refers(rows: map<Key, Row>, k: Key, c: Column, t: Key) {
    k in rows && c in rows[k].cells && t in rows && rows[k].cells[c] == Ref(rows[t].id)
  }

  lemma ReferAlike(a: map<Key, Row>, b: map<Key, Row>, k: Key, c: Column, t: Key)
    requires ForeignTable(k.table, c).Some? && t.tenant == k.tenant && Refers(a, k, c, t) && Refers(b, k, c, t)
    ensures CellAlike(a, b, k, c)
  {
    hide ForeignTable;
    assert SameValue(a, b, k, c);
  }

  lemma AlikeRefer(a: map<Key, Row>, b: map<Key, Row>, k: Key, c: Column) returns (t: Key)
    requires ForeignTable(k.table, c).Some? && CellAlike(a, b, k, c) && c in CellsIn(a, k)
    ensures t.tenant == k.tenant && Refers(a, k, c, t) && Refers(b, k, c, t)
  {
    hide ForeignTable;
    t :| t in a && t in b && t.tenant == k.tenant && a[k].cells[c] == Ref(a[t].id) && b[k].cells[c] == Ref(b[t].id);
  }

  lemma StillRefers(rows: map<Key, Row>, rows': map<Key, Row>, k: Key, c: Column, t: Key, named: Option<Key>)
    requires Refers(rows, k, c, t) && k in rows' && Extends(rows, rows')
    requires LinkLeft(CellsIn(rows, k), rows'[k].cells, rows, named, c) && !(named.Some? && named.value in rows)
    ensures Refers(rows', k, c, t)
  {}

  lemma LeftAlike(a: map<Key, Row>, b: map<Key, Row>, a': map<Key, Row>, b': map<Key, Row>, k: Key, c: Column, named: Option<Key>)
    requires ForeignTable(k.table, c).Some? && CellAlike(a, b, k, c)
    requires k in a' && Extends(a, a') && LinkLeft(CellsIn(a, k), a'[k].cells, a, named, c)
    requires k in b' && Extends(b, b') && LinkLeft(CellsIn(b, k), b'[k].cells, b, named, c)
    requires named.Some? ==> named.value.tenant == k.tenant && (named.value in a <==> named.value in b)
    ensures CellAlike(a', b', k, c)
  {
    hide ForeignTable;
    if named.Some? && named.value in a {
      ReferAlike(a', b', k, c, named.value);
    } else if c in CellsIn(a, k) {
      hide CellAlike, Extends, Refers, LinkLeft;
      var t := AlikeRefer(a, b, k, c);
      StillRefers(a, a', k, c, t, named);
      StillRefers(b, b', k, c, t, named);
      ReferAlike(a', b', k, c, t);
    }
  }

  /** One column of the row written, a foreign key. */
  lemma LinkAlike(a: Database, b: Database, tenant: Tenant, action: Action, clock: Clock, c: Column)
    requires action.Save? && WellFormed(action) && ForeignTable(action.table, c).Some?
    requires CellAlike(a.rows, b.rows, KeyOf(tenant, action), c)
    requires forall t: Key :: t.tenant == tenant ==> (t in a.rows <==> t in b.rows)
    ensures CellAlike(Apply(a, tenant, action, clock).rows, Apply(b, tenant, action, clock).rows, KeyOf(tenant, action), c)
  {
    hide Apply, WellFormed, ForeignTable, NamedBy, LinkLeft, CellAlike, Extends;
    var k := KeyOf(tenant, action);
    LinkAfter(a, tenant, action, clock, c);
    LinkAfter(b, tenant, action, clock, c);
    NamedIsOwn(tenant, action, k, c);
    LeftAlike(a.rows, b.rows, Apply(a, tenant, action, clock).rows, Apply(b, tenant, action, clock).rows, k, c,
              NamedBy(tenant, action, k, c));
  }

  function CellIn(cells: Cells, c: Column): Option<Value> {
    if c in cells then Some(cells[c]) else None
  }

  /** What a write leaves in any other column: what it says, or what was there, or the mark. */
  lemma PlainAfter(here: Database, tenant: Tenant, action: Action, clock: Clock, c: Column)
    requires action.Save? && WellFormed(action)
    ensures var k, after := KeyOf(tenant, action), Apply(here, tenant, action, clock);
      var before, written := CellIn(CellsIn(here.rows, k), c), CellIn(WrittenTo(here.rows, tenant, action, k), c);
      && k in after.rows
      && CellIn(after.rows[k].cells, c)
         == if c.DeletedAt? then
              if before.Some? then before else if Inactive(action.state) then Some(Moment(clock(k))) else None
            else if written.Some? then written else before
  {
    var k := KeyOf(tenant, action);
    hide Apply, WrittenTo, WellFormed, ForeignTable, Inactive;
    ApplyRows(here, tenant, action, clock);
    if c.DeletedAt? {
      MarkAfter(here, tenant, action, clock);
    } else {
      CellsAfter(here, tenant, action, clock, k, c);
    }
  }

  lemma PlainCell(a: map<Key, Row>, b: map<Key, Row>, k: Key, c: Column)
    requires ForeignTable(k.table, c).None?
    ensures CellAlike(a, b, k, c) ==> CellIn(CellsIn(a, k), c) == CellIn(CellsIn(b, k), c)
    ensures k in a && k in b && CellIn(a[k].cells, c) == CellIn(b[k].cells, c) ==> CellAlike(a, b, k, c)
  {
    hide ForeignTable;
  }

  /** And any other column, the soft-delete mark included. */
  lemma PlainAlike(a: Database, b: Database, tenant: Tenant, action: Action, clock: Clock, c: Column)
    requires action.Save? && WellFormed(action) && ForeignTable(action.table, c).None?
    requires CellAlike(a.rows, b.rows, KeyOf(tenant, action), c)
    ensures CellAlike(Apply(a, tenant, action, clock).rows, Apply(b, tenant, action, clock).rows, KeyOf(tenant, action), c)
  {
    var k := KeyOf(tenant, action);
    WrittenPlain(a.rows, b.rows, tenant, action, k, c);
    hide Apply, WellFormed, ForeignTable, CellAlike, WrittenTo;
    PlainAfter(a, tenant, action, clock, c);
    PlainAfter(b, tenant, action, clock, c);
    PlainCell(a.rows, b.rows, k, c);
    PlainCell(Apply(a, tenant, action, clock).rows, Apply(b, tenant, action, clock).rows, k, c);
  }

  lemma NamedIsOwn(tenant: Tenant, a: Action, k: Key, c: Column)
    ensures var t := NamedBy(tenant, a, k, c); t.Some? ==> t.value.tenant == tenant
  {
    if a.Save? { TargetIsOwn(tenant, a.links, c); }
  }

  lemma {:induction false} TargetIsOwn(tenant: Tenant, links: seq<Link>, c: Column)
    ensures var t := TargetOf(tenant, links, c); t.Some? ==> t.value.tenant == tenant
    decreases |links|
  {
    if links != [] { TargetIsOwn(tenant, links[1..], c); }
  }

  /** A write has the same effect on databases that are alike, whatever ids they draw. */
  lemma WriteKeepsAlike(a: Database, b: Database, tenant: Tenant, action: Action, clock: Clock)
    requires WellFormed(action) && RowsAlike(tenant, a.rows, b.rows)
    ensures RowsAlike(tenant, Apply(a, tenant, action, clock).rows, Apply(b, tenant, action, clock).rows)
  {
    hide Apply, WellFormed;
    var a', b' := Apply(a, tenant, action, clock), Apply(b, tenant, action, clock);
    if action.DropPeer? {
      DropChangesNothing(a, tenant, clock);
      DropChangesNothing(b, tenant, clock);
    } else {
      ApplyRows(a, tenant, action, clock);
      ApplyRows(b, tenant, action, clock);
      forall k: Key, c | k.tenant == tenant && k in a'.rows && k in b'.rows ensures SameCell(a'.rows, b'.rows, k, c) {
        if k == KeyOf(tenant, action) {
          if ForeignTable(k.table, c).Some? {
            LinkAlike(a, b, tenant, action, clock, c);
          } else {
            PlainAlike(a, b, tenant, action, clock, c);
          }
        } else {
          OtherCellAlike(a.rows, b.rows, a'.rows, b'.rows, k, c);
        }
      }
    }
  }

  lemma OtherCellAlike(a: map<Key, Row>, b: map<Key, Row>, a': map<Key, Row>, b': map<Key, Row>, k: Key, c: Column)
    requires Extends(a, a') && Extends(b, b') && k in a && k in b && a'[k] == a[k] && b'[k] == b[k]
    requires SameCell(a, b, k, c)
    ensures SameCell(a', b', k, c)
  {}

  lemma {:induction false} ScriptKeepsAlike(a: Database, b: Database, tenant: Tenant, script: seq<Action>, clock: Clock)
    requires AllWellFormed(script) && RowsAlike(tenant, a.rows, b.rows)
    ensures RowsAlike(tenant, ApplyAll(a, tenant, script, clock).rows, ApplyAll(b, tenant, script, clock).rows)
  {
    hide Apply, WellFormed, RowsAlike;
    if script != [] {
      var n := |script| - 1;
      ScriptKeepsAlike(a, b, tenant, script[..n], clock);
      WriteKeepsAlike(ApplyAll(a, tenant, script[..n], clock), ApplyAll(b, tenant, script[..n], clock), tenant, script[n], clock);
    }
  }
}
