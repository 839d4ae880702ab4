/** Replaying the same Canvas answers: from the second run on nothing changes any more, and usually
    from the first. */
module Convergence {
  import opened Tables
  import opened Replies
  import opened SyncRun
  import opened Referential

  // ---- Keys and ids ----

  /** The natural keys a script writes. */
  function SavedKeys(tenant: Tenant, script: seq<Action>): set<Key> {
    if script == [] then {}
    else
      var last := script[|script| - 1];
      SavedKeys(tenant, script[..|script| - 1]) + if last.Save? then {KeyOf(tenant, last)} else {}
  }

  lemma ApplyRows(db: Database, tenant: Tenant, a: Action, clock: Clock)
    requires a.Save?
    ensures var db' := Apply(db, tenant, a, clock);
      && db'.rows.Keys == db.rows.Keys + {KeyOf(tenant, a)}
      && (forall k :: k in db.rows ==> db'.rows[k].id == db.rows[k].id)
      && (forall k :: k in db.rows && k != KeyOf(tenant, a) ==> db'.rows[k] == db.rows[k])
      && (KeyOf(tenant, a) in db.rows ==> db'.nextId == db.nextId)
  {
    hide PayloadOf, IsWritable;
  }

  lemma {:induction false} ApplyAllKeys(db: Database, tenant: Tenant, script: seq<Action>, clock: Clock)
    ensures var db' := ApplyAll(db, tenant, script, clock);
      && db'.rows.Keys == db.rows.Keys + SavedKeys(tenant, script)
      && (forall k :: k in db.rows ==> db'.rows[k].id == db.rows[k].id)
      && (SavedKeys(tenant, script) <= db.rows.Keys ==> db'.nextId == db.nextId)
  {
    hide Apply;
    if script != [] {
      var n := |script| - 1;
      ApplyAllKeys(db, tenant, script[..n], clock);
      if script[n].Save? {
        ApplyRows(ApplyAll(db, tenant, script[..n], clock), tenant, script[n], clock);
      } else {
        DropChangesNothing(ApplyAll(db, tenant, script[..n], clock), tenant, clock);
      }
    }
  }

  lemma DropChangesNothing(db: Database, tenant: Tenant, clock: Clock)
    ensures Apply(db, tenant, DropPeer, clock) == db
  {}

  // ---- The closed form of a script ----

  /** The cells an action overlays when its links are looked up in `rows`. */
  function Written(rows: map<Key, Row>, tenant: Tenant, a: Action): Cells
    requires a.Save?
  {
    Writable(a.table, PayloadOf(rows, tenant, a)) - KEY_COLUMNS
  }

  /** Everything a script overlays on the row at `k`, later writes over earlier ones. */
  function Overlay(rows: map<Key, Row>, tenant: Tenant, script: seq<Action>, k: Key): Cells {
    if script == [] then map[]
    else
      var last := script[|script| - 1];
      var earlier := Overlay(rows, tenant, script[..|script| - 1], k);
      if last.Save? && KeyOf(tenant, last) == k then earlier + Written(rows, tenant, last) else earlier
  }

  /** Whether a script reports the row at `k` in an inactive state. */
  predicate Closes(tenant: Tenant, script: seq<Action>, k: Key) {
    script != [] &&
    var last := script[|script| - 1];
    Closes(tenant, script[..|script| - 1], k)
      || (last.Save? && KeyOf(tenant, last) == k && Inactive(last.state))
  }

  function MarkedDeleted(cells: Cells, closed: bool, at: Instant): Cells {
    if closed && DeletedAt !in cells then cells[DeletedAt := Moment(at)] else cells
  }

  function CellsAt(db: Database, k: Key): Cells {
    if k in db.rows then db.rows[k].cells else map[]
  }

  /** Links resolve alike in two tables of rows. */
  predicate Agree(rows: map<Key, Row>, rows': map<Key, Row>, tenant: Tenant, links: seq<Link>) {
    forall i :: 0 <= i < |links| ==> LinkId(rows, tenant, links[i]) == LinkId(rows', tenant, links[i])
  }

  lemma {:induction false} AgreeingPayloads(rows: map<Key, Row>, rows': map<Key, Row>, tenant: Tenant,
                                            payload: Cells, links: seq<Link>)
    requires Agree(rows, rows', tenant, links)
    ensures AllRelinked(rows, tenant, payload, links) == AllRelinked(rows', tenant, payload, links)
    decreases |links|
  {
    if links != [] {
      assert LinkId(rows, tenant, links[0]) == LinkId(rows', tenant, links[0]);
      AgreeingPayloads(rows, rows', tenant,
        Relinked(payload, links[0].column, LinkId(rows, tenant, links[0])), links[1..]);
    }
  }

  /** Every link of the script resolves, when it is written, as it does in `final`. */
  ghost predicate Settled(db: Database, tenant: Tenant, script: seq<Action>, clock: Clock, final: map<Key, Row>) {
    script != [] ==>
      var n := |script| - 1;
      && Settled(db, tenant, script[..n], clock, final)
      && (script[n].Save? ==>
            Agree(ApplyAll(db, tenant, script[..n], clock).rows, final, tenant, script[n].links))
  }

  lemma WrittenIsSafe(rows: map<Key, Row>, tenant: Tenant, a: Action)
    requires a.Save? && WellFormed(a)
    ensures DeletedAt !in Written(rows, tenant, a)
  {
    hide PayloadOf, WellFormed, IsWritable;
    if DeletedAt in Written(rows, tenant, a) {
      PayloadIsSafe(rows, tenant, a, DeletedAt);
    }
  }

  lemma {:induction false} OverlayIsSafe(rows: map<Key, Row>, tenant: Tenant, script: seq<Action>, k: Key)
    requires AllWellFormed(script)
    ensures DeletedAt !in Overlay(rows, tenant, script, k)
  {
    hide Written, WellFormed;
    if script != [] {
      var n := |script| - 1;
      OverlayIsSafe(rows, tenant, script[..n], k);
      if script[n].Save? {
        WrittenIsSafe(rows, tenant, script[n]);
      }
    }
  }

  /** One action, seen from the row it writes. */
  lemma AppliedCells(db: Database, tenant: Tenant, a: Action, clock: Clock, final: map<Key, Row>)
    requires a.Save? && WellFormed(a) && Agree(db.rows, final, tenant, a.links)
    ensures CellsAt(Apply(db, tenant, a, clock), KeyOf(tenant, a))
         == MarkedDeleted(CellsAt(db, KeyOf(tenant, a)) + Written(final, tenant, a), Inactive(a.state),
                          clock(KeyOf(tenant, a)))
  {
    hide WellFormed, AllRelinked, IsWritable, Agree;
    AgreeingPayloads(db.rows, final, tenant, a.cells, a.links);
    assert map[] + Written(final, tenant, a) == Written(final, tenant, a);
  }

  lemma MarkedThenWritten(base: Cells, o: Cells, w: Cells, c: bool, c': bool, at: Instant)
    requires DeletedAt !in w
    ensures MarkedDeleted(MarkedDeleted(base + o, c, at) + w, c', at)
         == MarkedDeleted(base + (o + w), c || c', at)
  {
    assert base + (o + w) == (base + o) + w;
  }

  /** A script as one overlay: what each row holds afterwards, from what it held before. */
  lemma {:induction false} ClosedForm(db: Database, tenant: Tenant, script: seq<Action>, clock: Clock, final: map<Key, Row>, k: Key)
    requires AllWellFormed(script) && Settled(db, tenant, script, clock, final)
    ensures CellsAt(ApplyAll(db, tenant, script, clock), k)
         == MarkedDeleted(CellsAt(db, k) + Overlay(final, tenant, script, k), Closes(tenant, script, k), clock(k))
  {
    hide Apply, Written, WellFormed, Agree, MarkedDeleted, Inactive;
    if script == [] {
      NothingOverlaid(CellsAt(db, k), clock(k));
    } else {
      var n := |script| - 1;
      var here, a := ApplyAll(db, tenant, script[..n], clock), script[n];
      ClosedForm(db, tenant, script[..n], clock, final, k);
      if a.Save? && KeyOf(tenant, a) == k {
        AppliedCells(here, tenant, a, clock, final);
        WrittenIsSafe(final, tenant, a);
        MarkedThenWritten(CellsAt(db, k), Overlay(final, tenant, script[..n], k), Written(final, tenant, a),
                          Closes(tenant, script[..n], k), Inactive(a.state), clock(k));
      } else if a.Save? {
        ApplyRows(here, tenant, a, clock);
      } else {
        DropChangesNothing(here, tenant, clock);
      }
    }
  }

  lemma NothingOverlaid(cells: Cells, at: Instant)
    ensures MarkedDeleted(cells + map[], false, at) == cells
  {
    assert cells + map[] == cells;
  }

  /** The same overlay twice, with another clock, is the overlay once. */
  lemma OverlaidTwice(base: Cells, o: Cells, closed: bool, at: Instant, at': Instant)
    requires DeletedAt !in o
    ensures MarkedDeleted(MarkedDeleted(base + o, closed, at) + o, closed, at') == MarkedDeleted(base + o, closed, at)
  {
    assert (base + o) + o == base + o;
  }

  // ---- The second run and all later ones ----

  predicate SameIds(rows: map<Key, Row>, rows': map<Key, Row>) {
    rows.Keys == rows'.Keys && forall k :: k in rows ==> rows[k].id == rows'[k].id
  }

  /** Once every row a script writes exists, running it changes no key, no id and no supply. */
  lemma RerunKeepsIds(db: Database, tenant: Tenant, script: seq<Action>, clock: Clock)
    requires SavedKeys(tenant, script) <= db.rows.Keys
    ensures SameIds(db.rows, ApplyAll(db, tenant, script, clock).rows)
    ensures ApplyAll(db, tenant, script, clock).nextId == db.nextId
  {
    ApplyAllKeys(db, tenant, script, clock);
  }

  lemma {:induction false} RerunIsSettled(db: Database, tenant: Tenant, script: seq<Action>, clock: Clock, final: map<Key, Row>)
    requires SavedKeys(tenant, script) <= db.rows.Keys && SameIds(db.rows, final)
    ensures Settled(db, tenant, script, clock, final)
  {
    if script != [] {
      var n := |script| - 1;
      RerunIsSettled(db, tenant, script[..n], clock, final);
      RerunKeepsIds(db, tenant, script[..n], clock);
    }
  }

  /** A script already applied with settled links leaves every row as it is when applied again. */
  lemma AppliedAgain(db: Database, tenant: Tenant, script: seq<Action>, clock: Clock, clock': Clock)
    requires AllWellFormed(script)
    requires Settled(db, tenant, script, clock, ApplyAll(db, tenant, script, clock).rows)
    ensures var once := ApplyAll(db, tenant, script, clock);
            ApplyAll(once, tenant, script, clock') == once
  {
    hide Settled, AllWellFormed, Overlay, Closes, MarkedDeleted, ApplyAll;
    var once := ApplyAll(db, tenant, script, clock);
    var twice := ApplyAll(once, tenant, script, clock');
    ApplyAllKeys(db, tenant, script, clock);
    RerunKeepsIds(once, tenant, script, clock');
    RerunIsSettled(once, tenant, script, clock', once.rows);
    forall k | k in once.rows ensures twice.rows[k] == once.rows[k] {
      var o, closed := Overlay(once.rows, tenant, script, k), Closes(tenant, script, k);
      ClosedForm(db, tenant, script, clock, once.rows, k);
      ClosedForm(once, tenant, script, clock', once.rows, k);
      OverlayIsSafe(once.rows, tenant, script, k);
      OverlaidTwice(CellsAt(db, k), o, closed, clock(k), clock'(k));
      assert CellsAt(twice, k) == CellsAt(once, k);
    }
    assert twice.rows == once.rows;
    ApplyAllKeepsStates(once, tenant, script, clock');
  }

  /** With the same answers the second run creates no row, and the third changes nothing. */
  lemma ThirdRunChangesNothing(db: Database, tenant: Tenant, script: seq<Action>, c1: Clock, c2: Clock, c3: Clock)
    requires AllWellFormed(script)
    ensures var first := ApplyAll(db, tenant, script, c1);
            var second := ApplyAll(first, tenant, script, c2);
            && SameIds(first.rows, second.rows) && second.nextId == first.nextId
            && ApplyAll(second, tenant, script, c3) == second
  {
    hide AllWellFormed, ApplyAll, Settled;
    var first := ApplyAll(db, tenant, script, c1);
    var second := ApplyAll(first, tenant, script, c2);
    ApplyAllKeys(db, tenant, script, c1);
    RerunKeepsIds(first, tenant, script, c2);
    RerunIsSettled(first, tenant, script, c2, second.rows);
    AppliedAgain(first, tenant, script, c2, c3);
  }

  /** Any number of runs with the same answers, each with its own clock. */
  function Repeated(db: Database, tenant: Tenant, script: seq<Action>, clocks: seq<Clock>): Database {
    if clocks == [] then db
    else ApplyAll(Repeated(db, tenant, script, clocks[..|clocks| - 1]), tenant, script, clocks[|clocks| - 1])
  }

  /** Replay convergence: however often the answers of a successful run are replayed, the domain
      tables stay what the second run made of them. */
  lemma {:induction false} ReplayConverges(db: Database, tenant: Tenant, r: Replies, clocks: seq<Clock>)
    requires SelfFault(r).None? && |clocks| >= 2
    ensures Repeated(db, tenant, RunScript(r), clocks) == Repeated(db, tenant, RunScript(r), clocks[..2])
    ensures SameIds(Repeated(db, tenant, RunScript(r), clocks[..1]).rows,
                    Repeated(db, tenant, RunScript(r), clocks[..2]).rows)
  {
    hide RunScript, ApplyAll, AllWellFormed, SelfFault;
    var script, n := RunScript(r), |clocks| - 1;
    RunScriptWellFormed(r);
    assert clocks[..1][..0] == [] && clocks[..2][..1] == clocks[..1];
    var first := ApplyAll(db, tenant, script, clocks[0]);
    assert Repeated(db, tenant, script, clocks[..1]) == first by {
      assert Repeated(db, tenant, script, []) == db;
    }
    assert Repeated(db, tenant, script, clocks[..2]) == ApplyAll(first, tenant, script, clocks[1]);
    ThirdRunChangesNothing(db, tenant, script, clocks[0], clocks[1], clocks[n]);
    if n >= 2 {
      ReplayConverges(db, tenant, r, clocks[..n]);
      assert clocks[..n][..2] == clocks[..2];
    } else {
      assert clocks[..2] == clocks;
    }
  }
}
