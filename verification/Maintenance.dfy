/**
 The ageing of infos in lingmemory/maintenance.py, on the record store: archive, expire, purge.
 Times are in hours.
 */
module Maintenance {
  import opened Base
  import opened RecordStore
  import opened RecordLaws

  const ArchiveAge := 72
  const ExpireAge := 168
  const Batch := 100

  predicate Set(data: Data, field: string) { field in data && (data[field] == Flag(true) || data[field] == Num(1.0)) }

  /** Kept out of the clean-up. */
  predicate Exempt(rec: Record) { Set(rec.data, "retain") || Set(rec.data, "is_conclusion") }

  predicate Ageing(rec: Record, cutoff: int) {
    rec.kind == "info" && rec.state == "active" && rec.updated < cutoff && !Exempt(rec)
  }

  predicate Settled(rec: Record, cutoff: int) { rec.kind == "info" && rec.state == "archived" && rec.updated < cutoff }

  predicate Purgeable(rec: Record) { rec.kind == "info" && rec.state == "purged" }

  function RecOf(rows: seq<Row>, id: Id): Record
    requires Position(rows, id).Some?
  {
    rows[Position(rows, id).value].rec
  }

  /** An answer to `SELECT id … WHERE wanted LIMIT batch`. */
  ghost predicate Finds(rows: seq<Row>, wanted: Record -> bool, batch: nat, ids: seq<Id>) {
    && NoDuplicates(ids) && |ids| <= batch
    && (forall id :: id in ids ==> Position(rows, id).Some? && wanted(RecOf(rows, id)))
    && (|ids| < batch ==> forall i :: 0 <= i < |rows| && wanted(rows[i].rec) ==> rows[i].rec.id in ids)
  }

  /** An answer to the same with `ORDER BY updated_at`, ties in any order. */
  ghost predicate Selects(rows: seq<Row>, wanted: Record -> bool, batch: nat, ids: seq<Id>) {
    && Finds(rows, wanted, batch, ids)
    && (forall i, id :: 0 <= i < |rows| && id in ids && wanted(rows[i].rec) && rows[i].rec.id !in ids ==>
          RecOf(rows, id).updated <= rows[i].rec.updated)
  }

  /** What the type registry says about infos. */
  predicate InfoLifecycle(reg: Registry) {
    && "info" in reg && reg["info"].initial == "active"
    && Target(reg, "info", "active", "archive") == Some("archived")
    && Target(reg, "info", "archived", "expire") == Some("expired")
  }

  function Move(reg: Registry, s: Store, id: Id, event: string, at: int): Store {
    After(reg, s, Call(Transition(id, event, "maintenance"), at))
  }

  function MoveAll(reg: Registry, s: Store, ids: seq<Id>, event: string, clock: Id -> int): Store {
    if ids == [] then s
    else
      var last := ids[|ids| - 1];
      Move(reg, MoveAll(reg, s, ids[..|ids| - 1], event, clock), last, event, clock(last))
  }

  function MovedRow(row: Row, to: State, clock: Id -> int): Row {
    Row(row.rowid, row.rec.(state := to, updated := clock(row.rec.id)))
  }

  /** Exactly the rows in `ids` went to state `to`, each at its own time; nothing else changed in the table. */
  ghost predicate Moved(rows: seq<Row>, rows': seq<Row>, ids: seq<Id>, to: State, clock: Id -> int) {
    |rows'| == |rows| &&
    forall i :: 0 <= i < |rows| ==>
      rows'[i] == if rows[i].rec.id in ids then MovedRow(rows[i], to, clock) else rows[i]
  }

  predicate AllIn(rows: seq<Row>, ids: seq<Id>, from: State) {
    forall id :: id in ids ==>
        Position(rows, id).Some? && RecOf(rows, id).kind == "info" && RecOf(rows, id).state == from
  }

  lemma PositionIsUnique(rows: seq<Row>, i: nat)
    requires IdsDistinct(rows) && i < |rows|
    ensures Position(rows, rows[i].rec.id) == Some(i)
  {
  }

  lemma MoveOne(reg: Registry, s: Store, rows: seq<Row>, ids: seq<Id>, id: Id, event: string, from: State, to: State,
                clock: Id -> int)
    requires IdsDistinct(rows) && Moved(rows, s.rows, ids, to, clock) && id !in ids
    requires AllIn(rows, [id], from) && Target(reg, "info", from, event) == Some(to)
    ensures Perform(reg, s, Transition(id, event, "maintenance"), clock(id)).Ok?
    ensures Moved(rows, Move(reg, s, id, event, clock(id)).rows, ids + [id], to, clock)
  {
    assert id in [id];
    var p := Position(rows, id).value;
    assert s.rows[p] == rows[p];
    assert IdsDistinct(s.rows);
    PositionIsUnique(s.rows, p);
  }

  /** A whole batch of moves: every one of them succeeds. */
  lemma {:induction false} MoveAllMoves(reg: Registry, s: Store, ids: seq<Id>, event: string, from: State, to: State,
                                        clock: Id -> int)
    requires IdsDistinct(s.rows) && NoDuplicates(ids) && AllIn(s.rows, ids, from)
    requires Target(reg, "info", from, event) == Some(to)
    ensures Moved(s.rows, MoveAll(reg, s, ids, event, clock).rows, ids, to, clock)
    ensures forall k :: 0 <= k < |ids| ==>
              Perform(reg, MoveAll(reg, s, ids[..k], event, clock), Transition(ids[k], event, "maintenance"),
                      clock(ids[k])).Ok?
  {
    if ids != [] {
      var init, last := ids[..|ids| - 1], ids[|ids| - 1];
      assert ids == init + [last];
      MoveAllMoves(reg, s, init, event, from, to, clock);
      MoveOne(reg, MoveAll(reg, s, init, event, clock), s.rows, init, last, event, from, to, clock);
      forall k | 0 <= k < |ids|
        ensures Perform(reg, MoveAll(reg, s, ids[..k], event, clock), Transition(ids[k], event, "maintenance"),
                        clock(ids[k])).Ok?
      {
        if k < |init| { assert init[..k] == ids[..k] && init[k] == ids[k]; }
      }
    }
  }

  lemma MoveAllStep(reg: Registry, s: Store, ids: seq<Id>, k: nat, event: string, clock: Id -> int)
    requires k < |ids|
    ensures MoveAll(reg, s, ids[..k + 1], event, clock)
            == Move(reg, MoveAll(reg, s, ids[..k], event, clock), ids[k], event, clock(ids[k]))
  {
    assert ids[..k + 1][..k] == ids[..k];
  }

  function Without(s: Store, ids: seq<Id>): Store {
    Store(Kept(s.rows, ids), KeptEvents(s.events, ids))
  }

  function Kept(rows: seq<Row>, ids: seq<Id>): seq<Row> {
    if rows == [] then []
    else Kept(rows[..|rows| - 1], ids) + if rows[|rows| - 1].rec.id in ids then [] else [rows[|rows| - 1]]
  }

  function KeptEvents(events: seq<Event>, ids: seq<Id>): seq<Event> {
    if events == [] then []
    else
      var init, last := events[..|events| - 1], events[|events| - 1];
      KeptEvents(init, ids) + if last.record in ids then [] else [last]
  }

  /** The clean-up of one store; the answers of the three selections are given to it. */
  class Maintainer {
    const lm: LingMemory

    constructor (lm: LingMemory)
      ensures this.lm == lm
    {
      this.lm := lm;
    }

    method ArchiveStaleInfos(now: int, maxAge: int, batch: nat, ids: seq<Id>, clock: Id -> int)
      returns (archived: nat, skipped: nat)
      requires Selects(lm.rows, rec => Ageing(rec, now - maxAge), batch, ids) && IdsDistinct(lm.rows)
      modifies lm
      ensures lm.State() == MoveAll(lm.registry, old(lm.State()), ids, "archive", clock)
      ensures archived + skipped == |ids| && (InfoLifecycle(lm.registry) ==> skipped == 0)
    {
      archived, skipped := 0, 0;
      ghost var s := lm.State();
      assert AllIn(lm.rows, ids, "active");
      if InfoLifecycle(lm.registry) { MoveAllMoves(lm.registry, s, ids, "archive", "active", "archived", clock); }
      assert ids[..0] == [];
      for k := 0 to |ids|
        invariant lm.State() == MoveAll(lm.registry, s, ids[..k], "archive", clock)
        invariant archived + skipped == k && (InfoLifecycle(lm.registry) ==> skipped == 0)
      {
        MoveAllStep(lm.registry, s, ids, k, "archive", clock);
        hide MoveAll, Target, Selects, Position, Ageing, Settled;
        var r := lm.Transition(ids[k], "archive", "maintenance", clock(ids[k]));
        if r.Ok? { archived := archived + 1; } else { skipped := skipped + 1; }
      }
      assert ids[..|ids|] == ids;
    }

    method ExpireArchivedInfos(now: int, maxAge: int, batch: nat, ids: seq<Id>, clock: Id -> int) returns (expired: nat)
      requires Selects(lm.rows, rec => Settled(rec, now - maxAge), batch, ids) && IdsDistinct(lm.rows)
      modifies lm
      ensures lm.State() == MoveAll(lm.registry, old(lm.State()), ids, "expire", clock)
      ensures expired <= |ids| && (InfoLifecycle(lm.registry) ==> expired == |ids|)
    {
      expired := 0;
      ghost var s := lm.State();
      assert AllIn(lm.rows, ids, "archived");
      if InfoLifecycle(lm.registry) { MoveAllMoves(lm.registry, s, ids, "expire", "archived", "expired", clock); }
      assert ids[..0] == [];
      for k := 0 to |ids|
        invariant lm.State() == MoveAll(lm.registry, s, ids[..k], "expire", clock)
        invariant expired <= k && (InfoLifecycle(lm.registry) ==> expired == k)
      {
        MoveAllStep(lm.registry, s, ids, k, "expire", clock);
        hide MoveAll, Target, Selects, Position, Ageing, Settled;
        var r := lm.Transition(ids[k], "expire", "maintenance", clock(ids[k]));
        if r.Ok? { expired := expired + 1; }
      }
      assert ids[..|ids|] == ids;
    }

    /**
     Deletes the selected rows and their events one by one; what it selects are rows in state purged.
     A row that is another one's parent cannot be deleted: there it raises, its events gone already.
     */
    method PurgeExpiredInfos(batch: nat, ids: seq<Id>) returns (purged: nat, raised: bool)
      requires Finds(lm.rows, Purgeable, batch, ids)
      modifies lm
      ensures (lm.State(), raised) == Purged(old(lm.State()), ids)
      ensures purged <= |ids| && (raised <==> purged < |ids|)
    {
      purged, raised := 0, false;
      assert ids[0..] == ids;
      while purged < |ids|
        invariant 0 <= purged <= |ids| && !raised
        invariant Purged(lm.State(), ids[purged..]) == Purged(old(lm.State()), ids)
      {
        var id := ids[purged];
        assert ids[purged..][0] == id && ids[purged..][1..] == ids[purged + 1..];
        lm.events := KeptEvents(lm.events, [id]);
        if HasChild(lm.rows, id) {
          raised := true;
          return;
        }
        lm.rows := Kept(lm.rows, [id]);
        purged := purged + 1;
      }
    }
  }

  /** Some row names `id` as its parent. */
  predicate HasChild(rows: seq<Row>, id: Id) { exists i :: 0 <= i < |rows| && rows[i].rec.parent == Some(id) }

  /** What purging leaves, and whether it raised on the way. */
  function Purged(s: Store, ids: seq<Id>): (Store, bool)
    decreases |ids|
  {
    if ids == [] then (s, false)
    else
      var s' := Store(s.rows, KeptEvents(s.events, [ids[0]]));
      if HasChild(s.rows, ids[0]) then (s', true) else Purged(Store(Kept(s.rows, [ids[0]]), s'.events), ids[1..])
  }

  /** Some selected row is the parent of a row that is still there when its turn comes. */
  predicate Blocked(s: Store, ids: seq<Id>) {
    exists k :: 0 <= k < |ids| && HasChild(Without(s, ids[..k]).rows, ids[k])
  }

  /** Some selected row is the parent of a row that is not selected before it. */
  ghost predicate ParentOfAnother(s: Store, ids: seq<Id>) {
    exists k, row :: 0 <= k < |ids| && row in s.rows && row.rec.id !in ids[..k] && row.rec.parent == Some(ids[k])
  }

  lemma {:induction false} KeptHolds(rows: seq<Row>, ids: seq<Id>)
    ensures forall row :: row in Kept(rows, ids) <==> row in rows && row.rec.id !in ids
  {
    if rows != [] {
      KeptHolds(rows[..|rows| - 1], ids);
      assert rows == rows[..|rows| - 1] + [rows[|rows| - 1]];
    }
  }

  lemma {:induction false} KeptEventsHold(events: seq<Event>, ids: seq<Id>)
    ensures forall e :: e in KeptEvents(events, ids) <==> e in events && e.record !in ids
  {
    if events != [] {
      KeptEventsHold(events[..|events| - 1], ids);
      assert events == events[..|events| - 1] + [events[|events| - 1]];
    }
  }

  lemma BlockedExactly(s: Store, ids: seq<Id>)
    ensures Blocked(s, ids) <==> ParentOfAnother(s, ids)
  {
    forall k | 0 <= k < |ids|
      ensures HasChild(Without(s, ids[..k]).rows, ids[k]) <==>
                exists row :: row in s.rows && row.rec.id !in ids[..k] && row.rec.parent == Some(ids[k])
    {
      KeptHolds(s.rows, ids[..k]);
      var left := Without(s, ids[..k]).rows;
      if row :| row in s.rows && row.rec.id !in ids[..k] && row.rec.parent == Some(ids[k]) {
        assert row in left;
      }
      if i :| 0 <= i < |left| && left[i].rec.parent == Some(ids[k]) { assert left[i] in left; }
    }
  }

  /**
   The purge raises exactly when a selected row is the parent of a row that is still there; otherwise all
   selected rows and their events are gone, and nothing else.
   */
  lemma PurgesExactly(s: Store, ids: seq<Id>)
    ensures Purged(s, ids).1 <==> ParentOfAnother(s, ids)
    ensures !Purged(s, ids).1 ==> Purged(s, ids).0 == Without(s, ids)
    ensures !Purged(s, ids).1 ==>
              && (forall row :: row in Purged(s, ids).0.rows <==> row in s.rows && row.rec.id !in ids)
              && (forall e :: e in Purged(s, ids).0.events <==> e in s.events && e.record !in ids)
  {
    hide *;
    KeepingAll(s);
    PurgesOn(s, [], ids);
    BlockedFromStart(s, ids);
    BlockedExactly(s, ids);
    WithoutHolds(s, ids);
    assert [] + ids == ids;
  }

  lemma BlockedFromStart(s: Store, ids: seq<Id>)
    ensures BlockedFrom(s, [], ids) <==> Blocked(s, ids)
  {
    assert forall k :: 0 <= k < |ids| ==> [] + ids[..k] == ids[..k];
    hide Without, HasChild;
  }

  lemma WithoutHolds(s: Store, ids: seq<Id>)
    ensures forall row :: row in Without(s, ids).rows <==> row in s.rows && row.rec.id !in ids
    ensures forall e :: e in Without(s, ids).events <==> e in s.events && e.record !in ids
  {
    KeptHolds(s.rows, ids);
    KeptEventsHold(s.events, ids);
  }

  /** What is left when deleting the `k`-th row raises: of that row the events are gone, of those before it all. */
  ghost predicate LeftAt(s: Store, ids: seq<Id>, k: nat, r: Store)
    requires k < |ids|
  {
    && (exists row :: row in s.rows && row.rec.id !in ids[..k] && row.rec.parent == Some(ids[k]))
    && (forall row :: row in r.rows <==> row in s.rows && row.rec.id !in ids[..k])
    && (forall e :: e in r.events <==> e in s.events && e.record !in ids[..k + 1])
  }

  lemma LeftLater(s: Store, s': Store, ids: seq<Id>, k: nat, r: Store)
    requires k + 1 < |ids| && LeftAt(s', ids[1..], k, r)
    requires forall row :: row in s'.rows <==> row in s.rows && row.rec.id != ids[0]
    requires forall e :: e in s'.events <==> e in s.events && e.record != ids[0]
    ensures LeftAt(s, ids, k + 1, r)
  {
    var rest := ids[1..];
    assert rest[k] == ids[k + 1];
    assert ids[..k + 1] == [ids[0]] + rest[..k] && ids[..k + 1 + 1] == [ids[0]] + rest[..k + 1];
  }

  /** When a purge raises, it has raised at one of its rows. */
  lemma {:induction false} RaisesAt(s: Store, ids: seq<Id>) returns (k: nat)
    requires Purged(s, ids).1
    ensures k < |ids| && LeftAt(s, ids, k, Purged(s, ids).0)
    decreases |ids|
  {
    var id, rest := ids[0], ids[1..];
    var s' := Store(Kept(s.rows, [id]), KeptEvents(s.events, [id]));
    KeptHolds(s.rows, [id]);
    KeptEventsHold(s.events, [id]);
    assert Purged(s, ids) == if HasChild(s.rows, id) then (Store(s.rows, s'.events), true) else Purged(s', rest);
    hide Purged, Kept, KeptEvents;
    if HasChild(s.rows, id) {
      k := 0;
      assert ids[..1] == [id];
      var i :| 0 <= i < |s.rows| && s.rows[i].rec.parent == Some(id);
      assert s.rows[i] in s.rows;
    } else {
      hide LeftAt, HasChild;
      var j := RaisesAt(s', rest);
      k := j + 1;
      LeftLater(s, s', ids, j, Purged(s', rest).0);
    }
  }

  predicate BlockedFrom(s: Store, done: seq<Id>, ids: seq<Id>) {
    exists k :: 0 <= k < |ids| && HasChild(Without(s, done + ids[..k]).rows, ids[k])
  }

  lemma {:induction false} PurgesOn(s: Store, done: seq<Id>, ids: seq<Id>)
    ensures Purged(Without(s, done), ids).1 <==> BlockedFrom(s, done, ids)
    ensures !BlockedFrom(s, done, ids) ==> Purged(Without(s, done), ids).0 == Without(s, done + ids)
    decreases |ids|
  {
    if ids == [] {
      assert done + ids == done;
    } else {
      var id, rest, more := ids[0], ids[1..], done + [ids[0]];
      assert ids == [id] + rest && more + rest == done + ids;
      PurgedFirst(Without(s, done), ids);
      hide Purged, Without, HasChild, BlockedFrom;
      DroppingOneMore(s, done, id);
      PurgesOn(s, more, rest);
      LaterBlocks(s, done, ids);
    }
  }

  function PurgeFirst(s: Store, ids: seq<Id>): (Store, bool)
    requires ids != []
  {
    if HasChild(s.rows, ids[0]) then (Store(s.rows, KeptEvents(s.events, [ids[0]])), true)
      else Purged(Without(s, [ids[0]]), ids[1..])
  }

  lemma PurgedFirst(s: Store, ids: seq<Id>)
    requires ids != []
    ensures Purged(s, ids) == PurgeFirst(s, ids)
  {
  }

  lemma LaterBlocks(s: Store, done: seq<Id>, ids: seq<Id>)
    requires ids != []
    ensures BlockedFrom(s, done, ids)
            <==> HasChild(Without(s, done).rows, ids[0]) || BlockedFrom(s, done + [ids[0]], ids[1..])
  {
    var rest := ids[1..];
    assert done + ids[..0] == done;
    forall k | 0 <= k < |rest| ensures done + [ids[0]] + rest[..k] == done + ids[..k + 1] && rest[k] == ids[k + 1] {}
    if k :| 0 <= k < |ids| && HasChild(Without(s, done + ids[..k]).rows, ids[k]) {
      if k > 0 { assert HasChild(Without(s, done + [ids[0]] + rest[..k - 1]).rows, rest[k - 1]); }
    }
    if k :| 0 <= k < |rest| && HasChild(Without(s, done + [ids[0]] + rest[..k]).rows, rest[k]) {
      assert HasChild(Without(s, done + ids[..k + 1]).rows, ids[k + 1]);
    }
    if HasChild(Without(s, done).rows, ids[0]) { assert HasChild(Without(s, done + ids[..0]).rows, ids[0]); }
  }

  lemma {:induction false} KeepingAll(s: Store)
    ensures Without(s, []) == s
  {
    KeepingAllRows(s.rows, []);
    KeepingAllEvents(s.events);
  }

  lemma {:induction false} KeepingAllRows(rows: seq<Row>, ids: seq<Id>)
    requires forall i :: 0 <= i < |rows| ==> rows[i].rec.id !in ids
    ensures Kept(rows, ids) == rows
  {
    if rows != [] {
      KeepingAllRows(rows[..|rows| - 1], ids);
      assert rows == rows[..|rows| - 1] + [rows[|rows| - 1]];
    }
  }

  lemma {:induction false} KeepingAllEvents(events: seq<Event>)
    ensures KeptEvents(events, []) == events
  {
    if events != [] {
      KeepingAllEvents(events[..|events| - 1]);
      assert events == events[..|events| - 1] + [events[|events| - 1]];
    }
  }

  lemma DroppingOneMore(s: Store, ids: seq<Id>, id: Id)
    ensures Without(Without(s, ids), [id]) == Without(s, ids + [id])
  {
    DroppingOneMoreRow(s.rows, ids, id);
    DroppingOneMoreEvent(s.events, ids, id);
  }

  lemma {:induction false} DroppingOneMoreRow(rows: seq<Row>, ids: seq<Id>, id: Id)
    ensures Kept(Kept(rows, ids), [id]) == Kept(rows, ids + [id])
  {
    if rows != [] {
      var init, last := rows[..|rows| - 1], rows[|rows| - 1];
      DroppingOneMoreRow(init, ids, id);
      var kept := Kept(init, ids);
      assert kept + [] == kept && (kept + [last])[..|kept|] == kept && (kept + [last])[|kept|] == last;
      assert last.rec.id in ids + [id] <==> last.rec.id in ids || last.rec.id in [id];
    }
  }

  lemma {:induction false} DroppingOneMoreEvent(events: seq<Event>, ids: seq<Id>, id: Id)
    ensures KeptEvents(KeptEvents(events, ids), [id]) == KeptEvents(events, ids + [id])
  {
    if events != [] {
      var init, last := events[..|events| - 1], events[|events| - 1];
      DroppingOneMoreEvent(init, ids, id);
      var kept := KeptEvents(init, ids);
      assert kept + [] == kept && (kept + [last])[..|kept|] == kept && (kept + [last])[|kept|] == last;
      assert last.record in ids + [id] <==> last.record in ids || last.record in [id];
    }
  }
}
