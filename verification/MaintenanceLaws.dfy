/** Whole runs of the clean-up: how old an info is when it expires, what is left alone, and what is deleted. */
module MaintenanceLaws {
  import opened Base
  import opened RecordStore
  import opened RecordLaws
  import opened Maintenance

  /** `lastActive` only records history: when each info was last updated while active. */
  datatype World = World(store: Store, now: int, lastActive: map<Id, int>)

  datatype Op =
    | Archive(now: int, ids: seq<Id>, clock: Id -> int, end: int)
    | Expire(now: int, ids: seq<Id>, clock: Id -> int, end: int)
    | Purge(ids: seq<Id>)
    | Ask(call: Call)

  /** Clocks do not run backwards, selections answer their query, and nobody else moves infos. */
  ghost predicate Enabled(w: World, op: Op) {
    match op
    case Archive(now, ids, clock, end) =>
      && w.now <= now <= end && (forall id :: id in ids ==> now <= clock(id) <= end)
      && Selects(w.store.rows, rec => Ageing(rec, now - ArchiveAge), Batch, ids)
    case Expire(now, ids, clock, end) =>
      && w.now <= now <= end && (forall id :: id in ids ==> now <= clock(id) <= end)
      && Selects(w.store.rows, rec => Settled(rec, now - ExpireAge), Batch, ids)
    case Purge(ids) => Finds(w.store.rows, Purgeable, Batch, ids)
    case Ask(call) =>
      && w.now <= call.now
      && (call.request.Transition? && Position(w.store.rows, call.request.record).Some? ==>
            RecOf(w.store.rows, call.request.record).kind != "info")
  }

  function Active(rows: seq<Row>): set<Id> {
    set i | 0 <= i < |rows| && rows[i].rec.kind == "info" && rows[i].rec.state == "active" :: rows[i].rec.id
  }

  function Noted(rows: seq<Row>, lastActive: map<Id, int>): map<Id, int> {
    map id | id in lastActive.Keys + Active(rows) ::
      if id in Active(rows) then (if Position(rows, id).Some? then RecOf(rows, id).updated else 0) else lastActive[id]
  }

  function Effect(reg: Registry, s: Store, op: Op): Store {
    match op
    case Archive(_, ids, clock, _) => MoveAll(reg, s, ids, "archive", clock)
    case Expire(_, ids, clock, _) => MoveAll(reg, s, ids, "expire", clock)
    case Purge(ids) => Purged(s, ids).0
    case Ask(call) => After(reg, s, call)
  }

  function Clock(w: World, op: Op): int {
    match op
    case Archive(_, _, _, end) => end
    case Expire(_, _, _, end) => end
    case Purge(_) => w.now
    case Ask(call) => call.now
  }

  function Step(reg: Registry, w: World, op: Op): World {
    var s := Effect(reg, w.store, op);
    World(s, Clock(w, op), Noted(s.rows, w.lastActive))
  }

  function Run(reg: Registry, w: World, ops: seq<Op>): World {
    if ops == [] then w else Step(reg, Run(reg, w, ops[..|ops| - 1]), ops[|ops| - 1])
  }

  ghost predicate Legal(reg: Registry, w: World, ops: seq<Op>) {
    forall k :: 0 <= k < |ops| ==> Enabled(Run(reg, w, ops[..k]), ops[k])
  }

  const Start := World(Blank, 0, map[])

  /** Where an info stands, and how long it took to get there. */
  predicate OnTime(lastActive: map<Id, int>, now: int, rec: Record) {
    rec.kind == "info" ==>
      && rec.updated <= now && rec.id in lastActive
      && (Exempt(rec) ==> rec.state == "active")
      && match rec.state
         case "active" => rec.updated == lastActive[rec.id]
         case "archived" => rec.updated - lastActive[rec.id] > ArchiveAge
         case "expired" => rec.updated - lastActive[rec.id] > ArchiveAge + ExpireAge
         case _ => false
  }

  ghost predicate Inv(w: World) {
    && RowsInOrder(w.store.rows) && IdsDistinct(w.store.rows)
    && forall i :: 0 <= i < |w.store.rows| ==> OnTime(w.lastActive, w.now, w.store.rows[i].rec)
  }

  lemma NotedIs(rows: seq<Row>, lastActive: map<Id, int>, i: nat)
    requires IdsDistinct(rows) && i < |rows|
    ensures var id := rows[i].rec.id;
            var noted := Noted(rows, lastActive);
            if rows[i].rec.kind == "info" && rows[i].rec.state == "active" then id in noted
              && noted[id] == rows[i].rec.updated
            else id in lastActive ==> id in noted && noted[id] == lastActive[id]
  {
    PositionIsUnique(rows, i);
  }

  /** Enough to keep the invariant: every row that differs from its old self is on time by the old notes. */
  lemma KeepsIf(w: World, s: Store, now: int)
    requires RowsInOrder(s.rows) && IdsDistinct(s.rows)
    requires forall i :: 0 <= i < |s.rows| ==> OnTimeNext(w.lastActive, now, s.rows[i].rec)
    ensures Inv(World(s, now, Noted(s.rows, w.lastActive)))
  {
    forall i | 0 <= i < |s.rows| ensures OnTime(Noted(s.rows, w.lastActive), now, s.rows[i].rec) {
      assert OnTimeNext(w.lastActive, now, s.rows[i].rec);
      NotedIs(s.rows, w.lastActive, i);
    }
  }

  predicate OnTimeNext(lastActive: map<Id, int>, now: int, rec: Record) {
    if rec.kind == "info" && rec.state == "active" then rec.updated <= now else OnTime(lastActive, now, rec)
  }

  lemma MovedKeepsShape(rows: seq<Row>, rows': seq<Row>, ids: seq<Id>, to: State, clock: Id -> int)
    requires Moved(rows, rows', ids, to, clock) && RowsInOrder(rows) && IdsDistinct(rows)
    ensures RowsInOrder(rows') && IdsDistinct(rows')
  {
    assert forall i :: 0 <= i < |rows| ==> rows'[i].rowid == rows[i].rowid && rows'[i].rec.id == rows[i].rec.id;
  }

  /** The rows a stage leaves are on time. */
  lemma MovedOnTime(w: World, op: Op, rows': seq<Row>, i: nat)
    requires Inv(w) && Enabled(w, op) && (op.Archive? || op.Expire?)
    requires Moved(w.store.rows, rows', op.ids, if op.Archive? then "archived" else "expired", op.clock) && i < |rows'|
    ensures OnTimeNext(w.lastActive, op.end, rows'[i].rec)
  {
    assert OnTime(w.lastActive, w.now, w.store.rows[i].rec);
    if w.store.rows[i].rec.id in op.ids { Picked(w, op, i); }
  }

  lemma KeepsOnMove(reg: Registry, w: World, op: Op)
    requires Inv(w) && InfoLifecycle(reg) && Enabled(w, op) && (op.Archive? || op.Expire?)
    ensures Inv(Step(reg, w, op))
    ensures |Step(reg, w, op).store.rows| == |w.store.rows|
  {
    var rows := w.store.rows;
    var to := if op.Archive? then "archived" else "expired";
    assert AllIn(rows, op.ids, if op.Archive? then "active" else "archived");
    if op.Archive? {
      MoveAllMoves(reg, w.store, op.ids, "archive", "active", "archived", op.clock);
    } else {
      MoveAllMoves(reg, w.store, op.ids, "expire", "archived", "expired", op.clock);
    }
    var s := Effect(reg, w.store, op);
    assert Step(reg, w, op) == World(s, op.end, Noted(s.rows, w.lastActive));
    assert Moved(rows, s.rows, op.ids, to, op.clock) && |s.rows| == |rows|;
    hide MoveAll, Target, InfoLifecycle, Enabled, OnTimeNext, OnTime, Moved, Noted, Effect, Step;
    MovedKeepsShape(rows, s.rows, op.ids, to, op.clock);
    forall i | 0 <= i < |s.rows| ensures OnTimeNext(w.lastActive, op.end, s.rows[i].rec) {
      MovedOnTime(w, op, s.rows, i);
    }
    KeepsIf(w, s, op.end);
  }

  lemma Picked(w: World, op: Op, i: nat)
    requires IdsDistinct(w.store.rows) && Enabled(w, op) && i < |w.store.rows|
    requires (op.Archive? || op.Expire?) && w.store.rows[i].rec.id in op.ids
    ensures op.Archive? ==> Ageing(w.store.rows[i].rec, op.now - ArchiveAge)
    ensures op.Expire? ==> Settled(w.store.rows[i].rec, op.now - ExpireAge)
  {
    PositionIsUnique(w.store.rows, i);
  }

  lemma FirstOf(ids: seq<Id>)
    ensures ids != [] ==> exists id :: id in ids
  {
    if ids != [] { assert ids[0] in ids; }
  }

  lemma PurgeFindsNothing(w: World, op: Op)
    requires Inv(w) && Enabled(w, op) && op.Purge?
    ensures op.ids == []
  {
    forall p | 0 <= p < |w.store.rows| ensures !Purgeable(w.store.rows[p].rec) {
      assert OnTime(w.lastActive, w.now, w.store.rows[p].rec);
    }
    FirstOf(op.ids);
  }

  /** Other requests change an info's times only, and create active ones. */
  lemma AskedRow(reg: Registry, w: World, op: Op, i: nat)
    requires InfoLifecycle(reg) && Enabled(w, op) && op.Ask? && i < |After(reg, w.store, op.call).rows|
    ensures var rec' := After(reg, w.store, op.call).rows[i].rec;
            rec'.kind == "info" ==>
              if i >= |w.store.rows| then rec'.state == "active" && rec'.updated == op.call.now
              else var rec := w.store.rows[i].rec;
                   && rec'.kind == rec.kind && rec'.id == rec.id && rec'.data == rec.data && rec'.state == rec.state
                   && (rec'.updated == rec.updated || rec'.updated == op.call.now)
  {
  }

  lemma AskOnTime(reg: Registry, w: World, op: Op, i: nat)
    requires Inv(w) && InfoLifecycle(reg) && Enabled(w, op) && op.Ask? && i < |After(reg, w.store, op.call).rows|
    ensures OnTimeNext(w.lastActive, op.call.now, After(reg, w.store, op.call).rows[i].rec)
  {
    AskedRow(reg, w, op, i);
    hide After, InfoLifecycle;
    if i < |w.store.rows| { assert OnTime(w.lastActive, w.now, w.store.rows[i].rec); }
  }

  lemma KeepsOnAsk(reg: Registry, w: World, op: Op)
    requires Inv(w) && InfoLifecycle(reg) && Enabled(w, op) && op.Ask?
    ensures Inv(Step(reg, w, op))
    ensures |Step(reg, w, op).store.rows| >= |w.store.rows|
  {
    var s' := After(reg, w.store, op.call);
    AskKeepsShape(reg, w.store, op.call);
    AskKeepsSize(reg, w.store, op.call);
    assert Step(reg, w, op) == World(s', op.call.now, Noted(s'.rows, w.lastActive));
    hide After, Step, Noted, OnTimeNext, RowsInOrder, IdsDistinct, Enabled, InfoLifecycle;
    forall i | 0 <= i < |s'.rows| ensures OnTimeNext(w.lastActive, op.call.now, s'.rows[i].rec) {
      AskOnTime(reg, w, op, i);
    }
    KeepsIf(w, s', op.call.now);
    assert Inv(Step(reg, w, op));
  }

  lemma StepKeeps(reg: Registry, w: World, op: Op)
    requires Inv(w) && InfoLifecycle(reg) && Enabled(w, op)
    ensures Inv(Step(reg, w, op)) && |Step(reg, w, op).store.rows| >= |w.store.rows|
  {
    match op
    case Purge(ids) =>
      PurgeFindsNothing(w, op);
      forall i | 0 <= i < |w.store.rows| ensures OnTimeNext(w.lastActive, w.now, w.store.rows[i].rec) {
        assert OnTime(w.lastActive, w.now, w.store.rows[i].rec);
      }
      KeepsIf(w, w.store, w.now);
    case Ask(_) => KeepsOnAsk(reg, w, op);
    case _ => KeepsOnMove(reg, w, op);
  }

  lemma {:induction false} RunKeeps(reg: Registry, w: World, ops: seq<Op>)
    requires Inv(w) && InfoLifecycle(reg) && Legal(reg, w, ops)
    ensures Inv(Run(reg, w, ops)) && |Run(reg, w, ops).store.rows| >= |w.store.rows|
  {
    hide *;
    RunUnfolds(reg, w, ops);
    if ops != [] {
      var init, last := ops[..|ops| - 1], ops[|ops| - 1];
      LastIsEnabled(reg, w, ops);
      PrefixIsLegal(reg, w, ops, |ops| - 1);
      RunKeeps(reg, w, init);
      StepKeeps(reg, Run(reg, w, init), last);
    }
  }

  lemma RunUnfolds(reg: Registry, w: World, ops: seq<Op>)
    ensures Run(reg, w, ops) == if ops == [] then w else Step(reg, Run(reg, w, ops[..|ops| - 1]), ops[|ops| - 1])
  {
  }

  lemma LastIsEnabled(reg: Registry, w: World, ops: seq<Op>)
    requires Legal(reg, w, ops) && ops != []
    ensures Enabled(Run(reg, w, ops[..|ops| - 1]), ops[|ops| - 1])
  {
    hide Enabled, Run;
  }

  /**
   With nobody else moving infos, over any run: an info found expired was moved there more than 240
   hours after its last update while active, a retained info or a conclusion is still active, and
   no info is ever ready to be purged.
   */
  lemma ExpiryTakesTenDays(reg: Registry, ops: seq<Op>, i: nat)
    requires InfoLifecycle(reg) && Legal(reg, Start, ops) && i < |Run(reg, Start, ops).store.rows|
    ensures var w := Run(reg, Start, ops);
            var rec := w.store.rows[i].rec;
            rec.kind == "info" ==>
              && (rec.state == "expired" ==> rec.id in w.lastActive && rec.updated - w.lastActive[rec.id] > 240)
              && (Exempt(rec) ==> rec.state == "active")
              && !Purgeable(rec)
  {
    RunKeeps(reg, Start, ops);
    var w := Run(reg, Start, ops);
    assert OnTime(w.lastActive, w.now, w.store.rows[i].rec);
  }

  /** So the purge, although documented as deleting expired infos, never deletes anything in such a run. */
  lemma NothingIsEverDeleted(reg: Registry, ops: seq<Op>, k: nat)
    requires InfoLifecycle(reg) && Legal(reg, Start, ops) && k < |ops|
    ensures ops[k].Purge? ==> ops[k].ids == [] && Run(reg, Start, ops[..k + 1]).store == Run(reg, Start, ops[..k]).store
  {
    var init := ops[..k];
    PrefixIsLegal(reg, Start, ops, k);
    RunKeeps(reg, Start, init);
    assert Enabled(Run(reg, Start, init), ops[k]);
    assert ops[..k + 1][..k] == init;
    assert Run(reg, Start, ops[..k + 1]) == Step(reg, Run(reg, Start, init), ops[k]);
    if ops[k].Purge? {
      hide Inv, Enabled, Run, Legal, Noted;
      PurgeFindsNothing(Run(reg, Start, init), ops[k]);
    }
  }

  lemma PrefixIsLegal(reg: Registry, w: World, ops: seq<Op>, k: nat)
    requires Legal(reg, w, ops) && k <= |ops|
    ensures Legal(reg, w, ops[..k])
  {
    forall j | 0 <= j < k ensures Enabled(Run(reg, w, ops[..k][..j]), ops[..k][j]) {
      assert ops[..k][..j] == ops[..j] && Enabled(Run(reg, w, ops[..j]), ops[j]);
    }
  }

  // ---------------------------------------------------------------------------------------------
  // One stage, info by info
  // ---------------------------------------------------------------------------------------------

  /** A flag that is set, as a truth value or as the number one. */
  predicate SetTo1(data: Data, field: string) {
    match if field in data then data[field] else Flag(false)
    case Flag(b) => b
    case Num(r) => r == 1.0
    case _ => false
  }

  /** An active info, neither retained nor a conclusion, that was last touched more than 72 hours ago. */
  predicate ReadyToArchive(rec: Record, now: int) {
    && rec.kind == "info" && rec.state == "active" && now - rec.updated > 72
    && !SetTo1(rec.data, "retain") && !SetTo1(rec.data, "is_conclusion")
  }

  /** An archived info that was last touched more than 168 hours ago. */
  predicate ReadyToExpire(rec: Record, now: int) {
    rec.kind == "info" && rec.state == "archived" && now - rec.updated > 168
  }

  predicate Ready(op: Op, rec: Record)
    requires op.Archive? || op.Expire?
  {
    if op.Archive? then ReadyToArchive(rec, op.now) else ReadyToExpire(rec, op.now)
  }

  lemma ReadyExactly(op: Op, rec: Record)
    requires op.Archive? || op.Expire?
    ensures op.Archive? ==> (ReadyToArchive(rec, op.now) <==> Ageing(rec, op.now - ArchiveAge))
    ensures op.Expire? ==> (ReadyToExpire(rec, op.now) <==> Settled(rec, op.now - ExpireAge))
  {
  }

  /**
   A stage moves infos that are ready and changes nothing else; all of them when they are fewer than a hundred,
   and otherwise a hundred of those touched longest ago.
   */
  lemma StageExactly(reg: Registry, w: World, op: Op, i: nat)
    requires Inv(w) && InfoLifecycle(reg) && Enabled(w, op) && (op.Archive? || op.Expire?) && i < |w.store.rows|
    ensures var rows, rows' := w.store.rows, Step(reg, w, op).store.rows;
            var to := if op.Archive? then "archived" else "expired";
            && |rows'| == |rows| && |op.ids| <= 100
            && (rows[i].rec.id in op.ids ==>
                  Ready(op, rows[i].rec)
                  && rows'[i] == Row(rows[i].rowid, rows[i].rec.(state := to, updated := op.clock(rows[i].rec.id))))
            && (rows[i].rec.id !in op.ids ==> rows'[i] == rows[i])
            && (Ready(op, rows[i].rec) && rows[i].rec.id !in op.ids ==>
                  |op.ids| == 100
                  && forall j :: 0 <= j < |rows| && rows[j].rec.id in op.ids ==>
                       rows[j].rec.updated <= rows[i].rec.updated)
  {
    var rows := w.store.rows;
    forall rec: Record
      ensures op.Archive? ==> (ReadyToArchive(rec, op.now) <==> Ageing(rec, op.now - ArchiveAge))
      ensures op.Expire? ==> (ReadyToExpire(rec, op.now) <==> Settled(rec, op.now - ExpireAge))
    {
      ReadyExactly(op, rec);
    }
    assert AllIn(rows, op.ids, if op.Archive? then "active" else "archived");
    if op.Archive? {
      MoveAllMoves(reg, w.store, op.ids, "archive", "active", "archived", op.clock);
    } else {
      MoveAllMoves(reg, w.store, op.ids, "expire", "archived", "expired", op.clock);
    }
    if rows[i].rec.id in op.ids { Picked(w, op, i); }
    hide MoveAll, Target, ReadyToArchive, ReadyToExpire, Ageing, Settled, Position;
    forall j | 0 <= j < |rows| && rows[j].rec.id in op.ids ensures RecOf(rows, rows[j].rec.id) == rows[j].rec {
      PositionIsUnique(rows, j);
    }
  }

  /** A purge is handed rows in state `purged` alone, and all of them when they are fewer than a hundred. */
  lemma PurgeFinds(w: World, op: Op, i: nat)
    requires IdsDistinct(w.store.rows) && Enabled(w, op) && op.Purge? && i < |w.store.rows|
    ensures |op.ids| <= 100
    ensures w.store.rows[i].rec.id in op.ids ==>
              w.store.rows[i].rec.kind == "info" && w.store.rows[i].rec.state == "purged"
    ensures w.store.rows[i].rec.kind == "info" && w.store.rows[i].rec.state == "purged" && |op.ids| < 100 ==>
              w.store.rows[i].rec.id in op.ids
  {
    PositionIsUnique(w.store.rows, i);
  }

  /** One cycle shorter than 168 hours moves no info by two stages. */
  lemma OneStagePerCycle(reg: Registry, w: World, a: Op, e: Op, i: nat)
    requires Inv(w) && InfoLifecycle(reg) && a.Archive? && e.Expire? && Enabled(w, a) && Enabled(Step(reg, w, a), e)
    requires e.now - a.now < ExpireAge && i < |w.store.rows|
    ensures var rows' := Step(reg, Step(reg, w, a), e).store.rows;
            && i < |rows'| && rows'[i].rec.id == w.store.rows[i].rec.id
            && (rows'[i].rec.state == w.store.rows[i].rec.state
                || (w.store.rows[i].rec.state == "active" && rows'[i].rec.state == "archived"
                    && w.store.rows[i].rec.id in a.ids)
                || (w.store.rows[i].rec.state == "archived" && rows'[i].rec.state == "expired"
                    && w.store.rows[i].rec.id in e.ids))
  {
    var mid := Step(reg, w, a);
    assert AllIn(w.store.rows, a.ids, "active");
    assert AllIn(mid.store.rows, e.ids, "archived");
    KeepsOnMove(reg, w, a);
    MoveAllMoves(reg, w.store, a.ids, "archive", "active", "archived", a.clock);
    MoveAllMoves(reg, mid.store, e.ids, "expire", "archived", "expired", e.clock);
    var id := w.store.rows[i].rec.id;
    if id in a.ids { Picked(w, a, i); }
    if id in e.ids { Picked(mid, e, i); }
  }
}
