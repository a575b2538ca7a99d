/**
 Laws of the record store: the event log explains every record's state, and following the cursor
 gives every matching row once.
 */
module RecordLaws {
  import opened Base
  import opened RecordStore

  datatype Call = Call(request: Request, now: int)

  function After(reg: Registry, s: Store, call: Call): Store {
    var done := Perform(reg, s, call.request, call.now);
    if done.Ok? then done.value else s
  }

  function Run(reg: Registry, s: Store, calls: seq<Call>): Store {
    if calls == [] then s else After(reg, Run(reg, s, calls[..|calls| - 1]), calls[|calls| - 1])
  }

  // ---------------------------------------------------------------------------------------------
  // The log explains the state
  // ---------------------------------------------------------------------------------------------

  /** Grey-zone events neither come from a state nor create one. */
  predicate ChangesState(e: Event) { e.from.Some? || e.event == "create" }

  /** The state-changing events of one record, oldest first. */
  function History(events: seq<Event>, id: Id): seq<Event> {
    if events == [] then []
    else
      var h, e := History(events[..|events| - 1], id), events[|events| - 1];
      if e.record == id && ChangesState(e) then h + [e] else h
  }

  /** The fold of a history: the registry is asked again for every step after the creation. */
  function Folded(reg: Registry, kind: string, h: seq<Event>): Option<State> {
    if h == [] then None
    else if |h| == 1 then (if kind in reg then Some(reg[kind].initial) else None)
    else
      var before := Folded(reg, kind, h[..|h| - 1]);
      if before.None? then None else Target(reg, kind, before.value, h[|h| - 1].event)
  }

  /**
   The history starts with the creation, each event starts where the one before ended, and each step
   is the registry's.
   */
  ghost predicate Chained(reg: Registry, kind: string, h: seq<Event>) {
    && h != [] && kind in reg
    && h[0].event == "create" && h[0].from == None && h[0].to == reg[kind].initial
    && forall i :: 1 <= i < |h| ==>
         h[i].from == Some(h[i - 1].to) && Target(reg, kind, h[i - 1].to, h[i].event) == Some(h[i].to)
  }

  predicate RowsInOrder(rows: seq<Row>) {
    && (forall i :: 0 <= i < |rows| ==> rows[i].rowid >= 1)
    && forall i, j :: 0 <= i < j < |rows| ==> rows[i].rowid < rows[j].rowid
  }

  predicate IdsDistinct(rows: seq<Row>) { forall i, j :: 0 <= i < j < |rows| ==> rows[i].rec.id != rows[j].rec.id }

  ghost predicate EventsReferToRows(s: Store) {
    forall k :: 0 <= k < |s.events| ==> Position(s.rows, s.events[k].record).Some?
  }

  ghost predicate Explained(reg: Registry, s: Store, row: Row) {
    var h := History(s.events, row.rec.id);
    Chained(reg, row.rec.kind, h) && h[|h| - 1].to == row.rec.state && 0.0 <= row.rec.confidence <= 1.0
  }

  ghost predicate Inv(reg: Registry, s: Store) {
    && RowsInOrder(s.rows) && IdsDistinct(s.rows) && EventsReferToRows(s)
    && forall i :: 0 <= i < |s.rows| ==> Explained(reg, s, s.rows[i])
  }

  lemma {:induction false} NoEventsNoHistory(events: seq<Event>, id: Id)
    requires forall k :: 0 <= k < |events| ==> events[k].record != id
    ensures History(events, id) == []
  {
    if events != [] { NoEventsNoHistory(events[..|events| - 1], id); }
  }

  lemma OneMoreEvent(events: seq<Event>, e: Event, id: Id)
    ensures History(events + [e], id) == History(events, id) + if e.record == id && ChangesState(e) then [e] else []
  {
    assert (events + [e])[..|events|] == events;
  }

  lemma ChainedMore(reg: Registry, kind: string, h: seq<Event>, e: Event)
    requires Chained(reg, kind, h) && e.from == Some(h[|h| - 1].to)
    requires Target(reg, kind, h[|h| - 1].to, e.event) == Some(e.to)
    ensures Chained(reg, kind, h + [e])
  {
    var g := h + [e];
    forall i | 1 <= i < |g|
      ensures g[i].from == Some(g[i - 1].to) && Target(reg, kind, g[i - 1].to, g[i].event) == Some(g[i].to)
    {
      assert g[i - 1] == h[i - 1];
    }
  }

  /** The row changes in place: ids, kinds and row numbers stay, and every id is found as before. */
  lemma ChangedKeepsShape(rows: seq<Row>, i: nat, rec: Record)
    requires i < |rows| && rec.id == rows[i].rec.id && RowsInOrder(rows) && IdsDistinct(rows)
    ensures var rows' := Changed(rows, i, rec);
            && |rows'| == |rows| && RowsInOrder(rows') && IdsDistinct(rows')
            && forall id :: Position(rows', id).None? <==> Position(rows, id).None?
  {
    var rows' := Changed(rows, i, rec);
    assert forall k :: 0 <= k < |rows| ==> rows'[k].rec.id == rows[k].rec.id && rows'[k].rowid == rows[k].rowid;
  }

  lemma FoundIn(rows: seq<Row>, i: nat)
    requires i < |rows|
    ensures Position(rows, rows[i].rec.id).Some?
  {
  }

  lemma AppendKeepsEvents(s: Store, row: Row, e: Event)
    requires EventsReferToRows(s) && e.record == row.rec.id
    ensures EventsReferToRows(Store(s.rows + [row], s.events + [e]))
  {
    var rows', events' := s.rows + [row], s.events + [e];
    hide Position;
    forall k | 0 <= k < |events'| ensures Position(rows', events'[k].record).Some? {
      if k < |s.events| {
        assert Position(s.rows, s.events[k].record).Some?;
        var p := Position(s.rows, s.events[k].record).value;
        assert rows'[p].rec.id == s.events[k].record;
        FoundIn(rows', p);
      } else {
        FoundIn(rows', |s.rows|);
      }
    }
  }

  lemma AppendKeepsRows(rows: seq<Row>, rec: Record)
    requires RowsInOrder(rows) && IdsDistinct(rows) && Position(rows, rec.id).None?
    ensures RowsInOrder(rows + [Row(NextRowid(rows), rec)]) && IdsDistinct(rows + [Row(NextRowid(rows), rec)])
  {
  }

  lemma NewRowExplained(reg: Registry, s: Store, row: Row, e: Event)
    requires EventsReferToRows(s) && Position(s.rows, row.rec.id).None?
    requires row.rec.kind in reg && row.rec.state == reg[row.rec.kind].initial && row.rec.confidence == 1.0
    requires e.record == row.rec.id && e.event == "create" && e.from == None && e.to == row.rec.state
    ensures Explained(reg, Store(s.rows + [row], s.events + [e]), row)
  {
    forall k | 0 <= k < |s.events| ensures s.events[k].record != row.rec.id {
      assert Position(s.rows, s.events[k].record).Some?;
    }
    NoEventsNoHistory(s.events, row.rec.id);
    OneMoreEvent(s.events, e, row.rec.id);
  }

  lemma CreateAppends(reg: Registry, s: Store, call: Call) returns (row: Row, e: Event)
    requires call.request.Create? && Perform(reg, s, call.request, call.now).Ok?
    ensures After(reg, s, call) == Store(s.rows + [row], s.events + [e])
    ensures row == Row(NextRowid(s.rows), row.rec) && e.record == row.rec.id && Position(s.rows, row.rec.id).None?
    ensures row.rec.kind in reg && row.rec.state == reg[row.rec.kind].initial && row.rec.confidence == 1.0
    ensures e.event == "create" && e.from == None && e.to == row.rec.state
  {
    var s' := After(reg, s, call);
    row, e := s'.rows[|s.rows|], s'.events[|s.events|];
  }

  lemma RowsStayExplained(reg: Registry, s: Store, row: Row, e: Event)
    requires Inv(reg, s) && Position(s.rows, e.record).None?
    requires Explained(reg, Store(s.rows + [row], s.events + [e]), row)
    ensures var s' := Store(s.rows + [row], s.events + [e]);
            forall i :: 0 <= i < |s'.rows| ==> Explained(reg, s', s'.rows[i])
  {
    var s' := Store(s.rows + [row], s.events + [e]);
    hide Position, RowsInOrder, IdsDistinct, EventsReferToRows, Chained;
    forall i | 0 <= i < |s'.rows| ensures Explained(reg, s', s'.rows[i]) {
      if i < |s.rows| {
        assert Explained(reg, s, s.rows[i]);
        OneMoreEvent(s.events, e, s.rows[i].rec.id);
      }
    }
  }

  lemma AppendKeeps(reg: Registry, s: Store, row: Row, e: Event)
    requires Inv(reg, s) && row == Row(NextRowid(s.rows), row.rec) && e.record == row.rec.id
    requires Position(s.rows, row.rec.id).None?
    requires row.rec.kind in reg && row.rec.state == reg[row.rec.kind].initial && row.rec.confidence == 1.0
    requires e.event == "create" && e.from == None && e.to == row.rec.state
    ensures Inv(reg, Store(s.rows + [row], s.events + [e]))
  {
    hide Position, RowsInOrder, IdsDistinct, EventsReferToRows, Explained;
    NewRowExplained(reg, s, row, e);
    AppendKeepsEvents(s, row, e);
    AppendKeepsRows(s.rows, row.rec);
    RowsStayExplained(reg, s, row, e);
    assert Inv(reg, Store(s.rows + [row], s.events + [e]));
  }

  lemma KeepsOnCreate(reg: Registry, s: Store, call: Call)
    requires Inv(reg, s) && call.request.Create?
    ensures Inv(reg, After(reg, s, call))
  {
    if Perform(reg, s, call.request, call.now).Ok? {
      hide Inv, Position;
      var row, e := CreateAppends(reg, s, call);
      AppendKeeps(reg, s, row, e);
      assert Inv(reg, After(reg, s, call));
    }
  }

  lemma AskKeepsShape(reg: Registry, s: Store, call: Call)
    requires RowsInOrder(s.rows) && IdsDistinct(s.rows)
    ensures RowsInOrder(After(reg, s, call).rows) && IdsDistinct(After(reg, s, call).rows)
  {
    var s', r := After(reg, s, call), call.request;
    if Perform(reg, s, r, call.now).Ok? {
      if r.Create? {
        AppendKeepsRows(s.rows, s'.rows[|s.rows|].rec);
      } else {
        var p := Position(s.rows, r.record).value;
        ChangedKeepsShape(s.rows, p, s'.rows[p].rec);
      }
    }
  }

  lemma AskKeepsSize(reg: Registry, s: Store, call: Call)
    ensures |s.rows| <= |After(reg, s, call).rows|
  {
  }

  /** The event is the record's next step, or leaves its state alone. */
  predicate Follows(reg: Registry, was: Record, rec: Record, e: Event) {
    && rec.id == e.record == was.id && rec.kind == was.kind && 0.0 <= rec.confidence <= 1.0
    && if ChangesState(e) then
         && e.from == Some(was.state) && rec.state == e.to
         && Target(reg, rec.kind, was.state, e.event) == Some(e.to)
       else rec.state == was.state
  }

  lemma ChangedRowExplained(reg: Registry, s: Store, row: Row, rec: Record, e: Event, s': Store)
    requires Explained(reg, s, row) && Follows(reg, row.rec, rec, e) && s'.events == s.events + [e]
    ensures Explained(reg, s', Row(row.rowid, rec))
  {
    OneMoreEvent(s.events, e, rec.id);
    if ChangesState(e) { ChainedMore(reg, rec.kind, History(s.events, rec.id), e); }
  }

  lemma OtherRowExplained(reg: Registry, s: Store, row: Row, e: Event, s': Store)
    requires Explained(reg, s, row) && row.rec.id != e.record && s'.events == s.events + [e]
    ensures Explained(reg, s', row)
  {
    OneMoreEvent(s.events, e, row.rec.id);
  }

  lemma ChangeKeepsEvents(s: Store, p: nat, rec: Record, e: Event)
    requires RowsInOrder(s.rows) && IdsDistinct(s.rows) && EventsReferToRows(s)
    requires p < |s.rows| && rec.id == e.record == s.rows[p].rec.id
    ensures EventsReferToRows(Store(Changed(s.rows, p, rec), s.events + [e]))
  {
    ChangedKeepsShape(s.rows, p, rec);
    FoundIn(s.rows, p);
    hide Position, RowsInOrder, IdsDistinct;
    forall k | 0 <= k < |s.events| + 1
      ensures Position(Changed(s.rows, p, rec), (s.events + [e])[k].record).Some?
    {
      if k < |s.events| { assert Position(s.rows, s.events[k].record).Some?; }
    }
  }

  lemma KeepsOnChange(reg: Registry, s: Store, p: nat, rec: Record, e: Event)
    requires Inv(reg, s) && p < |s.rows| && Follows(reg, s.rows[p].rec, rec, e)
    ensures Inv(reg, Store(Changed(s.rows, p, rec), s.events + [e]))
  {
    var s' := Store(Changed(s.rows, p, rec), s.events + [e]);
    ChangedKeepsShape(s.rows, p, rec);
    ChangeKeepsEvents(s, p, rec, e);
    assert forall i :: 0 <= i < |s.rows| && i != p ==> s.rows[i].rec.id != s.rows[p].rec.id;
    hide Position, RowsInOrder, IdsDistinct, EventsReferToRows, Explained;
    forall i | 0 <= i < |s'.rows| ensures Explained(reg, s', s'.rows[i]) {
      if i == p {
        ChangedRowExplained(reg, s, s.rows[p], rec, e, s');
      } else {
        OtherRowExplained(reg, s, s.rows[i], e, s');
      }
    }
    assert Inv(reg, s');
  }

  lemma StepKeeps(reg: Registry, s: Store, call: Call)
    requires Inv(reg, s)
    ensures Inv(reg, After(reg, s, call))
  {
    if call.request.Create? {
      KeepsOnCreate(reg, s, call);
    } else if Perform(reg, s, call.request, call.now).Ok? {
      var s' := After(reg, s, call);
      var p := Position(s.rows, call.request.record).value;
      assert Explained(reg, s, s.rows[p]);
      hide Inv;
      KeepsOnChange(reg, s, p, s'.rows[p].rec, s'.events[|s.events|]);
    }
  }

  /** Whatever is asked of the store in whatever order, the log explains every record. */
  lemma {:induction false} RunKeeps(reg: Registry, s: Store, calls: seq<Call>)
    requires Inv(reg, s)
    ensures Inv(reg, Run(reg, s, calls))
  {
    if calls != [] {
      RunKeeps(reg, s, calls[..|calls| - 1]);
      StepKeeps(reg, Run(reg, s, calls[..|calls| - 1]), calls[|calls| - 1]);
    }
  }

  lemma {:induction false} ChainedFolds(reg: Registry, kind: string, h: seq<Event>)
    requires Chained(reg, kind, h)
    ensures Folded(reg, kind, h) == Some(h[|h| - 1].to)
  {
    if |h| > 1 {
      assert h[..|h| - 1][|h| - 2] == h[|h| - 2];
      ChainedFolds(reg, kind, h[..|h| - 1]);
    }
  }

  /** After any run from nothing, a record's state is what the registry makes of its history alone. */
  lemma StateIsFoldOfHistory(reg: Registry, calls: seq<Call>, i: nat)
    requires i < |Run(reg, Blank, calls).rows|
    ensures var s := Run(reg, Blank, calls);
            var rec := s.rows[i].rec;
            var h := History(s.events, rec.id);
            Chained(reg, rec.kind, h) && Folded(reg, rec.kind, h) == Some(rec.state)
  {
    RunKeeps(reg, Blank, calls);
    var s := Run(reg, Blank, calls);
    assert Explained(reg, s, s.rows[i]);
    ChainedFolds(reg, s.rows[i].rec.kind, History(s.events, s.rows[i].rec.id));
  }

  /** Confidence and bound updates change no record's state and no record's history. */
  lemma GreyZoneIsInvisible(reg: Registry, s: Store, call: Call, id: Id)
    requires call.request.SetConfidence? || call.request.SetBound?
    ensures History(After(reg, s, call).events, id) == History(s.events, id)
    ensures |After(reg, s, call).rows| == |s.rows|
    ensures forall i :: 0 <= i < |s.rows| ==> After(reg, s, call).rows[i].rec.state == s.rows[i].rec.state
  {
    var s' := After(reg, s, call);
    if s' != s { OneMoreEvent(s.events, s'.events[|s.events|], id); }
  }

  // ---------------------------------------------------------------------------------------------
  // Pagination
  // ---------------------------------------------------------------------------------------------

  predicate Falling(found: seq<Row>) { forall i, j :: 0 <= i < j < |found| ==> found[i].rowid > found[j].rowid }

  lemma LastIsGreatest(rows: seq<Row>)
    requires RowsInOrder(rows) && rows != []
    ensures RowsInOrder(rows[..|rows| - 1])
    ensures forall row :: row in rows[..|rows| - 1] ==> row.rowid < rows[|rows| - 1].rowid
    ensures forall row :: row in rows <==> row in rows[..|rows| - 1] || row == rows[|rows| - 1]
  {
    assert rows == rows[..|rows| - 1] + [rows[|rows| - 1]];
  }

  /** `Below` lists exactly the rows that match and lie below the cursor, with strictly falling row numbers. */
  lemma {:induction false} BelowListsExactly(rows: seq<Row>, filter: Filter, cursor: Option<nat>)
    requires RowsInOrder(rows)
    ensures forall row :: row in Below(rows, filter, cursor) <==> row in rows && Shows(filter, cursor, row)
    ensures Falling(Below(rows, filter, cursor))
  {
    if rows != [] {
      LastIsGreatest(rows);
      hide RowsInOrder;
      var init, last := rows[..|rows| - 1], rows[|rows| - 1];
      var rest := Below(init, filter, cursor);
      BelowListsExactly(init, filter, cursor);
      assert Below(rows, filter, cursor) == if Shows(filter, cursor, last) then [last] + rest else rest;
      hide Below;
      assert forall i :: 0 <= i < |rest| ==> rest[i] in rest;
    }
  }

  predicate Fresh(rows: seq<Row>, more: seq<Row>) { forall a, b :: a in rows && b in more ==> a.rowid < b.rowid }

  /** Rows that come after the ones already there do not show below an old cursor. */
  lemma {:induction false} NewRowsStayOut(rows: seq<Row>, more: seq<Row>, filter: Filter, cursor: nat)
    requires cursor > 0 && forall b :: b in more ==> cursor <= b.rowid
    ensures Below(rows + more, filter, Some(cursor)) == Below(rows, filter, Some(cursor))
  {
    if more == [] {
      assert rows + more == rows;
    } else {
      var init := more[..|more| - 1];
      assert (rows + more)[..|rows + more| - 1] == rows + init;
      NewRowsStayOut(rows, init, filter, cursor);
    }
  }

  lemma BelowLast(rows: seq<Row>, filter: Filter, cursor: Option<nat>)
    requires rows != []
    ensures var rest := Below(rows[..|rows| - 1], filter, cursor);
            Below(rows, filter, cursor) == if Shows(filter, cursor, rows[|rows| - 1]) then [rows[|rows| - 1]] + rest
              else rest
  {
  }

  /** The listing of one row more, cut behind a row of the shorter listing. */
  lemma CutBehind(rest: seq<Row>, last: Row, shown: bool, k: nat)
    requires k < |if shown then [last] + rest else rest| && (shown ==> k > 0)
    ensures var found := if shown then [last] + rest else rest;
            var j := if shown then k - 1 else k;
            found[k] == rest[j] && found[k + 1..] == rest[j + 1..]
  {
  }

  /** What is below a row of the listing is the rest of the listing. */
  lemma {:induction false} BelowRest(rows: seq<Row>, filter: Filter, cursor: Option<nat>, k: nat)
    requires RowsInOrder(rows) && k < |Below(rows, filter, cursor)|
    ensures Below(rows, filter, Some(Below(rows, filter, cursor)[k].rowid)) == Below(rows, filter, cursor)[k + 1..]
  {
    var found := Below(rows, filter, cursor);
    if rows != [] {
      var init, last := rows[..|rows| - 1], rows[|rows| - 1];
      var rest, shown := Below(init, filter, cursor), Shows(filter, cursor, last);
      LastIsGreatest(rows);
      BelowListsExactly(init, filter, cursor);
      BelowLast(rows, filter, cursor);
      BelowLast(rows, filter, Some(found[k].rowid));
      assert last.rowid > 0;
      if shown && k == 0 {
        hide Below, RowsInOrder;
        EverythingBelow(init, filter, cursor, last.rowid);
        assert found[1..] == rest;
      } else {
        var j := if shown then k - 1 else k;
        hide Below, RowsInOrder;
        CutBehind(rest, last, shown, k);
        assert rest[j] in rest && rest[j].rowid < last.rowid;
        BelowRest(init, filter, cursor, j);
      }
    }
  }

  lemma {:induction false} EverythingBelow(rows: seq<Row>, filter: Filter, cursor: Option<nat>, bound: nat)
    requires bound > 0 && forall row :: row in rows ==> row.rowid < bound
    requires cursor.Some? && cursor.value != 0 ==> bound < cursor.value
    ensures Below(rows, filter, Some(bound)) == Below(rows, filter, cursor)
  {
    if rows != [] {
      assert rows == rows[..|rows| - 1] + [rows[|rows| - 1]];
      EverythingBelow(rows[..|rows| - 1], filter, cursor, bound);
    }
  }

  /**
   A client follows the cursor for at most `steps` pages; at its `k`-th request the rows `more(k)`
   have been added since the first.  The flag says the last page was reached.
   */
  function Follow(rows: seq<Row>, more: nat -> seq<Row>, k: nat, filter: Filter, cursor: Option<nat>, limit: nat,
                  steps: nat): (seq<Row>, bool)
    decreases steps
  {
    if steps == 0 then ([], false)
    else
      var page := PageOf(rows + more(k), filter, cursor, limit);
      if page.next.None? then (page.items, true)
      else
        var (items, done) := Follow(rows, more, k + 1, filter, page.next, limit, steps - 1);
        (page.items + items, done)
  }

  /**
   The next cursor of a page that is not the last: a row number of the table, with the rest of the
   listing below it.
   */
  lemma CursorCutsTheListing(rows: seq<Row>, filter: Filter, cursor: Option<nat>, limit: nat)
    requires RowsInOrder(rows) && limit > 0 && |Below(rows, filter, cursor)| > limit
    ensures var found := Below(rows, filter, cursor);
            var next := found[limit - 1].rowid;
            && next > 0 && (exists row :: row in rows && row.rowid == next)
            && (cursor.Some? && cursor.value > 0 ==> next < cursor.value)
            && Below(rows, filter, Some(next)) == found[limit..]
  {
    var found := Below(rows, filter, cursor);
    BelowListsExactly(rows, filter, cursor);
    BelowRest(rows, filter, cursor, limit - 1);
    assert found[limit - 1] in rows;
  }

  lemma {:induction false} FollowRest(rows: seq<Row>, more: nat -> seq<Row>, k: nat, filter: Filter, cursor: nat,
                                      limit: nat, steps: nat)
    requires RowsInOrder(rows) && limit > 0 && cursor > 0
    requires forall i, b :: b in more(i) ==> cursor <= b.rowid
    requires steps > |Below(rows, filter, Some(cursor))|
    ensures Follow(rows, more, k, filter, Some(cursor), limit, steps) == (Below(rows, filter, Some(cursor)), true)
    decreases steps
  {
    var found := Below(rows, filter, Some(cursor));
    NewRowsStayOut(rows, more(k), filter, cursor);
    if |found| > limit {
      CursorCutsTheListing(rows, filter, Some(cursor), limit);
      hide RowsInOrder, Below;
      FollowRest(rows, more, k + 1, filter, found[limit - 1].rowid, limit, steps - 1);
      assert found == found[..limit] + found[limit..];
    }
  }

  /**
   Following the cursor to its end gives every matching row of the first request once, newest
   first, however many rows are added in between; pages of size zero are the one exception.
   */
  lemma PagesGiveEveryRowOnce(rows: seq<Row>, more: nat -> seq<Row>, filter: Filter, limit: nat, steps: nat)
    requires RowsInOrder(rows) && more(0) == [] && (forall i :: Fresh(rows, more(i)))
    requires steps > |Below(rows, filter, None)|
    ensures limit > 0 ==> Follow(rows, more, 0, filter, None, limit, steps) == (Below(rows, filter, None), true)
    ensures Follow(rows, more, 0, filter, None, limit, steps).0 == Below(rows, filter, None)
            <==> limit > 0 || Below(rows, filter, None) == []
  {
    assert rows + more(0) == rows;
    if limit == 0 {
      NothingAtLimitZero(rows, more, 0, filter, None, steps);
    } else {
      FollowFirst(rows, more, filter, limit, steps);
    }
  }

  lemma FollowFirst(rows: seq<Row>, more: nat -> seq<Row>, filter: Filter, limit: nat, steps: nat)
    requires RowsInOrder(rows) && more(0) == [] && (forall i :: Fresh(rows, more(i))) && limit > 0
    requires steps > |Below(rows, filter, None)|
    ensures Follow(rows, more, 0, filter, None, limit, steps) == (Below(rows, filter, None), true)
  {
    var found := Below(rows, filter, None);
    assert rows + more(0) == rows;
    if |found| > limit {
      CursorCutsTheListing(rows, filter, None, limit);
      var next := found[limit - 1].rowid;
      AllFresh(rows, more, next);
      hide RowsInOrder, Below, Fresh;
      FollowRest(rows, more, 1, filter, next, limit, steps - 1);
      assert found == found[..limit] + found[limit..];
    }
  }

  lemma AllFresh(rows: seq<Row>, more: nat -> seq<Row>, rowid: nat)
    requires (forall i :: Fresh(rows, more(i))) && exists row :: row in rows && row.rowid == rowid
    ensures forall i, b :: b in more(i) ==> rowid <= b.rowid
  {
    var row :| row in rows && row.rowid == rowid;
    forall i, b | b in more(i) ensures rowid <= b.rowid { assert Fresh(rows, more(i)); }
  }

  /** Pages of size zero walk down the table and give nothing out. */
  lemma {:induction false} NothingAtLimitZero(rows: seq<Row>, more: nat -> seq<Row>, k: nat, filter: Filter,
                                              cursor: Option<nat>, steps: nat)
    ensures Follow(rows, more, k, filter, cursor, 0, steps).0 == []
    decreases steps
  {
    if steps > 0 {
      var page := PageOf(rows + more(k), filter, cursor, 0);
      if page.next.Some? { NothingAtLimitZero(rows, more, k + 1, filter, page.next, steps - 1); }
    }
  }
}
