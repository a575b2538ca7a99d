/**
 What one request to the record store does, said record by record, and what whole runs of requests
 leave in a record: each field is what the last accepted request that names it says.
 */
module RecordRequests {
  import opened Base
  import opened RecordStore
  import opened RecordLaws

  ghost predicate Holds(s: Store, rec: Record) { exists i :: 0 <= i < |s.rows| && s.rows[i].rec == rec }

  ghost predicate Knows(s: Store, id: Id) { exists rec :: Holds(s, rec) && rec.id == id }

  /** The first rule of the kind that names the event, from this state or from any, leads to `to`. */
  ghost predicate Leads(reg: Registry, kind: string, from: State, event: string, to: State) {
    kind in reg &&
    exists i :: 0 <= i < |reg[kind].rules| && reg[kind].rules[i].to == to
      && Applies(reg[kind].rules[i], from, event)
      && forall k :: 0 <= k < i ==> !Applies(reg[kind].rules[k], from, event)
  }

  predicate Applies(r: Rule, from: State, event: string) { r.event == event && r.from in {from, "*"} }

  lemma LeadsExactly(reg: Registry, kind: string, from: State, event: string, to: State)
    ensures Target(reg, kind, from, event) == Some(to) <==> Leads(reg, kind, from, event, to)
  {
    if kind in reg {
      var rules := reg[kind].rules;
      FirstFitIsFirst(rules, from, event, to);
      assert forall k :: 0 <= k < |rules| ==> (Fits(rules[k], from, event) <==> Applies(rules[k], from, event));
    }
  }

  // ---------------------------------------------------------------------------------------------
  // One request
  // ---------------------------------------------------------------------------------------------

  ghost predicate LeadsSomewhere(reg: Registry, rec: Record, event: string) {
    exists to :: Leads(reg, rec.kind, rec.state, event, to)
  }

  /** When a request is accepted. */
  ghost predicate Acceptable(reg: Registry, s: Store, r: Request) {
    match r
    case Create(kind, data, parent, _, id) =>
      && kind in reg && reg[kind].accepts(data) && !Knows(s, id) && (parent.Some? ==> Knows(s, parent.value))
    case Transition(id, event, _) => exists rec :: Holds(s, rec) && rec.id == id && LeadsSomewhere(reg, rec, event)
    case SetConfidence(id, confidence, _) => 0.0 <= confidence <= 1.0 && Knows(s, id)
    case SetBound(id, _, _, _) => Knows(s, id)
  }

  lemma KnowsByPosition(s: Store, id: Id)
    ensures Knows(s, id) <==> Position(s.rows, id).Some?
    ensures Position(s.rows, id).Some? ==> Holds(s, s.rows[Position(s.rows, id).value].rec)
  {
    if rec :| Holds(s, rec) && rec.id == id { }
    if Position(s.rows, id).Some? { assert Holds(s, s.rows[Position(s.rows, id).value].rec); }
  }

  lemma HeldOnce(s: Store, a: Record, b: Record)
    requires IdsDistinct(s.rows) && Holds(s, a) && Holds(s, b) && a.id == b.id
    ensures a == b
  {
  }

  lemma AcceptedExactly(reg: Registry, s: Store, r: Request, now: int)
    requires IdsDistinct(s.rows)
    ensures Perform(reg, s, r, now).Ok? <==> Acceptable(reg, s, r)
  {
    match r
    case Create(kind, data, parent, author, id) =>
      KnowsByPosition(s, id);
      if parent.Some? { KnowsByPosition(s, parent.value); }
    case Transition(id, event, actor) =>
      KnowsByPosition(s, id);
      if Position(s.rows, id).Some? {
        var rec := s.rows[Position(s.rows, id).value].rec;
        var to := Target(reg, rec.kind, rec.state, event);
        forall x ensures to == Some(x) <==> Leads(reg, rec.kind, rec.state, event, x) {
          LeadsExactly(reg, rec.kind, rec.state, event, x);
        }
        hide Target, Leads, Position;
        if to.Some? { assert LeadsSomewhere(reg, rec, event); }
        if x :| Holds(s, x) && x.id == id && LeadsSomewhere(reg, x, event) { HeldOnce(s, x, rec); }
      }
    case SetConfidence(id, _, _) => KnowsByPosition(s, id);
    case SetBound(id, _, _, _) => KnowsByPosition(s, id);
  }

  /** Why a request is refused: the first of these that applies. */
  ghost predicate RefusedFor(reg: Registry, s: Store, r: Request, why: Refusal) {
    match r
    case Create(kind, data, parent, _, id) =>
      if kind !in reg then why == UnknownType
      else if !reg[kind].accepts(data) then why == InvalidData
      else if Knows(s, id) then why == IdTaken
      else why == NoSuchParent
    case Transition(id, _, _) => if Knows(s, id) then why == Illegal else why == NotFound
    case SetConfidence(_, confidence, _) => if 0.0 <= confidence <= 1.0 then why == NotFound else why == OutOfRange
    case SetBound(_, _, _, _) => why == NotFound
  }

  lemma RefusedExactly(reg: Registry, s: Store, r: Request, now: int)
    ensures Perform(reg, s, r, now).Err? ==> RefusedFor(reg, s, r, Perform(reg, s, r, now).error)
  {
    KnowsByPosition(s, if r.Create? then r.id else r.record);
  }

  /** The record a request is about. */
  function Subject(r: Request): Id {
    match r
    case Create(_, _, _, _, id) => id
    case Transition(id, _, _) => id
    case SetConfidence(id, _, _) => id
    case SetBound(id, _, _, _) => id
  }

  function ActorOf(r: Request): string {
    match r
    case Create(_, _, _, author, _) => author
    case Transition(_, _, actor) => actor
    case SetConfidence(_, _, actor) => actor
    case SetBound(_, _, _, actor) => actor
  }

  /** What the subject looks like afterwards, given what it looked like before, if it was there. */
  ghost predicate Becomes(reg: Registry, r: Request, now: int, was: Option<Record>, rec: Record) {
    && rec.id == Subject(r) && rec.updated == now
    && match r
       case Create(kind, data, parent, author, _) =>
         && was.None? && kind in reg && rec.state == reg[kind].initial && rec.kind == kind && rec.data == data
         && rec.parent == parent && rec.author == author && rec.confidence == 1.0 && rec.bound == None
       case Transition(_, event, _) =>
         was.Some? && Leads(reg, was.value.kind, was.value.state, event, rec.state)
         && OnlyChanged(was.value, rec.(state := was.value.state))
       case SetConfidence(_, confidence, _) =>
         was.Some? && rec.confidence == confidence && OnlyChanged(was.value, rec.(confidence := was.value.confidence))
       case SetBound(_, bound, _, _) =>
         was.Some? && rec.bound == Some(bound) && OnlyChanged(was.value, rec.(bound := was.value.bound))
  }

  /** Nothing but the time of the last update may differ. */
  predicate OnlyChanged(was: Record, rec: Record) {
    && was.id == rec.id && was.kind == rec.kind && was.state == rec.state && was.data == rec.data
    && was.parent == rec.parent && was.author == rec.author && was.confidence == rec.confidence
    && was.bound == rec.bound
  }

  /** The entry in the log: who did what to which record, and from where to where. */
  ghost predicate LogsIt(reg: Registry, r: Request, now: int, was: Option<Record>, rec: Record, e: Event) {
    && e.record == Subject(r) && e.actor == ActorOf(r) && e.at == now
    && match r
       case Create(_, _, _, _, _) => e.event == "create" && e.from == None && e.to == rec.state && e.escalate == 0
       case Transition(_, event, _) =>
         was.Some? && e.event == event && e.from == Some(was.value.state) && e.to == rec.state && e.escalate == 0
       case SetConfidence(_, _, _) =>
         e.event == "confidence_change" && e.from == None && e.to == "no_state_change" && e.escalate == 0
       case SetBound(_, _, escalate, _) =>
         e.event == "bound" && e.from == None && e.to == "no_state_change" && e.escalate == escalate
  }

  /** The record with this id, if there is one. */
  function Find(s: Store, id: Id): Option<Record> {
    var p := Position(s.rows, id);
    if p.Some? then Some(s.rows[p.value].rec) else None
  }

  lemma FoundExactly(s: Store, id: Id, rec: Record)
    requires IdsDistinct(s.rows)
    ensures Find(s, id) == Some(rec) <==> Holds(s, rec) && rec.id == id
  {
    KnowsByPosition(s, id);
    if Holds(s, rec) && rec.id == id && Find(s, id).Some? { HeldOnce(s, rec, Find(s, id).value); }
  }

  /**
   An accepted request changes one record as it says, adds one entry to the log, and leaves every other
   record alone; a refused one leaves everything alone.
   */
  lemma RequestExactly(reg: Registry, s: Store, call: Call, id: Id)
    requires RowsInOrder(s.rows) && IdsDistinct(s.rows)
    ensures var s' := After(reg, s, call);
            var r := call.request;
            && (!Acceptable(reg, s, r) ==> s' == s)
            && (id != Subject(r) ==> Find(s', id) == Find(s, id))
            && (Acceptable(reg, s, r) ==>
                  && Find(s', Subject(r)).Some?
                  && Becomes(reg, r, call.now, Find(s, Subject(r)), Find(s', Subject(r)).value)
                  && |s'.events| == |s.events| + 1 && s'.events[..|s.events|] == s.events
                  && LogsIt(reg, r, call.now, Find(s, Subject(r)), Find(s', Subject(r)).value, s'.events[|s.events|]))
  {
    AcceptedExactly(reg, s, call.request, call.now);
    if Acceptable(reg, s, call.request) {
      if call.request.Create? { CreateExactly(reg, s, call, id); } else { UpdateExactly(reg, s, call, id); }
    }
  }

  lemma AppendedRow(rows: seq<Row>, row: Row, id: Id)
    ensures var p := Position(rows + [row], id);
            if row.rec.id == id then p == Some(|rows|) else p == Position(rows, id)
  {
    assert (rows + [row])[..|rows|] == rows;
  }

  lemma CreateExactly(reg: Registry, s: Store, call: Call, id: Id)
    requires RowsInOrder(s.rows) && IdsDistinct(s.rows) && call.request.Create?
    requires Perform(reg, s, call.request, call.now).Ok?
    ensures var s' := After(reg, s, call);
            var r := call.request;
            && (id != r.id ==> Find(s', id) == Find(s, id))
            && Find(s', r.id).Some? && Becomes(reg, r, call.now, Find(s, r.id), Find(s', r.id).value)
            && |s'.events| == |s.events| + 1 && s'.events[..|s.events|] == s.events
            && LogsIt(reg, r, call.now, Find(s, r.id), Find(s', r.id).value, s'.events[|s.events|])
  {
    var s' := After(reg, s, call);
    var row := s'.rows[|s.rows|];
    assert s'.rows == s.rows + [row] && row.rec.id == call.request.id;
    AppendedRow(s.rows, row, id);
    AppendedRow(s.rows, row, call.request.id);
    assert s'.events[..|s.events|] == s.events;
  }

  /** A created record gets the next row number, behind all others. */
  lemma NewRowIsNext(reg: Registry, s: Store, call: Call)
    requires call.request.Create? && Perform(reg, s, call.request, call.now).Ok?
    ensures var rows' := After(reg, s, call).rows;
            && |rows'| == |s.rows| + 1 && rows'[..|s.rows|] == s.rows
            && rows'[|s.rows|].rec.id == call.request.id
            && rows'[|s.rows|].rowid == if |s.rows| == 0 then 1 else s.rows[|s.rows| - 1].rowid + 1
  {
    assert After(reg, s, call).rows[..|s.rows|] == s.rows;
  }

  lemma ChangedRow(rows: seq<Row>, p: nat, rec: Record, id: Id)
    requires IdsDistinct(rows) && p < |rows| && rec.id == rows[p].rec.id
    ensures var q := Position(Changed(rows, p, rec), id);
            && q == Position(rows, id)
            && (q.Some? ==> Changed(rows, p, rec)[q.value].rec == if id == rec.id then rec else rows[q.value].rec)
  {
    var rows' := Changed(rows, p, rec);
    assert forall i :: 0 <= i < |rows| ==> rows'[i].rec.id == rows[i].rec.id;
    assert IdsDistinct(rows');
  }

  lemma UpdateExactly(reg: Registry, s: Store, call: Call, id: Id)
    requires RowsInOrder(s.rows) && IdsDistinct(s.rows) && !call.request.Create?
    requires Perform(reg, s, call.request, call.now).Ok?
    ensures var s' := After(reg, s, call);
            var r := call.request;
            && (id != r.record ==> Find(s', id) == Find(s, id))
            && Find(s', r.record).Some? && Becomes(reg, r, call.now, Find(s, r.record), Find(s', r.record).value)
            && |s'.events| == |s.events| + 1 && s'.events[..|s.events|] == s.events
            && LogsIt(reg, r, call.now, Find(s, r.record), Find(s', r.record).value, s'.events[|s.events|])
  {
    var s', r := After(reg, s, call), call.request;
    var p := Position(s.rows, r.record).value;
    var was, rec := s.rows[p].rec, s'.rows[p].rec;
    assert s'.rows == Changed(s.rows, p, rec) && rec.id == was.id;
    if r.Transition? { LeadsExactly(reg, was.kind, was.state, r.event, rec.state); }
    assert Becomes(reg, r, call.now, Some(was), rec);
    assert |s'.events| == |s.events| + 1 && s'.events[..|s.events|] == s.events;
    assert LogsIt(reg, r, call.now, Some(was), rec, s'.events[|s.events|]);
    hide Perform, Becomes, LogsIt, Leads, Changed, After;
    ChangedRow(s.rows, p, rec, id);
    ChangedRow(s.rows, p, rec, r.record);
  }

  // ---------------------------------------------------------------------------------------------
  // Listings
  // ---------------------------------------------------------------------------------------------

  /** The row has every field the filter gives. */
  ghost predicate Wanted(f: Filter, row: Row) {
    && (forall kind :: f.kind == Some(kind) ==> row.rec.kind == kind)
    && (forall state :: f.state == Some(state) ==> row.rec.state == state)
    && (forall parent :: f.parent == Some(parent) ==> row.rec.parent == Some(parent))
    && (forall author :: f.author == Some(author) ==> row.rec.author == author)
    && (forall k :: k in f.data.Keys ==> k in row.rec.data.Keys && row.rec.data[k] == Str(f.data[k]))
  }

  /**
   A page holds rows that are wanted and older than the cursor, newest first; if it is short of the limit
   all of them, and otherwise as many as the limit says with no wanted row in between left out; there is
   a next cursor exactly when some are left, and it is the number of the last row given out.
   */
  lemma PageExactly(rows: seq<Row>, f: Filter, cursor: Option<nat>, limit: nat)
    requires RowsInOrder(rows)
    ensures var page := PageOf(rows, f, cursor, limit);
            && |page.items| <= limit
            && (forall i, j :: 0 <= i < j < |page.items| ==> page.items[i].rowid > page.items[j].rowid)
            && (forall row :: row in page.items ==> row in rows && Wanted(f, row) && Under(cursor, row.rowid))
            && (forall row :: row in rows && Wanted(f, row) && Under(cursor, row.rowid) && row !in page.items ==>
                  page.next.Some? && |page.items| == limit
                  && forall given :: given in page.items ==> given.rowid > row.rowid)
            && (page.next.Some? ==>
                  && (limit > 0 ==> page.next == Some(page.items[limit - 1].rowid))
                  && (limit == 0 ==> NewestWanted(rows, f, cursor, page.next.value))
                  && exists row :: row in rows && Wanted(f, row) && Under(cursor, row.rowid) && row !in page.items)
  {
    var found, page := Below(rows, f, cursor), PageOf(rows, f, cursor, limit);
    BelowListsExactly(rows, f, cursor);
    forall row ensures Shows(f, cursor, row) <==> Wanted(f, row) && Under(cursor, row.rowid) { WantedExactly(f, row); }
    hide Below, Shows, Wanted, RowsInOrder, Under;
    Cut(found, limit, page);
    if |found| > limit { assert found[0] in found && forall row :: row in found ==> row.rowid <= found[0].rowid; }
  }

  /** A page cut off a falling listing. */
  lemma Cut(found: seq<Row>, limit: nat, page: Page)
    requires Falling(found) && page.items == (if |found| <= limit then found else found[..limit])
    ensures forall i, j :: 0 <= i < j < |page.items| ==> page.items[i].rowid > page.items[j].rowid
    ensures forall row :: row in page.items ==> row in found
    ensures forall row :: row in found && row !in page.items ==>
              |found| > limit && forall given :: given in page.items ==> given.rowid > row.rowid
    ensures |found| > limit ==> exists row :: row in found && row !in page.items
  {
    assert forall i :: 0 <= i < |page.items| ==> page.items[i] == found[i] && found[i] in page.items;
    forall row | row in found && row !in page.items
      ensures |found| > limit && forall given :: given in page.items ==> given.rowid > row.rowid
    {
      var k :| 0 <= k < |found| && found[k] == row;
    }
    if |found| > limit {
      assert found[limit] in found && found[limit] !in page.items;
    }
  }

  /** The number of the newest row that is wanted. */
  ghost predicate NewestWanted(rows: seq<Row>, f: Filter, cursor: Option<nat>, rowid: nat) {
    && (exists row :: row in rows && Wanted(f, row) && Under(cursor, row.rowid) && row.rowid == rowid)
    && forall row :: row in rows && Wanted(f, row) && Under(cursor, row.rowid) ==> row.rowid <= rowid
  }

  /** Older than the cursor; no cursor, or a zero one, leaves nothing out. */
  predicate Under(cursor: Option<nat>, rowid: nat) {
    match cursor case None => true case Some(c) => c == 0 || rowid < c
  }

  lemma WantedExactly(f: Filter, row: Row)
    ensures Matches(f, row) <==> Wanted(f, row)
  {
  }
}
