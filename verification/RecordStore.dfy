/**
 The record store of lingmemory/core.py with the event log of lingmemory/events.py plugged in:
 registry-checked transitions, grey-zone updates, and cursor pagination.
 */
module RecordStore {
  import opened Base

  type Id = string
  type State = string

  datatype Value = Str(s: string) | Flag(b: bool) | Num(r: real) | List(items: seq<string>)

  type Data = map<string, Value>

  datatype Record = Record(id: Id, kind: string, state: State, data: Data, parent: Option<Id>, author: string,
                           updated: int, confidence: real, bound: Option<Data>)

  datatype Row = Row(rowid: nat, rec: Record)

  datatype Event = Event(record: Id, event: string, from: Option<State>, to: State, actor: string, escalate: int,
                         at: int)

  /** The two tables; rows are kept in the order of their row numbers. */
  datatype Store = Store(rows: seq<Row>, events: seq<Event>)

  const Blank := Store([], [])

  // ---------------------------------------------------------------------------------------------
  // The registry
  // ---------------------------------------------------------------------------------------------

  datatype Rule = Rule(from: State, event: string, to: State)

  datatype Spec = Spec(initial: State, rules: seq<Rule>, accepts: Data -> bool)

  type Registry = map<string, Spec>

  predicate Fits(r: Rule, from: State, event: string) { (r.from == from || r.from == "*") && r.event == event }

  function FirstFit(rules: seq<Rule>, from: State, event: string): Option<State> {
    if rules == [] then None
    else if Fits(rules[0], from, event) then Some(rules[0].to)
    else FirstFit(rules[1..], from, event)
  }

  function Target(reg: Registry, kind: string, from: State, event: string): Option<State> {
    if kind in reg then FirstFit(reg[kind].rules, from, event) else None
  }

  /** The rule that applies is the first that fits, a wildcard counting like any other. */
  lemma {:induction false} FirstFitIsFirst(rules: seq<Rule>, from: State, event: string, to: State)
    ensures FirstFit(rules, from, event) == Some(to) <==>
              exists i :: 0 <= i < |rules| && Fits(rules[i], from, event) && rules[i].to == to &&
                          forall k :: 0 <= k < i ==> !Fits(rules[k], from, event)
  {
    if rules != [] && !Fits(rules[0], from, event) {
      FirstFitIsFirst(rules[1..], from, event, to);
      if FirstFit(rules, from, event) == Some(to) {
        var i :| 0 <= i < |rules[1..]| && Fits(rules[1..][i], from, event) && rules[1..][i].to == to &&
                 forall k :: 0 <= k < i ==> !Fits(rules[1..][k], from, event);
        assert rules[i + 1] == rules[1..][i];
        assert forall k :: 0 < k < i + 1 ==> rules[k] == rules[1..][k - 1];
      }
      if i :| 0 <= i < |rules| && Fits(rules[i], from, event) && rules[i].to == to &&
              forall k :: 0 <= k < i ==> !Fits(rules[k], from, event)
      {
        assert i > 0 && rules[1..][i - 1] == rules[i];
        assert forall k :: 0 <= k < i - 1 ==> rules[1..][k] == rules[k + 1];
      }
    }
  }

  // ---------------------------------------------------------------------------------------------
  // The operations
  // ---------------------------------------------------------------------------------------------

  datatype Refusal = UnknownType | InvalidData | NoSuchParent | IdTaken | NotFound | Illegal | OutOfRange

  function Position(rows: seq<Row>, id: Id): (r: Option<nat>)
    ensures r.Some? ==> r.value < |rows| && rows[r.value].rec.id == id
    ensures r.None? <==> forall i :: 0 <= i < |rows| ==> rows[i].rec.id != id
  {
    if rows == [] then None
    else if rows[|rows| - 1].rec.id == id then Some(|rows| - 1)
    else Position(rows[..|rows| - 1], id)
  }

  function NextRowid(rows: seq<Row>): nat { if rows == [] then 1 else rows[|rows| - 1].rowid + 1 }

  function Changed(rows: seq<Row>, i: nat, rec: Record): seq<Row>
    requires i < |rows|
  {
    rows[i := Row(rows[i].rowid, rec)]
  }

  datatype Request =
    | Create(kind: string, data: Data, parent: Option<Id>, author: string, id: Id)
    | Transition(record: Id, event: string, actor: string)
    | SetConfidence(record: Id, confidence: real, actor: string)
    | SetBound(record: Id, bound: Data, escalate: int, actor: string)

  function Perform(reg: Registry, s: Store, r: Request, now: int): Result<Store, Refusal> {
    match r
    case Create(kind, data, parent, author, id) =>
      if kind !in reg then Err(UnknownType)
      else if !reg[kind].accepts(data) then Err(InvalidData)
      else if Position(s.rows, id).Some? then Err(IdTaken)
      else if parent.Some? && Position(s.rows, parent.value).None? then Err(NoSuchParent)
      else
        var state := reg[kind].initial;
        var rec := Record(id, kind, state, data, parent, author, now, 1.0, None);
        Ok(Store(s.rows + [Row(NextRowid(s.rows), rec)], s.events + [Event(id, "create", None, state, author, 0, now)]))
    case Transition(id, event, actor) =>
      var p := Position(s.rows, id);
      if p.None? then Err(NotFound)
      else
        var rec := s.rows[p.value].rec;
        var to := Target(reg, rec.kind, rec.state, event);
        if to.None? then Err(Illegal)
        else Ok(Store(Changed(s.rows, p.value, rec.(state := to.value, updated := now)),
                      s.events + [Event(id, event, Some(rec.state), to.value, actor, 0, now)]))
    case SetConfidence(id, confidence, actor) =>
      var p := Position(s.rows, id);
      if !(0.0 <= confidence <= 1.0) then Err(OutOfRange)
      else if p.None? then Err(NotFound)
      else Ok(Store(Changed(s.rows, p.value, s.rows[p.value].rec.(confidence := confidence, updated := now)),
                    s.events + [Event(id, "confidence_change", None, "no_state_change", actor, 0, now)]))
    case SetBound(id, bound, escalate, actor) =>
      var p := Position(s.rows, id);
      if p.None? then Err(NotFound)
      else Ok(Store(Changed(s.rows, p.value, s.rows[p.value].rec.(bound := Some(bound), updated := now)),
                    s.events + [Event(id, "bound", None, "no_state_change", actor, escalate, now)]))
  }

  /** What a query asks for; a field that is not given asks for nothing. */
  datatype Filter = Filter(kind: Option<string>, state: Option<State>, parent: Option<Id>, author: Option<string>,
                           data: map<string, string>)

  predicate Matches(f: Filter, row: Row) {
    && (f.kind.Some? ==> row.rec.kind == f.kind.value)
    && (f.state.Some? ==> row.rec.state == f.state.value)
    && (f.parent.Some? ==> row.rec.parent == f.parent)
    && (f.author.Some? ==> row.rec.author == f.author.value)
    && forall k :: k in f.data ==> k in row.rec.data && row.rec.data[k] == Str(f.data[k])
  }

  /** The rows that match, newest first, below the cursor; a zero cursor counts as none. */
  function Below(rows: seq<Row>, filter: Filter, cursor: Option<nat>): seq<Row> {
    if rows == [] then []
    else
      var row, rest := rows[|rows| - 1], Below(rows[..|rows| - 1], filter, cursor);
      if Shows(filter, cursor, row) then [row] + rest else rest
  }

  predicate Shows(filter: Filter, cursor: Option<nat>, row: Row) {
    Matches(filter, row) && (cursor.None? || cursor.value == 0 || row.rowid < cursor.value)
  }

  lemma BelowUpTo(rows: seq<Row>, filter: Filter, cursor: Option<nat>, i: nat)
    requires 0 < i <= |rows|
    ensures Below(rows[..i], filter, cursor)
         == (if Shows(filter, cursor, rows[i - 1]) then [rows[i - 1]] else []) + Below(rows[..i - 1], filter, cursor)
  {
    assert rows[..i][..i - 1] == rows[..i - 1];
  }

  datatype Page = Page(items: seq<Row>, next: Option<nat>)

  /** Up to `limit` rows; with one more in hand the cursor is the last row given out. */
  function PageOf(rows: seq<Row>, filter: Filter, cursor: Option<nat>, limit: nat): Page {
    var found := Below(rows, filter, cursor);
    if |found| <= limit then Page(found, None)
    else Page(found[..limit], Some(found[if limit == 0 then 0 else limit - 1].rowid))
  }

  lemma PageFrom(rows: seq<Row>, filter: Filter, cursor: Option<nat>, limit: nat, found: seq<Row>, i: nat)
    requires i <= |rows| && Below(rows, filter, cursor) == found + Below(rows[..i], filter, cursor)
    requires |found| == limit + 1 || (|found| <= limit && i == 0)
    ensures PageOf(rows, filter, cursor, limit) ==
              if |found| <= limit then Page(found, None)
                else Page(found[..limit], Some(found[if limit == 0 then 0 else limit - 1].rowid))
  {
    if i == 0 {
      assert rows[..0] == [] && Below(rows[..i], filter, cursor) == [];
    } else {
      hide Below;
      assert (found + Below(rows[..i], filter, cursor))[..limit] == found[..limit];
    }
  }

  class LingMemory {
    const registry: Registry
    var rows: seq<Row>
    var events: seq<Event>

    constructor (reg: Registry)
      ensures registry == reg && State() == Blank
    {
      registry := reg;
      rows := [];
      events := [];
    }

    function State(): Store reads this { Store(rows, events) }

    method LogEvent(e: Event)
      modifies this`events
      ensures events == old(events) + [e]
    {
      events := events + [e];
    }

    method Create(kind: string, data: Data, parent: Option<Id>, author: string, id: Id,
                  now: int)
      returns (r: Result<Id, Refusal>)
      modifies this
      ensures var done := Perform(registry, old(State()), Request.Create(kind, data, parent, author, id), now);
              if done.Ok? then State() == done.value && r == Ok(id) else State() == old(State()) && r == Err(done.error)
    {
      if kind !in registry { return Err(UnknownType); }
      if !registry[kind].accepts(data) { return Err(InvalidData); }
      if Position(rows, id).Some? { return Err(IdTaken); }
      if parent.Some? && Position(rows, parent.value).None? { return Err(NoSuchParent); }
      var state := registry[kind].initial;
      rows := rows + [Row(NextRowid(rows), Record(id, kind, state, data, parent, author, now, 1.0, None))];
      LogEvent(Event(id, "create", None, state, author, 0, now));
      r := Ok(id);
    }

    /** The registry look-up, rule by rule. */
    method IsValidTransition(kind: string, from: string, event: string) returns (to: Option<string>)
      ensures to == Target(registry, kind, from, event)
    {
      if kind !in registry { return None; }
      var rules := registry[kind].rules;
      for i := 0 to |rules|
        invariant FirstFit(rules, from, event) == FirstFit(rules[i..], from, event)
      {
        if Fits(rules[i], from, event) { return Some(rules[i].to); }
        assert rules[i..][1..] == rules[i + 1..];
      }
      to := None;
    }

    method Transition(id: Id, event: string, actor: string, now: int) returns (r: Result<string, Refusal>)
      modifies this
      ensures var done := Perform(registry, old(State()), Request.Transition(id, event, actor), now);
              && State() == (if done.Ok? then done.value else old(State()))
              && (r.Err? <==> done.Err?) && (r.Err? ==> r.error == done.error)
              && (r.Ok? ==> done.value.events[|done.value.events| - 1].to == r.value)
    {
      var p := Position(rows, id);
      if p.None? { return Err(NotFound); }
      var rec := rows[p.value].rec;
      var to := IsValidTransition(rec.kind, rec.state, event);
      if to.None? { return Err(Illegal); }
      rows := Changed(rows, p.value, rec.(state := to.value, updated := now));
      LogEvent(Event(id, event, Some(rec.state), to.value, actor, 0, now));
      r := Ok(to.value);
    }

    /** On a missing record the event's foreign key fails and nothing is stored. */
    method SetConfidence(id: Id, confidence: real, actor: string, now: int) returns (refused: Option<Refusal>)
      modifies this
      ensures var done := Perform(registry, old(State()), Request.SetConfidence(id, confidence, actor), now);
              if done.Ok? then State() == done.value && refused == None
              else State() == old(State()) && refused == Some(done.error)
    {
      if !(0.0 <= confidence <= 1.0) { return Some(OutOfRange); }
      var p := Position(rows, id);
      if p.None? { return Some(NotFound); }
      rows := Changed(rows, p.value, rows[p.value].rec.(confidence := confidence, updated := now));
      LogEvent(Event(id, "confidence_change", None, "no_state_change", actor, 0, now));
      refused := None;
    }

    method SetBound(id: Id, bound: Data, escalate: int, actor: string, now: int) returns (refused: Option<Refusal>)
      modifies this
      ensures var done := Perform(registry, old(State()), Request.SetBound(id, bound, escalate, actor), now);
              if done.Ok? then State() == done.value && refused == None
              else State() == old(State()) && refused == Some(done.error)
    {
      var p := Position(rows, id);
      if p.None? { return Some(NotFound); }
      rows := Changed(rows, p.value, rows[p.value].rec.(bound := Some(bound), updated := now));
      LogEvent(Event(id, "bound", None, "no_state_change", actor, escalate, now));
      refused := None;
    }

    /** A scan from the newest row down that stops once one row more than the page holds is in hand. */
    method Query(filter: Filter, cursor: Option<nat>, limit: nat) returns (page: Page)
      ensures page == PageOf(rows, filter, cursor, limit)
    {
      var found: seq<Row> := [];
      var i := |rows|;
      ghost var all := Below(rows, filter, cursor);
      assert rows[..i] == rows;
      hide Below, Shows, PageOf;
      while i > 0 && |found| <= limit
        invariant 0 <= i <= |rows|
        invariant |found| <= limit + 1
        invariant all == found + Below(rows[..i], filter, cursor)
      {
        BelowUpTo(rows, filter, cursor, i);
        var row := rows[i - 1];
        ghost var rest := Below(rows[..i - 1], filter, cursor);
        if Shows(filter, cursor, row) {
          assert found + ([row] + rest) == (found + [row]) + rest;
          found := found + [row];
        } else {
          assert [] + rest == rest;
        }
        i := i - 1;
      }
      PageFrom(rows, filter, cursor, limit, found, i);
      page := if |found| <= limit then Page(found, None)
              else Page(found[..limit], Some(found[if limit == 0 then 0 else limit - 1].rowid));
    }
  }
}
