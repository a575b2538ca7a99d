/**
 What the six states allow: which single moves are accepted, how many moves lead from one state to
 another, and what every way back to `paired` goes through.
 */
module FederationMoves {
  import opened Base
  import opened Federation
  import opened FederationLaws

  predicate Accepted(members: seq<string>, s: Ledger, k: Key, to: State, at: int, note: string) {
    Transited(members, s, k, to, at, note).Ok?
  }

  /**
   Which changes of state are accepted: withdrawal from wherever a pair still stands, degradation from a
   live pair only, restoring a degraded one only, pairing a new or a restored one only, and nothing
   leads back to `proposing`.
   */
  lemma OneMoveExactly(members: seq<string>, s: Ledger, k: Key, to: State, at: int, note: string)
    requires k in s && s[k].state != to
    ensures Accepted(members, s, k, to, at, note) <==>
              match to
              case Dissolved => s[k].state.OneOfSix()
              case Drift => s[k].state.Live()
              case Broken => s[k].state.Live()
              case Restored => s[k].state == Drift || s[k].state == Broken
              case Paired => s[k].state == Proposing || s[k].state == Restored
              case Proposing => false
              case Outside(_) => false
    ensures Accepted(members, s, k, to, at, note) ==>
              var r := Transited(members, s, k, to, at, note).value;
              && k in r && r[k].state == to
              && r[k].history == s[k].history + [Change(s[k].state, to, at, note)]
              && r[k].manifest == s[k].manifest && r[k].counterpart == s[k].counterpart
              && r[k].trust == s[k].trust && r[k].plug == s[k].plug
  {
  }

  /** What a refusal says: first the state asked for, then the record, then the move. */
  lemma RefusedExactly(members: seq<string>, s: Ledger, k: Key, to: State, at: int, note: string)
    ensures var r := Transited(members, s, k, to, at, note);
            && (r == Err(NotOneOfSix) <==> to.Outside?)
            && (r == Err(NoSuchPair) <==> !to.Outside? && k !in s)
            && (r == Err(IllegalMove) <==>
                  !to.Outside? && k in s && s[k].state != to && !Accepted(members, s, k, to, at, note))
  {
  }

  /** A move to the state a record is in is accepted, and logged. */
  lemma StandingStill(members: seq<string>, s: Ledger, k: Key, at: int, note: string)
    requires k in s && s[k].state.OneOfSix()
    ensures Accepted(members, s, k, s[k].state, at, note)
    ensures Transited(members, s, k, s[k].state, at, note).value[k].state == s[k].state
  {
  }

  // ---------------------------------------------------------------------------------------------
  // How many moves it takes
  // ---------------------------------------------------------------------------------------------

  datatype Turn = Turn(to: State, at: int, note: string)

  /** The ledger after moves of one record, if all of them are accepted. */
  function Led(members: seq<string>, s: Ledger, k: Key, moves: seq<Turn>): Option<Ledger> {
    if moves == [] then Some(s)
    else
      var m := moves[0];
      match Transited(members, s, k, m.to, m.at, m.note)
      case Err(_) => None
      case Ok(s') => Led(members, s', k, moves[1..])
  }

  predicate LeadsTo(members: seq<string>, s: Ledger, k: Key, moves: seq<Turn>, to: State) {
    var r := Led(members, s, k, moves);
    r.Some? && k in r.value && r.value[k].state == to
  }

  /** The least number of moves between two states; a degraded pair is paired again by way of `restored`. */
  function Least(from: State, to: State): Option<nat> {
    if from == to then Some(0)
    else if from == Dissolved || !from.OneOfSix() || to == Proposing || !to.OneOfSix() then None
    else if to == Dissolved then Some(1)
    else
      match from
      case Proposing => Some(if to == Paired then 1 else if to == Restored then 3 else 2)
      case Paired => Some(if to == Restored then 2 else 1)
      case Restored => Some(1)
      case _ => Some(if to == Restored then 1 else 2)
  }

  predicate EnoughMoves(from: State, to: State, n: nat) { Least(from, to).Some? && Least(from, to).value <= n }

  /** A record comes from one state to another by `n` moves exactly when that is at least the least number. */
  lemma MovesNeededExactly(members: seq<string>, s: Ledger, k: Key, to: State, n: nat)
    requires k in s && s[k].state.OneOfSix()
    ensures (exists moves :: |moves| == n && LeadsTo(members, s, k, moves, to)) <==> EnoughMoves(s[k].state, to, n)
  {
    if moves :| |moves| == n && LeadsTo(members, s, k, moves, to) { NeverFewer(members, s, k, moves, to); }
    if EnoughMoves(s[k].state, to, n) { var moves := SomeWay(members, s, k, to, n); }
  }

  lemma {:induction false} NeverFewer(members: seq<string>, s: Ledger, k: Key, moves: seq<Turn>, to: State)
    requires k in s && s[k].state.OneOfSix() && LeadsTo(members, s, k, moves, to)
    ensures EnoughMoves(s[k].state, to, |moves|)
  {
    if moves != [] {
      var m := moves[0];
      var s' := Transited(members, s, k, m.to, m.at, m.note).value;
      if s[k].state == m.to {
        StandingStill(members, s, k, m.at, m.note);
      } else {
        OneMoveExactly(members, s, k, m.to, m.at, m.note);
      }
      hide Transited;
      NeverFewer(members, s', k, moves[1..], to);
    }
  }

  /** The first step of a shortest way. */
  function Next(from: State, to: State): State {
    if from == to || to == Dissolved then to
    else
      match from
      case Proposing => Paired
      case Paired => if to == Restored then Drift else to
      case Restored => to
      case _ => Restored
  }

  lemma {:induction false} SomeWay(members: seq<string>, s: Ledger, k: Key, to: State, n: nat)
    returns (moves: seq<Turn>)
    requires k in s && s[k].state.OneOfSix() && EnoughMoves(s[k].state, to, n)
    ensures |moves| == n && LeadsTo(members, s, k, moves, to)
  {
    moves := [];
    if n > 0 {
      var next := Next(s[k].state, to);
      if next == s[k].state {
        StandingStill(members, s, k, 0, "");
      } else {
        OneMoveExactly(members, s, k, next, 0, "");
      }
      var s' := Transited(members, s, k, next, 0, "").value;
      hide Transited;
      var rest := SomeWay(members, s', k, to, n - 1);
      moves := [Turn(next, 0, "")] + rest;
      assert moves[1..] == rest;
    }
  }

  // ---------------------------------------------------------------------------------------------
  // Over whole runs
  // ---------------------------------------------------------------------------------------------

  predicate Fallen(state: State) { state == Drift || state == Broken }

  /** What one operation may do to a record's state; a partner is dissolved from any state. */
  predicate StepsTo(from: State, to: State) { from == to || to == Dissolved || Least(from, to) == Some(1) }

  lemma TransitionSteps(members: seq<string>, s: Ledger, j: Key, to: State, at: int, note: string, k: Key)
    requires k in s && Accepted(members, s, j, to, at, note)
    ensures var r := Transited(members, s, j, to, at, note).value; k in r && StepsTo(s[k].state, r[k].state)
  {
    if j == k && s[k].state != to { OneMoveExactly(members, s, k, to, at, note); }
  }

  lemma {:induction false} DegradingSteps(members: seq<string>, s: Ledger, entries: seq<Entry>, at: int, k: Key)
    requires k in s
    ensures var r := Degraded(members, s, entries, at);
            k in r && (r[k].state == s[k].state || (s[k].state.Live() && r[k].state == Drift))
  {
    if entries != [] {
      var init, e := entries[..|entries| - 1], entries[|entries| - 1];
      DegradingSteps(members, s, init, at, k);
      var d := Degraded(members, s, init, at);
      if MustDegrade(e) && Accepted(members, d, e.key, Drift, at, DegradeNote(e.alert)) && e.key == k
        && d[k].state != Drift {
        OneMoveExactly(members, d, k, Drift, at, DegradeNote(e.alert));
      }
    }
  }

  /** Moves and audits, with or without repair, on whatever records: no state changes but as one move allows. */
  lemma OperationSteps(members: seq<string>, s: Ledger, op: Op, k: Key)
    requires k in s
    ensures var r := Done(members, s, op); k in r && StepsTo(s[k].state, r[k].state)
  {
    match op
    case Move(j, to, at, note) =>
      if Accepted(members, s, j, to, at, note) { TransitionSteps(members, s, j, to, at, note, k); }
    case Check(drifted, fix, order, at) =>
      var a := Scanned(members, drifted, s, fix, order);
      ScanReadsTruly(members, drifted, s, fix, order);
      DegradingSteps(members, a.pairs, a.report.entries, at, k);
  }

  /** The state of a record after the first `i` operations. */
  function StateAt(members: seq<string>, s: Ledger, ops: seq<Op>, i: nat, k: Key): State
    requires i <= |ops|
  {
    var r := Run(members, s, ops[..i]);
    if k in r then r[k].state else Outside("")
  }

  lemma {:induction false} RecordsStay(members: seq<string>, s: Ledger, ops: seq<Op>, i: nat, k: Key)
    requires k in s && i <= |ops|
    ensures k in Run(members, s, ops[..i])
  {
    if i > 0 {
      RecordsStay(members, s, ops, i - 1, k);
      assert ops[..i][..i - 1] == ops[..i - 1];
      OperationSteps(members, Run(members, s, ops[..i - 1]), ops[i - 1], k);
    }
  }

  lemma StatesStep(members: seq<string>, s: Ledger, ops: seq<Op>, i: nat, k: Key)
    requires k in s && i < |ops|
    ensures StepsTo(StateAt(members, s, ops, i, k), StateAt(members, s, ops, i + 1, k))
  {
    RecordsStay(members, s, ops, i, k);
    assert ops[..i + 1][..i] == ops[..i];
    OperationSteps(members, Run(members, s, ops[..i]), ops[i], k);
  }

  /**
   Over any run: once a record has drifted or broken, it is paired again only after it was restored in
   between.
   */
  lemma {:induction false} BackOnlyThroughRestored(members: seq<string>, s: Ledger, ops: seq<Op>, i: nat, j: nat,
                                                   k: Key)
    requires k in s && i <= j <= |ops| && Fallen(StateAt(members, s, ops, i, k))
    ensures StateAt(members, s, ops, j, k) == Paired ==>
              exists l :: i < l < j && StateAt(members, s, ops, l, k) == Restored
    ensures Fallen(StateAt(members, s, ops, j, k)) || StateAt(members, s, ops, j, k) == Dissolved
            || exists l :: i < l <= j && StateAt(members, s, ops, l, k) == Restored
    decreases j
  {
    if i < j {
      BackOnlyThroughRestored(members, s, ops, i, j - 1, k);
      StatesStep(members, s, ops, j - 1, k);
      hide StateAt;
      if l :| i < l <= j - 1 && StateAt(members, s, ops, l, k) == Restored {
        assert i < l <= j && StateAt(members, s, ops, l, k) == Restored;
      }
    }
  }

  /** And over any run nothing comes back to `proposing`. */
  lemma {:induction false} NeverProposingAgain(members: seq<string>, s: Ledger, ops: seq<Op>, k: Key)
    requires k in s && s[k].state != Proposing
    ensures k in Run(members, s, ops) && Run(members, s, ops)[k].state != Proposing
  {
    if ops != [] {
      NeverProposingAgain(members, s, ops[..|ops| - 1], k);
      OperationSteps(members, Run(members, s, ops[..|ops| - 1]), ops[|ops| - 1], k);
    }
  }
}
