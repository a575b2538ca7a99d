/**
 Races of the review protocol, over every run: finalising a marker raises exactly when another
 process unlinks it between the check and the unlink of this one, and a gate that looks at results
 and markers at two moments loses a commit exactly when its review finishes in between.
 */
module ReviewRaces {
  import opened Base
  import opened ReviewProtocol
  import opened ReviewLaws

  /** The world before step `k` of a run. */
  function At(ops: seq<Op>, k: nat): World
    requires k <= |ops|
  {
    Run(Start, ops[..k])
  }

  /** Process `pid` is finalising marker `n` and stands at `phase`. */
  predicate Finalises(w: World, pid: nat, n: Name, phase: Phase) {
    pid in w.procs && JobOf(w.procs[pid]).Some? && JobOf(w.procs[pid]).value.name == n
      && JobOf(w.procs[pid]).value.phase == phase
  }

  /** This step looks for marker `n` and finds it. */
  predicate Checks(w: World, op: Op, n: Name) {
    op.Advance? && Finalises(w, op.pid, n, ToCheck) && n in w.files.markers
  }

  /** This step unlinks marker `n`. */
  predicate Unlinks(w: World, op: Op, n: Name) {
    op.Advance? && Finalises(w, op.pid, n, ToUnlink) && n in w.files.markers
  }

  /** This step is an unlink that finds no marker. */
  predicate Raises(w: World, op: Op) {
    op.Advance? && op.pid in w.procs && JobOf(w.procs[op.pid]).Some?
    && Advanced(w.files, w.now, JobOf(w.procs[op.pid]).value).1 == Raised
  }

  predicate Moves(op: Op, pid: nat) { op == Advance(pid) || op == Kill(pid) }

  predicate Plants(op: Op, n: Name) { op.Plant? && op.name == n }

  /**
   The process of step `k` found marker `n` at step `i` and has not moved since; at step `u` in
   between another process unlinked it, and it was not planted again.
   */
  ghost predicate Beaten(ops: seq<Op>, k: nat, n: Name, i: nat, u: nat)
    requires k < |ops|
  {
    && i < u < k && ops[k].Advance? && ops[i] == ops[k]
    && Checks(At(ops, i), ops[i], n)
    && ops[u].Advance? && ops[u].pid != ops[k].pid && Unlinks(At(ops, u), ops[u], n)
    && (forall m :: i < m < k ==> !Moves(ops[m], ops[k].pid))
    && (forall m :: u < m < k ==> !Plants(ops[m], n))
  }

  // ---------------------------------------------------------------------------------------------
  // One step
  // ---------------------------------------------------------------------------------------------

  lemma AtNext(ops: seq<Op>, k: nat)
    requires k < |ops|
    ensures At(ops, k + 1) == Step(At(ops, k), ops[k])
  {
    assert ops[..k + 1][..k] == ops[..k];
  }

  /** A marker comes by planting and goes by unlinking, and in no other way. */
  lemma MarkerComesAndGoes(w: World, op: Op, n: Name)
    ensures n in w.files.markers ==> (n in Step(w, op).files.markers <==> !Unlinks(w, op, n))
    ensures n !in w.files.markers ==> (n in Step(w, op).files.markers <==> Plants(op, n))
  {
    if op.Advance? {
      if op.pid in w.procs && JobOf(w.procs[op.pid]).Some? {
        AdvanceEffect(w.files, w.now, JobOf(w.procs[op.pid]).value);
      }
    } else {
      OtherSteps(w, op);
    }
  }

  /** A process in the middle of finalising is moved by its own steps and by being killed only. */
  lemma NobodyElseMoves(w: World, op: Op, pid: nat, n: Name, phase: Phase)
    requires Finalises(w, pid, n, phase) && !Moves(op, pid)
    ensures Finalises(Step(w, op), pid, n, phase)
  {
  }

  /** A process comes to its unlink by a check that found the marker, or it stood there before. */
  lemma ComesToUnlink(w: World, op: Op, pid: nat, n: Name)
    requires Finalises(Step(w, op), pid, n, ToUnlink)
    ensures (Finalises(w, pid, n, ToUnlink) && !Moves(op, pid)) || (op == Advance(pid) && Checks(w, op, n))
  {
  }

  lemma ChecksStandAtUnlink(w: World, op: Op, n: Name)
    requires Checks(w, op, n)
    ensures Finalises(Step(w, op), op.pid, n, ToUnlink) && n in Step(w, op).files.markers
  {
  }

  lemma RaisesWhen(w: World, op: Op)
    ensures Raises(w, op) <==> op.Advance? && exists n :: Finalises(w, op.pid, n, ToUnlink) && n !in w.files.markers
  {
    if Raises(w, op) { assert Finalises(w, op.pid, JobOf(w.procs[op.pid]).value.name, ToUnlink); }
  }

  // ---------------------------------------------------------------------------------------------
  // Along a run
  // ---------------------------------------------------------------------------------------------

  /** The check a process at its unlink comes from. */
  lemma {:induction false} LastCheck(ops: seq<Op>, k: nat, pid: nat, n: Name) returns (i: nat)
    requires k <= |ops| && Finalises(At(ops, k), pid, n, ToUnlink)
    ensures i < k && ops[i] == Advance(pid) && Checks(At(ops, i), ops[i], n)
    ensures forall m :: i < m < k ==> !Moves(ops[m], pid)
  {
    hide Step, Run, Checks, Finalises;
    NothingAtStart(pid, n);
    assert k > 0;
    AtNext(ops, k - 1);
    ComesToUnlink(At(ops, k - 1), ops[k - 1], pid, n);
    if ops[k - 1] == Advance(pid) {
      i := k - 1;
    } else {
      i := LastCheck(ops, k - 1, pid, n);
    }
  }

  lemma NothingAtStart(pid: nat, n: Name)
    ensures forall ops :: !Finalises(At(ops, 0), pid, n, ToUnlink)
  {
  }

  /** A marker that was there and is gone was unlinked, and not planted since. */
  lemma {:induction false} LastUnlink(ops: seq<Op>, i: nat, k: nat, n: Name) returns (u: nat)
    requires i <= k <= |ops| && n in At(ops, i).files.markers && n !in At(ops, k).files.markers
    ensures i <= u < k && Unlinks(At(ops, u), ops[u], n)
    ensures forall m :: u < m < k ==> !Plants(ops[m], n)
  {
    hide Step, Run, Unlinks;
    AtNext(ops, k - 1);
    MarkerComesAndGoes(At(ops, k - 1), ops[k - 1], n);
    if n in At(ops, k - 1).files.markers {
      u := k - 1;
    } else {
      u := LastUnlink(ops, i, k - 1, n);
    }
  }

  lemma {:induction false} StaysAtUnlink(ops: seq<Op>, i: nat, k: nat, pid: nat, n: Name)
    requires i <= k <= |ops| && Finalises(At(ops, i), pid, n, ToUnlink)
    requires forall m :: i <= m < k ==> !Moves(ops[m], pid)
    ensures Finalises(At(ops, k), pid, n, ToUnlink)
  {
    hide Step, Run, Finalises, Moves;
    if i < k {
      StaysAtUnlink(ops, i, k - 1, pid, n);
      AtNext(ops, k - 1);
      NobodyElseMoves(At(ops, k - 1), ops[k - 1], pid, n, ToUnlink);
    }
  }

  lemma {:induction false} StaysGone(ops: seq<Op>, u: nat, k: nat, n: Name)
    requires u <= k <= |ops| && n !in At(ops, u).files.markers && forall m :: u <= m < k ==> !Plants(ops[m], n)
    ensures n !in At(ops, k).files.markers
  {
    hide Step, Run, Plants, Unlinks;
    if u < k {
      StaysGone(ops, u, k - 1, n);
      AtNext(ops, k - 1);
      MarkerComesAndGoes(At(ops, k - 1), ops[k - 1], n);
    }
  }

  /** While it waits to unlink, the beaten process still holds the marker that the other one unlinks. */
  lemma BothHold(ops: seq<Op>, k: nat, n: Name, i: nat, u: nat)
    requires k < |ops| && Beaten(ops, k, n, i, u)
    ensures Finalises(At(ops, u), ops[k].pid, n, ToUnlink) && Finalises(At(ops, u), ops[u].pid, n, ToUnlink)
    ensures ops[u].pid != ops[k].pid && Finalises(At(ops, k), ops[k].pid, n, ToUnlink)
  {
    AtNext(ops, i);
    ChecksStandAtUnlink(At(ops, i), ops[i], n);
    hide Step, Run, Finalises;
    StaysAtUnlink(ops, i + 1, u, ops[k].pid, n);
    StaysAtUnlink(ops, i + 1, k, ops[k].pid, n);
  }

  lemma BeatenRaises(ops: seq<Op>, k: nat, n: Name, i: nat, u: nat)
    requires k < |ops| && Beaten(ops, k, n, i, u)
    ensures Raises(At(ops, k), ops[k])
  {
    BothHold(ops, k, n, i, u);
    AtNext(ops, u);
    MarkerComesAndGoes(At(ops, u), ops[u], n);
    hide Step, Run, Finalises, Raises;
    StaysGone(ops, u + 1, k, n);
    RaisesWhen(At(ops, k), ops[k]);
  }

  lemma RaisedWasBeaten(ops: seq<Op>, k: nat) returns (n: Name, i: nat, u: nat)
    requires k < |ops| && Raises(At(ops, k), ops[k])
    ensures Beaten(ops, k, n, i, u)
  {
    RaisesWhen(At(ops, k), ops[k]);
    var pid := ops[k].pid;
    n :| Finalises(At(ops, k), pid, n, ToUnlink) && n !in At(ops, k).files.markers;
    i := LastCheck(ops, k, pid, n);
    AtNext(ops, i);
    ChecksStandAtUnlink(At(ops, i), ops[i], n);
    hide Step, Run, Finalises, Raises, Checks, Unlinks;
    u := LastUnlink(ops, i + 1, k, n);
  }

  /**
   In every run and for every step: the step raises exactly when, since the check that found the
   marker, another process has unlinked it and nobody has planted it again.  By then the commit
   has a result file, and the process that raised is gone.
   */
  lemma RaisesExactlyWhenBeaten(ops: seq<Op>, k: nat)
    requires k < |ops|
    ensures Raises(At(ops, k), ops[k]) <==> WasBeaten(ops, k)
    ensures Raises(At(ops, k), ops[k]) ==> LeavesResult(At(ops, k), ops[k].pid) && ops[k].pid !in At(ops, k + 1).procs
  {
    if Raises(At(ops, k), ops[k]) {
      var n, i, u := RaisedWasBeaten(ops, k);
      BothHold(ops, k, n, i, u);
      AtNext(ops, k);
      StartIsFine();
      RunKeeps(Start, ops[..k]);
      assert JobSound(At(ops, k), JobOf(At(ops, k).procs[ops[k].pid]).value);
    } else if WasBeaten(ops, k) {
      var n, i, u :| Beaten(ops, k, n, i, u);
      BeatenRaises(ops, k, n, i, u);
    }
  }

  /** The process of step `k` was beaten to its marker by another one. */
  ghost predicate WasBeaten(ops: seq<Op>, k: nat)
    requires k < |ops|
  {
    exists n, i, u :: Beaten(ops, k, n, i, u)
  }

  /** The commit a process is finalising has a result file. */
  predicate LeavesResult(w: World, pid: nat) {
    pid in w.procs && JobOf(w.procs[pid]).Some? && ShelfOf(w.files, JobOf(w.procs[pid]).value.name.commit) != map[]
  }

  // ---------------------------------------------------------------------------------------------
  // Who may share a marker
  // ---------------------------------------------------------------------------------------------

  predicate Holds(w: World, pid: nat, n: Name) {
    pid in w.procs && JobOf(w.procs[pid]).Some? && JobOf(w.procs[pid]).value.name == n
  }

  /** No two processes finalise the same marker at this moment. */
  ghost predicate NoneShared(w: World) { forall p, q, n :: Holds(w, p, n) && Holds(w, q, n) ==> p == q }

  /** If no two processes ever finalise the same marker at the same time, nothing ever raises. */
  lemma UnsharedNeverRaises(ops: seq<Op>, k: nat)
    requires k < |ops| && forall m :: 0 <= m <= k ==> NoneShared(At(ops, m))
    ensures !Raises(At(ops, k), ops[k])
  {
    if Raises(At(ops, k), ops[k]) {
      var n, i, u := RaisedWasBeaten(ops, k);
      BothHold(ops, k, n, i, u);
      assert Holds(At(ops, u), ops[k].pid, n) && Holds(At(ops, u), ops[u].pid, n);
      assert false;
    }
  }

  lemma {:induction false} OnlyWatchers(ops: seq<Op>)
    requires forall op :: op in ops ==> !op.StartSweep?
    ensures forall pid :: pid in Run(Start, ops).procs ==> !Run(Start, ops).procs[pid].Sweeping?
  {
    if ops != [] { OnlyWatchers(ops[..|ops| - 1]); }
  }

  /** Watchers alone share no marker, thanks to the claim; so without sweeps nothing ever raises. */
  lemma WatchersNeverRaise(ops: seq<Op>, k: nat)
    requires k < |ops| && forall op :: op in ops ==> !op.StartSweep?
    ensures !Raises(At(ops, k), ops[k])
  {
    forall m | 0 <= m <= k ensures NoneShared(At(ops, m)) {
      OnlyWatchers(ops[..m]);
      StartIsFine();
      RunKeeps(Start, ops[..m]);
      ClaimedOnceUnshared(At(ops, m));
    }
    UnsharedNeverRaises(ops, k);
  }

  lemma ClaimedOnceUnshared(w: World)
    requires ClaimsHeldOnce(w) && forall pid :: pid in w.procs ==> !w.procs[pid].Sweeping?
    ensures NoneShared(w)
  {
    forall p, q, n | Holds(w, p, n) && Holds(w, q, n) ensures p == q {
      assert Watched(w.procs[p]) == Some(n) && Watched(w.procs[q]) == Some(n);
    }
  }

  // ---------------------------------------------------------------------------------------------
  // Two looks instead of one
  // ---------------------------------------------------------------------------------------------

  /** The gate looks at the result files first and at the markers later. */
  function TwoLooks(first: Files, second: Files, c: Commit): Evidence {
    var newest := Newest(first, c);
    if newest.Some? then FromResult(newest.value, c in first.acks)
    else if HasMarker(second, c) then Inflight
    else NoEvidence
  }

  /**
   Between the two looks, with no result at the first one, the commit's result was written and its
   last marker unlinked.
   */
  ghost predicate FinishedBetween(ops: seq<Op>, more: seq<Op>, c: Commit) {
    var f1, f2 := Run(Start, ops).files, Run(Start, ops + more).files;
    && HasMarker(f1, c) && Newest(f1, c) == None && !HasMarker(f2, c) && Newest(f2, c).Some?
    && exists n, u :: UnlinkedAt(ops + more, |ops|, u, n) && n.commit == c
  }

  ghost predicate UnlinkedAt(ops: seq<Op>, from: nat, u: nat, n: Name) {
    from <= u < |ops| && Unlinks(At(ops, u), ops[u], n)
  }

  /**
   Reading in two looks loses a planted commit exactly when its newest file was torn at the first
   look, or when the review finished in between.
   */
  lemma TwoLooksLoseExactly(ops: seq<Op>, more: seq<Op>, c: Commit)
    requires c in Run(Start, ops).planted
    ensures var f1, f2 := Run(Start, ops).files, Run(Start, ops + more).files;
            TwoLooks(f1, f2, c) == NoEvidence <==> Newest(f1, c) == Some(Torn) || FinishedBetween(ops, more, c)
  {
    var f1, f2 := Run(Start, ops).files, Run(Start, ops + more).files;
    BothWitnessed(ops, more, c);
    hide Run;
    if Newest(f1, c) == None && !HasMarker(f2, c) { GoneBetween(ops, more, c); }
  }

  lemma BothWitnessed(ops: seq<Op>, more: seq<Op>, c: Commit)
    requires c in Run(Start, ops).planted
    ensures Witnessed(Run(Start, ops).files, c) && Witnessed(Run(Start, ops + more).files, c)
  {
    StartIsFine();
    hide Run;
    RunKeeps(Start, ops);
    RunKeeps(Start, ops + more);
    RunAppend(Start, ops, more);
    PlantedGrows(Run(Start, ops), more);
  }

  lemma GoneBetween(ops: seq<Op>, more: seq<Op>, c: Commit)
    requires HasMarker(Run(Start, ops).files, c) && !HasMarker(Run(Start, ops + more).files, c)
    ensures exists n, u :: UnlinkedAt(ops + more, |ops|, u, n) && n.commit == c
  {
    var all := ops + more;
    hide Run;
    assert all[..|ops|] == ops && all[..|all|] == all;
    var n :| n in Run(Start, ops).files.markers && n.commit == c;
    var u := LastUnlink(all, |ops|, |all|, n);
    assert UnlinkedAt(all, |ops|, u, n);
  }

  /** A watcher claims the freshly planted marker `n`, and its suite comes back with `rc`. */
  lemma FailedSuite(n: Name) returns (w0: World, ws: seq<World>)
    ensures w0 == Step(Start, Plant(n, Marker(0, 1800)))
    ensures |ws| == 3 && ws[0] == Step(w0, Claim(0, n)) && ws[1] == Step(ws[0], Read(0))
    ensures ws[2] == Step(ws[1], TestsDone(0, Some(1)))
    ensures w0.files == Files(map[n := Marker(0, 1800)], {}, map[], {})
    ensures JobAt(ws[2], 0, Job(n, Fail, ToOpen)) && ws[2].now == 0
    ensures ws[2].files.markers == map[n := Marker(0, 1800)] && ws[2].files.results == map[] && ws[2].files.acks == {}
  {
    w0 := Step(Start, Plant(n, Marker(0, 1800)));
    var w1 := Step(w0, Claim(0, n));
    var w2 := Step(w1, Read(0));
    ws := [w1, w2, Step(w2, TestsDone(0, Some(1)))];
  }

  /** The four steps that finalise a failure. */
  lemma FailureIsWritten(w: World, n: Name) returns (ws: seq<World>)
    requires JobAt(w, 0, Job(n, Fail, ToOpen)) && w.now == 0
    requires w.files.markers.Keys == {n} && w.files.results == map[] && w.files.acks == {}
    ensures |ws| == 4 && ws[0] == Step(w, Advance(0)) && ws[1] == Step(ws[0], Advance(0))
    ensures ws[2] == Step(ws[1], Advance(0)) && ws[3] == Step(ws[2], Advance(0))
    ensures EvidenceOf(ws[3].files, n.commit) == FailUnacked && ws[3].files.markers.Keys == {}
  {
    hide Step, JobAt, EvidenceOf, Newest;
    var c := n.commit;
    var w4 := JobMoves(w, 0, Job(n, Fail, ToOpen));
    var w5 := JobMoves(w4, 0, Job(n, Fail, Filling(0)));
    var w6 := JobMoves(w5, 0, Job(n, Fail, ToCheck));
    var w7 := JobUnlinks(w6, 0, Job(n, Fail, ToUnlink));
    ws := [w4, w5, w6, w7];
    assert ShelfOf(w7.files, c).Keys == {0} && ShelfOf(w7.files, c)[0] == Whole(Fail);
    OneFailure(w7.files, c, 0);
  }

  lemma OneFailure(f: Files, c: Commit, s: int)
    requires ShelfOf(f, c).Keys == {s} && ShelfOf(f, c)[s] == Whole(Fail) && c !in f.acks
    ensures EvidenceOf(f, c) == FailUnacked
  {
  }

  /** Such a run: a failed review finishes between the two looks, and the gate lets the commit pass. */
  lemma GateCanMissAFailure()
    ensures var n := Name("abc1234", 0);
            var ops := [Plant(n, Marker(0, 1800))];
            var more := [Claim(0, n), Read(0), TestsDone(0, Some(1)), Advance(0), Advance(0), Advance(0), Advance(0)];
            var f1, f2 := Run(Start, ops).files, Run(Start, ops + more).files;
            Decide(TwoLooks(f1, f2, n.commit)) && EvidenceOf(f2, n.commit) == FailUnacked
  {
    hide Step, JobAt, EvidenceOf, ShelfOf;
    var n := Name("abc1234", 0);
    var ops := [Plant(n, Marker(0, 1800))];
    var more := [Claim(0, n), Read(0), TestsDone(0, Some(1)), Advance(0), Advance(0), Advance(0), Advance(0)];
    var w0, early := FailedSuite(n);
    var late := FailureIsWritten(early[2], n);
    RunSteps(Start, ops, [w0]);
    RunSteps(w0, more, early + late);
    RunAppend(Start, ops, more);
    MissedByTwoLooks(w0.files, late[3].files, n.commit);
  }

  lemma MissedByTwoLooks(first: Files, second: Files, c: Commit)
    requires first.results == map[] && second.markers == map[]
    ensures TwoLooks(first, second, c) == NoEvidence
  {
  }

  predicate JobAt(w: World, pid: nat, j: Job) { pid in w.procs && JobOf(w.procs[pid]) == Some(j) }

  function NextPhase(phase: Phase, now: int): Phase {
    match phase
    case ToOpen => Filling(now)
    case Filling(_) => ToCheck
    case ToCheck => ToUnlink
    case ToUnlink => ToUnlink
  }

  /** One advance of a job whose marker is in place. */
  lemma JobMoves(w: World, pid: nat, j: Job) returns (w': World)
    requires JobAt(w, pid, j) && j.name in w.files.markers && !j.phase.ToUnlink?
    ensures w' == Step(w, Advance(pid))
    ensures JobAt(w', pid, j.(phase := NextPhase(j.phase, w.now)))
    ensures w'.now == w.now && w'.files.markers == w.files.markers && w'.files.acks == w.files.acks
    ensures forall q, k :: q != pid && JobAt(w, q, k) ==> JobAt(w', q, k)
    ensures var c := j.name.commit;
            ShelfOf(w'.files, c) ==
              match j.phase
              case ToOpen => ShelfOf(w.files, c)[w.now := Torn]
              case Filling(s) => ShelfOf(w.files, c)[s := Whole(j.status)]
              case _ => ShelfOf(w.files, c)
  {
    w' := Step(w, Advance(pid));
  }

  lemma JobUnlinks(w: World, pid: nat, j: Job) returns (w': World)
    requires JobAt(w, pid, j) && j.name in w.files.markers && j.phase.ToUnlink?
    ensures w' == Step(w, Advance(pid))
    ensures w'.files == w.files.(markers := w.files.markers - {j.name})
    ensures forall q, k :: q != pid && JobAt(w, q, k) ==> JobAt(w', q, k)
  {
    w' := Step(w, Advance(pid));
  }

  /** `ws` are the worlds a run goes through. */
  lemma {:induction false} RunSteps(w: World, ops: seq<Op>, ws: seq<World>)
    requires |ws| == |ops| > 0
    requires ws[0] == Step(w, ops[0]) && forall i :: 0 < i < |ops| ==> ws[i] == Step(ws[i - 1], ops[i])
    ensures Run(w, ops) == ws[|ws| - 1]
  {
    if |ops| > 1 {
      RunSteps(w, ops[..|ops| - 1], ws[..|ws| - 1]);
    } else {
      assert ops[..0] == [];
    }
  }

  // ---------------------------------------------------------------------------------------------
  // Two sweeps can raise
  // ---------------------------------------------------------------------------------------------

  lemma TwoSweepsStart(n: Name) returns (ws: seq<World>)
    ensures |ws| == 3 && ws[0] == Step(Start, Plant(n, Marker(0, 0)))
    ensures ws[1] == Step(ws[0], StartSweep(0, 0, None)) && ws[2] == Step(ws[1], StartSweep(1, 0, None))
    ensures n in ws[2].files.markers && ws[2].files.markers[n].ts == 0 && ws[2].now == 0
    ensures Waiting(ws[2], 0, n) && Waiting(ws[2], 1, n)
  {
    var w0 := Step(Start, Plant(n, Marker(0, 0)));
    var w1 := Step(w0, StartSweep(0, 0, None));
    ws := [w0, w1, Step(w1, StartSweep(1, 0, None))];
  }

  lemma BothReachUnlink(w: World, n: Name) returns (ws: seq<World>)
    requires JobAt(w, 0, Job(n, Fail, ToOpen)) && JobAt(w, 1, Job(n, Fail, ToOpen)) && n in w.files.markers
    requires w.now == 0
    ensures |ws| == 7 && ws[0] == Step(w, Advance(0)) && ws[1] == Step(ws[0], Advance(0))
    ensures ws[2] == Step(ws[1], Advance(0))
    ensures ws[3] == Step(ws[2], Advance(1)) && ws[4] == Step(ws[3], Advance(1)) && ws[5] == Step(ws[4], Advance(1))
    ensures ws[6] == Step(ws[5], Advance(0)) && JobAt(ws[6], 1, Job(n, Fail, ToUnlink)) && n !in ws[6].files.markers
  {
    hide Step, JobAt, ShelfOf;
    var w5 := JobMoves(w, 0, Job(n, Fail, ToOpen));
    var w6 := JobMoves(w5, 0, Job(n, Fail, Filling(0)));
    var w7 := JobMoves(w6, 0, Job(n, Fail, ToCheck));
    var w8 := JobMoves(w7, 1, Job(n, Fail, ToOpen));
    var w9 := JobMoves(w8, 1, Job(n, Fail, Filling(0)));
    var w10 := JobMoves(w9, 1, Job(n, Fail, ToCheck));
    var w11 := JobUnlinks(w10, 0, Job(n, Fail, ToUnlink));
    ws := [w5, w6, w7, w8, w9, w10, w11];
  }

  lemma TwoSweepsMeet(n: Name) returns (ops: seq<Op>, w: World)
    ensures w == Run(Start, ops) && forall op :: op in ops ==> !op.Kill?
    ensures JobAt(w, 1, Job(n, Fail, ToUnlink)) && n !in w.files.markers
  {
    hide Step, JobAt, Waiting, Run;
    var early := TwoSweepsStart(n);
    var w3 := PicksUp(early[2], 0, n);
    var w4 := PicksUp(w3, 1, n);
    var late := BothReachUnlink(w4, n);
    ops := [Plant(n, Marker(0, 0)), StartSweep(0, 0, None), StartSweep(1, 0, None), Pick(0, n), Pick(1, n),
            Advance(0), Advance(0), Advance(0), Advance(1), Advance(1), Advance(1), Advance(0)];
    RunSteps(Start, ops, early + [w3, w4] + late);
    w := late[6];
  }

  /** Two sweeps over one stale marker are enough for that, without any kill. */
  lemma TwoSweepsCollide(n: Name) returns (ops: seq<Op>, w: World)
    ensures w == Run(Start, ops) && forall op :: op in ops ==> !op.Kill?
    ensures Raises(w, Advance(1))
  {
    ops, w := TwoSweepsMeet(n);
    hide Run;
    assert Finalises(w, 1, n, ToUnlink);
    RaisesWhen(w, Advance(1));
  }

  predicate Waiting(w: World, pid: nat, n: Name) {
    pid in w.procs && w.procs[pid].Sweeping? && w.procs[pid].current == None && w.procs[pid].since == 0
    && w.procs[pid].timeout == 0 && n in w.procs[pid].todo
  }

  lemma PicksUp(w: World, pid: nat, n: Name) returns (w': World)
    requires Waiting(w, pid, n) && n in w.files.markers && w.files.markers[n].ts == 0
    ensures w' == Step(w, Pick(pid, n)) && w'.files == w.files && w'.now == w.now
    ensures JobAt(w', pid, Job(n, Fail, ToOpen))
    ensures forall q, k :: q != pid && JobAt(w, q, k) ==> JobAt(w', q, k)
    ensures forall q :: q != pid && Waiting(w, q, n) ==> Waiting(w', q, n)
  {
    w' := Step(w, Pick(pid, n));
  }
}
