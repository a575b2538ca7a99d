/**
 The programs and the steps of the protocol: left alone, the protocol's steps do what `CheckStale`
 and `Watch` do.
 */
module ReviewRefinement {
  import opened Base
  import opened ReviewProtocol
  import opened ReviewLaws
  import opened ExemptReview

  /** Time passing, or a step of this sweep. */
  predicate OwnStep(pid: nat, op: Op) {
    match op
    case Tick(_) => true
    case StartSweep(p, _, _) => p == pid
    case Pick(p, _) => p == pid
    case Advance(p) => p == pid
    case _ => false
  }

  ghost predicate OwnSteps(pid: nat, ops: seq<Op>) { forall op :: op in ops ==> OwnStep(pid, op) }

  function Advances(pid: nat, k: nat): seq<Op> { seq(k, i => Advance(pid)) }

  lemma RunFirst(w: World, op: Op, rest: seq<Op>)
    ensures Run(w, [op] + rest) == Run(Step(w, op), rest)
  {
    RunAppend(w, [op], rest);
    assert [op][..0] == [];
    assert Run(w, [op]) == Step(w, op);
  }

  /** A sweep with a job in hand. */
  predicate Busy(w: World, pid: nat, idle: Proc, j: Job) {
    idle.Sweeping? && idle.current == None && pid in w.procs && w.procs[pid] == idle.(current := Some(j))
  }

  lemma {:induction false} IdleStays(w: World, pid: nat, k: nat)
    requires pid in w.procs && JobOf(w.procs[pid]) == None
    ensures Run(w, Advances(pid, k)) == w
  {
    if k > 0 {
      assert Advances(pid, k) == [Advance(pid)] + Advances(pid, k - 1);
      RunFirst(w, Advance(pid), Advances(pid, k - 1));
      IdleStays(w, pid, k - 1);
    }
  }

  /** A sweep's job, advanced with nobody in between, has exactly the uninterrupted effect. */
  lemma {:induction false} DrivesJob(w: World, pid: nat, idle: Proc, j: Job, k: nat)
    requires Busy(w, pid, idle, j) && k > 0 && Uninterrupted(w.files, w.now, j, k).1.Finished?
    ensures Run(w, Advances(pid, k))
            == w.(files := Uninterrupted(w.files, w.now, j, k).0, procs := w.procs[pid := idle])
    decreases k
  {
    var r := Advanced(w.files, w.now, j);
    var w' := Step(w, Advance(pid));
    assert Advances(pid, k) == [Advance(pid)] + Advances(pid, k - 1);
    RunFirst(w, Advance(pid), Advances(pid, k - 1));
    match r.1
    case Next(j') =>
      assert w' == w.(files := r.0, procs := w.procs[pid := idle.(current := Some(j'))]);
      DrivesJob(w', pid, idle, j', k - 1);
      assert w'.procs[pid := idle] == w.procs[pid := idle];
    case Finished =>
      assert w' == w.(files := r.0, procs := w.procs[pid := idle]);
      IdleStays(w', pid, k - 1);
    case Raised =>
      assert false;
  }

  predicate Between(w: World, pid: nat, idle: Proc) {
    idle.Sweeping? && idle.current == None && pid in w.procs && w.procs[pid] == idle
  }

  /** The sweep takes the stale marker `n` at second `at`. */
  lemma TakesStale(w: World, pid: nat, idle: Proc, n: Name, at: int) returns (ops: seq<Op>)
    requires Between(w, pid, idle) && n in idle.todo && n in w.files.markers && w.now <= at
    requires idle.since - w.files.markers[n].ts >= idle.timeout
    ensures OwnSteps(pid, ops)
    ensures Run(w, ops) ==
            w.(now := at, files := Finalized(w.files, at, n, Fail),
               procs := w.procs[pid := idle.(todo := idle.todo - {n})])
  {
    ops := [Tick(at - w.now)] + ([Pick(pid, n)] + Advances(pid, 4));
    var w1 := Step(w, Tick(at - w.now));
    var w2 := Step(w1, Pick(pid, n));
    var idle' := idle.(todo := idle.todo - {n});
    assert w2 == w.(now := at, procs := w.procs[pid := idle'.(current := Some(Job(n, Fail, ToOpen)))]);
    RunFirst(w, Tick(at - w.now), [Pick(pid, n)] + Advances(pid, 4));
    RunFirst(w1, Pick(pid, n), Advances(pid, 4));
    FinalizedIsFourSteps(w.files, at, n, Fail);
    DrivesJob(w2, pid, idle', Job(n, Fail, ToOpen), 4);
    assert w2.procs[pid := idle'] == w.procs[pid := idle'];
  }

  /** The sweep passes over a marker that is not stale. */
  lemma PassesOver(w: World, pid: nat, idle: Proc, n: Name) returns (ops: seq<Op>)
    requires Between(w, pid, idle) && n in idle.todo && n in w.files.markers
    requires idle.since - w.files.markers[n].ts < idle.timeout
    ensures OwnSteps(pid, ops)
    ensures Run(w, ops) == w.(procs := w.procs[pid := idle.(todo := idle.todo - {n})])
  {
    ops := [Pick(pid, n)];
    assert ops[..0] == [];
    assert Run(w, ops) == Step(w, Pick(pid, n));
  }

  /** The world of a sweep that has been through `order[..i]`. */
  ghost predicate Halfway(w: World, w': World, pid: nat, since: int, timeout: int, skip: Option<Name>, order: seq<Name>,
                          clock: Name -> int, i: nat)
    requires i <= |order|
  {
    && Between(w', pid, Sweeping(since, timeout, (set n | n in order[i..] && skip != Some(n)), None))
    && Swept(w.files, w'.files, order[..i], clock, StaleMarkers(w.files, since, timeout, skip))
    && (w'.now == w.now || (i > 0 && w.now <= w'.now <= clock(order[i - 1])))
  }

  predicate ClockRises(since: int, order: seq<Name>, clock: Name -> int) {
    && (forall k :: 0 <= k < |order| ==> since <= clock(order[k]))
    && forall k :: 0 < k < |order| ==> clock(order[k - 1]) <= clock(order[k])
  }

  /** The facts `Halfway` holds about the next marker. */
  lemma NextMarker(w: World, w': World, pid: nat, since: int, timeout: int, skip: Option<Name>, order: seq<Name>,
                   clock: Name -> int, i: nat)
    requires i < |order| && Enumerates(order, w.files.markers.Keys) && ClockRises(since, order, clock) && w.now <= since
    requires Halfway(w, w', pid, since, timeout, skip, order, clock, i)
    ensures var n := order[i];
            && n in w'.files.markers && w'.files.markers[n] == w.files.markers[n] && n in w.files.markers
            && w'.now <= clock(n) && w.now <= clock(n)
            && (n in w'.procs[pid].todo <==> skip != Some(n))
            && w'.procs[pid].todo - {n} == (set m | m in order[i + 1..] && skip != Some(m))
  {
    var n := order[i];
    OrderParts(order, i);
    assert i > 0 ==> clock(order[i - 1]) <= clock(n);
    UntouchedMarker(w.files, w'.files, order[..i], clock, StaleMarkers(w.files, since, timeout, skip), n);
  }

  lemma HalfwayNext(w: World, w': World, pid: nat, since: int, timeout: int, skip: Option<Name>, order: seq<Name>,
                    clock: Name -> int, i: nat)
    requires i < |order|
    requires Between(w', pid, Sweeping(since, timeout, (set m | m in order[i + 1..] && skip != Some(m)), None))
    requires Swept(w.files, w'.files, order[..i] + [order[i]], clock, StaleMarkers(w.files, since, timeout, skip))
    requires w'.now == w.now || w.now <= w'.now <= clock(order[i])
    ensures Halfway(w, w', pid, since, timeout, skip, order, clock, i + 1)
  {
    assert order[..i + 1] == order[..i] + [order[i]];
  }

  lemma OneMarker(w: World, w': World, pid: nat, since: int, timeout: int, skip: Option<Name>, order: seq<Name>,
                  clock: Name -> int, i: nat)
    returns (ops: seq<Op>)
    requires i < |order| && Enumerates(order, w.files.markers.Keys) && ClockRises(since, order, clock) && w.now <= since
    requires Halfway(w, w', pid, since, timeout, skip, order, clock, i)
    ensures OwnSteps(pid, ops)
    ensures Halfway(w, Run(w', ops), pid, since, timeout, skip, order, clock, i + 1)
  {
    var n, idle, stale := order[i], w'.procs[pid], StaleMarkers(w.files, since, timeout, skip);
    NextMarker(w, w', pid, since, timeout, skip, order, clock, i);
    hide Swept, Finalized, Run, ClockRises, Enumerates;
    if n in stale {
      ops := TakesStale(w', pid, idle, n, clock(n));
      SweptOne(w.files, w'.files, order[..i], clock, stale, n);
    } else {
      SweptSkip(w.files, w'.files, order[..i], clock, stale, n);
      if skip == Some(n) {
        ops := [];
        NoOps(w');
      } else {
        ops := PassesOver(w', pid, idle, n);
      }
    }
    hide Halfway, OwnSteps;
    HalfwayNext(w, Run(w', ops), pid, since, timeout, skip, order, clock, i);
    assert Halfway(w, Run(w', ops), pid, since, timeout, skip, order, clock, i + 1);
  }

  lemma OrderParts(order: seq<Name>, i: nat)
    requires NoDuplicates(order) && i < |order|
    ensures order[i] !in order[..i] && order[i] !in order[i + 1..]
    ensures order[..i + 1] == order[..i] + [order[i]] && order[i..] == [order[i]] + order[i + 1..]
  {
  }

  lemma NoOps(w: World)
    ensures Run(w, []) == w
  {
  }

  lemma {:induction false} SweepsOn(w: World, w': World, pid: nat, since: int, timeout: int, skip: Option<Name>,
                                    order: seq<Name>, clock: Name -> int, i: nat)
    returns (ops: seq<Op>)
    requires i <= |order| && Enumerates(order, w.files.markers.Keys) && ClockRises(since, order, clock)
    requires w.now <= since
    requires Halfway(w, w', pid, since, timeout, skip, order, clock, i)
    ensures OwnSteps(pid, ops)
    ensures Halfway(w, Run(w', ops), pid, since, timeout, skip, order, clock, |order|)
    decreases |order| - i
  {
    if i == |order| {
      ops := [];
    } else {
      hide Halfway, ClockRises, Enumerates;
      var first := OneMarker(w, w', pid, since, timeout, skip, order, clock, i);
      var rest := SweepsOn(w, Run(w', first), pid, since, timeout, skip, order, clock, i + 1);
      ops := first + rest;
      RunAppend(w', first, rest);
    }
  }

  /**
   Every sweep the program does alone is a run of the protocol: for any order of the markers and any
   rising clock some run finalises exactly the same markers in the same seconds.
   */
  lemma SweepIsAProtocolRun(w: World, pid: nat, timeout: int, skip: Option<Name>, order: seq<Name>,
                            clock: Name -> int)
    returns (ops: seq<Op>)
    requires pid !in w.procs && Enumerates(order, w.files.markers.Keys) && ClockRises(w.now, order, clock)
    ensures OwnSteps(pid, ops)
    ensures Swept(w.files, Run(w, ops).files, order, clock, StaleMarkers(w.files, w.now, timeout, skip))
    ensures Run(w, ops).now == w.now || (order != [] && Run(w, ops).now <= clock(order[|order| - 1]))
  {
    var start := StartSweep(pid, timeout, skip);
    var w1 := Step(w, start);
    var stale := StaleMarkers(w.files, w.now, timeout, skip);
    SweptNothing(w.files, clock, stale);
    assert order[..0] == [] && order[0..] == order && order[..|order|] == order;
    assert w1.procs[pid].todo == set n | n in order[0..] && skip != Some(n);
    var rest := SweepsOn(w, w1, pid, w.now, timeout, skip, order, clock, 0);
    ops := [start] + rest;
    RunFirst(w, start, rest);
  }

  // ---------------------------------------------------------------------------------------------
  // The watcher
  // ---------------------------------------------------------------------------------------------

  /** A step of this watcher or of the sweep it starts. */
  predicate WatcherStep(pid: nat, sweeper: nat, op: Op) {
    match op
    case Claim(p, _) => p == pid
    case Read(p) => p == pid
    case TestsDone(p, _) => p == pid
    case Advance(p) => p == pid || p == sweeper
    case _ => OwnStep(sweeper, op)
  }

  ghost predicate WatcherSteps(pid: nat, sweeper: nat, ops: seq<Op>) {
    forall op :: op in ops ==> WatcherStep(pid, sweeper, op)
  }

  lemma OwnStepSpares(w: World, op: Op, sweeper: nat, pid: nat)
    requires OwnStep(sweeper, op) && pid != sweeper && pid in w.procs
    ensures pid in Step(w, op).procs && Step(w, op).procs[pid] == w.procs[pid]
  {
  }

  lemma {:induction false} OwnStepsSpare(w: World, ops: seq<Op>, sweeper: nat, pid: nat)
    requires OwnSteps(sweeper, ops) && pid != sweeper && pid in w.procs
    ensures pid in Run(w, ops).procs && Run(w, ops).procs[pid] == w.procs[pid]
  {
    if ops != [] {
      var init := ops[..|ops| - 1];
      OwnStepsSpare(w, init, sweeper, pid);
      OwnStepSpares(Run(w, init), ops[|ops| - 1], sweeper, pid);
    }
  }

  lemma {:induction false} GoneStays(w: World, pid: nat, k: nat)
    requires pid !in w.procs
    ensures Run(w, Advances(pid, k)) == w
  {
    if k > 0 {
      assert Advances(pid, k) == [Advance(pid)] + Advances(pid, k - 1);
      RunFirst(w, Advance(pid), Advances(pid, k - 1));
      GoneStays(w, pid, k - 1);
    }
  }

  /** A watcher's job, advanced with nobody in between. */
  lemma {:induction false} DrivesWatcher(w: World, pid: nat, j: Job, k: nat)
    requires pid in w.procs && w.procs[pid] == Closing(j) && k > 0 && Uninterrupted(w.files, w.now, j, k).1.Finished?
    ensures Run(w, Advances(pid, k)).files == Uninterrupted(w.files, w.now, j, k).0
    decreases k
  {
    var r := Advanced(w.files, w.now, j);
    var w' := Step(w, Advance(pid));
    assert Advances(pid, k) == [Advance(pid)] + Advances(pid, k - 1);
    RunFirst(w, Advance(pid), Advances(pid, k - 1));
    match r.1
    case Next(j') => DrivesWatcher(w', pid, j', k - 1);
    case Finished => GoneStays(w', pid, k - 1);
    case Raised => assert false;
  }

  /** A watcher claims the marker and reads it. */
  lemma Claims(w: World, pid: nat, n: Name) returns (w': World)
    requires pid !in w.procs && n !in w.files.claims && n in w.files.markers
    ensures w' == Run(w, [Claim(pid, n), Read(pid)])
    ensures w' == w.(files := w.files.(claims := w.files.claims + {n}), procs := w.procs[pid := Testing(n)])
  {
    var w1 := Step(w, Claim(pid, n));
    w' := Step(w1, Read(pid));
    RunFirst(w, Claim(pid, n), [Read(pid)]);
    assert [Claim(pid, n)] + [Read(pid)] == [Claim(pid, n), Read(pid)];
    assert [Read(pid)][..0] == [];
    assert Run(w1, [Read(pid)]) == w';
    assert w.procs[pid := Claimed(n)][pid := Testing(n)] == w.procs[pid := Testing(n)];
  }

  /** A watcher whose suite came back finalises its marker at second `at`. */
  lemma Finishes(w: World, pid: nat, n: Name, rc: Option<int>, at: int) returns (ops: seq<Op>)
    requires pid in w.procs && w.procs[pid] == Testing(n) && w.now <= at
    ensures Run(w, ops).files == Finalized(w.files, at, n, Verdict(rc))
    ensures forall sweeper :: WatcherSteps(pid, sweeper, ops)
  {
    ops := [Tick(at - w.now)] + ([TestsDone(pid, rc)] + Advances(pid, 4));
    var w1 := Step(w, Tick(at - w.now));
    var w2 := Step(w1, TestsDone(pid, rc));
    RunFirst(w, Tick(at - w.now), [TestsDone(pid, rc)] + Advances(pid, 4));
    RunFirst(w1, TestsDone(pid, rc), Advances(pid, 4));
    FinalizedIsFourSteps(w.files, at, n, Verdict(rc));
    assert w2.files == w.files && w2.now == at && w2.procs[pid] == Closing(Job(n, Verdict(rc), ToOpen));
    DrivesWatcher(w2, pid, Job(n, Verdict(rc), ToOpen), 4);
  }

  /**
   Every review the watcher does alone is a run of the protocol that claims the marker first: for
   any answer of the suite some run of its own steps leaves the files that `Watch` leaves.
   */
  lemma WatchIsAProtocolRun(w: World, pid: nat, sweeper: nat, n: Name, timeout: int, order: seq<Name>,
                            clock: Name -> int, rc: Option<int>, finished: int)
    returns (ops: seq<Op>)
    requires pid !in w.procs && sweeper !in w.procs && pid != sweeper && n !in w.files.claims && n in w.files.markers
    requires Enumerates(order, w.files.markers.Keys) && ClockRises(w.now, order, clock)
    requires w.now <= finished && (order != [] ==> clock(order[|order| - 1]) <= finished)
    ensures WatcherSteps(pid, sweeper, ops) && ops != [] && ops[0] == Claim(pid, n)
    ensures Finalising(w.files, Run(w, ops).files, n, timeout, w.now, order, clock, Verdict(rc), finished)
  {
    var early := [Claim(pid, n), Read(pid)];
    var w1 := Claims(w, pid, n);
    var sweep := SweepIsAProtocolRun(w1, sweeper, timeout, Some(n), order, clock);
    var w2 := Run(w1, sweep);
    OwnStepsSpare(w1, sweep, sweeper, pid);
    hide Run, Swept, Finalized;
    var late := Finishes(w2, pid, n, rc, finished);
    RunAppend(w, early, sweep + late);
    RunAppend(w1, sweep, late);
    ops := early + (sweep + late);
    AllWatcherSteps(pid, sweeper, n, sweep, late);
    hide WatcherSteps, OwnSteps;
    assert Run(w, ops).files == Finalized(w2.files, finished, n, Verdict(rc));
    assert Finalising(w.files, Run(w, ops).files, n, timeout, w.now, order, clock, Verdict(rc), finished);
  }

  lemma AllWatcherSteps(pid: nat, sweeper: nat, n: Name, sweep: seq<Op>, late: seq<Op>)
    requires OwnSteps(sweeper, sweep) && WatcherSteps(pid, sweeper, late)
    ensures WatcherSteps(pid, sweeper, [Claim(pid, n), Read(pid)] + (sweep + late))
  {
    var early := [Claim(pid, n), Read(pid)];
    forall op | op in early + (sweep + late) ensures WatcherStep(pid, sweeper, op) {
      assert op in sweep ==> OwnStep(sweeper, op);
    }
  }
}
