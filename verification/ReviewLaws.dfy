/**
 Safety of the review protocol over every interleaving, including processes killed at any point:
 a planted marker never leaves its commit without a trace, a commit gets past the gate only on a
 green or acknowledged result, and one watcher per marker gets past the claim.
 */
module ReviewLaws {
  import opened Base
  import opened ReviewProtocol

  // ---------------------------------------------------------------------------------------------
  // One step
  // ---------------------------------------------------------------------------------------------

  /** What one advance does to the files: at most one result file, or one marker less. */
  lemma AdvanceEffect(f: Files, now: int, j: Job)
    ensures var (f', r) := Advanced(f, now, j);
            && f'.claims == f.claims && f'.acks == f.acks
            && (j.phase.ToUnlink? || f'.markers == f.markers)
            && f'.markers.Keys <= f.markers.Keys
            && (forall n :: n in f.markers && n != j.name ==> n in f'.markers)
            && (forall c :: c != j.name.commit ==> ShelfOf(f', c) == ShelfOf(f, c))
            && (forall c, s :: s in ShelfOf(f, c) ==> s in ShelfOf(f', c))
            && (r.Next? ==> r.job.name == j.name && r.job.status == j.status)
            && (j.phase.ToOpen? ==> r == Next(j.(phase := Filling(now))))
            && (j.phase.ToOpen? ==> ShelfOf(f', j.name.commit) == ShelfOf(f, j.name.commit)[now := Torn])
            && (j.phase.Filling? ==> r == Next(j.(phase := ToCheck)))
            && (j.phase.Filling? ==>
                  ShelfOf(f', j.name.commit) == ShelfOf(f, j.name.commit)[j.phase.stamp := Whole(j.status)])
            && (j.phase.ToCheck? || j.phase.ToUnlink? ==> f'.results == f.results)
            && (j.phase.ToUnlink? ==> !r.Next?)
  {
  }

  /** Every step other than an advance leaves the result files alone and takes no marker away. */
  lemma OtherSteps(w: World, op: Op)
    requires !op.Advance?
    ensures var w' := Step(w, op);
            && w'.files.results == w.files.results
            && w'.files.markers.Keys >= w.files.markers.Keys
            && w'.greens >= w.greens && w'.cut >= w.cut && w'.planted >= w.planted && w'.files.claims >= w.files.claims
  {
  }

  lemma KeepsMarkersPlanted(w: World, op: Op)
    requires MarkersPlanted(w)
    ensures MarkersPlanted(Step(w, op)) && Step(w, op).planted >= w.planted
  {
    if op.Advance? && op.pid in w.procs && JobOf(w.procs[op.pid]).Some? {
      AdvanceEffect(w.files, w.now, JobOf(w.procs[op.pid]).value);
    }
  }

  lemma KeepsNothingLost(w: World, op: Op)
    requires NothingLost(w) && JobsSound(w)
    ensures NothingLost(Step(w, op))
  {
    var w' := Step(w, op);
    forall c | c in w'.planted ensures Witnessed(w'.files, c) {
      if op.Advance? {
        if op.pid in w.procs && JobOf(w.procs[op.pid]).Some? {
          var j := JobOf(w.procs[op.pid]).value;
          AdvanceEffect(w.files, w.now, j);
          assert Witnessed(w.files, c) && JobSound(w, j);
          if HasMarker(w.files, c) {
            var n :| n in w.files.markers && n.commit == c;
            assert n in w'.files.markers || ShelfOf(w'.files, c) != map[];
          } else {
            var s := Member(ShelfOf(w.files, c).Keys);
            assert s in ShelfOf(w'.files, c);
          }
        }
      } else {
        OtherSteps(w, op);
        if op.Plant? && op.name.commit == c {
          assert op.name in w'.files.markers;
        } else {
          assert Witnessed(w.files, c);
          if HasMarker(w.files, c) {
            var n :| n in w.files.markers && n.commit == c;
            assert n in w'.files.markers;
          }
        }
      }
    }
  }

  /** A job that is not moved stays sound as long as greens and shelves only grow. */
  lemma StillSound(w: World, w': World, j: Job)
    requires JobSound(w, j) && w'.greens >= w.greens
    requires forall s :: s in ShelfOf(w.files, j.name.commit) ==> s in ShelfOf(w'.files, j.name.commit)
    ensures JobSound(w', j)
  {
    ShelfGrows(w.files, w'.files, j.name.commit);
  }

  lemma MovedSound(w: World, j: Job, w': World, j': Job)
    requires JobSound(w, j) && w'.greens == w.greens
    requires Advanced(w.files, w.now, j) == (w'.files, Next(j'))
    ensures JobSound(w', j')
  {
    AdvanceEffect(w.files, w.now, j);
    ShelfGrows(w.files, w'.files, j.name.commit);
    if j.phase.Filling? { assert j.phase.stamp in ShelfOf(w'.files, j.name.commit); }
  }

  lemma AdvanceKeepsJobs(w: World, op: Op)
    requires JobsSound(w) && op.Advance? && op.pid in w.procs && JobOf(w.procs[op.pid]).Some?
    ensures JobsSound(Step(w, op))
  {
    var w' := Step(w, op);
    var j := JobOf(w.procs[op.pid]).value;
    AdvanceEffect(w.files, w.now, j);
    assert JobSound(w, j);
    forall pid | pid in w'.procs && JobOf(w'.procs[pid]).Some? ensures JobSound(w', JobOf(w'.procs[pid]).value) {
      if pid == op.pid {
        MovedSound(w, j, w', JobOf(w'.procs[pid]).value);
      } else {
        assert JobSound(w, JobOf(w.procs[pid]).value);
        StillSound(w, w', JobOf(w.procs[pid]).value);
      }
    }
  }

  lemma KeepsJobsSound(w: World, op: Op)
    requires JobsSound(w)
    ensures JobsSound(Step(w, op))
  {
    var w' := Step(w, op);
    if op.Advance? {
      if op.pid in w.procs && JobOf(w.procs[op.pid]).Some? { AdvanceKeepsJobs(w, op); }
    } else {
      OtherSteps(w, op);
      forall pid | pid in w'.procs && JobOf(w'.procs[pid]).Some? ensures JobSound(w', JobOf(w'.procs[pid]).value) {
        if pid in w.procs && w'.procs[pid] == w.procs[pid] {
          assert JobSound(w, JobOf(w.procs[pid]).value);
          StillSound(w, w', JobOf(w.procs[pid]).value);
        }
      }
    }
  }

  lemma ShelfGrows(f: Files, f': Files, c: Commit)
    requires forall s :: s in ShelfOf(f, c) ==> s in ShelfOf(f', c)
    ensures ShelfOf(f, c) != map[] ==> ShelfOf(f', c) != map[]
  {
    if ShelfOf(f, c) != map[] {
      var s := Member(ShelfOf(f, c).Keys);
    }
  }

  lemma KeepsGreen(w: World, op: Op)
    requires GreenIsGreen(w) && JobsSound(w)
    ensures GreenIsGreen(Step(w, op))
  {
    var w' := Step(w, op);
    forall c, s | s in ShelfOf(w'.files, c) && ShelfOf(w'.files, c)[s] == Whole(Pass) ensures c in w'.greens {
      if op.Advance? {
        if op.pid in w.procs && JobOf(w.procs[op.pid]).Some? {
          var j := JobOf(w.procs[op.pid]).value;
          AdvanceEffect(w.files, w.now, j);
          assert JobSound(w, j);
          assert s in ShelfOf(w.files, c) && ShelfOf(w.files, c)[s] == Whole(Pass) ==> c in w.greens;
        }
      } else {
        OtherSteps(w, op);
        assert ShelfOf(w'.files, c) == ShelfOf(w.files, c);
      }
    }
  }

  lemma AdvanceKeepsTears(w: World, op: Op, c: Commit, s: int)
    requires TearsExplained(w) && op.Advance? && op.pid in w.procs && JobOf(w.procs[op.pid]).Some?
    requires s in ShelfOf(Step(w, op).files, c) && ShelfOf(Step(w, op).files, c)[s] == Torn
    ensures TornExplained(Step(w, op), c, s)
  {
    var w', j := Step(w, op), JobOf(w.procs[op.pid]).value;
    AdvanceEffect(w.files, w.now, j);
    if j.phase.ToOpen? && c == j.name.commit && s == w.now {
      assert BeingFilled(w', op.pid, c, s);
    } else {
      assert TornExplained(w, c, s);
      StillExplained(w, w', op.pid, c, s);
    }
  }

  lemma OthersKeepTears(w: World, op: Op, c: Commit, s: int)
    requires TornExplained(w, c, s) && !op.Advance?
    ensures TornExplained(Step(w, op), c, s)
  {
    var w' := Step(w, op);
    OtherSteps(w, op);
    if (c, s) !in w.cut {
      var pid :| BeingFilled(w, pid, c, s);
      assert BeingFilled(w', pid, c, s) || (c, s) in w'.cut;
    }
  }

  lemma KeepsTears(w: World, op: Op)
    requires TearsExplained(w)
    ensures TearsExplained(Step(w, op))
  {
    var w' := Step(w, op);
    forall c, s | s in ShelfOf(w'.files, c) && ShelfOf(w'.files, c)[s] == Torn ensures TornExplained(w', c, s) {
      if op.Advance? && op.pid in w.procs && JobOf(w.procs[op.pid]).Some? {
        AdvanceKeepsTears(w, op, c, s);
      } else if op.Advance? {
        assert TornExplained(w, c, s);
      } else {
        OtherSteps(w, op);
        assert ShelfOf(w'.files, c) == ShelfOf(w.files, c);
        OthersKeepTears(w, op, c, s);
      }
    }
  }

  lemma StillExplained(w: World, w': World, pid: nat, c: Commit, s: int)
    requires TornExplained(w, c, s) && w'.cut >= w.cut
    requires forall p :: p in w.procs && p != pid ==> p in w'.procs && w'.procs[p] == w.procs[p]
    requires !BeingFilled(w, pid, c, s)
    ensures TornExplained(w', c, s)
  {
    if (c, s) !in w.cut {
      var p :| BeingFilled(w, p, c, s);
      assert BeingFilled(w', p, c, s);
    }
  }

  /** A watcher keeps its marker, or has just claimed it. */
  lemma WatchesAsBefore(w: World, op: Op, pid: nat)
    requires pid in Step(w, op).procs && Watched(Step(w, op).procs[pid]).Some?
    ensures var n := Watched(Step(w, op).procs[pid]);
            || (pid in w.procs && Watched(w.procs[pid]) == n)
            || (op == Claim(pid, n.value) && n.value !in w.files.claims && n.value in Step(w, op).files.claims)
  {
  }

  lemma ClaimsStay(w: World, op: Op)
    ensures Step(w, op).files.claims >= w.files.claims
  {
    if op.Advance? {
      if op.pid in w.procs && JobOf(w.procs[op.pid]).Some? {
        AdvanceEffect(w.files, w.now, JobOf(w.procs[op.pid]).value);
      }
    } else {
      OtherSteps(w, op);
    }
  }

  lemma KeepsClaims(w: World, op: Op)
    requires ClaimsHeldOnce(w)
    ensures ClaimsHeldOnce(Step(w, op))
  {
    var w' := Step(w, op);
    ClaimsStay(w, op);
    forall pid | pid in w'.procs && Watched(w'.procs[pid]).Some?
      ensures var n := Watched(w'.procs[pid]);
              || (pid in w.procs && Watched(w.procs[pid]) == n)
              || (op == Claim(pid, n.value) && n.value !in w.files.claims && n.value in w'.files.claims)
    {
      WatchesAsBefore(w, op, pid);
    }
    hide Step, Watched;
    assert ClaimsHeldOnce(w');
  }

  lemma StepKeeps(w: World, op: Op)
    requires Inv(w)
    ensures Inv(Step(w, op))
  {
    KeepsMarkersPlanted(w, op);
    KeepsNothingLost(w, op);
    KeepsJobsSound(w, op);
    KeepsGreen(w, op);
    KeepsTears(w, op);
    KeepsClaims(w, op);
  }

  /** The invariant holds after every run of the protocol. */
  lemma {:induction false} RunKeeps(w: World, ops: seq<Op>)
    requires Inv(w)
    ensures Inv(Run(w, ops))
  {
    if ops != [] {
      RunKeeps(w, ops[..|ops| - 1]);
      StepKeeps(Run(w, ops[..|ops| - 1]), ops[|ops| - 1]);
    }
  }

  // ---------------------------------------------------------------------------------------------
  // What the gate can rely on
  // ---------------------------------------------------------------------------------------------

  lemma StartIsFine()
    ensures Inv(Start)
  {
  }

  lemma {:induction false} RunAppend(w: World, a: seq<Op>, b: seq<Op>)
    ensures Run(w, a + b) == Run(Run(w, a), b)
  {
    if b == [] {
      assert a + b == a;
    } else {
      RunAppend(w, a, b[..|b| - 1]);
      assert (a + b)[..|a + b| - 1] == a + b[..|b| - 1];
    }
  }

  /** A commit whose marker was set has a marker or a result file for the rest of the run. */
  lemma {:induction false} PlantedForGood(ops: seq<Op>, i: nat)
    requires i < |ops| && ops[i].Plant?
    ensures ops[i].name.commit in Run(Start, ops).planted && Witnessed(Run(Start, ops).files, ops[i].name.commit)
  {
    var init, last := ops[..|ops| - 1], ops[|ops| - 1];
    StartIsFine();
    RunKeeps(Start, init);
    StepKeeps(Run(Start, init), last);
    KeepsMarkersPlanted(Run(Start, init), last);
    hide Witnessed;
    if i < |ops| - 1 {
      PlantedForGood(init, i);
    } else {
      assert ops[i].name.commit in Step(Run(Start, init), last).planted;
    }
  }

  /**
   After any run, for a commit whose marker was ever set: the evidence is missing exactly when its
   newest result file is torn, and the gate lets the commit through exactly on a green result, an
   acknowledged failure, or that torn file.  A green result is never written without a green suite,
   and a torn file is being written or was cut short by a kill.
   */
  lemma GateDecidesPlanted(ops: seq<Op>, c: Commit)
    requires c in Run(Start, ops).planted
    ensures var w := Run(Start, ops);
            var e, newest := EvidenceOf(w.files, c), Newest(w.files, c);
            && (e == NoEvidence <==> newest == Some(Torn))
            && (Decide(e) <==>
                  || newest == Some(Whole(Pass))
                  || (newest == Some(Whole(Fail)) && c in w.files.acks)
                  || newest == Some(Torn))
            && (newest == Some(Whole(Pass)) ==> c in w.greens)
            && (newest == Some(Torn) ==> exists s :: TornExplained(w, c, s))
  {
    StartIsFine();
    RunKeeps(Start, ops);
    DecidesWitnessed(Run(Start, ops), c);
  }

  lemma DecidesWitnessed(w: World, c: Commit)
    requires Inv(w) && c in w.planted
    ensures var e, newest := EvidenceOf(w.files, c), Newest(w.files, c);
            && (e == NoEvidence <==> newest == Some(Torn))
            && (Decide(e) <==>
                  || newest == Some(Whole(Pass))
                  || (newest == Some(Whole(Fail)) && c in w.files.acks)
                  || newest == Some(Torn))
            && (newest == Some(Whole(Pass)) ==> c in w.greens)
            && (newest == Some(Torn) ==> exists s :: TornExplained(w, c, s))
  {
    assert Witnessed(w.files, c) && GreenIsGreen(w) && TearsExplained(w);
    hide Inv, TornExplained, ShelfOf;
    var shelf := ShelfOf(w.files, c);
    if shelf.Keys != {} {
      var s := Greatest(shelf.Keys);
      assert s in shelf;
      if shelf[s] == Torn { assert TornExplained(w, c, s); }
    }
  }

  /** A run without kills that has no file open: planted commits always have evidence. */
  lemma QuietRunAlwaysHasEvidence(ops: seq<Op>, c: Commit)
    requires c in Run(Start, ops).planted
    requires Run(Start, ops).cut == {}
    requires forall pid, s :: !BeingFilled(Run(Start, ops), pid, c, s)
    ensures EvidenceOf(Run(Start, ops).files, c) != NoEvidence
  {
    GateDecidesPlanted(ops, c);
  }

  /** The last result file decides; a marker counts only without one. */
  lemma EvidenceExactly(f: Files, c: Commit)
    ensures var e, shelf := EvidenceOf(f, c), ShelfOf(f, c);
            var last := (file: File) => exists s :: s in shelf && shelf[s] == file && forall t :: t in shelf ==> t <= s;
            && (e == Passed <==> last(Whole(Pass)))
            && (e == FailUnacked <==> last(Whole(Fail)) && c !in f.acks)
            && (e == FailAcked <==> last(Whole(Fail)) && c in f.acks)
            && (e == Inflight <==> shelf.Keys == {} && exists n :: n in f.markers && n.commit == c)
            && (e == NoEvidence <==>
                  last(Torn) || (shelf.Keys == {} && forall n :: n in f.markers ==> n.commit != c))
  {
    var shelf := ShelfOf(f, c);
    if shelf.Keys != {} {
      var g := Greatest(shelf.Keys);
      assert forall s :: s in shelf && (forall t :: t in shelf ==> t <= s) ==> s == g;
    }
  }

  /** The sweep works off `list`: what is left of it, and the marker in hand, which is no longer left. */
  predicate WorksOff(w: World, pid: nat, list: set<Name>) {
    && pid in w.procs && w.procs[pid].Sweeping? && w.procs[pid].todo <= list
    && (w.procs[pid].current.Some? ==>
          w.procs[pid].current.value.name in list && w.procs[pid].current.value.name !in w.procs[pid].todo)
  }

  lemma StepWorksOff(w: World, op: Op, pid: nat, list: set<Name>)
    requires WorksOff(w, pid, list) && pid in Step(w, op).procs
    ensures WorksOff(Step(w, op), pid, list) && Step(w, op).procs[pid].todo <= w.procs[pid].todo
  {
    if op.Advance? && op.pid in w.procs && JobOf(w.procs[op.pid]).Some? {
      AdvanceEffect(w.files, w.now, JobOf(w.procs[op.pid]).value);
    }
  }

  /**
   Over any run a sweep takes only markers that were there when it started, not the one it was told to skip,
   and none of them twice.
   */
  lemma {:induction false} SweepKeepsToItsList(ops: seq<Op>, i: nat, j: nat)
    requires i < j <= |ops| && ops[i].StartSweep? && ops[i].pid !in Run(Start, ops[..i]).procs
    requires forall k :: i < k <= j ==> ops[i].pid in Run(Start, ops[..k]).procs
    ensures WorksOff(Run(Start, ops[..j]), ops[i].pid,
                     set n | n in Run(Start, ops[..i]).files.markers && ops[i].skip != Some(n))
  {
    assert ops[..j][..j - 1] == ops[..j - 1];
    assert Run(Start, ops[..j]) == Step(Run(Start, ops[..j - 1]), ops[j - 1]);
    hide Run;
    if i < j - 1 {
      hide Step, WorksOff;
      SweepKeepsToItsList(ops, i, j - 1);
      StepWorksOff(Run(Start, ops[..j - 1]), ops[j - 1], ops[i].pid,
                   set n | n in Run(Start, ops[..i]).files.markers && ops[i].skip != Some(n));
    }
  }

  /** A watcher gets past the claim of `n` with this step. */
  predicate ClaimsThrough(w: World, op: Op, n: Name) {
    op.Claim? && op.target == n && op.pid !in w.procs && n !in w.files.claims
  }

  lemma {:induction false} ClaimsLast(w: World, ops: seq<Op>, n: Name)
    requires n in w.files.claims
    ensures n in Run(w, ops).files.claims
  {
    if ops != [] {
      var mid, op := Run(w, ops[..|ops| - 1]), ops[|ops| - 1];
      ClaimsLast(w, ops[..|ops| - 1], n);
      if op.Advance? {
        if op.pid in mid.procs && JobOf(mid.procs[op.pid]).Some? {
          AdvanceEffect(mid.files, mid.now, JobOf(mid.procs[op.pid]).value);
        }
      } else {
        OtherSteps(mid, op);
      }
    }
  }

  /** Over a whole run, dead watchers included, at most one watcher gets past the claim of a marker. */
  lemma OneClaimPerMarker(ops: seq<Op>, n: Name, i: nat, k: nat)
    requires i < k < |ops|
    requires ClaimsThrough(Run(Start, ops[..i]), ops[i], n)
    ensures !ClaimsThrough(Run(Start, ops[..k]), ops[k], n)
  {
    var upTo, between := ops[..i + 1], ops[i + 1..k];
    assert upTo[..i] == ops[..i];
    assert n in Run(Start, upTo).files.claims;
    ClaimsLast(Run(Start, upTo), between, n);
    RunAppend(Start, upTo, between);
    assert upTo + between == ops[..k];
  }

  lemma {:induction false} PlantedGrows(w: World, ops: seq<Op>)
    ensures Run(w, ops).planted >= w.planted
  {
    if ops != [] { PlantedGrows(w, ops[..|ops| - 1]); }
  }
}
