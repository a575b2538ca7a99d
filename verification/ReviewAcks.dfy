/**
 Acknowledging a failed review reads the whole acknowledgement file, then empties it, then fills it.
 What is on file after any interleaving of several acknowledgements, and when one of them is lost.
 */
module ReviewAcks {
  import opened ReviewProtocol
  import opened ReviewLaws

  predicate UnderWay(w: World, pid: nat) { pid in w.procs && w.procs[pid].Acking? }

  predicate Emptied(w: World, pid: nat) { UnderWay(w, pid) && w.procs[pid].emptied }

  /** This step fills the file. */
  predicate Fills(w: World, op: Op) { op.FillAcks? && Emptied(w, op.pid) }

  /** Everything that acknowledgements have written to the end. */
  function Acknowledged(w: World, ops: seq<Op>): set<Commit> {
    if ops == [] then {}
    else
      var init, last := ops[..|ops| - 1], ops[|ops| - 1];
      Acknowledged(w, init) + if Fills(Run(w, init), last) then Run(w, init).procs[last.pid].names else {}
  }

  /** Everything anybody ever set out to acknowledge. */
  function Asked(ops: seq<Op>): set<Commit> {
    if ops == [] then {}
    else
      var last := ops[|ops| - 1];
      Asked(ops[..|ops| - 1]) + if last.StartAck? then last.names else {}
  }

  // ---------------------------------------------------------------------------------------------
  // Nothing is acknowledged by itself
  // ---------------------------------------------------------------------------------------------

  ghost predicate OnlyFrom(w: World, asked: set<Commit>) {
    && w.files.acks <= asked
    && forall pid :: UnderWay(w, pid) ==> w.procs[pid].seen + w.procs[pid].names <= asked
  }

  /** What one step does to the file. */
  lemma FileAfter(w: World, op: Op)
    ensures Step(w, op).files.acks
         == if Fills(w, op) then w.procs[op.pid].seen + w.procs[op.pid].names
            else if op.OpenAcks? && UnderWay(w, op.pid) && !Emptied(w, op.pid) then {}
            else w.files.acks
  {
    if op.Advance? && op.pid in w.procs && JobOf(w.procs[op.pid]).Some? {
      AdvanceEffect(w.files, w.now, JobOf(w.procs[op.pid]).value);
    }
  }

  /** What one step does to the acknowledgements under way. */
  lemma UnderWayAfter(w: World, op: Op, pid: nat)
    ensures UnderWay(Step(w, op), pid) <==>
              || (UnderWay(w, pid) && op != Kill(pid) && !(Fills(w, op) && op.pid == pid))
              || (pid !in w.procs && op.StartAck? && op.pid == pid)
    ensures UnderWay(w, pid) && UnderWay(Step(w, op), pid) ==>
              var p, q := w.procs[pid], Step(w, op).procs[pid];
              q.seen == p.seen && q.names == p.names && (q.emptied <==> p.emptied || op == OpenAcks(pid))
    ensures !UnderWay(w, pid) && UnderWay(Step(w, op), pid) ==>
              Step(w, op).procs[pid] == Acking(w.files.acks, op.names, false)
  {
  }

  /** Over any run, killed or overlapping as it may be: a commit is on file only if somebody named it. */
  lemma {:induction false} OnFileOnlyIfNamed(ops: seq<Op>)
    ensures Run(Start, ops).files.acks <= Asked(ops)
    ensures OnlyFrom(Run(Start, ops), Asked(ops))
  {
    if ops != [] {
      var init, op := ops[..|ops| - 1], ops[|ops| - 1];
      OnFileOnlyIfNamed(init);
      var w := Run(Start, init);
      FileAfter(w, op);
      hide Step;
      forall pid | UnderWay(Run(Start, ops), pid)
        ensures Run(Start, ops).procs[pid].seen + Run(Start, ops).procs[pid].names <= Asked(ops)
      {
        UnderWayAfter(w, op, pid);
      }
    }
  }

  // ---------------------------------------------------------------------------------------------
  // One acknowledgement among others
  // ---------------------------------------------------------------------------------------------

  lemma {:induction false} PlanHolds(w: World, ops: seq<Op>, pid: nat)
    requires UnderWay(w, pid) && FillAcks(pid) !in ops && Kill(pid) !in ops
    ensures UnderWay(Run(w, ops), pid)
    ensures Run(w, ops).procs[pid].seen == w.procs[pid].seen && Run(w, ops).procs[pid].names == w.procs[pid].names
  {
    if ops != [] {
      var init, op := ops[..|ops| - 1], ops[|ops| - 1];
      PlanHolds(w, init, pid);
      UnderWayAfter(Run(w, init), op, pid);
    }
  }

  /**
   Whatever others do between its reading and its filling, an acknowledgement leaves what was on file
   when it read it, and the commits it names. So of what is on file at any moment in between it loses
   exactly what was not on file when it read and it does not itself name.
   */
  lemma FillLeavesWhatItRead(before: seq<Op>, pid: nat, names: set<Commit>, between: seq<Op>)
    requires pid !in Run(Start, before).procs
    requires FillAcks(pid) !in between && Kill(pid) !in between
    requires Emptied(Run(Start, before + [StartAck(pid, names)] + between), pid)
    ensures var all := before + [StartAck(pid, names)] + between;
            && Run(Start, all + [FillAcks(pid)]).files.acks == Run(Start, before).files.acks + names
            && forall k :: |before| < k <= |all| ==>
                 forall c :: c in Run(Start, all[..k]).files.acks ==>
                   (c !in Run(Start, all + [FillAcks(pid)]).files.acks
                    <==> c !in names && c !in Run(Start, before).files.acks)
  {
    var read := before + [StartAck(pid, names)];
    var all := read + between;
    RunAppend(Start, before, [StartAck(pid, names)]);
    assert Run(Start, read) == Step(Run(Start, before), StartAck(pid, names)) by {
      assert [StartAck(pid, names)][..0] == [];
    }
    RunAppend(Start, read, between);
    PlanHolds(Run(Start, read), between, pid);
    assert (all + [FillAcks(pid)])[..|all|] == all;
    FileAfter(Run(Start, all), FillAcks(pid));
  }

  // ---------------------------------------------------------------------------------------------
  // Acknowledgements one after the other
  // ---------------------------------------------------------------------------------------------

  /** At most one acknowledgement at a time, and none killed once it has emptied the file. */
  ghost predicate OneByOne(ops: seq<Op>) {
    && (forall k, p, q :: 0 <= k <= |ops| && UnderWay(Run(Start, ops[..k]), p) && UnderWay(Run(Start, ops[..k]), q) ==>
          p == q)
    && forall k :: 0 <= k < |ops| && ops[k].Kill? ==> !Emptied(Run(Start, ops[..k]), ops[k].pid)
  }

  ghost predicate Complete(w: World, done: set<Commit>) {
    && (w.files.acks == done || exists pid :: Emptied(w, pid))
    && forall pid :: UnderWay(w, pid) ==> w.procs[pid].seen == done
  }

  /** One by one, nothing is lost: with none in the middle of writing, exactly what was acknowledged is on file. */
  lemma {:induction false} OneByOneNothingIsLost(ops: seq<Op>)
    requires OneByOne(ops)
    ensures (forall pid :: !Emptied(Run(Start, ops), pid)) ==>
              Run(Start, ops).files.acks == Acknowledged(Start, ops)
    ensures Complete(Run(Start, ops), Acknowledged(Start, ops))
  {
    if ops != [] {
      var init, op := ops[..|ops| - 1], ops[|ops| - 1];
      FewerOneByOne(ops);
      OneByOneNothingIsLost(init);
      var w := Run(Start, init);
      assert ops[..|ops|] == ops && Run(Start, ops) == Step(w, op);
      hide Step, OneByOne;
      OneAtATime(ops);
      StepCompletes(w, op, Acknowledged(Start, init));
    }
  }

  lemma OneAtATime(ops: seq<Op>)
    requires OneByOne(ops) && ops != []
    ensures var w, op := Run(Start, ops[..|ops| - 1]), ops[|ops| - 1];
            && (forall p, q :: UnderWay(w, p) && UnderWay(w, q) ==> p == q)
            && (forall p, q :: UnderWay(Step(w, op), p) && UnderWay(Step(w, op), q) ==> p == q)
            && (op.Kill? ==> !Emptied(w, op.pid))
  {
    assert ops[..|ops|] == ops;
    assert Run(Start, ops) == Step(Run(Start, ops[..|ops| - 1]), ops[|ops| - 1]);
    hide Step;
  }

  lemma FewerOneByOne(ops: seq<Op>)
    requires OneByOne(ops) && ops != []
    ensures OneByOne(ops[..|ops| - 1])
  {
    var init := ops[..|ops| - 1];
    assert forall k :: 0 <= k <= |init| ==> init[..k] == ops[..k];
  }

  lemma StepCompletes(w: World, op: Op, done: set<Commit>)
    requires Complete(w, done)
    requires forall p, q :: UnderWay(w, p) && UnderWay(w, q) ==> p == q
    requires forall p, q :: UnderWay(Step(w, op), p) && UnderWay(Step(w, op), q) ==> p == q
    requires op.Kill? ==> !Emptied(w, op.pid)
    ensures Complete(Step(w, op), done + if Fills(w, op) then w.procs[op.pid].names else {})
  {
    var w' := Step(w, op);
    FileAfter(w, op);
    forall pid ensures UnderWay(w', pid) <==>
              || (UnderWay(w, pid) && op != Kill(pid) && !(Fills(w, op) && op.pid == pid))
              || (pid !in w.procs && op.StartAck? && op.pid == pid)
    {
      UnderWayAfter(w, op, pid);
    }
    hide Step;
    forall pid | UnderWay(w', pid)
      ensures w'.procs[pid].seen == done + if Fills(w, op) then w.procs[op.pid].names else {}
    {
      UnderWayAfter(w, op, pid);
    }
    if p :| Emptied(w, p) {
      UnderWayAfter(w, op, p);
      assert Fills(w, op) || Emptied(w', p);
    } else if op.OpenAcks? {
      UnderWayAfter(w, op, op.pid);
      assert op == OpenAcks(op.pid);
      assert UnderWay(w, op.pid) ==> Emptied(w', op.pid);
    }
  }

  /**
   Two at once: when both read before either writes, the one that writes first is forgotten, at any
   point of any run.
   */
  lemma TwoAtOnceForgetTheFirst(before: seq<Op>, p: nat, q: nat, first: set<Commit>, second: set<Commit>)
    requires p != q && p !in Run(Start, before).procs && q !in Run(Start, before).procs
    ensures var ops := before + [StartAck(p, first)] + [StartAck(q, second)] +
                       [OpenAcks(p), FillAcks(p), OpenAcks(q)] + [FillAcks(q)];
            Run(Start, ops).files.acks == Run(Start, before).files.acks + second
  {
    var mid, between := before + [StartAck(p, first)], [OpenAcks(p), FillAcks(p), OpenAcks(q)];
    StartsReading(before, p, first);
    StartsReading(mid, q, second);
    EmptiedByNow(mid + [StartAck(q, second)], p, q);
    assert FillAcks(q) !in between && Kill(q) !in between;
    hide *;
    FillLeavesWhatItRead(mid, q, second, between);
  }

  lemma StartsReading(ops: seq<Op>, pid: nat, names: set<Commit>)
    requires pid !in Run(Start, ops).procs
    ensures var w, w' := Run(Start, ops), Run(Start, ops + [StartAck(pid, names)]);
            && UnderWay(w', pid) && w'.files.acks == w.files.acks
            && forall q :: q != pid && q !in w.procs ==> q !in w'.procs
  {
    RunMore(ops, StartAck(pid, names));
  }

  lemma EmptiedByNow(ops: seq<Op>, p: nat, q: nat)
    requires p != q && UnderWay(Run(Start, ops), q)
    ensures Emptied(Run(Start, ops + [OpenAcks(p), FillAcks(p), OpenAcks(q)]), q)
  {
    var first: seq<Op> := [OpenAcks(p), FillAcks(p)];
    RunAppend(Start, ops, first);
    assert ops + first + [OpenAcks(q)] == ops + [OpenAcks(p), FillAcks(p), OpenAcks(q)];
    RunMore(ops + first, OpenAcks(q));
    hide Run;
    PlanHolds(Run(Start, ops), first, q);
    EmptiesFile(Run(Start, ops + first), q);
  }

  lemma EmptiesFile(w: World, pid: nat)
    requires UnderWay(w, pid)
    ensures Emptied(Step(w, OpenAcks(pid)), pid)
  {
    UnderWayAfter(w, OpenAcks(pid), pid);
    hide Step;
  }

  lemma RunMore(ops: seq<Op>, op: Op)
    ensures Run(Start, ops + [op]) == Step(Run(Start, ops), op)
  {
    assert (ops + [op])[..|ops|] == ops;
  }

  /** One that is killed between emptying and filling the file takes all the others with it. */
  lemma CutShortLosesAll(ops: seq<Op>, pid: nat)
    requires UnderWay(Run(Start, ops), pid) && !Emptied(Run(Start, ops), pid)
    ensures Run(Start, ops + [OpenAcks(pid)] + [Kill(pid)]).files.acks == {}
  {
    RunMore(ops, OpenAcks(pid));
    RunMore(ops + [OpenAcks(pid)], Kill(pid));
  }
}
