/**
 The exempt-commit review protocol of scripts/exempt_review.py and the evidence that
 scripts/exempt_review_gate.py reads, as interleaved steps of watchers, sweeps, kills and
 acknowledgements over shared files.
 */
module ReviewProtocol {
  import opened Base

  type Commit = string

  /** A marker file: `<commit>_<stamp>.json`. */
  datatype Name = Name(commit: Commit, stamp: int)

  datatype Marker = Marker(ts: int, timeout: int)

  datatype Status = Pass | Fail

  /** A result file: opened and not yet filled, or complete. */
  datatype File = Torn | Whole(status: Status)

  /** The result files of one commit, by the second in their name. */
  type Shelf = map<int, File>

  /**
   `acks` is what a reader makes of the acknowledgement file: nothing while it is opened and not yet
   filled, since both readers take an unreadable file for an empty one.
   */
  datatype Files = Files(markers: map<Name, Marker>, claims: set<Name>, results: map<Commit, Shelf>, acks: set<Commit>)

  function ShelfOf(f: Files, c: Commit): Shelf { if c in f.results then f.results[c] else map[] }

  predicate HasMarker(f: Files, c: Commit) { exists n :: n in f.markers && n.commit == c }

  // ---------------------------------------------------------------------------------------------
  // Finalising one marker: open the result file, fill it, look for the marker, unlink it
  // ---------------------------------------------------------------------------------------------

  datatype Phase = ToOpen | Filling(stamp: int) | ToCheck | ToUnlink

  datatype Job = Job(name: Name, status: Status, phase: Phase)

  datatype Progress = Next(job: Job) | Finished | Raised

  function Shelved(f: Files, c: Commit, stamp: int, file: File): Files {
    f.(results := f.results[c := ShelfOf(f, c)[stamp := file]])
  }

  function Advanced(f: Files, now: int, j: Job): (Files, Progress) {
    match j.phase
    case ToOpen => (Shelved(f, j.name.commit, now, Torn), Next(j.(phase := Filling(now))))
    case Filling(s) => (Shelved(f, j.name.commit, s, Whole(j.status)), Next(j.(phase := ToCheck)))
    case ToCheck => (f, if j.name in f.markers then Next(j.(phase := ToUnlink)) else Finished)
    case ToUnlink =>
      if j.name in f.markers then (f.(markers := f.markers - {j.name}), Finished) else (f, Raised)
  }

  // ---------------------------------------------------------------------------------------------
  // Processes
  // ---------------------------------------------------------------------------------------------

  datatype Proc =
    | Claimed(name: Name)
    | Testing(name: Name)
    | Closing(job: Job)
    | Sweeping(since: int, timeout: int, todo: set<Name>, current: Option<Job>)
    | Acking(seen: set<Commit>, names: set<Commit>, emptied: bool)

  function JobOf(p: Proc): Option<Job> {
    match p
    case Closing(j) => Some(j)
    case Sweeping(_, _, _, j) => j
    case _ => None
  }

  function Watched(p: Proc): Option<Name> {
    match p
    case Claimed(n) => Some(n)
    case Testing(n) => Some(n)
    case Closing(j) => Some(j.name)
    case Sweeping(_, _, _, _) => None
    case Acking(_, _, _) => None
  }

  /**
   `planted`, `greens` and `cut` only record history: markers ever set, suites that came back green,
   writes cut short.
   */
  datatype World = World(files: Files, procs: map<nat, Proc>, now: int,
                         planted: set<Commit>, greens: set<Commit>, cut: set<(Commit, int)>)

  const Start := World(Files(map[], {}, map[], {}), map[], 0, {}, {}, {})

  datatype Op =
    | Plant(name: Name, marker: Marker)
    | Tick(seconds: nat)
    | Claim(pid: nat, target: Name)
    | Read(pid: nat)
    | TestsDone(pid: nat, rc: Option<int>)
    | Advance(pid: nat)
    | StartSweep(pid: nat, timeout: int, skip: Option<Name>)
    | Pick(pid: nat, stale: Name)
    | Kill(pid: nat)
    | StartAck(pid: nat, names: set<Commit>)
    | OpenAcks(pid: nat)
    | FillAcks(pid: nat)

  function Verdict(rc: Option<int>): Status { if rc == Some(0) then Pass else Fail }

  function Without(w: World, pid: nat): World { w.(procs := w.procs - {pid}) }

  function AfterJob(w: World, pid: nat, p: Proc, r: (Files, Progress)): World {
    var w' := w.(files := r.0);
    match (p, r.1)
    case (Closing(_), Next(j)) => w'.(procs := w.procs[pid := Closing(j)])
    case (Sweeping(s, t, todo, _), Next(j)) => w'.(procs := w.procs[pid := Sweeping(s, t, todo, Some(j))])
    case (Sweeping(s, t, todo, _), Finished) => w'.(procs := w.procs[pid := Sweeping(s, t, todo, None)])
    case _ => Without(w', pid)
  }

  /** One step of one process or of the environment; a step that is not enabled changes nothing. */
  function Step(w: World, op: Op): World {
    var f := w.files;
    match op
    case Plant(n, m) =>
      if n in f.markers then w
      else w.(files := f.(markers := f.markers[n := m]), planted := w.planted + {n.commit})
    case Tick(d) => w.(now := w.now + d)
    case Claim(pid, n) =>
      if pid in w.procs || n in f.claims then w
      else w.(files := f.(claims := f.claims + {n}), procs := w.procs[pid := Claimed(n)])
    case Read(pid) =>
      if pid !in w.procs || !w.procs[pid].Claimed? then w
      else if w.procs[pid].name !in f.markers then Without(w, pid)
      else w.(procs := w.procs[pid := Testing(w.procs[pid].name)])
    case TestsDone(pid, rc) =>
      if pid !in w.procs || !w.procs[pid].Testing? then w
      else
        var n := w.procs[pid].name;
        w.(procs := w.procs[pid := Closing(Job(n, Verdict(rc), ToOpen))],
           greens := if Verdict(rc) == Pass then w.greens + {n.commit} else w.greens)
    case Advance(pid) =>
      if pid !in w.procs || JobOf(w.procs[pid]).None? then w
      else AfterJob(w, pid, w.procs[pid], Advanced(f, w.now, JobOf(w.procs[pid]).value))
    case StartSweep(pid, timeout, skip) =>
      if pid in w.procs then w
      else
        var todo := set n | n in f.markers && skip != Some(n);
        w.(procs := w.procs[pid := Sweeping(w.now, timeout, todo, None)])
    case Pick(pid, n) =>
      if pid !in w.procs || !w.procs[pid].Sweeping? || w.procs[pid].current.Some? || n !in w.procs[pid].todo then w
      else
        var p := w.procs[pid];
        var stale := n in f.markers && p.since - f.markers[n].ts >= p.timeout;
        var job := if stale then Some(Job(n, Fail, ToOpen)) else None;
        w.(procs := w.procs[pid := Sweeping(p.since, p.timeout, p.todo - {n}, job)])
    case Kill(pid) =>
      if pid !in w.procs then w
      else
        var j := JobOf(w.procs[pid]);
        var w' := Without(w, pid);
        if j.Some? && j.value.phase.Filling? then
          w'.(cut := w.cut + {(j.value.name.commit, j.value.phase.stamp)})
        else w'
    case StartAck(pid, names) =>
      if pid in w.procs then w else w.(procs := w.procs[pid := Acking(f.acks, names, false)])
    case OpenAcks(pid) =>
      if pid !in w.procs || !w.procs[pid].Acking? || w.procs[pid].emptied then w
      else w.(files := f.(acks := {}), procs := w.procs[pid := w.procs[pid].(emptied := true)])
    case FillAcks(pid) =>
      if pid !in w.procs || !w.procs[pid].Acking? || !w.procs[pid].emptied then w
      else Without(w.(files := f.(acks := w.procs[pid].seen + w.procs[pid].names)), pid)
  }

  function Run(w: World, ops: seq<Op>): World {
    if ops == [] then w else Step(Run(w, ops[..|ops| - 1]), ops[|ops| - 1])
  }

  // ---------------------------------------------------------------------------------------------
  // Evidence
  // ---------------------------------------------------------------------------------------------

  datatype Evidence = Passed | FailUnacked | FailAcked | Inflight | NoEvidence

  predicate AtMost(s: set<int>, k: int) { forall j :: j in s ==> j <= k }

  lemma {:induction false} HasGreatest(s: set<int>)
    requires s != {}
    ensures exists k :: k in s && AtMost(s, k)
  {
    var x := Member(s);
    if s == {x} {
      assert AtMost(s, x);
    } else {
      HasGreatest(s - {x});
      var k :| k in s - {x} && AtMost(s - {x}, k);
      assert forall j :: j in s ==> j == x || j in s - {x};
      assert AtMost(s, if k < x then x else k);
    }
  }

  function Greatest(s: set<int>): (k: int)
    requires s != {}
    ensures k in s && forall j :: j in s ==> j <= k
  {
    HasGreatest(s);
    var k :| k in s && AtMost(s, k);
    k
  }

  /** The last result file in name order. */
  function Newest(f: Files, c: Commit): Option<File> {
    var shelf := ShelfOf(f, c);
    if shelf.Keys == {} then None else Some(shelf[Greatest(shelf.Keys)])
  }

  /** The gate's reading of the result files; `acked` is consulted only for a failure. */
  function FromResult(file: File, acked: bool): Evidence {
    match file
    case Torn => NoEvidence
    case Whole(Pass) => Passed
    case Whole(Fail) => if acked then FailAcked else FailUnacked
  }

  function EvidenceOf(f: Files, c: Commit): Evidence {
    var newest := Newest(f, c);
    if newest.Some? then FromResult(newest.value, c in f.acks)
    else if HasMarker(f, c) then Inflight
    else NoEvidence
  }

  predicate Decide(e: Evidence) { e == Passed || e == FailAcked || e == NoEvidence }

  // ---------------------------------------------------------------------------------------------
  // What every interleaving keeps
  // ---------------------------------------------------------------------------------------------

  /** A commit whose marker was ever set has a marker or a result file. */
  predicate Witnessed(f: Files, c: Commit) { HasMarker(f, c) || ShelfOf(f, c) != map[] }

  /** A job past its write has a result file to show, and claims green only for a green suite. */
  predicate JobSound(w: World, j: Job) {
    && (j.status == Pass ==> j.name.commit in w.greens)
    && (j.phase.ToCheck? || j.phase.ToUnlink? ==> ShelfOf(w.files, j.name.commit) != map[])
  }

  predicate BeingFilled(w: World, pid: nat, c: Commit, stamp: int) {
    pid in w.procs && JobOf(w.procs[pid]).Some?
    && JobOf(w.procs[pid]).value.name.commit == c && JobOf(w.procs[pid]).value.phase == Filling(stamp)
  }

  ghost predicate TornExplained(w: World, c: Commit, stamp: int) {
    (c, stamp) in w.cut || exists pid :: BeingFilled(w, pid, c, stamp)
  }

  ghost predicate NothingLost(w: World) { forall c :: c in w.planted ==> Witnessed(w.files, c) }

  ghost predicate JobsSound(w: World) {
    forall pid :: pid in w.procs && JobOf(w.procs[pid]).Some? ==> JobSound(w, JobOf(w.procs[pid]).value)
  }

  ghost predicate GreenIsGreen(w: World) {
    forall c, s :: s in ShelfOf(w.files, c) && ShelfOf(w.files, c)[s] == Whole(Pass) ==> c in w.greens
  }

  ghost predicate TearsExplained(w: World) {
    forall c, s :: s in ShelfOf(w.files, c) && ShelfOf(w.files, c)[s] == Torn ==> TornExplained(w, c, s)
  }

  ghost predicate ClaimsHeldOnce(w: World) {
    && (forall pid :: pid in w.procs && Watched(w.procs[pid]).Some? ==> Watched(w.procs[pid]).value in w.files.claims)
    && (forall p, q :: p in w.procs && q in w.procs && p != q && Watched(w.procs[p]).Some? ==>
                         Watched(w.procs[p]) != Watched(w.procs[q]))
  }

  ghost predicate MarkersPlanted(w: World) { forall n :: n in w.files.markers ==> n.commit in w.planted }

  ghost predicate Inv(w: World) {
    MarkersPlanted(w) && NothingLost(w) && JobsSound(w) && GreenIsGreen(w) && TearsExplained(w) && ClaimsHeldOnce(w)
  }
}
