/**
 The watcher and the sweep of scripts/exempt_review.py as one process runs them from start to end,
 on the files of `ReviewProtocol`.
 */
module ExemptReview {
  import opened Base
  import opened ReviewProtocol

  // ---------------------------------------------------------------------------------------------
  // Running the suite
  // ---------------------------------------------------------------------------------------------

  /**
   One attempt at the suite: none left in time, cut off, or ended; `quota` says the log tail shows
   thread exhaustion.
   */
  datatype Attempt = OutOfTime | TimedOut | Exit(rc: int, quota: bool)

  /** The attempt is over and the next level is worth trying. */
  predicate Retryable(a: Attempt) { a.Exit? && a.rc != 0 && a.quota }

  const Levels: seq<nat> := [4, 2, 1]

  /** What the settling attempt says. */
  function Answer(a: Attempt): Option<int> { if a.Exit? then Some(a.rc) else None }

  /** The answer is that of the first attempt that is not retryable, or of the last one. */
  method RunSuite(attempt: nat -> Attempt) returns (rc: Option<int>, ghost settled: nat)
    ensures settled < |Levels| && rc == Answer(attempt(Levels[settled]))
    ensures forall j :: 0 <= j < settled ==> Retryable(attempt(Levels[j]))
    ensures Retryable(attempt(Levels[settled])) ==> settled == |Levels| - 1
    ensures rc == Some(0) <==> exists k: nat :: k < |Levels| && Green(attempt, k)
  {
    settled := 0;
    var i := 0;
    while i < |Levels|
      invariant 0 <= i <= |Levels| && settled == i
      invariant i < |Levels|
      invariant forall j :: 0 <= j < i ==> Retryable(attempt(Levels[j]))
    {
      var a := attempt(Levels[i]);
      if a.OutOfTime? || a.TimedOut? { return None, i; }
      if a.rc == 0 {
        assert Green(attempt, i);
        return Some(0), i;
      }
      if !a.quota || Levels[i] == Levels[|Levels| - 1] { return Some(a.rc), i; }
      i := i + 1;
      settled := i;
    }
    rc := Some(1);
  }

  /** Level `k` is green and every level before it ran out of threads. */
  ghost predicate Green(attempt: nat -> Attempt, k: nat)
    requires k < |Levels|
  {
    attempt(Levels[k]).Exit? && attempt(Levels[k]).rc == 0 && forall j :: 0 <= j < k ==> Retryable(attempt(Levels[j]))
  }

  predicate EndsGreen(a: Attempt) { a.Exit? && a.rc == 0 }

  predicate NoThreads(a: Attempt) { a.Exit? && a.rc != 0 && a.quota }

  /** Green on four workers, or on two once four ran out of threads, or on one once both did. */
  lemma GreenExactly(attempt: nat -> Attempt)
    ensures (exists k: nat :: k < |Levels| && Green(attempt, k)) <==>
              || EndsGreen(attempt(4))
              || (NoThreads(attempt(4)) && (EndsGreen(attempt(2)) || (NoThreads(attempt(2)) && EndsGreen(attempt(1)))))
  {
    assert Levels[0] == 4 && Levels[1] == 2 && Levels[2] == 1;
    if EndsGreen(attempt(4)) { assert Green(attempt, 0); }
    if NoThreads(attempt(4)) && EndsGreen(attempt(2)) { assert Green(attempt, 1); }
    if NoThreads(attempt(4)) && NoThreads(attempt(2)) && EndsGreen(attempt(1)) { assert Green(attempt, 2); }
  }

  // ---------------------------------------------------------------------------------------------
  // Finalising
  // ---------------------------------------------------------------------------------------------

  /** The files once a marker is finalised. */
  function Finalized(f: Files, now: int, n: Name, status: Status): Files {
    Shelved(f, n.commit, now, Whole(status)).(markers := f.markers - {n})
  }

  /**
   Afterwards the marker is gone and the commit has a whole result of that second; every other marker, result,
   claim and acknowledgement is as it was.
   */
  lemma FinalizedExactly(f: Files, now: int, n: Name, status: Status)
    ensures var g := Finalized(f, now, n, status);
            && (forall m :: m in g.markers <==> m in f.markers && m != n)
            && (forall m :: m in g.markers ==> g.markers[m] == f.markers[m])
            && g.claims == f.claims && g.acks == f.acks
            && (forall c, s :: s in ShelfOf(g, c) <==> s in ShelfOf(f, c) || (c == n.commit && s == now))
            && (forall c, s :: s in ShelfOf(g, c) ==>
                  ShelfOf(g, c)[s] == if c == n.commit && s == now then Whole(status) else ShelfOf(f, c)[s])
  {
    var g := Finalized(f, now, n, status);
    forall c ensures ShelfOf(g, c) == if c == n.commit then ShelfOf(f, c)[now := Whole(status)] else ShelfOf(f, c) {}
  }

  function Uninterrupted(f: Files, now: int, j: Job, k: nat): (Files, Progress)
    requires k > 0
    decreases k
  {
    var r := Advanced(f, now, j);
    if k == 1 || !r.1.Next? then r else Uninterrupted(r.0, now, r.1.job, k - 1)
  }

  /** Four steps of the protocol's job, with nobody in between, finalise the marker and never raise. */
  lemma FinalizedIsFourSteps(f: Files, now: int, n: Name, status: Status)
    ensures Uninterrupted(f, now, Job(n, status, ToOpen), 4) == (Finalized(f, now, n, status), Finished)
  {
    var r1 := Advanced(f, now, Job(n, status, ToOpen));
    var r2 := Advanced(r1.0, now, r1.1.job);
    var shelf := ShelfOf(f, n.commit);
    assert shelf[now := Torn][now := Whole(status)] == shelf[now := Whole(status)];
    assert f.results[n.commit := shelf[now := Torn]][n.commit := shelf[now := Whole(status)]]
        == f.results[n.commit := shelf[now := Whole(status)]];
    assert r2.0 == Shelved(f, n.commit, now, Whole(status));
    var r3 := Advanced(r2.0, now, r2.1.job);
    assert Uninterrupted(f, now, Job(n, status, ToOpen), 4) == Uninterrupted(r1.0, now, r1.1.job, 3);
    assert Uninterrupted(r1.0, now, r1.1.job, 3) == Uninterrupted(r2.0, now, r2.1.job, 2);
    if n !in f.markers { assert f.markers - {n} == f.markers; }
  }

  // ---------------------------------------------------------------------------------------------
  // Sweeping
  // ---------------------------------------------------------------------------------------------

  /** The sweep that starts at `now` takes `n`. */
  predicate Stale(f: Files, now: int, timeout: int, skip: Option<Name>, n: Name) {
    n in f.markers && skip != Some(n) && now - f.markers[n].ts >= timeout
  }

  function StaleMarkers(f: Files, now: int, timeout: int, skip: Option<Name>): set<Name> {
    set n | n in f.markers && Stale(f, now, timeout, skip, n)
  }

  /** Some stale marker of commit `c` among `order` was finalised in second `s`. */
  ghost predicate FinalisedAt(order: seq<Name>, clock: Name -> int, stale: set<Name>, c: Commit, s: int) {
    exists n :: n in order && n in stale && n.commit == c && clock(n) == s
  }

  /** `g` is `f` with the stale markers of `order` finalised as failures, each in its own second, and nothing else. */
  ghost predicate Swept(f: Files, g: Files, order: seq<Name>, clock: Name -> int, stale: set<Name>) {
    && g.claims == f.claims && g.acks == f.acks
    && g.markers == f.markers - Taken(order, stale)
    && (forall c, s :: s in ShelfOf(g, c) <==> s in ShelfOf(f, c) || FinalisedAt(order, clock, stale, c, s))
    && (forall c, s :: s in ShelfOf(g, c) ==>
                         ShelfOf(g, c)[s] == if FinalisedAt(order, clock, stale, c, s) then Whole(Fail)
                           else ShelfOf(f, c)[s])
  }

  function Taken(order: seq<Name>, stale: set<Name>): set<Name> { set n | n in order && n in stale }

  lemma TakenMore(order: seq<Name>, stale: set<Name>, n: Name)
    requires n !in order
    ensures |Taken(order + [n], stale)| == |Taken(order, stale)| + if n in stale then 1 else 0
  {
    assert Taken(order + [n], stale) == Taken(order, stale) + if n in stale then {n} else {};
  }

  lemma NothingTaken(stale: set<Name>)
    ensures |Taken([], stale)| == 0
  {
  }

  lemma AllTaken(order: seq<Name>, stale: set<Name>)
    requires forall n :: n in stale ==> n in order
    ensures Taken(order, stale) == stale
  {
  }

  lemma SweptNothing(f: Files, clock: Name -> int, stale: set<Name>)
    ensures Swept(f, f, [], clock, stale)
  {
  }

  lemma SweptSkip(f: Files, g: Files, order: seq<Name>, clock: Name -> int, stale: set<Name>, n: Name)
    requires Swept(f, g, order, clock, stale) && n !in stale
    ensures Swept(f, g, order + [n], clock, stale)
  {
    forall c, s ensures FinalisedAt(order + [n], clock, stale, c, s) == FinalisedAt(order, clock, stale, c, s) {
      if FinalisedAt(order + [n], clock, stale, c, s) {
        var m :| m in order + [n] && m in stale && m.commit == c && clock(m) == s;
        assert m in order;
      }
      if FinalisedAt(order, clock, stale, c, s) {
        var m :| m in order && m in stale && m.commit == c && clock(m) == s;
        assert m in order + [n];
      }
    }
    assert Taken(order + [n], stale) == Taken(order, stale);
  }

  lemma SweptOne(f: Files, g: Files, order: seq<Name>, clock: Name -> int, stale: set<Name>, n: Name)
    requires Swept(f, g, order, clock, stale) && n in stale
    ensures Swept(f, Finalized(g, clock(n), n, Fail), order + [n], clock, stale)
  {
    var h := Finalized(g, clock(n), n, Fail);
    forall c, s
      ensures FinalisedAt(order + [n], clock, stale, c, s)
          <==> FinalisedAt(order, clock, stale, c, s) || (c == n.commit && s == clock(n))
    {
      if FinalisedAt(order + [n], clock, stale, c, s) {
        var m :| m in order + [n] && m in stale && m.commit == c && clock(m) == s;
        assert m == n || m in order;
      }
      if FinalisedAt(order, clock, stale, c, s) {
        var m :| m in order && m in stale && m.commit == c && clock(m) == s;
        assert m in order + [n];
      }
      if c == n.commit && s == clock(n) { assert n in order + [n]; }
    }
    assert Taken(order + [n], stale) == Taken(order, stale) + {n};
    forall c ensures ShelfOf(h, c) == if c == n.commit then ShelfOf(g, c)[clock(n) := Whole(Fail)] else ShelfOf(g, c) {}
  }

  // ---------------------------------------------------------------------------------------------
  // The process
  // ---------------------------------------------------------------------------------------------

  datatype Outcome = SteppedAside | MarkerGone | Reviewed(status: Status)

  class ReviewHost {
    var files: Files

    constructor (f: Files)
      ensures files == f
    {
      files := f;
    }

    /** The exclusive claim: true for exactly one caller. */
    method ClaimMarker(n: Name) returns (mine: bool)
      modifies this
      ensures mine <==> n !in old(files).claims
      ensures files == old(files).(claims := old(files).claims + {n})
    {
      if n in files.claims {
        assert files.claims + {n} == files.claims;
        return false;
      }
      files := files.(claims := files.claims + {n});
      mine := true;
    }

    method WriteResult(now: int, c: Commit, status: Status)
      modifies this
      ensures files == Shelved(old(files), c, now, Whole(status))
    {
      files := Shelved(files, c, now, Torn);
      files := Shelved(files, c, now, Whole(status));
      var shelf := old(ShelfOf(files, c));
      assert shelf[now := Torn][now := Whole(status)] == shelf[now := Whole(status)];
      assert old(files).results[c := shelf[now := Torn]][c := shelf[now := Whole(status)]]
          == old(files).results[c := shelf[now := Whole(status)]];
    }

    method Finalize(now: int, n: Name, status: Status)
      modifies this
      ensures files == Finalized(old(files), now, n, status)
    {
      WriteResult(now, n.commit, status);
      if n in files.markers {
        files := files.(markers := files.markers - {n});
      } else {
        assert files.markers - {n} == files.markers;
      }
    }

    /**
     Finalises exactly the stale markers, whatever the order they are visited in; `clock` gives the
     second each of them is written in.
     */
    method CheckStale(now: int, timeout: int, skip: Option<Name>, order: seq<Name>,
                      clock: Name -> int)
      returns (handled: nat)
      requires Enumerates(order, files.markers.Keys)
      modifies this
      ensures handled == |StaleMarkers(old(files), now, timeout, skip)|
      ensures Swept(old(files), files, order, clock, StaleMarkers(old(files), now, timeout, skip))
    {
      hide Swept, Finalized, Taken;
      ghost var f := files;
      ghost var stale := StaleMarkers(files, now, timeout, skip);
      handled := 0;
      SweptNothing(files, clock, stale);
      NothingTaken(stale);
      var i := 0;
      while i < |order|
        invariant 0 <= i <= |order|
        invariant order[..0] == []
        invariant Swept(f, files, order[..i], clock, stale)
        invariant handled == |Taken(order[..i], stale)|
      {
        var n := order[i];
        assert order[..i + 1] == order[..i] + [n];
        assert n !in order[..i];
        UntouchedMarker(f, files, order[..i], clock, stale, n);
        TakenMore(order[..i], stale, n);
        if skip != Some(n) && now - files.markers[n].ts >= timeout {
          SweptOne(f, files, order[..i], clock, stale, n);
          Finalize(clock(n), n, Fail);
          handled := handled + 1;
        } else {
          SweptSkip(f, files, order[..i], clock, stale, n);
        }
        i := i + 1;
      }
      assert order[..i] == order;
      AllTaken(order, stale);
    }

    /**
     A watcher: it steps aside when the marker is claimed, gives up when the marker is gone, and
     otherwise sweeps the others, runs the suite and finalises its own marker at `finished`.
     */
    method Watch(n: Name, timeout: int, started: int, order: seq<Name>, clock: Name -> int, attempt: nat -> Attempt,
                 finished: int)
      returns (outcome: Outcome)
      requires Enumerates(order, files.markers.Keys)
      modifies this
      ensures outcome == SteppedAside <==> n in old(files).claims
      ensures outcome == SteppedAside ==> files == old(files)
      ensures outcome == MarkerGone <==> n !in old(files).claims && n !in old(files).markers
      ensures outcome == MarkerGone ==> files == old(files).(claims := old(files).claims + {n})
      ensures outcome == Reviewed(Pass) ==> exists k: nat :: k < |Levels| && Green(attempt, k)
      ensures outcome == Reviewed(Fail) ==> forall k: nat :: k < |Levels| ==> !Green(attempt, k)
      ensures outcome.Reviewed? ==>
                Finalising(old(files), files, n, timeout, started, order, clock, outcome.status, finished)
    {
      var mine := ClaimMarker(n);
      if !mine { return SteppedAside; }
      if n !in files.markers { return MarkerGone; }
      var _ := CheckStale(started, timeout, Some(n), order, clock);
      ghost var swept := files;
      var rc, _ := RunSuite(attempt);
      var status := Verdict(rc);
      Finalize(finished, n, status);
      assert Finalized(swept, finished, n, status) == files;
      outcome := Reviewed(status);
    }
  }

  /** The whole effect of a watcher that ran its review. */
  ghost predicate Finalising(f: Files, g: Files, n: Name, timeout: int, started: int, order: seq<Name>,
                             clock: Name -> int,
                             status: Status, finished: int)
  {
    var claimed := f.(claims := f.claims + {n});
    exists swept :: Swept(claimed, swept, order, clock, StaleMarkers(claimed, started, timeout, Some(n)))
                 && g == Finalized(swept, finished, n, status)
  }

  lemma UntouchedMarker(f: Files, g: Files, order: seq<Name>, clock: Name -> int, stale: set<Name>, n: Name)
    requires Swept(f, g, order, clock, stale) && n in f.markers && n !in order
    ensures n in g.markers && g.markers[n] == f.markers[n]
  {
  }

  /** The marker's commit has been waiting for its result at least as long as allowed. */
  predicate Overdue(f: Files, now: int, timeout: int, skip: Option<Name>, n: Name) {
    n in f.markers && f.markers[n].ts + timeout <= now && (skip.None? || skip.value != n)
  }

  /**
   After a sweep every stale commit shows a failure written by it, and no stale marker but the
   skipped one is left.
   */
  lemma SweepSettlesTheStale(f: Files, g: Files, now: int, timeout: int, skip: Option<Name>, order: seq<Name>,
                             clock: Name -> int, n: Name)
    requires Enumerates(order, f.markers.Keys)
    requires Swept(f, g, order, clock, StaleMarkers(f, now, timeout, skip))
    requires Overdue(f, now, timeout, skip, n)
    ensures g.claims == f.claims && g.acks == f.acks
    ensures n !in g.markers && clock(n) in ShelfOf(g, n.commit) && ShelfOf(g, n.commit)[clock(n)] == Whole(Fail)
    ensures forall m :: m in g.markers <==> m in f.markers && !Overdue(f, now, timeout, skip, m)
    ensures forall c, s :: s in ShelfOf(f, c) ==> s in ShelfOf(g, c)
    ensures forall c, s :: s in ShelfOf(g, c) && (s !in ShelfOf(f, c) || ShelfOf(g, c)[s] != ShelfOf(f, c)[s]) ==>
              exists m :: Overdue(f, now, timeout, skip, m) && m.commit == c && clock(m) == s
                && ShelfOf(g, c)[s] == Whole(Fail)
    ensures (forall s :: s in ShelfOf(f, n.commit) ==> s <= clock(n))
            && (forall m :: m in order ==> clock(m) <= clock(n)) ==>
              Newest(g, n.commit) == Some(Whole(Fail))
  {
    var stale := StaleMarkers(f, now, timeout, skip);
    assert forall m :: Overdue(f, now, timeout, skip, m) <==> m in stale;
    assert n in stale && n in order;
    assert FinalisedAt(order, clock, stale, n.commit, clock(n));
    forall s | s in ShelfOf(g, n.commit) && s !in ShelfOf(f, n.commit)
      ensures exists m :: m in order && clock(m) == s
    {
      var m :| m in order && m in stale && m.commit == n.commit && clock(m) == s;
    }
  }

  /**
   After a review its own marker is claimed and gone and its result says what the suite said; the other markers
   that waited too long are gone as well, each with a failure, and nothing else is different.
   */
  lemma ReviewLeaves(f: Files, g: Files, n: Name, timeout: int, started: int, order: seq<Name>, clock: Name -> int,
                     status: Status, finished: int)
    requires Enumerates(order, f.markers.Keys)
    requires Finalising(f, g, n, timeout, started, order, clock, status, finished)
    ensures g.claims == f.claims + {n} && g.acks == f.acks
    ensures forall m :: m in g.markers <==>
              m in f.markers && m != n && !Overdue(f, started, timeout, Some(n), m)
    ensures finished in ShelfOf(g, n.commit) && ShelfOf(g, n.commit)[finished] == Whole(status)
    ensures forall m :: Overdue(f, started, timeout, Some(n), m) ==> clock(m) in ShelfOf(g, m.commit)
    ensures forall c, s :: s in ShelfOf(f, c) ==> s in ShelfOf(g, c)
    ensures forall c, s ::
              s in ShelfOf(g, c) && (s !in ShelfOf(f, c) || ShelfOf(g, c)[s] != ShelfOf(f, c)[s]) ==>
                || (c == n.commit && s == finished)
                || (exists m :: Overdue(f, started, timeout, Some(n), m) && m.commit == c && clock(m) == s
                      && ShelfOf(g, c)[s] == Whole(Fail))
  {
    var claimed := f.(claims := f.claims + {n});
    var swept :| Swept(claimed, swept, order, clock, StaleMarkers(claimed, started, timeout, Some(n)))
                 && g == Finalized(swept, finished, n, status);
    FinalizedExactly(swept, finished, n, status);
    var stale := StaleMarkers(claimed, started, timeout, Some(n));
    assert forall m :: Overdue(f, started, timeout, Some(n), m) <==> m in stale;
    assert forall c :: ShelfOf(claimed, c) == ShelfOf(f, c);
    hide Finalized, Finalising;
    forall m | m in stale ensures clock(m) in ShelfOf(swept, m.commit) {
      assert FinalisedAt(order, clock, stale, m.commit, clock(m));
    }
  }
}
