/**
 The restart limiter of scripts/lingos_tier3.py: a daemon whose port has been down long enough is
 started unless it was started within the hour.  Times are in ticks.
 */
module RestartLimiter {
  import opened Base

  const Minute := 60_000_000
  const Hour := 60 * Minute
  const CooldownMinutes := 60
  const MaxPerHour := 3
  const DownThreshold := 30

  /** What one scan sees of one daemon, the time it counts recent starts, and the time it notes a start. */
  datatype Look = Look(up: bool, downMinutes: int, counted: int, noted: int)

  datatype Verdict = Up | NotDownLong | Cooling | Capped | Started

  function After(history: seq<int>, cutoff: int): seq<int> {
    if history == [] then []
    else if history[0] > cutoff then [history[0]] + After(history[1..], cutoff)
    else After(history[1..], cutoff)
  }

  function Recent(history: seq<int>, look: Look): nat { |After(history, look.counted - Hour)| }

  /** The limiter's decision for one daemon. */
  function Decide(history: seq<int>, now: int, look: Look): Verdict {
    if look.up then Up
    else if look.downMinutes < DownThreshold then NotDownLong
    else if Recent(history, look) > 0 && history != []
      && now - history[|history| - 1] < CooldownMinutes * Minute then Cooling
    else if Recent(history, look) >= MaxPerHour then Capped
    else Started
  }

  /** The history once a start is noted: what is older than a day is dropped. */
  function Noted(history: seq<int>, at: int): seq<int> { After(history + [at], at - 24 * Hour) }

  function Visited(history: seq<int>, now: int, look: Look, dryRun: bool): seq<int> {
    if Decide(history, now, look) == Started && !dryRun then Noted(history, look.noted) else history
  }

  class Tier3 {
    var histories: map<string, seq<int>>
    var lastUp: map<string, int>

    constructor ()
      ensures histories == map[] && lastUp == map[]
    {
      histories := map[];
      lastUp := map[];
    }

    function HistoryOf(name: string): seq<int> reads this { if name in histories then histories[name] else [] }

    method CountRecentRestarts(name: string, counted: int) returns (n: nat)
      ensures n == |After(HistoryOf(name), counted - Hour)|
    {
      var history := HistoryOf(name);
      n := 0;
      for i := 0 to |history|
        invariant |After(history, counted - Hour)| == n + |After(history[i..], counted - Hour)|
      {
        assert history[i..][1..] == history[i + 1..];
        if history[i] > counted - Hour { n := n + 1; }
      }
    }

    method RecordRestart(name: string, at: int)
      modifies this`histories
      ensures histories == old(histories)[name := Noted(old(HistoryOf(name)), at)]
    {
      var history := HistoryOf(name) + [at];
      var kept: seq<int> := [];
      assert history[0..] == history;
      for i := 0 to |history|
        invariant After(history, at - 24 * Hour) == kept + After(history[i..], at - 24 * Hour)
        invariant histories == old(histories)
      {
        assert history[i..][1..] == history[i + 1..];
        if history[i] > at - 24 * Hour { kept := kept + [history[i]]; }
      }
      assert history[|history|..] == [] && kept + [] == kept;
      assert kept == Noted(old(HistoryOf(name)), at);
      histories := histories[name := kept];
    }

    /** One daemon: decided on its own history, which alone may change. */
    method Consider(name: string, now: int, look: Look, dryRun: bool) returns (verdict: Verdict)
      modifies this
      ensures verdict == Decide(old(HistoryOf(name)), now, look)
      ensures HistoryOf(name) == Visited(old(HistoryOf(name)), now, look, dryRun)
      ensures forall n :: n != name ==> HistoryOf(n) == old(HistoryOf(n))
      ensures lastUp == if look.up then old(lastUp)[name := now] else old(lastUp)
    {
      if look.up {
        lastUp := lastUp[name := now];
        return Up;
      }
      if look.downMinutes < DownThreshold { return NotDownLong; }
      var recent := CountRecentRestarts(name, look.counted);
      if recent > 0 {
        SomeRecent(HistoryOf(name), look.counted - Hour);
        var history := HistoryOf(name);
        if now - history[|history| - 1] < CooldownMinutes * Minute { return Cooling; }
      }
      if recent >= MaxPerHour { return Capped; }
      if !dryRun { RecordRestart(name, look.noted); }
      verdict := Started;
    }

    /** One pass over the allow-list: every daemon on it is decided on its own history, all others keep theirs. */
    method Scan(names: seq<string>, now: int, look: string -> Look,
                dryRun: bool)
      returns (verdicts: map<string, Verdict>)
      requires NoDuplicates(names)
      modifies this
      ensures forall n :: n in names <==> n in verdicts
      ensures forall n :: n in names ==> verdicts[n] == Decide(old(HistoryOf(n)), now, look(n))
      ensures forall n :: HistoryOf(n) == if n in names then Visited(old(HistoryOf(n)), now, look(n), dryRun)
              else old(HistoryOf(n))
      ensures forall n :: n in names && look(n).up ==> n in lastUp && lastUp[n] == now
    {
      hide Decide, Visited;
      verdicts := map[];
      for k := 0 to |names|
        invariant forall n :: n in names[..k] <==> n in verdicts
        invariant forall n :: n in names[..k] ==> verdicts[n] == Decide(old(HistoryOf(n)), now, look(n))
        invariant forall n :: HistoryOf(n) == if n in names[..k] then Visited(old(HistoryOf(n)), now, look(n), dryRun)
                  else old(HistoryOf(n))
        invariant forall n :: n in names[..k] && look(n).up ==> n in lastUp && lastUp[n] == now
      {
        var name := names[k];
        assert names[..k + 1] == names[..k] + [name];
        assert name !in names[..k];
        var verdict := Consider(name, now, look(name), dryRun);
        verdicts := verdicts[name := verdict];
      }
      assert names[..|names|] == names;
    }
  }

  lemma SomeRecent(history: seq<int>, cutoff: int)
    requires |After(history, cutoff)| > 0
    ensures history != []
  {
  }

  // ---------------------------------------------------------------------------------------------
  // One decision, on whatever history
  // ---------------------------------------------------------------------------------------------

  /** How many entries of the history are later than the cutoff. */
  function Later(history: seq<int>, cutoff: int): nat {
    if history == [] then 0
    else Later(history[..|history| - 1], cutoff) + if history[|history| - 1] > cutoff then 1 else 0
  }

  lemma {:induction false} AfterCounts(history: seq<int>, cutoff: int)
    ensures |After(history, cutoff)| == Later(history, cutoff)
  {
    if history != [] {
      var init, last := history[..|history| - 1], history[|history| - 1];
      assert history == init + [last];
      AfterSplits(init, [last], cutoff);
      AfterCounts(init, cutoff);
    }
  }

  /**
   Whatever the history: up or down too briefly, nothing is done; with a start within the counted hour and the
   last noted one less than sixty minutes before the scan began it cools down; else three starts within the
   hour stop it; else it is started.
   */
  lemma DecidesExactly(history: seq<int>, now: int, look: Look)
    ensures var hour := look.counted - 3_600_000_000;
            var down := !look.up && look.downMinutes >= 30;
            var cools := history != [] && Later(history, hour) >= 1 && now - history[|history| - 1] < 3_600_000_000;
            match Decide(history, now, look)
            case Up => look.up
            case NotDownLong => !look.up && look.downMinutes < 30
            case Cooling => down && cools
            case Capped => down && !cools && Later(history, hour) >= 3
            case Started => down && !cools && Later(history, hour) < 3
  {
    AfterCounts(history, look.counted - Hour);
  }

  /** Noting a start keeps, in order, the entries less than a day older than it, and puts it behind them. */
  lemma {:induction false} NotesExactly(history: seq<int>, at: int)
    ensures Noted(history, at) == LastDay(history, at) + [at]
  {
    AfterSplits(history, [at], at - 24 * Hour);
    LastDayIs(history, at);
  }

  function LastDay(history: seq<int>, at: int): seq<int> {
    if history == [] then []
    else
      var init, last := LastDay(history[..|history| - 1], at), history[|history| - 1];
      if at - last < 86_400_000_000 then init + [last] else init
  }

  lemma {:induction false} AfterSplits(a: seq<int>, b: seq<int>, cutoff: int)
    ensures After(a + b, cutoff) == After(a, cutoff) + After(b, cutoff)
  {
    if a == [] {
      assert a + b == b;
    } else {
      assert (a + b)[1..] == a[1..] + b;
      AfterSplits(a[1..], b, cutoff);
    }
  }

  lemma {:induction false} LastDayIs(history: seq<int>, at: int)
    ensures After(history, at - 24 * Hour) == LastDay(history, at)
  {
    if history != [] {
      var init, last := history[..|history| - 1], history[|history| - 1];
      assert history == init + [last];
      AfterSplits(init, [last], at - 24 * Hour);
      LastDayIs(init, at);
    }
  }

  // ---------------------------------------------------------------------------------------------
  // Runs of scans
  // ---------------------------------------------------------------------------------------------

  /** One scan of one daemon; `saved` says the scan lived to write its state file. */
  datatype Visit = Visit(now: int, look: Look, dryRun: bool, saved: bool)

  datatype Start = Start(at: int, saved: bool)

  /** The state file's history and, for the record, every start there ever was. */
  datatype World = World(history: seq<int>, starts: seq<Start>)

  const Nothing := World([], [])

  predicate Starts(w: World, v: Visit) { Decide(w.history, v.now, v.look) == Started && !v.dryRun }

  function Step(w: World, v: Visit): World {
    World(if v.saved then Visited(w.history, v.now, v.look, v.dryRun) else w.history,
          if Starts(w, v) then w.starts + [Start(v.look.noted, v.saved)] else w.starts)
  }

  function Run(visits: seq<Visit>): World {
    if visits == [] then Nothing else Step(Run(visits[..|visits| - 1]), visits[|visits| - 1])
  }

  predicate InOrder(v: Visit) { v.now <= v.look.counted <= v.look.noted }

  /** Clocks never run backwards, within a scan or between scans. */
  ghost predicate ClockRuns(visits: seq<Visit>) {
    && (forall i :: 0 <= i < |visits| ==> InOrder(visits[i]))
    && forall i, k :: 0 <= i < k < |visits| ==> visits[i].look.noted <= visits[k].now
  }

  predicate Spaced(times: seq<int>) { forall i, k :: 0 <= i < k < |times| ==> times[k] - times[i] >= (k - i) * Hour }

  /** A saved start keeps every later start an hour away. */
  predicate SavedStartsHold(starts: seq<Start>) {
    forall i, k :: 0 <= i < k < |starts| && starts[i].saved ==> starts[k].at - starts[i].at >= Hour
  }

  ghost predicate Inv(w: World, clock: int) {
    && Spaced(w.history) && SavedStartsHold(w.starts)
    && (forall i :: 0 <= i < |w.history| ==> w.history[i] <= clock)
    && (forall i :: 0 <= i < |w.starts| && w.starts[i].saved ==>
          w.history != [] && w.starts[i].at <= w.history[|w.history| - 1])
    && (w.history != [] ==> SavedAt(w.starts, w.history[|w.history| - 1]))
    && |w.history| <= 24
  }

  predicate SavedAt(starts: seq<Start>, at: int) { Start(at, true) in starts }

  lemma {:induction false} AfterKeepsTheEnd(history: seq<int>, cutoff: int) returns (k: nat)
    requires Spaced(history)
    ensures k <= |history| && After(history, cutoff) == history[k..]
    ensures forall i :: k <= i < |history| ==> history[i] > cutoff
    ensures forall i :: 0 <= i < k ==> history[i] <= cutoff
  {
    if history == [] {
      k := 0;
    } else {
      var tail := history[1..];
      var j := AfterKeepsTheEnd(tail, cutoff);
      assert |history| > 1 ==> tail[0] == history[1] && history[1] - history[0] >= Hour;
      if history[0] > cutoff {
        k := 0;
        assert j == 0;
      } else {
        k := j + 1;
        assert tail[j..] == history[k..];
      }
    }
  }

  /** With an ordered history the cap on starts per hour never decides anything. */
  lemma CapIsNeverReached(history: seq<int>, v: Visit)
    requires Spaced(history) && InOrder(v)
    ensures Decide(history, v.now, v.look) != Capped
    ensures Decide(history, v.now, v.look) == Started && history != [] ==>
              v.look.counted - history[|history| - 1] >= Hour
  {
    var k := AfterKeepsTheEnd(history, v.look.counted - Hour);
  }

  lemma SpacedMore(history: seq<int>, at: int)
    requires Spaced(history) && (history != [] ==> at - history[|history| - 1] >= Hour)
    ensures Spaced(history + [at])
  {
    var h := history + [at];
    forall i, k | 0 <= i < k < |h| ensures h[k] - h[i] >= (k - i) * Hour {
      if k == |history| && i < |history| - 1 {
        assert history[|history| - 1] - history[i] >= (|history| - 1 - i) * Hour;
      }
    }
  }

  lemma DayHoldsTwentyFour(times: seq<int>, end: int)
    requires Spaced(times) && forall i :: 0 <= i < |times| ==> end - 24 * Hour < times[i] <= end
    ensures |times| <= 24
  {
    if times != [] { FirstToLast(times); }
  }

  lemma FirstToLast(times: seq<int>)
    requires Spaced(times) && times != []
    ensures times[|times| - 1] - times[0] >= (|times| - 1) * Hour
  {
  }

  lemma NotedIsSuffix(all: seq<int>, at: int) returns (k: nat)
    requires Spaced(all) && all != [] && all[|all| - 1] == at
    ensures k < |all| && After(all, at - 24 * Hour) == all[k..]
    ensures forall i :: k <= i < |all| ==> all[i] > at - 24 * Hour
  {
    k := AfterKeepsTheEnd(all, at - 24 * Hour);
    hide Spaced, After;
  }

  lemma NotedIsFine(history: seq<int>, at: int)
    requires Spaced(history) && (history != [] ==> at - history[|history| - 1] >= Hour)
    requires forall i :: 0 <= i < |history| ==> history[i] <= at
    ensures var h := Noted(history, at);
            h != [] && h[|h| - 1] == at && Spaced(h) && |h| <= 24 && forall i :: 0 <= i < |h| ==> h[i] <= at
  {
    SpacedMore(history, at);
    var all := history + [at];
    hide Spaced, After;
    var k := NotedIsSuffix(all, at);
    SuffixSpaced(all, k);
    var h := all[k..];
    assert forall i :: 0 <= i < |h| ==> h[i] == all[i + k] && all[i + k] <= at;
    DayHoldsTwentyFour(h, at);
  }

  lemma SuffixSpaced(times: seq<int>, k: nat)
    requires Spaced(times) && k <= |times|
    ensures Spaced(times[k..])
  {
    var h := times[k..];
    forall i, j | 0 <= i < j < |h| ensures h[j] - h[i] >= (j - i) * Hour {
      assert h[i] == times[k + i] && h[j] == times[k + j];
      assert times[k + j] - times[k + i] >= ((k + j) - (k + i)) * Hour;
    }
  }

  lemma StartsMore(starts: seq<Start>, s: Start)
    requires SavedStartsHold(starts) && forall i :: 0 <= i < |starts| && starts[i].saved ==> s.at - starts[i].at >= Hour
    ensures SavedStartsHold(starts + [s])
  {
  }

  lemma StepKeeps(w: World, v: Visit, clock: int)
    requires Inv(w, clock) && InOrder(v) && clock <= v.now
    ensures Inv(Step(w, v), v.look.noted)
  {
    CapIsNeverReached(w.history, v);
    if Starts(w, v) {
      var at := v.look.noted;
      StartsMore(w.starts, Start(at, v.saved));
      NotedIsFine(w.history, at);
      assert Step(w, v) == World(if v.saved then Noted(w.history, at) else w.history, w.starts + [Start(at, v.saved)]);
      hide Decide, Noted, Spaced, SavedStartsHold, Step, Starts;
      assert SavedAt(w.starts + [Start(at, v.saved)], at) || !v.saved;
      assert forall i :: 0 <= i < |w.starts| && w.starts[i].saved ==> w.starts[i].at <= at;
    } else {
      assert Step(w, v) == w;
    }
  }

  lemma {:induction false} RunKeeps(visits: seq<Visit>)
    requires ClockRuns(visits)
    ensures Inv(Run(visits), if visits == [] then 0 else visits[|visits| - 1].look.noted)
  {
    if visits != [] {
      var init, last := visits[..|visits| - 1], visits[|visits| - 1];
      assert forall i :: 0 <= i < |init| ==> init[i] == visits[i];
      RunKeeps(init);
      var clock := if init == [] then last.now else init[|init| - 1].look.noted;
      assert Inv(Run(init), clock);
      StepKeeps(Run(init), last, clock);
    }
  }

  /**
   Over any run: a start that reached the state file is followed by no other start within the hour,
   the cap is never what stops a start, and the file never holds more than 24 starts.
   */
  lemma StartsAreAnHourApart(visits: seq<Visit>, v: Visit)
    requires ClockRuns(visits + [v])
    ensures SavedStartsHold(Run(visits).starts) && |Run(visits).history| <= 24
    ensures Decide(Run(visits).history, v.now, v.look) != Capped
  {
    var all := visits + [v];
    assert forall i :: 0 <= i < |visits| ==> visits[i] == all[i];
    assert InOrder(all[|visits|]);
    RunKeeps(visits);
    CapIsNeverReached(Run(visits).history, v);
  }

  /** The times of the saved starts that fall into a window, in order. */
  function SavedIn(starts: seq<Start>, from: int, to: int): seq<int> {
    if starts == [] then []
    else
      var init, last := SavedIn(starts[..|starts| - 1], from, to), starts[|starts| - 1];
      if last.saved && from <= last.at <= to then init + [last.at] else init
  }

  lemma {:induction false} SavedInAreSaved(starts: seq<Start>, from: int, to: int, i: nat) returns (k: nat)
    requires i < |SavedIn(starts, from, to)|
    ensures k < |starts| && starts[k].saved && starts[k].at == SavedIn(starts, from, to)[i]
    ensures from <= starts[k].at <= to
  {
    var n := |starts| - 1;
    if i < |SavedIn(starts[..n], from, to)| { k := SavedInAreSaved(starts[..n], from, to, i); } else { k := n; }
  }

  lemma {:induction false} SavedInSpaced(starts: seq<Start>, from: int, to: int)
    requires SavedStartsHold(starts)
    ensures Spaced(SavedIn(starts, from, to))
  {
    if starts != [] {
      var init, last := starts[..|starts| - 1], starts[|starts| - 1];
      SavedInSpaced(init, from, to);
      var times := SavedIn(init, from, to);
      if times != [] {
        var k := SavedInAreSaved(init, from, to, |times| - 1);
        assert init[k] == starts[k];
      }
      if last.saved && from <= last.at <= to { SpacedMore(times, last.at); }
    }
  }

  /**
   Over any run, a window of `width` ticks holds at most one saved start per full hour and one more.
   Starts of scans that died before saving are not bounded: see `UnsavedStartIsForgotten`.
   */
  lemma WindowHoldsFew(visits: seq<Visit>, from: int, width: nat)
    requires ClockRuns(visits)
    ensures |SavedIn(Run(visits).starts, from, from + width)| <= width / Hour + 1
  {
    RunKeeps(visits);
    var starts := Run(visits).starts;
    var times := SavedIn(starts, from, from + width);
    SavedInSpaced(starts, from, from + width);
    if times != [] {
      var first := SavedInAreSaved(starts, from, from + width, 0);
      var last := SavedInAreSaved(starts, from, from + width, |times| - 1);
      FirstToLast(times);
      HoursFit(width, |times| - 1);
    }
  }

  lemma HoursFit(width: nat, n: nat)
    requires width >= n * Hour
    ensures n <= width / Hour
  {
  }

  /** Some start that reached the state file lies within the hour before `at`, or after it. */
  ghost predicate SavedWithinHour(starts: seq<Start>, at: int) {
    exists s :: s in starts && s.saved && s.at > at - 3_600_000_000
  }

  /**
   Over any run, however many scans die before saving: a visit starts the daemon exactly when its port
   has been down long enough and no saved start lies within the hour before the visit counts. The
   only other thing that stops it is the cooldown.
   */
  lemma StartsExactly(visits: seq<Visit>, v: Visit)
    requires ClockRuns(visits + [v])
    ensures var w := Run(visits);
            && (Starts(w, v) <==> !v.dryRun && !v.look.up && v.look.downMinutes >= 30
                                  && !SavedWithinHour(w.starts, v.look.counted))
            && (Decide(w.history, v.now, v.look) == Cooling <==>
                  !v.look.up && v.look.downMinutes >= 30 && SavedWithinHour(w.starts, v.look.counted))
  {
    var all := visits + [v];
    assert forall i :: 0 <= i < |visits| ==> visits[i] == all[i];
    assert InOrder(all[|visits|]);
    RunKeeps(visits);
    hide Run, ClockRuns;
    RecentExactly(Run(visits), if visits == [] then 0 else visits[|visits| - 1].look.noted, v);
    CapIsNeverReached(Run(visits).history, v);
  }

  lemma RecentExactly(w: World, clock: int, v: Visit)
    requires Inv(w, clock) && InOrder(v)
    ensures Recent(w.history, v.look) > 0 <==> SavedWithinHour(w.starts, v.look.counted)
    ensures Recent(w.history, v.look) > 0 ==>
              w.history != [] && v.now - w.history[|w.history| - 1] < CooldownMinutes * Minute
  {
    var k := AfterKeepsTheEnd(w.history, v.look.counted - Hour);
    if w.history != [] {
      var last := w.history[|w.history| - 1];
      assert Start(last, true) in w.starts;
      assert k < |w.history| <==> last > v.look.counted - Hour;
    }
  }

  /** A scan that dies between the start and the save forgets it: the next one starts the daemon again at once. */
  lemma UnsavedStartIsForgotten(now: int, look: Look)
    requires !look.up && look.downMinutes >= DownThreshold && InOrder(Visit(now, look, false, true))
    requires now == look.noted
    ensures var visits := [Visit(now, look, false, false), Visit(now, look, false, true)];
            ClockRuns(visits) && |Run(visits).starts| == 2 && Run(visits).starts[1].at == Run(visits).starts[0].at
  {
    var a, b := Visit(now, look, false, false), Visit(now, look, false, true);
    assert [a, b][..1] == [a] && [a][..0] == [] && [] + [a] == [a] && [a] + [b] == [a, b];
    StartsExactly([], a);
    StartsExactly([a], b);
  }
}
