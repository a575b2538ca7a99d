/**
 Labelling over whole runs with crashes: the ledger is one unbroken stretch of the decision file,
 each decision once and in order, and a run with a backlog gets on unless too many decisions share
 one timestamp.
 */
module EvalsLaws {
  import opened Base
  import opened EvalsLabeler

  predicate InTimeOrder(file: seq<Decision>) {
    && (forall i :: 0 <= i < |file| ==> file[i].ts > 0)
    && forall i, j :: 0 <= i < j < |file| ==> file[i].ts <= file[j].ts
  }

  predicate KeysDistinct(file: seq<Decision>) {
    forall i, j :: 0 <= i < j < |file| ==> KeyOf(file[i]) != KeyOf(file[j])
  }

  ghost predicate Decent(file: seq<Decision>) { InTimeOrder(file) && KeysDistinct(file) }

  /** The first decision at or after `since`. */
  function First(file: seq<Decision>, since: int): (k: nat)
    ensures k <= |file| && (k < |file| ==> file[k].ts >= since)
    ensures forall i :: 0 <= i < k ==> file[i].ts < since
  {
    if file == [] || file[0].ts >= since then 0 else 1 + First(file[1..], since)
  }

  function AtLeastOne(limit: int): nat { if limit < 1 then 1 else limit }

  function End(file: seq<Decision>, s: nat, limit: int): nat {
    if s + AtLeastOne(limit) < |file| then s + AtLeastOne(limit) else |file|
  }

  lemma {:induction false} BatchFrom(file: seq<Decision>, since: int, limit: int)
    requires forall i :: 0 <= i < |file| ==> file[i].ts >= since
    ensures Batch(file, since, limit) == file[..End(file, 0, limit)]
  {
    if file != [] && limit > 1 {
      BatchFrom(file[1..], since, limit - 1);
      assert file[..End(file, 0, limit)] == [file[0]] + file[1..][..End(file[1..], 0, limit - 1)];
    }
  }

  lemma {:induction false} BatchSkips(file: seq<Decision>, since: int, limit: int)
    ensures Batch(file, since, limit) == Batch(file[First(file, since)..], since, limit)
  {
    if file == [] || file[0].ts >= since {
      assert file[0..] == file;
    } else {
      BatchSkips(file[1..], since, limit);
      assert file[First(file, since)..] == file[1..][First(file[1..], since)..];
    }
  }

  /** In a file in time order a batch is a stretch of it. */
  lemma BatchIsStretch(file: seq<Decision>, since: int, limit: int)
    requires InTimeOrder(file)
    ensures var s := First(file, since);
            s <= End(file, s, limit) && Batch(file, since, limit) == file[s..End(file, s, limit)]
  {
    var s := First(file, since);
    BatchSkips(file, since, limit);
    FromFirstOn(file, since);
    hide Batch, First, InTimeOrder;
    BatchFrom(file[s..], since, limit);
    SliceOfTail(file, s, End(file[s..], 0, limit));
  }

  lemma FromFirstOn(file: seq<Decision>, since: int)
    requires InTimeOrder(file)
    ensures forall i :: 0 <= i < |file[First(file, since)..]| ==> file[First(file, since)..][i].ts >= since
  {
    var s := First(file, since);
    if s < |file| { assert forall i :: s <= i < |file| ==> file[s].ts <= file[i].ts; }
  }

  lemma SliceOfTail(file: seq<Decision>, s: nat, k: nat)
    requires s + k <= |file|
    ensures file[s..][..k] == file[s..s + k]
  {
  }

  /** The ledger is the stretch of the file from `a` to `n`. */
  predicate Stretch(file: seq<Decision>, ledger: seq<Label>, a: nat, n: nat) {
    a <= n <= |file| && ledger == LabelAll(file[a..n])
  }

  /** The watermark is untouched, or it is the time of a labelled decision; what came before the stretch is older. */
  predicate WatermarkFits(file: seq<Decision>, s: Store, a: nat, n: nat)
    requires a <= n <= |file|
  {
    && (if s.watermark == 0 then a == 0 else exists j :: a <= j < n && file[j].ts == s.watermark)
    && (a > 0 ==> a < n && file[a - 1].ts < file[a].ts)
  }

  lemma {:induction false} UnseenIsRest(file: seq<Decision>, keys: set<Key>, a: nat, n: nat, s: nat, e: nat)
    requires KeysDistinct(file) && a <= s <= e <= |file| && s <= n <= |file|
    requires forall i :: 0 <= i < |file| ==> (KeyOf(file[i]) in keys <==> a <= i < n)
    ensures Unseen(file[s..e], keys) == file[if n < e then n else e..e]
    decreases e - s
  {
    if s < e {
      assert file[s..e][1..] == file[s + 1..e] && file[s..e][0] == file[s];
      if s < n {
        UnseenIsRest(file, keys, a, n, s + 1, e);
      } else {
        UnseenAll(file, keys, s, e);
      }
    }
  }

  lemma {:induction false} UnseenAll(file: seq<Decision>, keys: set<Key>, s: nat, e: nat)
    requires s <= e <= |file| && forall i :: s <= i < e ==> KeyOf(file[i]) !in keys
    ensures Unseen(file[s..e], keys) == file[s..e]
    decreases e - s
  {
    if s < e {
      assert file[s..e][1..] == file[s + 1..e] && file[s..e][0] == file[s];
      UnseenAll(file, keys, s + 1, e);
      assert file[s..e] == [file[s]] + file[s + 1..e];
    }
  }

  lemma KeysOfStretch(file: seq<Decision>, ledger: seq<Label>, a: nat, n: nat)
    requires KeysDistinct(file) && Stretch(file, ledger, a, n)
    ensures forall i :: 0 <= i < |file| ==> (KeyOf(file[i]) in Keys(ledger) <==> a <= i < n)
  {
    forall i | 0 <= i < |file| ensures KeyOf(file[i]) in Keys(ledger) <==> a <= i < n {
      if a <= i < n {
        assert file[a..n][i - a] == file[i] && ledger[i - a] == Labelled(file[i]);
        assert ledger[i - a] in ledger;
      }
      if KeyOf(file[i]) in Keys(ledger) {
        var k :| 0 <= k < |ledger| && ledger[k].key == KeyOf(file[i]);
        assert file[a..n][k] == file[a + k];
      }
    }
  }

  lemma LatestIsLast(file: seq<Decision>, s: nat, e: nat)
    requires InTimeOrder(file) && s < e <= |file|
    ensures Latest(file[s..e]) == file[e - 1].ts
    decreases e - s
  {
    assert file[s..e][0] == file[s];
    if s + 1 < e {
      assert file[s..e][1..] == file[s + 1..e];
      LatestIsLast(file, s + 1, e);
    }
  }

  /** How far a run gets that is allowed to write `written` lines of a stretch. */
  function Reach(n: nat, e: nat, fate: Fate): nat {
    if e <= n then n else if fate.Dies? && fate.written < e - n then n + fate.written else e
  }

  /** What a run writes when the ledger is a stretch of the file. */
  lemma RunWrites(file: seq<Decision>, st: Store, a: nat, n: nat, sinceDays: nat, limit: int, now: int, fate: Fate)
    requires Decent(file) && Stretch(file, st.ledger, a, n)
    requires a <= First(file, Since(st.watermark, sinceDays, now)) <= n
    requires First(file, Since(st.watermark, sinceDays, now)) < |file|
    ensures var s := First(file, Since(st.watermark, sinceDays, now));
            var e := End(file, s, limit);
            var unlabelled := LabelAll(file[if n < e then n else e..e]);
            Run(file, st, sinceDays, limit, now, fate) ==
              match fate
              case Completes => Store(st.ledger + unlabelled, file[e - 1].ts)
              case Dies(written) => st.(ledger := st.ledger + if written < |unlabelled| then unlabelled[..written]
                                        else unlabelled)
  {
    var since := Since(st.watermark, sinceDays, now);
    var s := First(file, since);
    var e := End(file, s, limit);
    BatchIsStretch(file, since, limit);
    assert |file[s..e]| > 0;
    assert KeysDistinct(file) && InTimeOrder(file);
    hide Batch, First, Stretch, Unseen, LabelAll, Latest, Keys, Decent, KeysDistinct, InTimeOrder;
    KeysOfStretch(file, st.ledger, a, n);
    UnseenIsRest(file, Keys(st.ledger), a, n, s, e);
    LatestIsLast(file, s, e);
  }

  /** A run's exact effect on a ledger that is a stretch: the stretch grows, and a completed run moves the watermark. */
  lemma RunExtends(file: seq<Decision>, st: Store, a: nat, n: nat, sinceDays: nat, limit: int, now: int, fate: Fate)
    requires Decent(file) && Stretch(file, st.ledger, a, n)
    requires a <= First(file, Since(st.watermark, sinceDays, now)) <= n
    ensures var s := First(file, Since(st.watermark, sinceDays, now));
            var e := End(file, s, limit);
            var st' := Run(file, st, sinceDays, limit, now, fate);
            && Stretch(file, st'.ledger, a, Reach(n, e, fate))
            && (s < |file| ==> s < e)
            && st'.watermark == (if s < |file| && fate.Completes? then file[e - 1].ts else st.watermark)
  {
    var since := Since(st.watermark, sinceDays, now);
    var s := First(file, since);
    var e := End(file, s, limit);
    if s < |file| {
      RunWrites(file, st, a, n, sinceDays, limit, now, fate);
      hide Run, First, Stretch, Decent, LabelAll;
      GrowStretch(file, st.ledger, a, n, if n < e then n else e, e, fate);
    } else {
      BatchIsStretch(file, since, limit);
      assert Batch(file, since, limit) == [];
    }
  }

  lemma GrowStretch(file: seq<Decision>, ledger: seq<Label>, a: nat, n: nat, m: nat, e: nat, fate: Fate)
    requires Stretch(file, ledger, a, n) && e <= |file| && m == if n < e then n else e
    ensures var unlabelled := LabelAll(file[m..e]);
            var more := if fate.Dies? && fate.written < |unlabelled| then unlabelled[..fate.written] else unlabelled;
            Stretch(file, ledger + more, a, Reach(n, e, fate))
  {
    var unlabelled := LabelAll(file[m..e]);
    var more := if fate.Dies? && fate.written < |unlabelled| then unlabelled[..fate.written] else unlabelled;
    var r := Reach(n, e, fate);
    assert more == LabelAll(file[n..r]);
    assert file[a..r] == file[a..n] + file[n..r];
  }

  // ---------------------------------------------------------------------------------------------
  // Exactly once, whatever dies
  // ---------------------------------------------------------------------------------------------

  /** One run of the program on the file as it is by then. */
  datatype Turn = Turn(file: seq<Decision>, limit: int, now: int, fate: Fate)

  predicate Grows(turns: seq<Turn>) { forall i, j :: 0 <= i <= j < |turns| ==> turns[i].file <= turns[j].file }

  function Play(s: Store, sinceDays: nat, turns: seq<Turn>): Store {
    if turns == [] then s
    else
      var t := turns[|turns| - 1];
      Run(t.file, Play(s, sinceDays, turns[..|turns| - 1]), sinceDays, t.limit, t.now, t.fate)
  }

  ghost predicate OnTrack(file: seq<Decision>, s: Store, a: nat, n: nat) {
    Stretch(file, s.ledger, a, n) && WatermarkFits(file, s, a, n)
  }

  lemma OnTrackGrows(file: seq<Decision>, more: seq<Decision>, s: Store, a: nat, n: nat)
    requires OnTrack(file, s, a, n) && file <= more
    ensures OnTrack(more, s, a, n)
  {
    assert more[a..n] == file[a..n];
    if s.watermark != 0 {
      var j :| a <= j < n <= |file| && file[j].ts == s.watermark;
      assert more[j].ts == s.watermark;
    }
  }

  /** The start of the next batch lies inside the stretch, or right at its end. */
  lemma NextStartsInside(file: seq<Decision>, s: Store, a: nat, n: nat, sinceDays: nat, now: int)
    requires InTimeOrder(file) && OnTrack(file, s, a, n) && (sinceDays == 0 || s.watermark != 0)
    ensures a <= First(file, Since(s.watermark, sinceDays, now)) <= n
    ensures First(file, Since(s.watermark, sinceDays, now)) < n || s.watermark == 0
  {
    if s.watermark != 0 {
      var j :| a <= j < n <= |file| && file[j].ts == s.watermark;
      FirstIsWithin(file, a, j);
    } else {
      FirstAtStart(file);
    }
  }

  lemma FirstIsWithin(file: seq<Decision>, a: nat, j: nat)
    requires InTimeOrder(file) && a <= j < |file| && (a > 0 ==> file[a - 1].ts < file[a].ts)
    ensures a <= First(file, file[j].ts) <= j
  {
    var ts := file[j].ts;
    forall i | 0 <= i < a ensures file[i].ts < ts { BeforeStretch(file, a, i, j); }
    hide InTimeOrder;
  }

  lemma BeforeStretch(file: seq<Decision>, a: nat, i: nat, j: nat)
    requires InTimeOrder(file) && i < a <= j < |file| && file[a - 1].ts < file[a].ts
    ensures file[i].ts < file[j].ts
  {
    assert i < a - 1 ==> file[i].ts <= file[a - 1].ts;
    assert a < j ==> file[a].ts <= file[j].ts;
  }

  lemma FirstAtStart(file: seq<Decision>)
    requires InTimeOrder(file)
    ensures First(file, 0) == 0
  {
    if file != [] { assert file[0].ts > 0; }
  }

  lemma TurnKeeps(file: seq<Decision>, st: Store, a: nat, n: nat, sinceDays: nat, limit: int, now: int,
                  fate: Fate)
    returns (m: nat)
    requires Decent(file) && OnTrack(file, st, a, n) && (sinceDays == 0 || st.watermark != 0)
    ensures OnTrack(file, Run(file, st, sinceDays, limit, now, fate), a, m)
    ensures m == Reach(n, End(file, First(file, Since(st.watermark, sinceDays, now)), limit), fate) >= n
    ensures st.watermark != 0 ==> Run(file, st, sinceDays, limit, now, fate).watermark != 0
  {
    var s := First(file, Since(st.watermark, sinceDays, now));
    var e := End(file, s, limit);
    m := Reach(n, e, fate);
    var st' := Run(file, st, sinceDays, limit, now, fate);
    NextStartsInside(file, st, a, n, sinceDays, now);
    hide First, Run, LabelAll, Stretch, WatermarkFits;
    RunExtends(file, st, a, n, sinceDays, limit, now, fate);
    WatermarkStillFits(file, st, st', a, n, m, s, e, fate);
    assert OnTrack(file, st', a, m);
  }

  /** A completed run leaves the time of its last decision, any other leaves the watermark alone. */
  lemma WatermarkStillFits(file: seq<Decision>, st: Store, st': Store, a: nat, n: nat, m: nat, s: nat, e: nat,
                           fate: Fate)
    requires InTimeOrder(file) && a <= n <= |file| && WatermarkFits(file, st, a, n) && a <= s <= n && n <= m <= |file|
    requires s < |file| ==> s < e <= |file| && (fate.Completes? ==> e <= m)
    requires st'.watermark == if s < |file| && fate.Completes? then file[e - 1].ts else st.watermark
    ensures WatermarkFits(file, st', a, m) && (st.watermark != 0 ==> st'.watermark != 0)
  {
    if s < |file| && fate.Completes? {
      assert a <= e - 1 < m && file[e - 1].ts == st'.watermark && st'.watermark != 0;
    } else if st.watermark != 0 {
      var j :| a <= j < n && file[j].ts == st.watermark;
      assert a <= j < m && file[j].ts == st'.watermark;
    }
  }

  /**
   Exactly once: from an untouched store with no look-back limit, or from any store with a
   watermark, after any runs on the growing file, however many of them die and wherever, the
   ledger is the labels of one unbroken stretch of the file that starts where it started.
   */
  lemma {:induction false} LedgerIsOneStretch(s: Store, file: seq<Decision>, a: nat, n: nat, sinceDays: nat,
                                              turns: seq<Turn>)
    returns (m: nat)
    requires OnTrack(file, s, a, n) && (sinceDays == 0 || s.watermark != 0)
    requires Grows(turns) && (forall i :: 0 <= i < |turns| ==> Decent(turns[i].file) && file <= turns[i].file)
    ensures var last := if turns == [] then file else turns[|turns| - 1].file;
            && n <= m && OnTrack(last, Play(s, sinceDays, turns), a, m)
            && Play(s, sinceDays, turns).ledger == LabelAll(last[a..m])
    ensures s.watermark != 0 ==> Play(s, sinceDays, turns).watermark != 0
  {
    if turns == [] {
      m := n;
    } else {
      var init, t := turns[..|turns| - 1], turns[|turns| - 1];
      var k := LedgerIsOneStretch(s, file, a, n, sinceDays, init);
      var before := if init == [] then file else init[|init| - 1].file;
      var mid := Play(s, sinceDays, init);
      assert before <= t.file by {
        if init != [] { assert turns[|init| - 1].file <= turns[|init|].file; }
      }
      hide OnTrack, Run, Grows, Decent;
      OnTrackGrows(before, t.file, mid, a, k);
      assert sinceDays == 0 || mid.watermark != 0;
      m := TurnKeeps(t.file, mid, a, k, sinceDays, t.limit, t.now, t.fate);
      assert Play(s, sinceDays, turns) == Run(t.file, mid, sinceDays, t.limit, t.now, t.fate);
      StretchOf(t.file, Play(s, sinceDays, turns), a, m);
    }
  }

  lemma StretchOf(file: seq<Decision>, s: Store, a: nat, n: nat)
    requires OnTrack(file, s, a, n)
    ensures a <= n <= |file| && s.ledger == LabelAll(file[a..n])
  {
  }

  /** In the ledger of such a run no decision is labelled twice. */
  lemma NoKeyTwice(file: seq<Decision>, s: Store, a: nat, n: nat, i: nat, j: nat)
    requires Decent(file) && OnTrack(file, s, a, n) && i < j < |s.ledger|
    ensures s.ledger[i].key != s.ledger[j].key
  {
    assert s.ledger[i] == Labelled(file[a + i]) && s.ledger[j] == Labelled(file[a + j]);
  }

  /** The first run that completes, wherever its look-back starts, is such a start. */
  lemma FirstRunStarts(file: seq<Decision>, sinceDays: nat, limit: int, now: int)
    requires Decent(file) && Batch(file, Since(0, sinceDays, now), limit) != []
    ensures var a := First(file, Since(0, sinceDays, now));
            var st := Run(file, Store([], 0), sinceDays, limit, now, Completes);
            OnTrack(file, st, a, End(file, a, limit)) && st.watermark != 0
  {
    var a := First(file, Since(0, sinceDays, now));
    var e := End(file, a, limit);
    BatchIsStretch(file, Since(0, sinceDays, now), limit);
    assert a < |file|;
    assert file[a..a] == [];
    assert Stretch(file, [], a, a);
    RunExtends(file, Store([], 0), a, a, sinceDays, limit, now, Completes);
    assert a <= e - 1 < e && file[e - 1].ts > 0;
  }

  // ---------------------------------------------------------------------------------------------
  // What a ledger line says
  // ---------------------------------------------------------------------------------------------

  /** A decision's probability; one half when there is none. */
  function Probability(d: Decision): real { match d.p case Some(p) => p case None => 0.5 }

  /** In the uncertain band, or a decision that was left open. */
  predicate Undecided(d: Decision) { d.verdict == "gray" || 35.0 <= 100.0 * Probability(d) <= 65.0 }

  /**
   The line is about this decision: its time, domain, action and verdict, and the label its own
   probability calls for; verdicts nobody documented are named in the label.
   */
  predicate SpeaksOf(l: Label, d: Decision) {
    && l.key.ts == d.ts && l.key.domain == d.domain && l.key.action == d.action && l.key.verdict == d.verdict
    && (l.text == "uncertain" <==> Undecided(d))
    && (l.text == "likely_overkill" <==> d.verdict == "deny" && 10.0 * Probability(d) < 3.0)
    && (l.text == "confident_deny" <==>
          d.verdict == "deny" && 10.0 * Probability(d) >= 3.0 && !Undecided(d))
    && (l.text == "confident_allow" <==> d.verdict == "allow" && !Undecided(d))
    && (!Undecided(d) && d.verdict !in {"allow", "deny"} ==>
          l.text == "unlabeled_" + (if |d.verdict| > 0 then d.verdict else "none"))
  }

  lemma LabelledSpeaks(d: Decision)
    ensures SpeaksOf(Labelled(d), d)
    ensures d.verdict in {"allow", "deny", "gray"} && !(d.verdict == "allow" && 100.0 * Probability(d) < 35.0) ==>
              Documented(Labelled(d).text, d.verdict, Probability(d))
  {
    var text := Labelled(d).text;
    assert |"uncertain"| == 9 && |"likely_overkill"| == 15 && |"confident_deny"| == 14 && |"confident_allow"| == 15;
    assert "likely_overkill"[0] == 'l' && "confident_allow"[0] == 'c' && "uncertain"[1] == 'n' && "unlabeled_"[2] == 'l'
           && "uncertain"[2] == 'c';
    if !Undecided(d) && d.verdict !in {"allow", "deny"} {
      assert text[0] == 'u' && text[2] == 'l';
    }
    if d.verdict in {"allow", "deny", "gray"} { LabelsMeanWhatTheySay(d.verdict, Probability(d)); }
  }

  /**
   Whatever the ledger was and however the run ends: it only adds lines, each speaks of a decision of the
   file, and for the three verdicts its label is the documented one unless it is an allowance below 0.35.
   */
  lemma NewLinesSpeak(file: seq<Decision>, st: Store, sinceDays: nat, limit: int, now: int, fate: Fate, i: nat)
    requires |st.ledger| <= i < |Run(file, st, sinceDays, limit, now, fate).ledger|
    ensures var ledger := Run(file, st, sinceDays, limit, now, fate).ledger;
            && st.ledger <= ledger
            && exists d :: d in file && SpeaksOf(ledger[i], d)
                 && (d.verdict in {"allow", "deny", "gray"} && !(d.verdict == "allow" && 100.0 * Probability(d) < 35.0)
                     ==> Documented(ledger[i].text, d.verdict, Probability(d)))
  {
    var batch := Batch(file, Since(st.watermark, sinceDays, now), limit);
    var unseen := Unseen(batch, Keys(st.ledger));
    var d := unseen[i - |st.ledger|];
    BatchOfFile(file, Since(st.watermark, sinceDays, now), limit);
    UnseenAreOfBatch(batch, Keys(st.ledger));
    hide Batch, Unseen, SpeaksOf, Documented, Labelled, Keys;
    assert Run(file, st, sinceDays, limit, now, fate).ledger[i] == Labelled(d);
    LabelledSpeaks(d);
  }

  lemma {:induction false} BatchOfFile(file: seq<Decision>, since: int, limit: int)
    ensures forall d :: d in Batch(file, since, limit) ==> d in file && d.ts >= since
  {
    if file != [] {
      BatchOfFile(file[1..], since, limit);
      BatchOfFile(file[1..], since, limit - 1);
    }
  }

  /** The watermark a completed run leaves is the latest time of its batch, in whatever order the file is. */
  lemma {:induction false} LatestExactly(batch: seq<Decision>, ts: int)
    requires batch != []
    ensures Latest(batch) == ts <==>
              (exists d :: d in batch && d.ts == ts) && forall d :: d in batch ==> d.ts <= ts
  {
    if |batch| > 1 {
      var rest := Latest(batch[1..]);
      LatestExactly(batch[1..], rest);
      assert batch == [batch[0]] + batch[1..];
      var latest := Latest(batch);
      assert latest == if batch[0].ts > rest then batch[0].ts else rest;
      assert exists d :: d in batch && d.ts == latest by {
        if latest == rest {
          var d :| d in batch[1..] && d.ts == rest;
          assert d in batch;
        } else {
          assert batch[0] in batch;
        }
      }
      assert forall d :: d in batch ==> d.ts <= latest;
      if x :| x in batch && x.ts == ts {}
    } else {
      assert batch[0] in batch && batch == [batch[0]];
    }
  }

  /** So over whole runs, line by line, a ledger that is one stretch speaks of the decisions of that stretch. */
  lemma StretchSpeaks(file: seq<Decision>, s: Store, a: nat, n: nat, i: nat)
    requires OnTrack(file, s, a, n) && i < n - a
    ensures |s.ledger| == n - a && SpeaksOf(s.ledger[i], file[a + i])
  {
    assert s.ledger[i] == Labelled(file[a..n][i]);
    LabelledSpeaks(file[a + i]);
  }

  // ---------------------------------------------------------------------------------------------
  // Before the first run that completes
  // ---------------------------------------------------------------------------------------------

  /** Where a run without a watermark starts. */
  function Begin(sinceDays: nat, t: Turn): nat { First(t.file, Since(0, sinceDays, t.now)) }

  /** A run that writes nothing: it finds no decision or dies before its first line. */
  predicate Idle(sinceDays: nat, t: Turn) { Begin(sinceDays, t) == |t.file| || t.fate == Dies(0) }

  /** Where the ledger of runs without a watermark ends; 0 while it is empty. */
  function Furthest(sinceDays: nat, turns: seq<Turn>): nat {
    if turns == [] then 0
    else
      var t, n := turns[|turns| - 1], Furthest(sinceDays, turns[..|turns| - 1]);
      if Idle(sinceDays, t) then n
      else Reach(if n == 0 then Begin(sinceDays, t) else n, End(t.file, Begin(sinceDays, t), t.limit), t.fate)
  }

  /** Each run that writes to a ledger with something in it looks back at least to where the ledger ends. */
  predicate InTime(sinceDays: nat, turns: seq<Turn>) {
    forall i :: 0 <= i < |turns| ==> StartsInTime(sinceDays, turns, i)
  }

  predicate StartsInTime(sinceDays: nat, turns: seq<Turn>, i: nat)
    requires i < |turns|
  {
    var n := Furthest(sinceDays, turns[..i]);
    n == 0 || Idle(sinceDays, turns[i]) || Begin(sinceDays, turns[i]) <= n
  }

  /** Runs on a growing file and by a clock that does not run backwards. */
  ghost predicate InOrder(turns: seq<Turn>) {
    && Grows(turns) && (forall i :: 0 <= i < |turns| ==> Decent(turns[i].file))
    && forall i, j :: 0 <= i <= j < |turns| ==> turns[i].now <= turns[j].now
  }

  /** None of these runs sets the watermark. */
  predicate NoneCompletes(sinceDays: nat, turns: seq<Turn>) {
    forall i :: 0 <= i < |turns| ==> turns[i].fate.Dies? || Begin(sinceDays, turns[i]) == |turns[i].file|
  }

  /** The decision at `g` is not in the ledger, though earlier and later ones are. */
  ghost predicate Hole(file: seq<Decision>, ledger: seq<Label>, g: nat) {
    && g < |file| && KeyOf(file[g]) !in Keys(ledger)
    && (exists x :: 0 <= x < g && KeyOf(file[x]) in Keys(ledger))
    && exists y :: g < y < |file| && KeyOf(file[y]) in Keys(ledger)
  }

  lemma HoleIsNoStretch(file: seq<Decision>, ledger: seq<Label>, g: nat, a: nat, m: nat)
    requires KeysDistinct(file) && Hole(file, ledger, g)
    ensures !Stretch(file, ledger, a, m)
  {
    if Stretch(file, ledger, a, m) { KeysOfStretch(file, ledger, a, m); }
  }

  lemma FirstMonotone(file: seq<Decision>, more: seq<Decision>, since: int, later: int)
    requires file <= more && since <= later
    ensures First(file, since) <= First(more, later)
  {
    forall k | 0 <= k < First(file, since) ensures more[k].ts < later { assert more[k] == file[k]; }
  }

  /** `after` holds the keys of `before`, perhaps that of the decision at `b`, and otherwise only keys from there on. */
  ghost predicate AddsFrom(file: seq<Decision>, before: set<Key>, after: set<Key>, b: nat) {
    && before <= after
    && forall k :: k in after && k !in before ==> exists i :: b <= i < |file| && KeyOf(file[i]) == k
  }

  /** Whatever the ledger, a run only adds labels of decisions from its start on, the first of them first. */
  lemma RunAddsFrom(file: seq<Decision>, st: Store, sinceDays: nat, limit: int, now: int, fate: Fate)
    requires InTimeOrder(file)
    ensures var b := First(file, Since(st.watermark, sinceDays, now));
            var st' := Run(file, st, sinceDays, limit, now, fate);
            && AddsFrom(file, Keys(st.ledger), Keys(st'.ledger), b)
            && (b < |file| && fate != Dies(0) && KeyOf(file[b]) !in Keys(st.ledger) ==>
                  KeyOf(file[b]) in Keys(st'.ledger))
  {
    var since := Since(st.watermark, sinceDays, now);
    var b := First(file, since);
    var e := End(file, b, limit);
    BatchIsStretch(file, since, limit);
    if b < |file| {
      BatchStarts(file, b, e);
      var k := RunWritesUnseen(file, st, sinceDays, limit, now, fate, file[b..e]);
      hide *;
      BatchAdds(file, st.ledger, b, e, k);
    } else {
      assert Run(file, st, sinceDays, limit, now, fate) == st;
      AddsNothing(file, Keys(st.ledger), b);
    }
  }

  lemma BatchStarts(file: seq<Decision>, b: nat, e: nat)
    requires b < e <= |file|
    ensures file[b..e] != [] && file[b..e][0] == file[b]
  {
  }

  /** The ledger after a run: labels of unseen decisions, some unless there are none or it dies first. */
  lemma RunWritesUnseen(file: seq<Decision>, st: Store, sinceDays: nat, limit: int, now: int, fate: Fate,
                        batch: seq<Decision>)
    returns (k: nat)
    requires batch != [] && batch == Batch(file, Since(st.watermark, sinceDays, now), limit)
    ensures var unseen := Unseen(batch, Keys(st.ledger));
            && k <= |unseen| && (fate != Dies(0) && unseen != [] ==> k > 0)
            && Run(file, st, sinceDays, limit, now, fate).ledger == st.ledger + LabelAll(unseen)[..k]
  {
    var unseen := Unseen(batch, Keys(st.ledger));
    k := if fate.Dies? && fate.written < |unseen| then fate.written else |unseen|;
    hide Batch, Unseen, Keys, Latest;
    WholePrefix(LabelAll(unseen));
  }

  lemma WholePrefix(ls: seq<Label>)
    ensures ls[..|ls|] == ls
  {
  }

  lemma AddsNothing(file: seq<Decision>, keys: set<Key>, b: nat)
    ensures AddsFrom(file, keys, keys, b)
  {
  }

  /** Some labels of the unseen decisions of a batch. */
  lemma BatchAdds(file: seq<Decision>, ledger: seq<Label>, b: nat, e: nat, k: nat)
    requires b < e <= |file| && k <= |Unseen(file[b..e], Keys(ledger))|
    ensures var more := ledger + LabelAll(Unseen(file[b..e], Keys(ledger)))[..k];
            && AddsFrom(file, Keys(ledger), Keys(more), b)
            && (KeyOf(file[b]) !in Keys(ledger) ==>
                  |Unseen(file[b..e], Keys(ledger))| > 0 && (k > 0 ==> KeyOf(file[b]) in Keys(more)))
  {
    var unseen := Unseen(file[b..e], Keys(ledger));
    UnseenAreOfBatch(file[b..e], Keys(ledger));
    hide Unseen, LabelAll, Keys;
    KeysAdded(ledger, unseen, k);
    forall d | d in unseen ensures exists i :: b <= i < |file| && KeyOf(file[i]) == KeyOf(d) {
      StretchHolds(file, b, e, d);
    }
  }

  lemma StretchHolds(file: seq<Decision>, b: nat, e: nat, d: Decision)
    requires b <= e <= |file| && d in file[b..e]
    ensures exists i :: b <= i < |file| && file[i] == d
  {
    var j :| 0 <= j < e - b && file[b..e][j] == d;
    assert file[b + j] == d;
  }

  lemma {:induction false} UnseenAreOfBatch(batch: seq<Decision>, keys: set<Key>)
    ensures forall d :: d in Unseen(batch, keys) ==> d in batch
    ensures batch != [] && KeyOf(batch[0]) !in keys ==>
              Unseen(batch, keys) != [] && Unseen(batch, keys)[0] == batch[0]
  {
    if batch != [] { UnseenAreOfBatch(batch[1..], keys); }
  }

  lemma KeysAdded(ledger: seq<Label>, ds: seq<Decision>, k: nat)
    requires k <= |ds|
    ensures var more := ledger + LabelAll(ds)[..k];
            && Keys(ledger) <= Keys(more)
            && (forall x :: x in Keys(more) && x !in Keys(ledger) ==> exists d :: d in ds && KeyOf(d) == x)
            && (k > 0 ==> KeyOf(ds[0]) in Keys(more))
  {
    var more := ledger + LabelAll(ds)[..k];
    forall l | l in more ensures l in ledger || exists d :: d in ds && KeyOf(d) == l.key {
      var i :| 0 <= i < |more| && more[i] == l;
      if i >= |ledger| { assert l == Labelled(ds[i - |ledger|]); }
    }
    if k > 0 { assert more[|ledger|] == Labelled(ds[0]); }
  }

  /** A run that starts behind a hole leaves it. */
  lemma HoleStays(file: seq<Decision>, more: seq<Decision>, st: Store, g: nat, sinceDays: nat, limit: int, now: int,
                  fate: Fate)
    requires Decent(more) && file <= more && Hole(file, st.ledger, g)
    requires g < First(more, Since(st.watermark, sinceDays, now))
    ensures Hole(more, Run(more, st, sinceDays, limit, now, fate).ledger, g)
  {
    var x :| 0 <= x < g && KeyOf(file[x]) in Keys(st.ledger);
    var y :| g < y < |file| && KeyOf(file[y]) in Keys(st.ledger);
    assert more[x] == file[x] && more[y] == file[y] && more[g] == file[g];
    hide Run, First;
    RunAddsFrom(more, st, sinceDays, limit, now, fate);
  }

  /** A ledger of one stretch that leaves out nothing of the time it starts at. */
  predicate Reaches(file: seq<Decision>, ledger: seq<Label>, a: nat, n: nat) {
    a < n && Stretch(file, ledger, a, n) && (a > 0 ==> file[a - 1].ts < file[a].ts)
  }

  lemma ReachesStill(file: seq<Decision>, more: seq<Decision>, ledger: seq<Label>, a: nat, n: nat)
    requires Reaches(file, ledger, a, n) && file <= more
    ensures Reaches(more, ledger, a, n)
  {
    assert more[a..n] == file[a..n];
  }

  /** What is known after runs of which none but the last may have set the watermark. */
  ghost predicate Halfway(sinceDays: nat, turns: seq<Turn>, ledger: seq<Label>, a: nat) {
    if turns == [] then ledger == []
    else
      var t, n := turns[|turns| - 1], Furthest(sinceDays, turns);
      if InTime(sinceDays, turns) then
        if n == 0 then ledger == [] else Reaches(t.file, ledger, a, n) && a <= Begin(sinceDays, t)
      else HoleBehind(sinceDays, t, ledger)
  }

  /** There is a hole before where this run started. */
  ghost predicate HoleBehind(sinceDays: nat, t: Turn, ledger: seq<Label>) {
    exists g: nat :: g < Begin(sinceDays, t) && Hole(t.file, ledger, g)
  }

  lemma InTimeMore(sinceDays: nat, init: seq<Turn>, t: Turn)
    ensures InTime(sinceDays, init + [t]) <==> InTime(sinceDays, init) && StartsInTime(sinceDays, init + [t], |init|)
  {
    var turns := init + [t];
    assert forall i :: 0 <= i <= |init| ==> turns[..i] == init[..i];
    hide Idle, Begin, Furthest;
    forall i | 0 <= i < |init| ensures StartsInTime(sinceDays, turns, i) <==> StartsInTime(sinceDays, init, i) {}
  }

  /** A run in time on a ledger that is a stretch, or the first to write. */
  lemma TurnInTime(sinceDays: nat, init: seq<Turn>, t: Turn, st: Store, a: nat) returns (a': nat)
    requires Decent(t.file) && st.watermark == 0 && InTime(sinceDays, init + [t])
    requires var n := Furthest(sinceDays, init);
             if n == 0 then st.ledger == []
             else Reaches(t.file, st.ledger, a, n) && a <= Begin(sinceDays, t)
    ensures Halfway(sinceDays, init + [t], Run(t.file, st, sinceDays, t.limit, t.now, t.fate).ledger, a')
  {
    var n, b := Furthest(sinceDays, init), Begin(sinceDays, t);
    var st' := Run(t.file, st, sinceDays, t.limit, t.now, t.fate);
    FurthestMore(sinceDays, init, t);
    InTimeMore(sinceDays, init, t);
    assert InTimeOrder(t.file);
    hide Run, First, Furthest, InTime, Begin, InTimeOrder;
    a' := if n == 0 && !Idle(sinceDays, t) then b else a;
    if Idle(sinceDays, t) {
      IdleRun(sinceDays, t, st);
    } else {
      BusyRun(sinceDays, t, st, a', if n == 0 then b else n);
    }
  }

  lemma FurthestMore(sinceDays: nat, init: seq<Turn>, t: Turn)
    ensures var n := Furthest(sinceDays, init);
            && Furthest(sinceDays, init + [t])
               == (if Idle(sinceDays, t) then n
                   else Reach(if n == 0 then Begin(sinceDays, t) else n,
                              End(t.file, Begin(sinceDays, t), t.limit), t.fate))
            && (StartsInTime(sinceDays, init + [t], |init|) <==>
                  n == 0 || Idle(sinceDays, t) || Begin(sinceDays, t) <= n)
  {
    assert (init + [t])[..|init|] == init;
  }

  /** A run that writes, starting inside the ledger's stretch or with an empty ledger. */
  lemma BusyRun(sinceDays: nat, t: Turn, st: Store, a: nat, n: nat)
    requires Decent(t.file) && st.watermark == 0 && !Idle(sinceDays, t)
    requires if st.ledger == [] then a == n == Begin(sinceDays, t)
             else Reaches(t.file, st.ledger, a, n) && a <= Begin(sinceDays, t) <= n
    ensures Reaches(t.file, Run(t.file, st, sinceDays, t.limit, t.now, t.fate).ledger, a,
                    Reach(n, End(t.file, Begin(sinceDays, t), t.limit), t.fate))
  {
    var b := Begin(sinceDays, t);
    if st.ledger == [] {
      NothingIsStretch(t.file, b);
      assert b > 0 ==> t.file[b - 1].ts < t.file[b].ts;
    }
    assert b == First(t.file, Since(st.watermark, sinceDays, t.now));
    hide Run, LabelAll, First, Decent, Stretch;
    RunExtends(t.file, st, a, n, sinceDays, t.limit, t.now, t.fate);
  }

  lemma IdleRun(sinceDays: nat, t: Turn, st: Store)
    requires InTimeOrder(t.file) && st.watermark == 0 && Idle(sinceDays, t)
    ensures Run(t.file, st, sinceDays, t.limit, t.now, t.fate) == st
  {
    if Begin(sinceDays, t) == |t.file| { BatchIsStretch(t.file, Since(0, sinceDays, t.now), t.limit); }
  }

  /** A run that starts behind the end of the ledger's stretch leaves a hole there. */
  lemma TurnLate(sinceDays: nat, t: Turn, st: Store, a: nat, n: nat)
    requires Decent(t.file) && st.watermark == 0 && Reaches(t.file, st.ledger, a, n)
    requires !Idle(sinceDays, t) && n < Begin(sinceDays, t)
    ensures Hole(t.file, Run(t.file, st, sinceDays, t.limit, t.now, t.fate).ledger, n)
  {
    var b := Begin(sinceDays, t);
    hide Run, Stretch;
    KeysOfStretch(t.file, st.ledger, a, n);
    RunAddsFrom(t.file, st, sinceDays, t.limit, t.now, t.fate);
    assert KeyOf(t.file[n - 1]) in Keys(st.ledger);
    assert KeyOf(t.file[b]) !in Keys(st.ledger);
    assert forall i :: b <= i < |t.file| ==> KeyOf(t.file[i]) != KeyOf(t.file[n]);
  }

  /** One more run, whatever came before and however it ends. */
  lemma HalfwayMore(sinceDays: nat, init: seq<Turn>, t: Turn, st: Store, a: nat) returns (a': nat)
    requires InOrder(init + [t]) && st.watermark == 0 && Halfway(sinceDays, init, st.ledger, a)
    ensures Halfway(sinceDays, init + [t], Run(t.file, st, sinceDays, t.limit, t.now, t.fate).ledger, a')
  {
    InTimeMore(sinceDays, init, t);
    LastFollows(sinceDays, init, t);
    hide Run, First, InOrder, Decent, Furthest, Reaches, Hole, InTime, StartsInTime, Begin;
    a' := a;
    hide Halfway;
    if InTime(sinceDays, init + [t]) {
      TakeOver(sinceDays, init, t, st.ledger, a);
      a' := TurnInTime(sinceDays, init, t, st, a);
    } else {
      HoleSomewhere(sinceDays, init, t, st, a);
      HalfwayWithHole(sinceDays, init, t, Run(t.file, st, sinceDays, t.limit, t.now, t.fate).ledger, a);
    }
  }

  lemma HalfwayWithHole(sinceDays: nat, init: seq<Turn>, t: Turn, ledger: seq<Label>, a: nat)
    requires !InTime(sinceDays, init + [t]) && HoleBehind(sinceDays, t, ledger)
    ensures Halfway(sinceDays, init + [t], ledger, a)
  {
    var turns := init + [t];
    assert turns != [] && turns[|turns| - 1] == t;
    hide InTime, Furthest, Begin, HoleBehind;
  }

  lemma HoleSomewhere(sinceDays: nat, init: seq<Turn>, t: Turn, st: Store, a: nat)
    requires InOrder(init + [t]) && st.watermark == 0 && Halfway(sinceDays, init, st.ledger, a)
    requires !InTime(sinceDays, init + [t])
    ensures HoleBehind(sinceDays, t, Run(t.file, st, sinceDays, t.limit, t.now, t.fate).ledger)
  {
    InTimeMore(sinceDays, init, t);
    LastFollows(sinceDays, init, t);
    hide Run, First, InOrder, Decent, Furthest, Reaches, Hole, InTime, StartsInTime;
    if InTime(sinceDays, init) {
      TakeOver(sinceDays, init, t, st.ledger, a);
      LateIs(sinceDays, init, t);
      TurnLate(sinceDays, t, st, a, Furthest(sinceDays, init));
    } else {
      var g: nat :| g < Begin(sinceDays, init[|init| - 1]) && Hole(init[|init| - 1].file, st.ledger, g);
      HoleStays(init[|init| - 1].file, t.file, st, g, sinceDays, t.limit, t.now, t.fate);
    }
  }

  lemma LateIs(sinceDays: nat, init: seq<Turn>, t: Turn)
    requires !StartsInTime(sinceDays, init + [t], |init|)
    ensures var n := Furthest(sinceDays, init);
            n > 0 && !Idle(sinceDays, t) && n < Begin(sinceDays, t)
  {
    assert (init + [t])[..|init|] == init;
  }

  /** The ledger as the next run finds it. */
  lemma TakeOver(sinceDays: nat, init: seq<Turn>, t: Turn, ledger: seq<Label>, a: nat)
    requires InOrder(init + [t]) && InTime(sinceDays, init) && Halfway(sinceDays, init, ledger, a)
    ensures var n := Furthest(sinceDays, init);
            if n == 0 then ledger == [] else Reaches(t.file, ledger, a, n) && a <= Begin(sinceDays, t)
  {
    LastFollows(sinceDays, init, t);
    var n := Furthest(sinceDays, init);
    hide InOrder, Decent, Furthest, Reaches, Begin;
    if init != [] && n > 0 { ReachesStill(init[|init| - 1].file, t.file, ledger, a, n); }
  }

  lemma LastFollows(sinceDays: nat, init: seq<Turn>, t: Turn)
    requires InOrder(init + [t])
    ensures Decent(t.file) && InOrder(init)
    ensures init != [] ==>
              init[|init| - 1].file <= t.file && Begin(sinceDays, init[|init| - 1]) <= Begin(sinceDays, t)
    ensures init == [] ==> Furthest(sinceDays, init) == 0 && InTime(sinceDays, init)
  {
    var turns := init + [t];
    assert turns[|init|] == t && forall i :: 0 <= i < |init| ==> turns[i] == init[i];
    if init != [] {
      var u := init[|init| - 1];
      assert turns[|init| - 1] == u;
      assert turns[|init| - 1].file <= turns[|init|].file && turns[|init| - 1].now <= turns[|init|].now;
      FirstMonotone(u.file, t.file, Since(0, sinceDays, u.now), Since(0, sinceDays, t.now));
    }
  }

  /** Over runs none of which sets the watermark, but for the last. */
  lemma {:induction false} RunsHalfway(sinceDays: nat, turns: seq<Turn>) returns (a: nat)
    requires InOrder(turns) && (turns != [] ==> NoneCompletes(sinceDays, turns[..|turns| - 1]))
    ensures Halfway(sinceDays, turns, Play(Store([], 0), sinceDays, turns).ledger, a)
    ensures NoneCompletes(sinceDays, turns) ==> Play(Store([], 0), sinceDays, turns).watermark == 0
  {
    a := 0;
    if turns != [] {
      var init, t := turns[..|turns| - 1], turns[|turns| - 1];
      assert turns == init + [t];
      LastFollows(sinceDays, init, t);
      var st := Play(Store([], 0), sinceDays, init);
      assert Play(Store([], 0), sinceDays, turns) == Run(t.file, st, sinceDays, t.limit, t.now, t.fate);
      FewerComplete(sinceDays, init);
      hide Run, InOrder, Halfway, NoneCompletes, Play;
      a := RunsHalfway(sinceDays, init);
      a := HalfwayMore(sinceDays, init, t, st, a);
      if NoneCompletes(sinceDays, turns) { LeavesWatermark(sinceDays, turns, t, st); }
    }
  }

  lemma FewerComplete(sinceDays: nat, turns: seq<Turn>)
    requires NoneCompletes(sinceDays, turns)
    ensures turns != [] ==> NoneCompletes(sinceDays, turns[..|turns| - 1])
  {
  }

  lemma LeavesWatermark(sinceDays: nat, turns: seq<Turn>, t: Turn, st: Store)
    requires turns != [] && t == turns[|turns| - 1] && NoneCompletes(sinceDays, turns) && Decent(t.file)
    requires st.watermark == 0
    ensures Run(t.file, st, sinceDays, t.limit, t.now, t.fate).watermark == 0
  {
    if Begin(sinceDays, t) == |t.file| { IdleRun(sinceDays, t, st); }
  }

  /** A hole that is there when a run completes stays open over all runs that follow. */
  lemma {:induction false} RunsOnwards(sinceDays: nat, file: seq<Decision>, st: Store, g: nat, turns: seq<Turn>)
    requires st.watermark != 0 && Hole(file, st.ledger, g) && file[g].ts < st.watermark
    requires Grows(turns) && forall i :: 0 <= i < |turns| ==> Decent(turns[i].file) && file <= turns[i].file
    ensures var last := if turns == [] then file else turns[|turns| - 1].file;
            var st' := Play(st, sinceDays, turns);
            st'.watermark != 0 && Hole(last, st'.ledger, g) && last[g].ts < st'.watermark
  {
    if turns != [] {
      var init, t := turns[..|turns| - 1], turns[|turns| - 1];
      RunsOnwards(sinceDays, file, st, g, init);
      var mid := Play(st, sinceDays, init);
      var before := if init == [] then file else init[|init| - 1].file;
      assert before <= t.file by {
        if init != [] { assert turns[|init| - 1].file <= turns[|init|].file; }
      }
      assert t.file[g] == before[g];
      hide Run, Hole;
      BehindTheHole(t.file, mid, g, sinceDays, t.now);
      HoleStays(before, t.file, mid, g, sinceDays, t.limit, t.now, t.fate);
      WatermarkRises(t.file, mid, sinceDays, t.limit, t.now, t.fate);
    }
  }

  lemma {:induction false} PlayAppends(s: Store, sinceDays: nat, first: seq<Turn>, rest: seq<Turn>)
    ensures Play(s, sinceDays, first + rest) == Play(Play(s, sinceDays, first), sinceDays, rest)
  {
    if rest == [] {
      assert first + rest == first;
    } else {
      var init := rest[..|rest| - 1];
      assert (first + rest)[..|first + rest| - 1] == first + init;
      PlayAppends(s, sinceDays, first, init);
    }
  }

  /** Some ledger of these labels is one unbroken stretch of the file. */
  ghost predicate Unbroken(file: seq<Decision>, ledger: seq<Label>) { exists a, n :: Stretch(file, ledger, a, n) }

  /**
   From an empty store, up to the first run that completes: the ledger is one unbroken stretch exactly
   when every run in it was in time, and it ends where these runs got to.
   */
  lemma FirstRunsExactly(sinceDays: nat, turns: seq<Turn>)
    requires turns != [] && InOrder(turns) && NoneCompletes(sinceDays, turns[..|turns| - 1])
    ensures var file, ledger := turns[|turns| - 1].file, Play(Store([], 0), sinceDays, turns).ledger;
            && (Unbroken(file, ledger) <==> InTime(sinceDays, turns))
            && (InTime(sinceDays, turns) && ledger != [] ==>
                  exists a :: Stretch(file, ledger, a, Furthest(sinceDays, turns)))
  {
    var file, ledger := turns[|turns| - 1].file, Play(Store([], 0), sinceDays, turns).ledger;
    var a := RunsHalfway(sinceDays, turns);
    assert Decent(file);
    hide Play, Furthest, Stretch, Decent, Begin, InOrder, NoneCompletes;
    if InTime(sinceDays, turns) {
      if Furthest(sinceDays, turns) == 0 { NothingIsStretch(file, 0); }
    } else {
      var g: nat :| g < Begin(sinceDays, turns[|turns| - 1]) && Hole(file, ledger, g);
      forall b: nat, m: nat ensures !Stretch(file, ledger, b, m) { HoleIsNoStretch(file, ledger, g, b, m); }
    }
  }

  /** The first run that completes leaves a store from which the ledger goes on as one stretch. */
  lemma CompletedIsOnTrack(sinceDays: nat, turns: seq<Turn>, a: nat)
    requires turns != [] && NoneCompletes(sinceDays, turns[..|turns| - 1]) && !NoneCompletes(sinceDays, turns)
    requires InOrder(turns) && InTime(sinceDays, turns)
    requires Halfway(sinceDays, turns, Play(Store([], 0), sinceDays, turns).ledger, a)
    ensures var t, s := turns[|turns| - 1], Play(Store([], 0), sinceDays, turns);
            OnTrack(t.file, s, a, Furthest(sinceDays, turns)) && s.watermark != 0
  {
    var t, s := turns[|turns| - 1], Play(Store([], 0), sinceDays, turns);
    var e := End(t.file, Begin(sinceDays, t), t.limit);
    OnlyLastCompletes(sinceDays, turns);
    CompletesAt(sinceDays, turns);
    FurthestCompletes(sinceDays, turns);
    hide Play, Furthest, Begin, InOrder, NoneCompletes, InTime, End;
    assert a <= e - 1 < Furthest(sinceDays, turns) && t.file[e - 1].ts == s.watermark;
  }

  lemma FurthestCompletes(sinceDays: nat, turns: seq<Turn>)
    requires turns != []
    requires var t := turns[|turns| - 1]; t.fate.Completes? && Begin(sinceDays, t) < |t.file|
    ensures var t := turns[|turns| - 1];
            0 < End(t.file, Begin(sinceDays, t), t.limit) <= Furthest(sinceDays, turns)
  {
    hide Begin;
  }

  lemma OnlyLastCompletes(sinceDays: nat, turns: seq<Turn>)
    requires turns != [] && NoneCompletes(sinceDays, turns[..|turns| - 1]) && !NoneCompletes(sinceDays, turns)
    ensures var t := turns[|turns| - 1]; t.fate.Completes? && Begin(sinceDays, t) < |t.file|
  {
    var init := turns[..|turns| - 1];
    assert forall i :: 0 <= i < |init| ==> init[i] == turns[i];
  }

  /** What a completed run leaves as the watermark: the time of its last decision, not before its start. */
  predicate CompletedAs(sinceDays: nat, t: Turn, watermark: int) {
    var e := End(t.file, Begin(sinceDays, t), t.limit);
    && Begin(sinceDays, t) < e <= |t.file| && watermark == t.file[e - 1].ts
    && watermark >= Since(0, sinceDays, t.now) && watermark > 0
  }

  lemma CompletesAt(sinceDays: nat, turns: seq<Turn>)
    requires turns != [] && NoneCompletes(sinceDays, turns[..|turns| - 1]) && !NoneCompletes(sinceDays, turns)
    requires InOrder(turns)
    ensures CompletedAs(sinceDays, turns[|turns| - 1], Play(Store([], 0), sinceDays, turns).watermark)
  {
    var init, t := turns[..|turns| - 1], turns[|turns| - 1];
    assert turns == init + [t];
    hide InOrder, NoneCompletes, CompletedAs, Play, Begin, Run;
    LastFollows(sinceDays, init, t);
    OnlyLastCompletes(sinceDays, turns);
    FewerComplete(sinceDays, init);
    var a := RunsHalfway(sinceDays, init);
    PlayMore(sinceDays, init, t);
    assert InTimeOrder(t.file);
    CompletingRun(sinceDays, t, Play(Store([], 0), sinceDays, init));
  }

  lemma PlayMore(sinceDays: nat, init: seq<Turn>, t: Turn)
    ensures Play(Store([], 0), sinceDays, init + [t])
         == Run(t.file, Play(Store([], 0), sinceDays, init), sinceDays, t.limit, t.now, t.fate)
  {
    assert (init + [t])[..|init|] == init;
  }

  lemma CompletingRun(sinceDays: nat, t: Turn, st: Store)
    requires InTimeOrder(t.file) && st.watermark == 0 && t.fate.Completes? && Begin(sinceDays, t) < |t.file|
    ensures CompletedAs(sinceDays, t, Run(t.file, st, sinceDays, t.limit, t.now, t.fate).watermark)
  {
    var b := Begin(sinceDays, t);
    var e := End(t.file, b, t.limit);
    BatchIsStretch(t.file, Since(0, sinceDays, t.now), t.limit);
    assert b < e && |t.file[b..e]| > 0;
    hide First, Batch, Latest, Unseen, LabelAll, Keys;
    LatestIsLast(t.file, b, e);
    assert b < e - 1 ==> t.file[b].ts <= t.file[e - 1].ts;
  }

  /**
   With or without a look-back limit, from an empty store, over any runs on the growing file, however
   many of them die and wherever: the ledger is one unbroken stretch exactly when every run up to the
   first that completes was in time. What comes after it neither makes a hole nor fills one.
   */
  lemma NoHoleExactlyWhenInTime(sinceDays: nat, first: seq<Turn>, rest: seq<Turn>)
    requires first != [] && InOrder(first + rest) && NoneCompletes(sinceDays, first[..|first| - 1])
    requires rest == [] || !NoneCompletes(sinceDays, first)
    ensures var turns := first + rest;
            Unbroken(turns[|turns| - 1].file, Play(Store([], 0), sinceDays, turns).ledger) <==>
              InTime(sinceDays, first)
  {
    hide *;
    FewerInOrder(first, rest);
    PlayAppends(Store([], 0), sinceDays, first, rest);
    if rest == [] {
      assert first + rest == first;
      FirstRunsExactly(sinceDays, first);
    } else {
      assert (first + rest)[|first + rest| - 1] == rest[|rest| - 1];
      GoesOnAsItWas(sinceDays, first, rest);
    }
  }

  lemma GoesOnAsItWas(sinceDays: nat, first: seq<Turn>, rest: seq<Turn>)
    requires first != [] && InOrder(first) && NoneCompletes(sinceDays, first[..|first| - 1])
    requires !NoneCompletes(sinceDays, first) && rest != [] && Grows(rest)
    requires forall i :: 0 <= i < |rest| ==> Decent(rest[i].file) && first[|first| - 1].file <= rest[i].file
    ensures Unbroken(rest[|rest| - 1].file, Play(Play(Store([], 0), sinceDays, first), sinceDays, rest).ledger) <==>
              InTime(sinceDays, first)
  {
    var file, st := first[|first| - 1].file, Play(Store([], 0), sinceDays, first);
    hide Play, InOrder, NoneCompletes, InTime, Unbroken, Furthest, Begin, First, Decent, Grows, OnTrack, Hole;
    var a := RunsHalfway(sinceDays, first);
    CompletesAt(sinceDays, first);
    if InTime(sinceDays, first) {
      CompletedIsOnTrack(sinceDays, first, a);
      var m := LedgerIsOneStretch(st, file, a, Furthest(sinceDays, first), sinceDays, rest);
      OneStretchIsUnbroken(rest[|rest| - 1].file, Play(st, sinceDays, rest), a, m);
    } else {
      BrokenForGood(sinceDays, first[|first| - 1], st, rest);
    }
  }

  lemma BrokenForGood(sinceDays: nat, t: Turn, st: Store, rest: seq<Turn>)
    requires rest != [] && Grows(rest)
    requires forall i :: 0 <= i < |rest| ==> Decent(rest[i].file) && t.file <= rest[i].file
    requires st.watermark > 0 && st.watermark >= Since(0, sinceDays, t.now)
    requires HoleBehind(sinceDays, t, st.ledger)
    ensures !Unbroken(rest[|rest| - 1].file, Play(st, sinceDays, rest).ledger)
  {
    var file, ledger := rest[|rest| - 1].file, Play(st, sinceDays, rest).ledger;
    var g: nat :| g < Begin(sinceDays, t) && Hole(t.file, st.ledger, g);
    RunsOnwards(sinceDays, t.file, st, g, rest);
    assert KeysDistinct(file);
    hide Play, Hole, Stretch, First;
    forall b: nat, m: nat ensures !Stretch(file, ledger, b, m) { HoleIsNoStretch(file, ledger, g, b, m); }
  }

  lemma OneStretchIsUnbroken(file: seq<Decision>, s: Store, a: nat, n: nat)
    requires OnTrack(file, s, a, n)
    ensures Unbroken(file, s.ledger)
  {
  }

  lemma FewerInOrder(first: seq<Turn>, rest: seq<Turn>)
    requires first != [] && InOrder(first + rest)
    ensures InOrder(first) && Grows(rest)
    ensures forall i :: 0 <= i < |rest| ==> Decent(rest[i].file) && first[|first| - 1].file <= rest[i].file
  {
    var turns := first + rest;
    assert forall i :: 0 <= i < |first| ==> turns[i] == first[i];
    assert forall i :: 0 <= i < |rest| ==> turns[|first| + i] == rest[i];
    hide Decent;
    forall i | 0 <= i < |rest| ensures Decent(rest[i].file) && first[|first| - 1].file <= rest[i].file {
      assert turns[|first| - 1].file <= turns[|first| + i].file;
    }
  }

  lemma NothingIsStretch(file: seq<Decision>, b: nat)
    requires b <= |file|
    ensures Stretch(file, [], b, b)
  {
    assert file[b..b] == [];
  }

  lemma BehindTheHole(file: seq<Decision>, st: Store, g: nat, sinceDays: nat, now: int)
    requires InTimeOrder(file) && g < |file| && file[g].ts < st.watermark && st.watermark != 0
    ensures g < First(file, Since(st.watermark, sinceDays, now))
  {
    forall i | 0 <= i <= g ensures file[i].ts < st.watermark { assert i < g ==> file[i].ts <= file[g].ts; }
  }

  /** A run never moves the watermark to before its own start. */
  lemma WatermarkRises(file: seq<Decision>, st: Store, sinceDays: nat, limit: int, now: int, fate: Fate)
    requires InTimeOrder(file)
    ensures var since := Since(st.watermark, sinceDays, now);
            var st' := Run(file, st, sinceDays, limit, now, fate);
            st'.watermark == st.watermark || st'.watermark >= since
    ensures fate.Completes? && First(file, Since(st.watermark, sinceDays, now)) < |file| ==>
              Run(file, st, sinceDays, limit, now, fate).watermark >= Since(st.watermark, sinceDays, now)
              && Run(file, st, sinceDays, limit, now, fate).watermark != 0
  {
    var since := Since(st.watermark, sinceDays, now);
    var b := First(file, since);
    var e := End(file, b, limit);
    BatchIsStretch(file, since, limit);
    if b < |file| {
      assert b < e && |file[b..e]| > 0;
      LatestIsLast(file, b, e);
      assert b < e - 1 ==> file[b].ts <= file[e - 1].ts;
    }
  }

  /**
   With a look-back limit and no watermark yet, a run that dies can leave a hole: the next run looks
   back from a later time and skips what the first one had not reached.
   */
  lemma DyingFirstRunLeavesAHole(file: seq<Decision>)
    requires Decent(file) && |file| == 3
    requires file[0].ts == 2 * 86400 && file[1].ts == 2 * 86400 + 1 && file[2].ts == 2 * 86400 + 2
    ensures var s1 := Run(file, Store([], 0), 1, 10, 3 * 86400, Dies(1));
            var s2 := Run(file, s1, 1, 10, 3 * 86400 + 2, Completes);
            s2.ledger == [Labelled(file[0]), Labelled(file[2])] && s2.watermark == file[2].ts
  {
    FirstDies(file);
    var s1 := Run(file, Store([], 0), 1, 10, 3 * 86400, Dies(1));
    hide Run;
    SecondSkips(file, s1);
  }

  lemma FirstDies(file: seq<Decision>)
    requires Decent(file) && |file| == 3
    requires file[0].ts == 2 * 86400 && file[1].ts == 2 * 86400 + 1 && file[2].ts == 2 * 86400 + 2
    ensures Run(file, Store([], 0), 1, 10, 3 * 86400, Dies(1)) == Store([Labelled(file[0])], 0)
  {
    assert First(file, 2 * 86400) == 0;
    BatchIsStretch(file, 2 * 86400, 10);
    assert file[0..3] == file;
    hide Batch, First;
    UnseenAll(file, {}, 0, 3);
    assert LabelAll(file)[..1] == [Labelled(file[0])];
  }

  lemma SecondSkips(file: seq<Decision>, s: Store)
    requires Decent(file) && |file| == 3 && s == Store([Labelled(file[0])], 0)
    requires file[0].ts == 2 * 86400 && file[1].ts == 2 * 86400 + 1 && file[2].ts == 2 * 86400 + 2
    ensures var s2 := Run(file, s, 1, 10, 3 * 86400 + 2, Completes);
            s2.ledger == [Labelled(file[0]), Labelled(file[2])] && s2.watermark == file[2].ts
  {
    assert First(file, 2 * 86400 + 2) == 2;
    BatchIsStretch(file, 2 * 86400 + 2, 10);
    hide Batch, First;
    assert file[2..3] == [file[2]];
    assert KeyOf(file[2]) !in Keys([Labelled(file[0])]);
    assert [file[2]][1..] == [] && Unseen([file[2]], Keys([Labelled(file[0])])) == [file[2]];
    assert LabelAll([file[2]]) == [Labelled(file[2])];
  }

  // ---------------------------------------------------------------------------------------------
  // Getting on
  // ---------------------------------------------------------------------------------------------

  /** The first `limit` decisions at or after the watermark are all labelled and all share its time. */
  predicate Stuck(file: seq<Decision>, s: Store, n: nat, limit: int) {
    var k := First(file, s.watermark);
    s.watermark != 0 && k + AtLeastOne(limit) <= n && n <= |file| && file[k + AtLeastOne(limit) - 1].ts == s.watermark
  }

  /** The bounds of a run's batch, and where the stretch and the watermark are afterwards. */
  lemma RunFacts(file: seq<Decision>, s: Store, a: nat, n: nat, limit: int, now: int, fate: Fate)
    returns (k: nat, e: nat, m: nat, s': Store)
    requires Decent(file) && OnTrack(file, s, a, n)
    ensures s' == Run(file, s, 0, limit, now, fate) && k == First(file, s.watermark) && e == End(file, k, limit)
    ensures m == Reach(n, e, fate) && OnTrack(file, s', a, m)
    ensures a <= k <= n <= |file| && (k < n || s.watermark == 0)
    ensures |s.ledger| == n - a && |s'.ledger| == m - a && (m == n ==> s'.ledger == s.ledger)
    ensures s'.watermark == if k < |file| && fate.Completes? then file[e - 1].ts else s.watermark
    ensures k < |file| ==> k < e && file[e - 1].ts >= file[k].ts >= s.watermark && file[e - 1].ts > 0
  {
    hide First, End, Run, Reach, OnTrack, Decent;
    k := First(file, s.watermark);
    e := End(file, k, limit);
    s' := Run(file, s, 0, limit, now, fate);
    m := TurnKeeps(file, s, a, n, 0, limit, now, fate);
    FactsOf(file, s, a, n, limit, now, fate, k, e, m, s');
  }

  lemma FactsOf(file: seq<Decision>, s: Store, a: nat, n: nat, limit: int, now: int, fate: Fate, k: nat, e: nat, m: nat,
                s': Store)
    requires Decent(file) && OnTrack(file, s, a, n) && OnTrack(file, s', a, m)
    requires s' == Run(file, s, 0, limit, now, fate) && k == First(file, s.watermark) && e == End(file, k, limit)
    ensures a <= k <= n <= |file| && (k < n || s.watermark == 0)
    ensures |s.ledger| == n - a && |s'.ledger| == m - a && (m == n ==> s'.ledger == s.ledger)
    ensures s'.watermark == if k < |file| && fate.Completes? then file[e - 1].ts else s.watermark
    ensures k < |file| ==> k < e && file[e - 1].ts >= file[k].ts >= s.watermark && file[e - 1].ts > 0
  {
    hide First, End, Run, Reach, OnTrack, Decent, LabelAll;
    BatchBounds(file, s, a, n, limit, now, k, e);
    StretchSize(file, s, a, n);
    StretchSize(file, s', a, m);
    RunMovesWatermark(file, s, a, n, limit, now, fate);
  }

  lemma BatchBounds(file: seq<Decision>, s: Store, a: nat, n: nat, limit: int, now: int, k: nat, e: nat)
    requires Decent(file) && OnTrack(file, s, a, n) && k == First(file, s.watermark) && e == End(file, k, limit)
    ensures a <= k <= n <= |file| && (k < n || s.watermark == 0)
    ensures k < |file| ==> k < e && file[e - 1].ts >= file[k].ts >= s.watermark && file[e - 1].ts > 0
  {
    assert Since(s.watermark, 0, now) == s.watermark && n <= |file|;
    NextStartsInside(file, s, a, n, 0, now);
    assert InTimeOrder(file);
    hide Decent, OnTrack, First, InTimeOrder, Since;
    if k < |file| { TimesInOrder(file, s.watermark, limit, k, e); }
  }

  lemma RunMovesWatermark(file: seq<Decision>, s: Store, a: nat, n: nat, limit: int, now: int, fate: Fate)
    requires Decent(file) && OnTrack(file, s, a, n) && a <= First(file, s.watermark) <= n
    ensures var k := First(file, s.watermark);
            var e := End(file, k, limit);
            var watermark := Run(file, s, 0, limit, now, fate).watermark;
            watermark == if k < |file| && fate.Completes? then file[e - 1].ts else s.watermark
  {
    hide Decent, First, Run;
    RunExtends(file, s, a, n, 0, limit, now, fate);
  }

  lemma TimesInOrder(file: seq<Decision>, since: int, limit: int, k: nat, e: nat)
    requires InTimeOrder(file) && k == First(file, since) && k < |file| && e == End(file, k, limit)
    ensures k < e && file[e - 1].ts >= file[k].ts >= since && file[e - 1].ts > 0
  {
    assert k < e <= |file| && file[k].ts >= since;
    hide First, End;
    assert k < e - 1 ==> file[k].ts <= file[e - 1].ts;
  }

  lemma StretchSize(file: seq<Decision>, s: Store, a: nat, n: nat)
    requires OnTrack(file, s, a, n)
    ensures a <= n <= |file| && |s.ledger| == n - a && s.ledger == LabelAll(file[a..n])
  {
  }

  /** With a backlog, a run that completes changes nothing exactly when it is stuck. */
  lemma NoHeadwayExactlyWhenStuck(file: seq<Decision>, s: Store, a: nat, n: nat, limit: int, now: int)
    requires Decent(file) && OnTrack(file, s, a, n) && n < |file|
    ensures Run(file, s, 0, limit, now, Completes) == s <==> Stuck(file, s, n, limit)
    ensures var s' := Run(file, s, 0, limit, now, Completes);
            s' != s ==> s'.watermark > s.watermark || |s'.ledger| > |s.ledger|
  {
    hide Run, First, OnTrack, Decent;
    var k, e, m', s' := RunFacts(file, s, a, n, limit, now, Completes);
  }

  /** Once stuck, no run with that limit ever does anything again, however the file grows. */
  lemma StuckForGood(file: seq<Decision>, more: seq<Decision>, s: Store, a: nat, n: nat, limit: int, now: int,
                     fate: Fate)
    requires Decent(more) && file <= more && OnTrack(file, s, a, n) && Stuck(file, s, n, limit)
    ensures Run(more, s, 0, limit, now, fate) == s && Stuck(more, s, n, limit)
  {
    StuckGrows(file, more, s, n, limit);
    OnTrackGrows(file, more, s, a, n);
    hide OnTrack, Stuck, Run;
    StuckDoesNothing(more, s, a, n, limit, now, fate);
  }

  lemma StuckDoesNothing(file: seq<Decision>, s: Store, a: nat, n: nat, limit: int, now: int, fate: Fate)
    requires Decent(file) && OnTrack(file, s, a, n) && Stuck(file, s, n, limit)
    ensures Run(file, s, 0, limit, now, fate) == s
  {
    hide Run, First, OnTrack, Decent;
    var k, e, m, s' := RunFacts(file, s, a, n, limit, now, fate);
    assert e <= n && m == n;
  }

  lemma StuckGrows(file: seq<Decision>, more: seq<Decision>, s: Store, n: nat, limit: int)
    requires file <= more && Stuck(file, s, n, limit)
    ensures Stuck(more, s, n, limit)
  {
    FirstGrows(file, more, s.watermark);
  }

  lemma FirstGrows(file: seq<Decision>, more: seq<Decision>, since: int)
    requires file <= more && First(file, since) < |file|
    ensures First(more, since) == First(file, since)
  {
    var k := First(file, since);
    assert forall i :: 0 <= i <= k ==> more[i] == file[i];
  }

  /** Fewer than `limit` decisions share a time. */
  predicate Thin(file: seq<Decision>, limit: int) {
    limit > 0 && forall i, j :: 0 <= i && i + limit - 1 <= j < |file| ==> file[i].ts < file[j].ts
  }

  /** No more is labelled than the batch at the watermark holds: runs with one limit never get further ahead. */
  predicate InReach(file: seq<Decision>, s: Store, n: nat, limit: int) { n <= First(file, s.watermark) + limit }

  /** Less is labelled than that: the next batch holds something new, if there is anything new. */
  predicate InStep(file: seq<Decision>, s: Store, n: nat, limit: int) { n < First(file, s.watermark) + limit }

  /** Dying or not, a run stays within reach. */
  lemma RunStaysInReach(file: seq<Decision>, s: Store, a: nat, n: nat, limit: int, now: int,
                        fate: Fate)
    returns (m: nat)
    requires Decent(file) && Thin(file, limit) && OnTrack(file, s, a, n) && InReach(file, s, n, limit)
    ensures OnTrack(file, Run(file, s, 0, limit, now, fate), a, m)
    ensures InReach(file, Run(file, s, 0, limit, now, fate), m, limit) && n <= m
  {
    var k, e, m', s' := RunFacts(file, s, a, n, limit, now, fate);
    m := Reach(n, e, fate);
    if fate.Completes? { m := CompletedRun(file, s, a, n, limit, now); }
  }

  /**
   When decisions are thin on the ground, a completed run leaves the store in step, and out of step
   with a backlog it labels more.
   */
  lemma CompletedRun(file: seq<Decision>, s: Store, a: nat, n: nat, limit: int, now: int) returns (m: nat)
    requires Decent(file) && Thin(file, limit) && OnTrack(file, s, a, n) && InReach(file, s, n, limit)
    ensures OnTrack(file, Run(file, s, 0, limit, now, Completes), a, m)
    ensures InStep(file, Run(file, s, 0, limit, now, Completes), m, limit)
    ensures n <= m && (InStep(file, s, n, limit) && n < |file| ==> n < m)
  {
    hide Run, First, OnTrack, Decent;
    var k, e, m', s' := RunFacts(file, s, a, n, limit, now, Completes);
    m := Reach(n, e, Completes);
    if k < |file| {
      var k' := First(file, s'.watermark);
      ThinCloses(file, e, k', limit);
    }
  }

  lemma ThinCloses(file: seq<Decision>, e: nat, k: nat, limit: int)
    requires Thin(file, limit) && 0 < e <= |file| && k == First(file, file[e - 1].ts)
    ensures e < k + limit
  {
    assert k <= e - 1;
    forall i | 0 <= i && i + limit <= e ensures file[i].ts < file[e - 1].ts {}
  }

  /** Runs on a file that does not grow, each completing or dying in its own way. */
  function Played(file: seq<Decision>, s: Store, limit: int, fates: seq<Fate>): Store {
    if fates == [] then s
    else Run(file, Played(file, s, limit, fates[..|fates| - 1]), 0, limit, 0, fates[|fates| - 1])
  }

  function Completed(fates: seq<Fate>): nat {
    if fates == [] then 0 else Completed(fates[..|fates| - 1]) + if fates[|fates| - 1].Completes? then 1 else 0
  }

  /** One run: a completed one gains a label or comes into step, a dying one loses neither. */
  lemma OneRunGains(file: seq<Decision>, s: Store, a: nat, n: nat, limit: int, fate: Fate) returns (m: nat)
    requires Decent(file) && Thin(file, limit) && OnTrack(file, s, a, n) && InReach(file, s, n, limit)
    ensures var s' := Run(file, s, 0, limit, 0, fate);
            && OnTrack(file, s', a, m) && InReach(file, s', m, limit) && n <= m
            && (m == |file| || Gain(file, s, n, limit) + (if fate.Completes? then 1 else 0) <= Gain(file, s', m, limit))
  {
    if fate.Completes? {
      m := CompletedRun(file, s, a, n, limit, 0);
      StretchOf(file, s, a, n);
    } else {
      m := RunStaysInReach(file, s, a, n, limit, 0, fate);
      hide Run, OnTrack, Decent;
      var k, e, m', s' := RunFacts(file, s, a, n, limit, 0, fate);
      DyingKeepsGain(file, s, a, n, limit, fate, m);
    }
  }

  /** Labels written, and one more for being in step. */
  function Gain(file: seq<Decision>, s: Store, n: nat, limit: int): nat {
    n + if InStep(file, s, n, limit) then 1 else 0
  }

  lemma DyingKeepsGain(file: seq<Decision>, s: Store, a: nat, n: nat, limit: int, fate: Fate, m: nat)
    requires Decent(file) && OnTrack(file, s, a, n) && fate.Dies? && n <= m
    requires OnTrack(file, Run(file, s, 0, limit, 0, fate), a, m)
    ensures Gain(file, s, n, limit) <= Gain(file, Run(file, s, 0, limit, 0, fate), m, limit)
  {
    hide Run, First, OnTrack, Decent;
    var k, e, m', s' := RunFacts(file, s, a, n, limit, 0, fate);
  }

  /**
   So the program catches up with the whole file once more runs complete than it was behind, however
   many die in between.
   */
  lemma {:induction false} CatchesUp(file: seq<Decision>, s: Store, a: nat, n: nat, limit: int,
                                     fates: seq<Fate>)
    returns (m: nat)
    requires Decent(file) && Thin(file, limit) && OnTrack(file, s, a, n) && InReach(file, s, n, limit)
    ensures var s' := Played(file, s, limit, fates);
            && OnTrack(file, s', a, m) && InReach(file, s', m, limit)
            && (m == |file| || n + Completed(fates) <= Gain(file, s', m, limit))
    ensures Completed(fates) > |file| - n ==> Played(file, s, limit, fates).ledger == LabelAll(file[a..])
  {
    hide Run, First, OnTrack, Decent, Thin, LabelAll;
    if fates == [] {
      m := n;
    } else {
      var init, fate := fates[..|fates| - 1], fates[|fates| - 1];
      var k := CatchesUp(file, s, a, n, limit, init);
      m := OneRunGains(file, Played(file, s, limit, init), a, k, limit, fate);
      StretchOf(file, Played(file, s, limit, init), a, k);
    }
    StretchOf(file, Played(file, s, limit, fates), a, m);
    if m == |file| { assert file[a..m] == file[a..]; }
  }
}
