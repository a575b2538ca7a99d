/**
 What the second opinion may and may not do: it drops nothing without a verdict, it repeats itself
 for as long as its verdicts are fresh, and an outage counts as an answer.
 */
module LlmLaws {
  import opened LlmReview
  import opened LlmAnswers

  // ---------------------------------------------------------------------------------------------
  // What is dropped
  // ---------------------------------------------------------------------------------------------

  /** `kept` is `issues` with some elements left out. */
  ghost predicate Subsequence(kept: seq<Issue>, issues: seq<Issue>) {
    exists at: seq<nat> :: Picks(at, kept, issues)
  }

  ghost predicate Picks(at: seq<nat>, kept: seq<Issue>, issues: seq<Issue>) {
    && |at| == |kept| && (forall i :: 0 <= i < |at| ==> at[i] < |issues| && kept[i] == issues[at[i]])
    && forall i, j :: 0 <= i < j < |at| ==> at[i] < at[j]
  }

  function Shifted(at: seq<nat>): seq<nat> { seq(|at|, i requires 0 <= i < |at| => at[i] + 1) }

  lemma PicksMore(at: seq<nat>, kept: seq<Issue>, issues: seq<Issue>, first: Issue)
    requires Picks(at, kept, issues)
    ensures Picks(Shifted(at), kept, [first] + issues)
    ensures Picks([0] + Shifted(at), [first] + kept, [first] + issues)
  {
  }

  /** The answer is the issues in their order without those judged false positives. */
  lemma {:induction false} KeptIsSubsequence(issues: seq<Issue>, v: Verdicts)
    ensures Subsequence(Kept(issues, v), issues)
  {
    if issues == [] {
      assert Picks([], [], []);
    } else {
      KeptIsSubsequence(issues[1..], v);
      var rest := Kept(issues[1..], v);
      var at :| Picks(at, rest, issues[1..]);
      PicksMore(at, rest, issues[1..], issues[0]);
      assert [issues[0]] + issues[1..] == issues && [] + rest == rest;
    }
  }

  lemma {:induction false} KeptIs(issues: seq<Issue>, v: Verdicts)
    ensures forall i :: i in Kept(issues, v) <==> i in issues && Default(v, PlaceOf(i)) != FalsePositive
  {
    if issues != [] { KeptIs(issues[1..], v); }
  }

  lemma {:induction false} KeptAll(issues: seq<Issue>, v: Verdicts)
    requires forall i :: i in issues ==> Default(v, PlaceOf(i)) != FalsePositive
    ensures Kept(issues, v) == issues
  {
    if issues != [] { KeptAll(issues[1..], v); }
  }

  lemma {:induction false} KeptSame(issues: seq<Issue>, v: Verdicts, w: Verdicts)
    requires forall i :: i in issues ==>
               (Default(v, PlaceOf(i)) == FalsePositive <==> Default(w, PlaceOf(i)) == FalsePositive)
    ensures Kept(issues, v) == Kept(issues, w)
  {
    if issues != [] { KeptSame(issues[1..], v, w); }
  }

  predicate KnownFalse(cache: Cache, i: Issue, now: int) {
    Usable(cache, i, now) && cache[KeyOf(i)].verdict == FalsePositive
  }

  predicate Silent(answer: Verdicts) { answer == map[] }

  ghost predicate NoProviderAnswers(oracle: Oracle, providers: nat) {
    forall n: nat, batch :: n < providers ==> Silent(oracle(n, batch))
  }

  /** The answer to the n-th batch condemns the place. */
  predicate CondemnedBy(oracle: Oracle, providers: nat, asked: seq<seq<Issue>>, n: nat, place: Place) {
    n < |asked| && Default(AnswerTo(oracle, providers, asked[n]), place) == FalsePositive
  }

  /** The last answer that names the place condemns it; when none does, the last fresh cached verdict there. */
  ghost predicate Condemned(cache: Cache, candidates: seq<Issue>, now: int, oracle: Oracle, providers: nat,
                            asked: seq<seq<Issue>>, place: Place) {
    || (exists n: nat :: NamedLast(oracle, providers, asked, n, place)
          && CondemnedBy(oracle, providers, asked, n, place))
    || (Unnamed(oracle, providers, asked, place)
        && exists k: nat :: LastUsable(cache, candidates, now, k, place) && KnownFalse(cache, candidates[k], now))
  }

  lemma HeardFalse(oracle: Oracle, providers: nat, asked: seq<seq<Issue>>, known: Verdicts, v: Verdicts, place: Place)
    requires Heard(oracle, providers, asked, known, v)
    ensures Default(v, place) == FalsePositive <==>
              || (exists n: nat :: NamedLast(oracle, providers, asked, n, place)
                    && CondemnedBy(oracle, providers, asked, n, place))
              || (Unnamed(oracle, providers, asked, place) && Default(known, place) == FalsePositive)
  {
    hide AnswerTo;
    if !Unnamed(oracle, providers, asked, place) {
      var n: nat :| Names(oracle, providers, asked, n, place);
      var last := SomeNameIsLast(oracle, providers, asked, n, place);
      forall m: nat | NamedLast(oracle, providers, asked, m, place) ensures m == last {
        assert Names(oracle, providers, asked, m, place) && Names(oracle, providers, asked, last, place);
      }
    }
  }

  /**
   An issue is dropped exactly when its place is condemned: by the last answer of this call that names
   the place, and only where no answer does by the cache.
   */
  lemma DroppedExactly(cache: Cache, issues: seq<Issue>, threshold: nat, oracle: Oracle, providers: nat, size: nat,
                       now: int, stamp: nat -> int, i: Issue)
    requires size > 0 && i in issues
    ensures var p := Reviewed(cache, issues, threshold, oracle, providers, size, now, stamp);
            i !in Kept(issues, p.verdicts) <==>
              Condemned(cache, Candidates(issues, threshold), now, oracle, providers, p.asked, PlaceOf(i))
  {
    var candidates := Candidates(issues, threshold);
    var p := Reviewed(cache, issues, threshold, oracle, providers, size, now, stamp);
    KeptIs(issues, p.verdicts);
    ReviewHears(cache, issues, threshold, oracle, providers, size, now, stamp);
    hide Reviewed, Known, Heard;
    HeardFalse(oracle, providers, p.asked, Known(cache, candidates, now), p.verdicts, PlaceOf(i));
    KnownExactly(cache, candidates, now, PlaceOf(i), FalsePositive);
  }

  /**
   So nothing is dropped unless a candidate there has a fresh cached verdict against it, or the answer
   believed about a batch that was shown in this call says so.
   */
  lemma DroppedOnlyIfCondemned(cache: Cache, issues: seq<Issue>, threshold: nat, oracle: Oracle, providers: nat,
                               size: nat, now: int, stamp: nat -> int, i: Issue)
    requires size > 0 && i in issues
    ensures var p := Reviewed(cache, issues, threshold, oracle, providers, size, now, stamp);
            i !in Kept(issues, p.verdicts) ==>
              || (exists j :: j in Candidates(issues, threshold) && PlaceOf(j) == PlaceOf(i)
                    && KnownFalse(cache, j, now))
              || exists n: nat :: CondemnedBy(oracle, providers, p.asked, n, PlaceOf(i))
  {
    DroppedExactly(cache, issues, threshold, oracle, providers, size, now, stamp, i);
  }

  lemma {:induction false} NobodyAnswers(oracle: Oracle, providers: nat, batch: seq<Issue>, from: nat)
    requires NoProviderAnswers(oracle, providers)
    ensures FirstAnswer(oracle, providers, batch, from) == map[]
    decreases providers - from
  {
    if from < providers {
      assert Silent(oracle(from, batch));
      NobodyAnswers(oracle, providers, batch, from + 1);
    }
  }

  /** With no fresh verdicts and every provider silent, the review gives back what it was given. */
  lemma FailsOpen(cache: Cache, issues: seq<Issue>, threshold: nat, oracle: Oracle, providers: nat, size: nat, now: int,
                  stamp: nat -> int)
    requires size > 0 && NoProviderAnswers(oracle, providers)
    requires forall i :: i in issues ==> !Usable(cache, i, now)
    ensures Kept(issues, Reviewed(cache, issues, threshold, oracle, providers, size, now, stamp).verdicts) == issues
  {
    var p := Reviewed(cache, issues, threshold, oracle, providers, size, now, stamp);
    CandidatesAreIssues(issues, threshold);
    KeptIs(issues, p.verdicts);
    forall batch ensures AnswerTo(oracle, providers, batch) == map[] { NobodyAnswers(oracle, providers, batch, 0); }
    hide Reviewed, AnswerTo, Kept;
    forall i | i in issues ensures Default(p.verdicts, PlaceOf(i)) != FalsePositive {
      DroppedOnlyIfCondemned(cache, issues, threshold, oracle, providers, size, now, stamp, i);
    }
    KeptAll(issues, p.verdicts);
  }

  // ---------------------------------------------------------------------------------------------
  // Whether providers are asked
  // ---------------------------------------------------------------------------------------------

  /**
   The cache has a verdict for this file, line and beginning of the description, up to 80 characters, that is no
   more than a day old.
   */
  ghost predicate JudgedWithinADay(cache: Cache, i: Issue, now: int) {
    exists k :: k in cache && k.file == i.file && k.line == i.line && k.start <= i.description
      && (|k.start| == 80 || (|k.start| < 80 && k.start == i.description))
      && now - cache[k].at <= 24 * 60 * 60
  }

  lemma UsableExactly(cache: Cache, i: Issue, now: int)
    ensures Usable(cache, i, now) <==> JudgedWithinADay(cache, i, now)
  {
    if k :| k in cache && k.file == i.file && k.line == i.line && k.start <= i.description
            && (|k.start| == 80 || (|k.start| < 80 && k.start == i.description))
            && now - cache[k].at <= 24 * 60 * 60 {
      assert k.start == KeyOf(i).start;
      assert k == KeyOf(i);
    }
  }

  /** Every candidate has a fresh verdict at `now`. */
  ghost predicate AllFresh(cache: Cache, issues: seq<Issue>, threshold: nat, now: int) {
    forall i :: i in issues && i.severity >= threshold ==> Usable(cache, i, now)
  }

  /** Providers are asked exactly when some issue at or above the threshold was not judged within a day. */
  lemma AsksExactlyWhenUnjudged(cache: Cache, issues: seq<Issue>, threshold: nat, oracle: Oracle, providers: nat,
                                size: nat, now: int, stamp: nat -> int)
    requires size > 0
    ensures Reviewed(cache, issues, threshold, oracle, providers, size, now, stamp).asked != [] <==>
              exists i :: i in issues && i.severity >= threshold && !JudgedWithinADay(cache, i, now)
  {
    AsksExactlyWhenStale(cache, issues, threshold, oracle, providers, size, now, stamp);
    forall i ensures Usable(cache, i, now) <==> JudgedWithinADay(cache, i, now) { UsableExactly(cache, i, now); }
    hide Usable, JudgedWithinADay, Reviewed;
  }

  /** A review asks providers exactly when some candidate has no fresh verdict; otherwise the cache stays as it is. */
  lemma AsksExactlyWhenStale(cache: Cache, issues: seq<Issue>, threshold: nat, oracle: Oracle, providers: nat,
                             size: nat, now: int, stamp: nat -> int)
    requires size > 0
    ensures var p := Reviewed(cache, issues, threshold, oracle, providers, size, now, stamp);
            && (p.asked == [] <==> AllFresh(cache, issues, threshold, now))
            && (p.asked == [] ==> p.cache == cache && p.verdicts == Known(cache, Candidates(issues, threshold), now))
  {
    var candidates := Candidates(issues, threshold);
    var p := Reviewed(cache, issues, threshold, oracle, providers, size, now, stamp);
    CandidatesAreIssues(issues, threshold);
    ReviewHears(cache, issues, threshold, oracle, providers, size, now, stamp);
    AskedAreStale(cache, issues, threshold, now, p.asked);
    hide Usable, Heard, Noted, Known, AskAll;
    if p.asked == [] {
      assert Joined(p.asked) == [];
      AskAllDone(oracle, providers, size, stamp, 0, Progress(Known(cache, candidates, now), cache, []));
      forall i | i in issues && i.severity >= threshold ensures Usable(cache, i, now) {
        assert forall n: nat :: !InBatch(p.asked, n, i);
      }
    } else {
      var i := p.asked[0][0];
      assert InBatch(p.asked, 0, i);
      assert i in issues && i.severity >= threshold && !Usable(cache, i, now);
    }
  }

  // ---------------------------------------------------------------------------------------------
  // Asking again
  // ---------------------------------------------------------------------------------------------

  /** What the cache holds for a candidate after a review: the verdict reused, or what its last batch was told. */
  lemma CacheAfter(cache: Cache, issues: seq<Issue>, threshold: nat, oracle: Oracle, providers: nat, size: nat,
                   now: int, stamp: nat -> int, i: Issue)
    requires size > 0 && i in issues && i.severity >= threshold
    ensures var p := Reviewed(cache, issues, threshold, oracle, providers, size, now, stamp);
            && KeyOf(i) in p.cache
            && (Usable(cache, i, now) ==>
                  NeverUnder(p.asked, KeyOf(i)) && p.cache[KeyOf(i)] == cache[KeyOf(i)])
            && (!Usable(cache, i, now) ==>
                  exists n: nat :: LastUnder(p.asked, n, KeyOf(i))
                    && p.cache[KeyOf(i)] == Entry(oracle, providers, p.asked[n], KeyOf(i), stamp(n)))
  {
    var p := Reviewed(cache, issues, threshold, oracle, providers, size, now, stamp);
    ReviewHears(cache, issues, threshold, oracle, providers, size, now, stamp);
    AskedAreStale(cache, issues, threshold, now, p.asked);
    hide Reviewed, Heard, Entry;
    assert NotedKey(oracle, providers, p.asked, stamp, cache, p.cache, KeyOf(i));
    if Usable(cache, i, now) {
      forall n: nat, j | InBatch(p.asked, n, j) ensures KeyOf(j) != KeyOf(i) {}
      forall n: nat ensures !AskedUnder(p.asked, n, KeyOf(i)) {
        assert n < |p.asked| ==> forall j :: j in p.asked[n] ==> InBatch(p.asked, n, j);
      }
    } else {
      var n: nat :| InBatch(p.asked, n, i);
      assert AskedUnder(p.asked, n, KeyOf(i));
      var last := SomeBatchIsLast(p.asked, n, KeyOf(i));
    }
  }

  /**
   At `later` nothing that a review at `now` reused has aged past a day, nor has any batch it asked
   that was the last to ask under some key.
   */
  ghost predicate StillFresh(cache: Cache, issues: seq<Issue>, threshold: nat, now: int, asked: seq<seq<Issue>>,
                             stamp: nat -> int, later: int) {
    && (forall i :: i in issues && i.severity >= threshold && Usable(cache, i, now) ==> Usable(cache, i, later))
    && (forall n: nat, k :: LastUnder(asked, n, k) ==> later - stamp(n) <= Ttl)
  }

  /** A second review of the same issues asks nobody exactly when all that the first left is younger than a day. */
  lemma SecondAsksNobodyExactly(cache: Cache, issues: seq<Issue>, threshold: nat, size: nat, first: Oracle,
                                providers: nat, now: int, stamp: nat -> int,
                                second: Oracle, providers2: nat, later: int, stamp2: nat -> int)
    requires size > 0
    ensures var p := Reviewed(cache, issues, threshold, first, providers, size, now, stamp);
            var q := Reviewed(p.cache, issues, threshold, second, providers2, size, later, stamp2);
            q.asked == [] <==> StillFresh(cache, issues, threshold, now, p.asked, stamp, later)
  {
    var p := Reviewed(cache, issues, threshold, first, providers, size, now, stamp);
    AsksExactlyWhenStale(p.cache, issues, threshold, second, providers2, size, later, stamp2);
    ReviewHears(cache, issues, threshold, first, providers, size, now, stamp);
    AskedAreStale(cache, issues, threshold, now, p.asked);
    hide Reviewed, Heard, LastUnder;
    if StillFresh(cache, issues, threshold, now, p.asked, stamp, later) {
      forall i | i in issues && i.severity >= threshold ensures Usable(p.cache, i, later) {
        CacheAfter(cache, issues, threshold, first, providers, size, now, stamp, i);
      }
    }
    if AllFresh(p.cache, issues, threshold, later) {
      forall i | i in issues && i.severity >= threshold && Usable(cache, i, now) ensures Usable(cache, i, later) {
        CacheAfter(cache, issues, threshold, first, providers, size, now, stamp, i);
        assert Usable(p.cache, i, later);
      }
      forall n: nat, k | LastUnder(p.asked, n, k) ensures later - stamp(n) <= Ttl {
        var i := AskedIssue(p.asked, n, k);
        assert NotedKey(first, providers, p.asked, stamp, cache, p.cache, k) && Usable(p.cache, i, later);
      }
    }
  }

  lemma AskedIssue(asked: seq<seq<Issue>>, n: nat, k: CacheKey) returns (i: Issue)
    requires LastUnder(asked, n, k)
    ensures InBatch(asked, n, i) && KeyOf(i) == k
  {
    i :| i in asked[n] && KeyOf(i) == k;
  }

  // ---------------------------------------------------------------------------------------------
  // Issues at distinct places
  // ---------------------------------------------------------------------------------------------

  /** No two elements share a place. */
  predicate PlacesDistinct(issues: seq<Issue>) {
    forall i, j :: 0 <= i < j < |issues| ==> PlaceOf(issues[i]) != PlaceOf(issues[j])
  }

  predicate Among(p: Place, issues: seq<Issue>) { exists i :: i in issues && PlaceOf(i) == p }

  lemma SamePlaceSameIssue(issues: seq<Issue>, i: Issue, j: Issue)
    requires PlacesDistinct(issues) && i in issues && j in issues && PlaceOf(i) == PlaceOf(j)
    ensures i == j
  {
    var a :| 0 <= a < |issues| && issues[a] == i;
    var b :| 0 <= b < |issues| && issues[b] == j;
  }

  lemma FirstIsNew(issues: seq<Issue>)
    requires PlacesDistinct(issues) && issues != []
    ensures PlacesDistinct(issues[1..]) && issues[0] !in issues[1..]
  {
    forall k | 0 <= k < |issues[1..]| ensures issues[1..][k] != issues[0] {
      assert PlaceOf(issues[k + 1]) != PlaceOf(issues[0]);
    }
  }

  /** No issue occurs twice. */
  predicate Once(issues: seq<Issue>) { forall i, j :: 0 <= i < j < |issues| ==> issues[i] != issues[j] }

  lemma OnceMore(first: Issue, rest: seq<Issue>)
    requires Once(rest) && first !in rest
    ensures Once([first] + rest)
  {
  }

  /** The issues shown to providers are shown once. */
  lemma {:induction false} ToAskOnce(cache: Cache, issues: seq<Issue>, threshold: nat, now: int)
    requires PlacesDistinct(issues)
    ensures Once(ToAsk(cache, Candidates(issues, threshold), now))
  {
    if issues != [] {
      var first, tail := issues[0], issues[1..];
      var rest := ToAsk(cache, Candidates(tail, threshold), now);
      FirstIsNew(issues);
      CandidatesAreIssues(tail, threshold);
      ToAskHolds(cache, Candidates(tail, threshold), now);
      ToAskNext(cache, issues, threshold, now);
      hide ToAsk, Candidates, PlacesDistinct, Usable, Once;
      ToAskOnce(cache, tail, threshold, now);
      OnceMore(first, rest);
    }
  }

  lemma ToAskNext(cache: Cache, issues: seq<Issue>, threshold: nat, now: int)
    requires issues != []
    ensures var rest := ToAsk(cache, Candidates(issues[1..], threshold), now);
            ToAsk(cache, Candidates(issues, threshold), now)
              == if issues[0].severity >= threshold && !Usable(cache, issues[0], now) then [issues[0]] + rest else rest
  {
    var first, rest := issues[0], Candidates(issues[1..], threshold);
    if first.severity >= threshold {
      assert ([first] + rest)[0] == first && ([first] + rest)[1..] == rest;
    } else {
      assert [] + rest == rest;
    }
  }

  /** An issue that is shown once is in one batch. */
  lemma {:induction false} OneBatchEach(asked: seq<seq<Issue>>, m: nat, n: nat, i: Issue)
    requires Once(Joined(asked)) && InBatch(asked, m, i) && InBatch(asked, n, i)
    ensures m == n
  {
    var end := |asked| - 1;
    var init, last := asked[..end], asked[end];
    assert Joined(asked) == Joined(init) + last;
    OnceSplits(Joined(init), last);
    if m < end && n < end {
      assert init[m] == asked[m] && init[n] == asked[n];
      OneBatchEach(init, m, n, i);
    } else if m < end {
      assert InBatch(init, m, i);
      JoinedHolds(init, i);
    } else if n < end {
      assert InBatch(init, n, i);
      JoinedHolds(init, i);
    }
  }

  lemma OnceSplits(a: seq<Issue>, b: seq<Issue>)
    requires Once(a + b)
    ensures Once(a) && forall i :: i in a ==> i !in b
  {
    assert forall k :: 0 <= k < |a| ==> (a + b)[k] == a[k];
    assert forall k :: 0 <= k < |b| ==> (a + b)[|a| + k] == b[k];
  }

  /** What a review at distinct places shows to providers: each stale candidate in one batch, and nothing else. */
  ghost predicate AsksEachOnce(cache: Cache, issues: seq<Issue>, threshold: nat, now: int, asked: seq<seq<Issue>>) {
    && (forall i :: (exists n: nat :: InBatch(asked, n, i))
                    <==> i in issues && i.severity >= threshold && !Usable(cache, i, now))
    && (forall m: nat, n: nat, i :: InBatch(asked, m, i) && InBatch(asked, n, i) ==> m == n)
  }

  lemma ReviewAsksEachOnce(cache: Cache, issues: seq<Issue>, threshold: nat, oracle: Oracle, providers: nat, size: nat,
                           now: int, stamp: nat -> int)
    requires size > 0 && PlacesDistinct(issues)
    ensures AsksEachOnce(cache, issues, threshold, now,
                         Reviewed(cache, issues, threshold, oracle, providers, size, now, stamp).asked)
  {
    var p := Reviewed(cache, issues, threshold, oracle, providers, size, now, stamp);
    ReviewHears(cache, issues, threshold, oracle, providers, size, now, stamp);
    AskedAreStale(cache, issues, threshold, now, p.asked);
    ToAskOnce(cache, issues, threshold, now);
    hide Reviewed, Heard, Noted, Once, Joined, Usable, InBatch;
    forall m: nat, n: nat, i | InBatch(p.asked, m, i) && InBatch(p.asked, n, i) ensures m == n {
      OneBatchEach(p.asked, m, n, i);
    }
  }

  lemma BatchOfKey(cache: Cache, issues: seq<Issue>, threshold: nat, now: int, asked: seq<seq<Issue>>, n: nat, i: Issue)
    requires PlacesDistinct(issues) && AsksEachOnce(cache, issues, threshold, now, asked) && InBatch(asked, n, i)
    ensures LastUnder(asked, n, KeyOf(i)) && forall m: nat :: LastUnder(asked, m, KeyOf(i)) ==> m == n
  {
    hide Usable;
    forall m: nat | AskedUnder(asked, m, KeyOf(i)) ensures m == n {
      var j :| j in asked[m] && KeyOf(j) == KeyOf(i);
      assert InBatch(asked, m, j) && PlaceOf(j) == PlaceOf(i);
      SamePlaceSameIssue(issues, i, j);
    }
    assert AskedUnder(asked, n, KeyOf(i));
  }

  /** At distinct places every batch counts: the next review asks nobody until the first stamp is a day old. */
  lemma EveryStampCounts(cache: Cache, issues: seq<Issue>, threshold: nat, size: nat, first: Oracle, providers: nat,
                         now: int, stamp: nat -> int,
                         second: Oracle, providers2: nat, later: int, stamp2: nat -> int)
    requires size > 0 && PlacesDistinct(issues)
    ensures var p := Reviewed(cache, issues, threshold, first, providers, size, now, stamp);
            var q := Reviewed(p.cache, issues, threshold, second, providers2, size, later, stamp2);
            q.asked == [] <==>
              && (forall i :: i in issues && i.severity >= threshold && Usable(cache, i, now) ==>
                    later - cache[KeyOf(i)].at <= 86400)
              && (forall n :: 0 <= n < |p.asked| ==> later - stamp(n) <= 86400)
  {
    var p := Reviewed(cache, issues, threshold, first, providers, size, now, stamp);
    SecondAsksNobodyExactly(cache, issues, threshold, size, first, providers, now, stamp, second, providers2, later,
                            stamp2);
    ReviewHears(cache, issues, threshold, first, providers, size, now, stamp);
    ReviewAsksEachOnce(cache, issues, threshold, first, providers, size, now, stamp);
    hide Reviewed, Heard, Noted;
    if StillFresh(cache, issues, threshold, now, p.asked, stamp, later) {
      forall n | 0 <= n < |p.asked| ensures later - stamp(n) <= Ttl {
        assert InBatch(p.asked, n, p.asked[n][0]);
        BatchOfKey(cache, issues, threshold, now, p.asked, n, p.asked[n][0]);
      }
    }
  }

  /** What is said about a candidate itself: by the cached verdict that is reused, or in the answer to its own batch. */
  ghost predicate CondemnedInPerson(cache: Cache, threshold: nat, now: int, oracle: Oracle, providers: nat,
                                    asked: seq<seq<Issue>>, i: Issue) {
    && i.severity >= threshold
    && if Usable(cache, i, now) then cache[KeyOf(i)].verdict == FalsePositive
       else exists n: nat :: InBatch(asked, n, i) && CondemnedBy(oracle, providers, asked, n, PlaceOf(i))
  }

  /** At distinct places what the cache knows of a place is what it says about the candidate there. */
  lemma KnownInPerson(cache: Cache, issues: seq<Issue>, threshold: nat, now: int, i: Issue, v: Verdict)
    requires PlacesDistinct(issues) && i in issues
    ensures var known := Known(cache, Candidates(issues, threshold), now);
            (PlaceOf(i) in known && known[PlaceOf(i)] == v)
            <==> i.severity >= threshold && Usable(cache, i, now) && cache[KeyOf(i)].verdict == v
  {
    var candidates := Candidates(issues, threshold);
    CandidatesAreIssues(issues, threshold);
    KnownExactly(cache, candidates, now, PlaceOf(i), v);
    hide Known, Candidates, PlacesDistinct;
    forall k: nat | UsableAt(cache, candidates, now, k, PlaceOf(i)) ensures candidates[k] == i {
      SamePlaceSameIssue(issues, i, candidates[k]);
    }
    if i.severity >= threshold && Usable(cache, i, now) {
      var k :| 0 <= k < |candidates| && candidates[k] == i;
      var last := SomeUsableIsLast(cache, candidates, now, k, PlaceOf(i));
    }
  }

  lemma {:induction false} SomeUsableIsLast(cache: Cache, candidates: seq<Issue>, now: int, k: nat, place: Place)
    returns (last: nat)
    requires UsableAt(cache, candidates, now, k, place)
    ensures LastUsable(cache, candidates, now, last, place)
    decreases |candidates| - k
  {
    last := k;
    if m: nat :| m > k && UsableAt(cache, candidates, now, m, place) {
      last := SomeUsableIsLast(cache, candidates, now, m, place);
    }
  }

  /** After the review the cache condemns exactly the candidates that were condemned in person. */
  lemma RemembersInPerson(cache: Cache, issues: seq<Issue>, threshold: nat, oracle: Oracle, providers: nat, size: nat,
                          now: int, stamp: nat -> int, i: Issue)
    requires size > 0 && PlacesDistinct(issues) && i in issues && i.severity >= threshold
    ensures var p := Reviewed(cache, issues, threshold, oracle, providers, size, now, stamp);
            KeyOf(i) in p.cache && (p.cache[KeyOf(i)].verdict == FalsePositive
                <==> CondemnedInPerson(cache, threshold, now, oracle, providers, p.asked, i))
  {
    var p := Reviewed(cache, issues, threshold, oracle, providers, size, now, stamp);
    CacheAfter(cache, issues, threshold, oracle, providers, size, now, stamp, i);
    ReviewAsksEachOnce(cache, issues, threshold, oracle, providers, size, now, stamp);
    hide Reviewed, Usable, AnswerTo, PlacesDistinct, LastUnder, NeverUnder;
    if !Usable(cache, i, now) {
      var n: nat :| InBatch(p.asked, n, i);
      BatchOfKey(cache, issues, threshold, now, p.asked, n, i);
      assert p.cache[KeyOf(i)] == Entry(oracle, providers, p.asked[n], KeyOf(i), stamp(n));
      assert PlaceOfKey(KeyOf(i)) == PlaceOf(i);
      assert forall m: nat :: InBatch(p.asked, m, i) ==> m == n;
    }
  }

  /** What a second review drops while all is fresh: the issues condemned in person, whatever else was said. */
  lemma SecondDropsExactly(cache: Cache, issues: seq<Issue>, threshold: nat, size: nat, first: Oracle, providers: nat,
                           now: int, stamp: nat -> int,
                           second: Oracle, providers2: nat, later: int, stamp2: nat -> int, i: Issue)
    requires size > 0 && PlacesDistinct(issues) && i in issues
    requires var p := Reviewed(cache, issues, threshold, first, providers, size, now, stamp);
             StillFresh(cache, issues, threshold, now, p.asked, stamp, later)
    ensures var p := Reviewed(cache, issues, threshold, first, providers, size, now, stamp);
            var q := Reviewed(p.cache, issues, threshold, second, providers2, size, later, stamp2);
            && q.asked == [] && q.cache == p.cache
            && (i !in Kept(issues, q.verdicts)
                <==> CondemnedInPerson(cache, threshold, now, first, providers, p.asked, i))
  {
    var p := Reviewed(cache, issues, threshold, first, providers, size, now, stamp);
    var q := Reviewed(p.cache, issues, threshold, second, providers2, size, later, stamp2);
    SecondAsksNobodyExactly(cache, issues, threshold, size, first, providers, now, stamp, second, providers2, later,
                            stamp2);
    AsksExactlyWhenStale(p.cache, issues, threshold, second, providers2, size, later, stamp2);
    KeptIs(issues, q.verdicts);
    KnownInPerson(p.cache, issues, threshold, later, i, FalsePositive);
    hide Reviewed, StillFresh, Known, Kept;
    if i.severity >= threshold { RemembersInPerson(cache, issues, threshold, first, providers, size, now, stamp, i); }
  }

  lemma KeptSameExactly(issues: seq<Issue>, v: Verdicts, w: Verdicts)
    ensures Kept(issues, v) == Kept(issues, w)
            <==> forall i :: i in issues ==> (i in Kept(issues, v) <==> i in Kept(issues, w))
  {
    KeptIs(issues, v);
    KeptIs(issues, w);
    if forall i :: i in issues ==> (i in Kept(issues, v) <==> i in Kept(issues, w)) { KeptSame(issues, v, w); }
  }

  /**
   Two reviews can differ only by answers about issues of other batches. At distinct places, while all
   is fresh, the second review asks nobody, and it answers as the first did exactly when every answer that
   is the last to name the place of an issue it was not asked about says what is said in person.
   */
  lemma RepeatsExactly(cache: Cache, issues: seq<Issue>, threshold: nat, size: nat, first: Oracle, providers: nat,
                       now: int, stamp: nat -> int,
                       second: Oracle, providers2: nat, later: int, stamp2: nat -> int)
    requires size > 0 && PlacesDistinct(issues)
    requires var p := Reviewed(cache, issues, threshold, first, providers, size, now, stamp);
             StillFresh(cache, issues, threshold, now, p.asked, stamp, later)
    ensures var p := Reviewed(cache, issues, threshold, first, providers, size, now, stamp);
            var q := Reviewed(p.cache, issues, threshold, second, providers2, size, later, stamp2);
            && q.asked == [] && q.cache == p.cache
            && (Kept(issues, q.verdicts) == Kept(issues, p.verdicts) <==>
                  forall i, n: nat ::
                    i in issues && NamedLast(first, providers, p.asked, n, PlaceOf(i)) && !InBatch(p.asked, n, i) ==>
                      (CondemnedBy(first, providers, p.asked, n, PlaceOf(i))
                       <==> CondemnedInPerson(cache, threshold, now, first, providers, p.asked, i)))
  {
    var p := Reviewed(cache, issues, threshold, first, providers, size, now, stamp);
    var q := Reviewed(p.cache, issues, threshold, second, providers2, size, later, stamp2);
    SecondAsksNobodyExactly(cache, issues, threshold, size, first, providers, now, stamp, second, providers2, later,
                            stamp2);
    AsksExactlyWhenStale(p.cache, issues, threshold, second, providers2, size, later, stamp2);
    KeptSameExactly(issues, q.verdicts, p.verdicts);
    hide Reviewed, StillFresh, Kept, NamedLast, CondemnedBy, CondemnedInPerson, InBatch, PlacesDistinct, AllFresh;
    forall i | i in issues
      ensures (i in Kept(issues, q.verdicts) <==> i in Kept(issues, p.verdicts)) <==>
                forall n: nat :: NamedLast(first, providers, p.asked, n, PlaceOf(i)) && !InBatch(p.asked, n, i) ==>
                    (CondemnedBy(first, providers, p.asked, n, PlaceOf(i))
                     <==> CondemnedInPerson(cache, threshold, now, first, providers, p.asked, i))
    {
      SecondDropsExactly(cache, issues, threshold, size, first, providers, now, stamp, second, providers2, later,
                         stamp2, i);
      FirstDropsExactly(cache, issues, threshold, first, providers, size, now, stamp, i);
    }
  }

  /** The first review drops what is condemned in person, but for the answers about issues of other batches. */
  lemma FirstDropsExactly(cache: Cache, issues: seq<Issue>, threshold: nat, oracle: Oracle, providers: nat, size: nat,
                          now: int, stamp: nat -> int, i: Issue)
    requires size > 0 && PlacesDistinct(issues) && i in issues
    ensures var p := Reviewed(cache, issues, threshold, oracle, providers, size, now, stamp);
            var own := CondemnedInPerson(cache, threshold, now, oracle, providers, p.asked, i);
            (i !in Kept(issues, p.verdicts) <==> own) <==>
              forall n: nat :: NamedLast(oracle, providers, p.asked, n, PlaceOf(i)) && !InBatch(p.asked, n, i) ==>
                  (CondemnedBy(oracle, providers, p.asked, n, PlaceOf(i)) <==> own)
  {
    var p := Reviewed(cache, issues, threshold, oracle, providers, size, now, stamp);
    var known := Known(cache, Candidates(issues, threshold), now);
    ReviewHears(cache, issues, threshold, oracle, providers, size, now, stamp);
    ReviewAsksEachOnce(cache, issues, threshold, oracle, providers, size, now, stamp);
    KeptIs(issues, p.verdicts);
    KnownInPerson(cache, issues, threshold, now, i, FalsePositive);
    hide Reviewed, Known, Kept, Noted, PlacesDistinct, Heard;
    HeardFalse(oracle, providers, p.asked, known, p.verdicts, PlaceOf(i));
    DecidedInPerson(cache, issues, threshold, now, oracle, providers, p.asked, i,
                    Default(p.verdicts, PlaceOf(i)) == FalsePositive);
  }

  lemma DecidedInPerson(cache: Cache, issues: seq<Issue>, threshold: nat, now: int, oracle: Oracle, providers: nat,
                        asked: seq<seq<Issue>>, i: Issue, dropped: bool)
    requires AsksEachOnce(cache, issues, threshold, now, asked) && i in issues
    requires dropped <==>
               || (exists n: nat :: NamedLast(oracle, providers, asked, n, PlaceOf(i))
                     && CondemnedBy(oracle, providers, asked, n, PlaceOf(i)))
               || (Unnamed(oracle, providers, asked, PlaceOf(i))
                     && i.severity >= threshold && KnownFalse(cache, i, now))
    ensures var own := CondemnedInPerson(cache, threshold, now, oracle, providers, asked, i);
            (dropped <==> own) <==>
              forall n: nat :: NamedLast(oracle, providers, asked, n, PlaceOf(i)) && !InBatch(asked, n, i) ==>
                  (CondemnedBy(oracle, providers, asked, n, PlaceOf(i)) <==> own)
  {
    var place := PlaceOf(i);
    hide AnswerTo, Usable;
    if Unnamed(oracle, providers, asked, place) {
      forall n: nat ensures !CondemnedBy(oracle, providers, asked, n, place) {
        assert !Names(oracle, providers, asked, n, place);
      }
    } else {
      var n: nat :| Names(oracle, providers, asked, n, place);
      var last := SomeNameIsLast(oracle, providers, asked, n, place);
      forall m: nat | NamedLast(oracle, providers, asked, m, place) ensures m == last {
        assert Names(oracle, providers, asked, m, place) && Names(oracle, providers, asked, last, place);
      }
      assert dropped <==> CondemnedBy(oracle, providers, asked, last, place);
      if InBatch(asked, last, i) { assert forall m: nat :: InBatch(asked, m, i) ==> m == last; }
    }
  }

  // ---------------------------------------------------------------------------------------------
  // Providers that answer what they are asked, providers that do not, and providers that are silent
  // ---------------------------------------------------------------------------------------------

  /** Providers answer only for places they were asked about. */
  ghost predicate AnswersOnlyAsked(oracle: Oracle, providers: nat) {
    forall n: nat, batch, place :: n < providers && place in oracle(n, batch) ==> Among(place, batch)
  }

  lemma {:induction false} UnaskedUnanswered(oracle: Oracle, providers: nat, batch: seq<Issue>, from: nat, place: Place)
    requires AnswersOnlyAsked(oracle, providers) && !Among(place, batch)
    ensures place !in FirstAnswer(oracle, providers, batch, from)
    decreases providers - from
  {
    if from < providers { UnaskedUnanswered(oracle, providers, batch, from + 1, place); }
  }

  /** Such providers name the place of an issue only in the answer to its own batch. */
  lemma NoForeignNames(cache: Cache, issues: seq<Issue>, threshold: nat, oracle: Oracle, providers: nat, size: nat,
                       now: int, stamp: nat -> int, i: Issue, n: nat)
    requires size > 0 && PlacesDistinct(issues) && AnswersOnlyAsked(oracle, providers) && i in issues
    requires Names(oracle, providers, Reviewed(cache, issues, threshold, oracle, providers, size, now, stamp).asked, n,
                   PlaceOf(i))
    ensures InBatch(Reviewed(cache, issues, threshold, oracle, providers, size, now, stamp).asked, n, i)
  {
    var p := Reviewed(cache, issues, threshold, oracle, providers, size, now, stamp);
    ReviewAsksEachOnce(cache, issues, threshold, oracle, providers, size, now, stamp);
    hide Reviewed;
    if !Among(PlaceOf(i), p.asked[n]) { UnaskedUnanswered(oracle, providers, p.asked[n], 0, PlaceOf(i)); }
    var j :| j in p.asked[n] && PlaceOf(j) == PlaceOf(i);
    assert InBatch(p.asked, n, j);
    SamePlaceSameIssue(issues, i, j);
  }

  /** A place of no candidate gets no verdict. */
  lemma NobodyElseJudged(cache: Cache, issues: seq<Issue>, threshold: nat, oracle: Oracle, providers: nat, size: nat,
                         now: int, stamp: nat -> int, place: Place)
    requires size > 0 && AnswersOnlyAsked(oracle, providers) && !Among(place, Candidates(issues, threshold))
    ensures Default(Reviewed(cache, issues, threshold, oracle, providers, size, now, stamp).verdicts, place)
            == Uncertain
  {
    var candidates := Candidates(issues, threshold);
    var p := Reviewed(cache, issues, threshold, oracle, providers, size, now, stamp);
    ReviewHears(cache, issues, threshold, oracle, providers, size, now, stamp);
    AskedAreStale(cache, issues, threshold, now, p.asked);
    CandidatesAreIssues(issues, threshold);
    hide Reviewed, Known, Candidates, Noted, Usable;
    forall n: nat ensures !Names(oracle, providers, p.asked, n, place) {
      if n < |p.asked| {
        assert forall i :: i in p.asked[n] ==> InBatch(p.asked, n, i);
        UnaskedUnanswered(oracle, providers, p.asked[n], 0, place);
      }
    }
    assert Unnamed(oracle, providers, p.asked, place);
    KnownExactly(cache, candidates, now, place, Default(Known(cache, candidates, now), place));
  }

  /** After a review each candidate is in the cache with the verdict that was used for it and that verdict's time. */
  lemma CandidateRemembered(cache: Cache, issues: seq<Issue>, threshold: nat, oracle: Oracle, providers: nat, size: nat,
                            now: int, stamp: nat -> int, i: Issue)
    requires size > 0 && AnswersOnlyAsked(oracle, providers) && PlacesDistinct(issues)
    requires i in issues && i.severity >= threshold
    ensures var p := Reviewed(cache, issues, threshold, oracle, providers, size, now, stamp);
            && KeyOf(i) in p.cache && p.cache[KeyOf(i)].verdict == Default(p.verdicts, PlaceOf(i))
            && if Usable(cache, i, now) then p.cache[KeyOf(i)] == cache[KeyOf(i)]
               else exists n: nat :: InBatch(p.asked, n, i) && p.cache[KeyOf(i)].at == stamp(n)
  {
    var p := Reviewed(cache, issues, threshold, oracle, providers, size, now, stamp);
    var place := PlaceOf(i);
    assert PlaceOfKey(KeyOf(i)) == place;
    ReviewHears(cache, issues, threshold, oracle, providers, size, now, stamp);
    ReviewAsksEachOnce(cache, issues, threshold, oracle, providers, size, now, stamp);
    CacheAfter(cache, issues, threshold, oracle, providers, size, now, stamp, i);
    forall n: nat | Names(oracle, providers, p.asked, n, place) ensures InBatch(p.asked, n, i) {
      NoForeignNames(cache, issues, threshold, oracle, providers, size, now, stamp, i, n);
    }
    KnownInPerson(cache, issues, threshold, now, i,
                  Default(Known(cache, Candidates(issues, threshold), now), place));
    if Usable(cache, i, now) { KnownInPerson(cache, issues, threshold, now, i, cache[KeyOf(i)].verdict); }
    hide Reviewed, Known, Candidates, Noted, Usable, AnswerTo, PlacesDistinct, KeyOf, LastUnder, NeverUnder;
    if Usable(cache, i, now) {
      assert Unnamed(oracle, providers, p.asked, place);
    } else {
      var n: nat :| InBatch(p.asked, n, i);
      BatchOfKey(cache, issues, threshold, now, p.asked, n, i);
      if Names(oracle, providers, p.asked, n, place) {
        assert NamedLast(oracle, providers, p.asked, n, place);
      } else {
        assert Unnamed(oracle, providers, p.asked, place);
      }
    }
  }

  /** After a review the cache holds, for every candidate, the verdict that was used for it; nothing else got one. */
  lemma ReviewRemembers(cache: Cache, issues: seq<Issue>, threshold: nat, oracle: Oracle, providers: nat, size: nat,
                        now: int, stamp: nat -> int)
    requires size > 0 && AnswersOnlyAsked(oracle, providers) && PlacesDistinct(issues)
    ensures var p := Reviewed(cache, issues, threshold, oracle, providers, size, now, stamp);
            && (forall i :: i in issues && i.severity >= threshold ==>
                  && KeyOf(i) in p.cache && p.cache[KeyOf(i)].verdict == Default(p.verdicts, PlaceOf(i))
                  && if Usable(cache, i, now) then p.cache[KeyOf(i)] == cache[KeyOf(i)]
                     else exists n: nat :: InBatch(p.asked, n, i) && p.cache[KeyOf(i)].at == stamp(n))
            && (forall place :: !Among(place, Candidates(issues, threshold)) ==>
                  Default(p.verdicts, place) == Uncertain)
  {
    hide Reviewed;
    var p := Reviewed(cache, issues, threshold, oracle, providers, size, now, stamp);
    forall i | i in issues && i.severity >= threshold
      ensures && KeyOf(i) in p.cache && p.cache[KeyOf(i)].verdict == Default(p.verdicts, PlaceOf(i))
              && if Usable(cache, i, now) then p.cache[KeyOf(i)] == cache[KeyOf(i)]
                 else exists n: nat :: InBatch(p.asked, n, i) && p.cache[KeyOf(i)].at == stamp(n)
    {
      CandidateRemembered(cache, issues, threshold, oracle, providers, size, now, stamp, i);
    }
    forall place | !Among(place, Candidates(issues, threshold)) ensures Default(p.verdicts, place) == Uncertain {
      NobodyElseJudged(cache, issues, threshold, oracle, providers, size, now, stamp, place);
    }
  }

  /**
   Asking again about issues at distinct places, before anything reused or asked is a day old: no provider
   is asked, whatever it would say by now, and when the first ones stuck to what they were asked the
   answer is the same.
   */
  lemma SecondReviewRepeats(cache: Cache, issues: seq<Issue>, threshold: nat, size: nat, first: Oracle, providers: nat,
                            now: int, stamp: nat -> int,
                            second: Oracle, providers2: nat, later: int, stamp2: nat -> int)
    requires size > 0 && AnswersOnlyAsked(first, providers) && PlacesDistinct(issues)
    requires forall i :: i in issues && i.severity >= threshold && Usable(cache, i, now) ==>
               later - cache[KeyOf(i)].at <= 86400
    requires forall n :: 0 <= n < |Reviewed(cache, issues, threshold, first, providers, size, now, stamp).asked| ==>
               later - stamp(n) <= 86400
    ensures var p := Reviewed(cache, issues, threshold, first, providers, size, now, stamp);
            var q := Reviewed(p.cache, issues, threshold, second, providers2, size, later, stamp2);
            q.asked == [] && q.cache == p.cache && Kept(issues, q.verdicts) == Kept(issues, p.verdicts)
  {
    var p := Reviewed(cache, issues, threshold, first, providers, size, now, stamp);
    assert StillFresh(cache, issues, threshold, now, p.asked, stamp, later);
    hide Reviewed, StillFresh, CondemnedBy, CondemnedInPerson;
    RepeatsExactly(cache, issues, threshold, size, first, providers, now, stamp, second, providers2, later, stamp2);
    forall i, n: nat | i in issues && NamedLast(first, providers, p.asked, n, PlaceOf(i))
      ensures InBatch(p.asked, n, i)
    {
      NoForeignNames(cache, issues, threshold, first, providers, size, now, stamp, i, n);
    }
  }

  /**
   A provider that also answers for a place it was not asked about: the first review drops the
   issue there, the second, with every verdict fresh, gives it back.
   */
  lemma ForeignAnswerIsForgotten(oracle: Oracle, asked: Issue, other: Issue, now: int, stamp: nat -> int)
    requires asked.severity >= 3 > other.severity && PlaceOf(asked) != PlaceOf(other) && stamp(0) == now
    requires oracle(0, [asked]) == map[PlaceOf(asked) := TruePositive, PlaceOf(other) := FalsePositive]
    ensures var issues := [asked, other];
            var p := Reviewed(map[], issues, 3, oracle, 1, 8, now, stamp);
            var q := Reviewed(p.cache, issues, 3, oracle, 1, 8, now, stamp);
            q.asked == [] && Kept(issues, p.verdicts) == [asked] && Kept(issues, q.verdicts) == issues
  {
    var issues := [asked, other];
    var answer := oracle(0, [asked]);
    TwoIssues(asked, other);
    assert FirstAnswer(oracle, 1, [asked], 0) == answer;
    var start := Progress(map[], map[], []);
    var p := AskBatch(oracle, 1, [asked], now, start);
    AskAllStep(oracle, 1, [asked], 8, stamp, 0, start);
    assert [asked][1..] == [] && [asked][..1] == [asked];
    AskAllDone(oracle, 1, 8, stamp, 1, p);
    assert p == Reviewed(map[], issues, 3, oracle, 1, 8, now, stamp);
    KeptTwo(asked, other, p.verdicts);
    var q := Reviewed(p.cache, issues, 3, oracle, 1, 8, now, stamp);
    assert p.asked == [[asked]];
    hide Reviewed, AskBatch, FirstAnswer, Kept;
    forall n: nat, k | LastUnder(p.asked, n, k) ensures now - stamp(n) <= Ttl { assert n == 0; }
    forall i | i in issues ensures i in Kept(issues, q.verdicts) && q.asked == [] {
      SecondDropsExactly(map[], issues, 3, 8, oracle, 1, now, stamp, oracle, 1, now, stamp, i);
    }
    KeptIs(issues, q.verdicts);
    assert issues[0] in issues && issues[1] in issues;
    KeptAll(issues, q.verdicts);
  }

  lemma TwoIssues(asked: Issue, other: Issue)
    requires asked.severity >= 3 > other.severity
    ensures Candidates([asked, other], 3) == [asked]
    ensures forall now :: ToAsk(map[], [asked], now) == [asked] && Known(map[], [asked], now) == map[]
  {
    assert [asked, other][1..] == [other] && [other][1..] == [];
    assert Candidates([other], 3) == [];
    assert [asked][1..] == [] && [asked][..0] == [];
    forall now ensures ToAsk(map[], [asked], now) == [asked] && Known(map[], [asked], now) == map[] {
      assert Known(map[], [], now) == map[] && ToAsk(map[], [], now) == [];
    }
  }

  lemma KeptTwo(a: Issue, b: Issue, v: Verdicts)
    ensures Kept([a, b], v) == (if Default(v, PlaceOf(a)) == FalsePositive then [] else [a]) + if Default(v, PlaceOf(b))
            == FalsePositive then [] else [b]
  {
    assert [a, b][1..] == [b] && [b][1..] == [];
    assert Kept([b], v) == if Default(v, PlaceOf(b)) == FalsePositive then [] else [b];
  }

  /**
   When every provider is silent, every candidate without a fresh verdict is cached as uncertain: for
   as long as the stamps of that outage are younger than a day no provider is asked about any of them,
   although none has looked at them.
   */
  lemma OutageCountsAsAnswer(cache: Cache, issues: seq<Issue>, threshold: nat, size: nat, silent: Oracle,
                             providers: nat, now: int, stamp: nat -> int,
                             working: Oracle, providers2: nat, later: int, stamp2: nat -> int)
    requires size > 0 && NoProviderAnswers(silent, providers)
    requires forall i :: i in issues ==> !Usable(cache, i, now)
    requires forall n :: 0 <= n < |Reviewed(cache, issues, threshold, silent, providers, size, now, stamp).asked| ==>
               later - stamp(n) <= 86400
    ensures var p := Reviewed(cache, issues, threshold, silent, providers, size, now, stamp);
            var q := Reviewed(p.cache, issues, threshold, working, providers2, size, later, stamp2);
            q.asked == [] && Kept(issues, q.verdicts) == issues
  {
    var p := Reviewed(cache, issues, threshold, silent, providers, size, now, stamp);
    var q := Reviewed(p.cache, issues, threshold, working, providers2, size, later, stamp2);
    assert StillFresh(cache, issues, threshold, now, p.asked, stamp, later);
    SecondAsksNobodyExactly(cache, issues, threshold, size, silent, providers, now, stamp, working, providers2, later,
                            stamp2);
    KeptIs(issues, q.verdicts);
    CandidatesAreIssues(issues, threshold);
    hide Reviewed, StillFresh, Kept;
    forall i | i in issues ensures Default(q.verdicts, PlaceOf(i)) != FalsePositive {
      DroppedOnlyIfCondemned(p.cache, issues, threshold, working, providers2, size, later, stamp2, i);
      forall j | j in Candidates(issues, threshold) ensures !KnownFalse(p.cache, j, later) {
        CacheAfter(cache, issues, threshold, silent, providers, size, now, stamp, j);
        forall batch ensures AnswerTo(silent, providers, batch) == map[] { NobodyAnswers(silent, providers, batch, 0); }
      }
    }
    KeptAll(issues, q.verdicts);
  }
}
