/**
 What one review hears and what it leaves in the cache, said without its loops: the last answer
 that names a place decides, and a cache key holds what its own batch was told, and when.
 */
module LlmAnswers {
  import opened LlmReview

  // ---------------------------------------------------------------------------------------------
  // Places and the answers that name them
  // ---------------------------------------------------------------------------------------------

  /** What is believed about a batch. */
  function AnswerTo(oracle: Oracle, providers: nat, batch: seq<Issue>): Verdicts {
    FirstAnswer(oracle, providers, batch, 0)
  }

  /** What is believed is what the first provider says that says anything, and nothing when all are silent. */
  lemma BelievedExactly(oracle: Oracle, providers: nat, batch: seq<Issue>, answer: Verdicts)
    ensures AnswerTo(oracle, providers, batch) == answer <==>
              || (answer == map[] && forall n: nat :: n < providers ==> oracle(n, batch) == map[])
              || (answer != map[]
                  && exists n :: FirstToSpeak(oracle, providers, batch, 0, n) && oracle(n, batch) == answer)
  {
    BelievedFrom(oracle, providers, batch, 0);
  }

  /** Of the providers from `from` on the n-th is the first that says anything. */
  predicate FirstToSpeak(oracle: Oracle, providers: nat, batch: seq<Issue>, from: nat, n: nat) {
    from <= n < providers && oracle(n, batch) != map[] && forall m: nat :: from <= m < n ==> oracle(m, batch) == map[]
  }

  lemma {:induction false} BelievedFrom(oracle: Oracle, providers: nat, batch: seq<Issue>, from: nat)
    ensures var answer := FirstAnswer(oracle, providers, batch, from);
            if answer == map[] then forall n: nat :: from <= n < providers ==> oracle(n, batch) == map[]
            else exists n :: FirstToSpeak(oracle, providers, batch, from, n) && oracle(n, batch) == answer
    decreases providers - from
  {
    if from < providers {
      if oracle(from, batch) == map[] {
        BelievedFrom(oracle, providers, batch, from + 1);
        var answer := FirstAnswer(oracle, providers, batch, from + 1);
        if n :| FirstToSpeak(oracle, providers, batch, from + 1, n) && oracle(n, batch) == answer {
          assert FirstToSpeak(oracle, providers, batch, from, n);
        }
      } else {
        assert FirstToSpeak(oracle, providers, batch, from, from);
      }
    }
  }

  /** The answer to the n-th batch says something about the place. */
  predicate Names(oracle: Oracle, providers: nat, asked: seq<seq<Issue>>, n: nat, place: Place) {
    n < |asked| && place in AnswerTo(oracle, providers, asked[n])
  }

  /** It does, and no later answer does. */
  ghost predicate NamedLast(oracle: Oracle, providers: nat, asked: seq<seq<Issue>>, n: nat, place: Place) {
    Names(oracle, providers, asked, n, place) && forall m :: m > n ==> !Names(oracle, providers, asked, m, place)
  }

  ghost predicate Unnamed(oracle: Oracle, providers: nat, asked: seq<seq<Issue>>, place: Place) {
    forall n: nat :: !Names(oracle, providers, asked, n, place)
  }

  /** A place that is named is named last by some answer. */
  lemma {:induction false} SomeNameIsLast(oracle: Oracle, providers: nat, asked: seq<seq<Issue>>, n: nat, place: Place)
    returns (last: nat)
    requires Names(oracle, providers, asked, n, place)
    ensures last >= n && NamedLast(oracle, providers, asked, last, place)
    decreases |asked| - n
  {
    last := n;
    if m: nat :| m > n && Names(oracle, providers, asked, m, place) {
      last := SomeNameIsLast(oracle, providers, asked, m, place);
    }
  }

  // ---------------------------------------------------------------------------------------------
  // Cache keys and the batches that write them
  // ---------------------------------------------------------------------------------------------

  /** The n-th batch holds an issue with this key. */
  ghost predicate AskedUnder(asked: seq<seq<Issue>>, n: nat, k: CacheKey) {
    n < |asked| && Keyed(asked[n], k)
  }

  ghost predicate Keyed(batch: seq<Issue>, k: CacheKey) { exists i :: i in batch && KeyOf(i) == k }

  ghost predicate LastUnder(asked: seq<seq<Issue>>, n: nat, k: CacheKey) {
    AskedUnder(asked, n, k) && forall m :: m > n ==> !AskedUnder(asked, m, k)
  }

  ghost predicate NeverUnder(asked: seq<seq<Issue>>, k: CacheKey) { forall n: nat :: !AskedUnder(asked, n, k) }

  lemma {:induction false} SomeBatchIsLast(asked: seq<seq<Issue>>, n: nat, k: CacheKey) returns (last: nat)
    requires AskedUnder(asked, n, k)
    ensures last >= n && LastUnder(asked, last, k)
    decreases |asked| - n
  {
    last := n;
    if m: nat :| m > n && AskedUnder(asked, m, k) { last := SomeBatchIsLast(asked, m, k); }
  }

  function PlaceOfKey(k: CacheKey): Place { Place(k.file, k.line) }

  /** What is cached for a key when its batch was answered so. */
  function Entry(oracle: Oracle, providers: nat, batch: seq<Issue>, k: CacheKey, at: int): Cached {
    Cached(Default(AnswerTo(oracle, providers, batch), PlaceOfKey(k)), at)
  }

  // ---------------------------------------------------------------------------------------------
  // The reference for a review
  // ---------------------------------------------------------------------------------------------

  /** `verdicts` are the last answers, over what was known before. */
  ghost predicate Heard(oracle: Oracle, providers: nat, asked: seq<seq<Issue>>, known: Verdicts, verdicts: Verdicts) {
    && (forall n: nat, place :: NamedLast(oracle, providers, asked, n, place) ==>
          place in verdicts && verdicts[place] == AnswerTo(oracle, providers, asked[n])[place])
    && (forall place :: Unnamed(oracle, providers, asked, place) ==>
          Default(verdicts, place) == Default(known, place))
  }

  /** `cache` holds for each key what its last batch was told, and is otherwise as it was. */
  ghost predicate Noted(oracle: Oracle, providers: nat, asked: seq<seq<Issue>>, stamp: nat -> int, before: Cache,
                        cache: Cache) {
    forall k :: NotedKey(oracle, providers, asked, stamp, before, cache, k)
  }

  ghost predicate NotedKey(oracle: Oracle, providers: nat, asked: seq<seq<Issue>>, stamp: nat -> int, before: Cache,
                           cache: Cache, k: CacheKey) {
    && (forall n: nat :: LastUnder(asked, n, k) ==>
          k in cache && cache[k] == Entry(oracle, providers, asked[n], k, stamp(n)))
    && (NeverUnder(asked, k) ==> (k in cache <==> k in before) && (k in before ==> cache[k] == before[k]))
  }

  lemma HeardMore(oracle: Oracle, providers: nat, asked: seq<seq<Issue>>, batch: seq<Issue>, known: Verdicts,
                  v: Verdicts)
    requires Heard(oracle, providers, asked, known, v)
    ensures Heard(oracle, providers, asked + [batch], known, v + AnswerTo(oracle, providers, batch))
  {
    var more, w := asked + [batch], v + AnswerTo(oracle, providers, batch);
    hide AnswerTo;
    assert forall n: nat, place ::
        Names(oracle, providers, asked, n, place) ==> Names(oracle, providers, more, n, place);
    forall place ensures Names(oracle, providers, more, |asked|, place) <==> place in AnswerTo(oracle, providers, batch)
    {
    }
    forall n: nat, place | NamedLast(oracle, providers, more, n, place)
      ensures place in w && w[place] == AnswerTo(oracle, providers, more[n])[place]
    {
      if n < |asked| {
        assert !Names(oracle, providers, more, |asked|, place);
        assert NamedLast(oracle, providers, asked, n, place);
      }
    }
    forall place | Unnamed(oracle, providers, more, place) ensures Default(w, place) == Default(known, place) {
      assert !Names(oracle, providers, more, |asked|, place);
      assert Unnamed(oracle, providers, asked, place);
    }
  }

  lemma {:induction false} PutAllIs(cache: Cache, batch: seq<Issue>, answer: Verdicts, at: int)
    ensures var after := PutAll(cache, batch, answer, at);
            forall k :: if Keyed(batch, k) then k in after && after[k] == Cached(Default(answer, PlaceOfKey(k)), at)
                        else (k in after <==> k in cache) && (k in cache ==> after[k] == cache[k])
  {
    if batch != [] {
      var init, last := batch[..|batch| - 1], batch[|batch| - 1];
      assert batch == init + [last];
      PutAllIs(cache, init, answer, at);
      assert forall k :: Keyed(batch, k) <==> Keyed(init, k) || k == KeyOf(last) by {
        forall k ensures Keyed(batch, k) <==> Keyed(init, k) || k == KeyOf(last) { KeyedMore(init, last, k); }
      }
    }
  }

  lemma KeyedMore(init: seq<Issue>, last: Issue, k: CacheKey)
    ensures Keyed(init + [last], k) <==> Keyed(init, k) || k == KeyOf(last)
  {
    var all := init + [last];
    if i :| i in init && KeyOf(i) == k { assert i in all; }
    if i :| i in all && KeyOf(i) == k { assert i in init || i == last; }
    assert last in all;
  }

  lemma AskedUnderMore(asked: seq<seq<Issue>>, batch: seq<Issue>, k: CacheKey)
    ensures Keyed(batch, k) ==> LastUnder(asked + [batch], |asked|, k)
    ensures !Keyed(batch, k) ==>
              && (forall n: nat :: LastUnder(asked + [batch], n, k) ==> LastUnder(asked, n, k))
              && (NeverUnder(asked + [batch], k) ==> NeverUnder(asked, k))
    ensures Keyed(batch, k) ==> !NeverUnder(asked + [batch], k)
    ensures forall n: nat :: Keyed(batch, k) && LastUnder(asked + [batch], n, k) ==> n == |asked|
  {
    var more := asked + [batch];
    hide Keyed;
    assert AskedUnder(more, |asked|, k) <==> Keyed(batch, k);
    assert forall n: nat :: n < |asked| ==> (AskedUnder(asked, n, k) <==> AskedUnder(more, n, k));
    forall n: nat | Keyed(batch, k) && LastUnder(more, n, k) ensures n == |asked| {
      assert AskedUnder(more, n, k);
    }
  }

  lemma KeyNotedMore(oracle: Oracle, providers: nat, asked: seq<seq<Issue>>, stamp: nat -> int, batch: seq<Issue>,
                     before: Cache, c: Cache, k: CacheKey)
    requires NotedKey(oracle, providers, asked, stamp, before, c, k)
    ensures NotedKey(oracle, providers, asked + [batch], stamp, before,
                     PutAll(c, batch, AnswerTo(oracle, providers, batch), stamp(|asked|)), k)
  {
    PutAllIs(c, batch, AnswerTo(oracle, providers, batch), stamp(|asked|));
    AskedUnderMore(asked, batch, k);
    hide Keyed, PutAll, AnswerTo;
  }

  lemma NotedMore(oracle: Oracle, providers: nat, asked: seq<seq<Issue>>, stamp: nat -> int, batch: seq<Issue>,
                  before: Cache, c: Cache)
    requires Noted(oracle, providers, asked, stamp, before, c)
    ensures Noted(oracle, providers, asked + [batch], stamp, before,
                  PutAll(c, batch, AnswerTo(oracle, providers, batch), stamp(|asked|)))
  {
    hide NotedKey, PutAll, AnswerTo;
    forall k
      ensures NotedKey(oracle, providers, asked + [batch], stamp, before,
                       PutAll(c, batch, AnswerTo(oracle, providers, batch), stamp(|asked|)), k)
    {
      KeyNotedMore(oracle, providers, asked, stamp, batch, before, c, k);
    }
  }

  /** The batches one after the other. */
  function Joined(batches: seq<seq<Issue>>): seq<Issue> {
    if batches == [] then [] else Joined(batches[..|batches| - 1]) + batches[|batches| - 1]
  }

  predicate NoneEmpty(batches: seq<seq<Issue>>) { forall n :: 0 <= n < |batches| ==> batches[n] != [] }

  /** All batches but the last are full, and none is larger. */
  predicate FullBatches(batches: seq<seq<Issue>>, size: nat) {
    && (forall n :: 0 <= n < |batches| - 1 ==> |batches[n]| == size)
    && (batches != [] ==> 0 < |batches[|batches| - 1]| <= size)
  }

  /** So far only full ones. */
  predicate AllFull(batches: seq<seq<Issue>>, size: nat) { forall n :: 0 <= n < |batches| ==> |batches[n]| == size }

  lemma {:induction false} AskAllFills(oracle: Oracle, providers: nat, rest: seq<Issue>, size: nat, stamp: nat -> int,
                                       n: nat, p: Progress)
    requires size > 0 && AllFull(p.asked, size)
    ensures FullBatches(AskAll(oracle, providers, rest, size, stamp, n, p).asked, size)
    decreases |rest|
  {
    if rest != [] {
      var k := Chunk(rest, size);
      var q := AskBatch(oracle, providers, rest[..k], stamp(n), p);
      AskAllStep(oracle, providers, rest, size, stamp, n, p);
      if k == size {
        AskAllFills(oracle, providers, rest[k..], size, stamp, n + 1, q);
      } else {
        assert rest[k..] == [];
        AskAllDone(oracle, providers, size, stamp, n + 1, q);
      }
    }
  }

  /** What is asked is asked in batches of the configured size, the last one as large as it comes out. */
  lemma BatchesAreFull(cache: Cache, issues: seq<Issue>, threshold: nat, oracle: Oracle, providers: nat, size: nat,
                       now: int, stamp: nat -> int)
    requires size > 0
    ensures FullBatches(Reviewed(cache, issues, threshold, oracle, providers, size, now, stamp).asked, size)
  {
    var candidates := Candidates(issues, threshold);
    AskAllFills(oracle, providers, ToAsk(cache, candidates, now), size, stamp, 0,
                Progress(Known(cache, candidates, now), cache, []));
  }

  /** The whole of it for one call: `p` is where a review that knew `known` and had `before` in its cache has got to. */
  ghost predicate Keeps(oracle: Oracle, providers: nat, stamp: nat -> int, known: Verdicts, before: Cache,
                        p: Progress) {
    && Heard(oracle, providers, p.asked, known, p.verdicts)
    && Noted(oracle, providers, p.asked, stamp, before, p.cache)
    && NoneEmpty(p.asked)
  }

  lemma BatchKeeps(oracle: Oracle, providers: nat, stamp: nat -> int, known: Verdicts, before: Cache, p: Progress,
                   batch: seq<Issue>)
    requires Keeps(oracle, providers, stamp, known, before, p) && batch != []
    ensures var q := AskBatch(oracle, providers, batch, stamp(|p.asked|), p);
            && Keeps(oracle, providers, stamp, known, before, q)
            && q.asked == p.asked + [batch] && Joined(q.asked) == Joined(p.asked) + batch
  {
    HeardMore(oracle, providers, p.asked, batch, known, p.verdicts);
    NotedMore(oracle, providers, p.asked, stamp, batch, before, p.cache);
    assert (p.asked + [batch])[..|p.asked|] == p.asked;
    hide Heard, Noted, PutAll, FirstAnswer;
  }

  lemma {:induction false} AskAllKeeps(oracle: Oracle, providers: nat, rest: seq<Issue>, size: nat, stamp: nat -> int,
                                       known: Verdicts, before: Cache, p: Progress)
    requires size > 0 && Keeps(oracle, providers, stamp, known, before, p)
    ensures var q := AskAll(oracle, providers, rest, size, stamp, |p.asked|, p);
            Keeps(oracle, providers, stamp, known, before, q) && Joined(q.asked) == Joined(p.asked) + rest
    decreases |rest|
  {
    if rest == [] {
      AskAllDone(oracle, providers, size, stamp, |p.asked|, p);
      assert Joined(p.asked) + rest == Joined(p.asked);
    } else {
      var k := Chunk(rest, size);
      var batch, tail := rest[..k], rest[k..];
      var q := AskBatch(oracle, providers, batch, stamp(|p.asked|), p);
      var r := AskAll(oracle, providers, tail, size, stamp, |p.asked| + 1, q);
      AskAllStep(oracle, providers, rest, size, stamp, |p.asked|, p);
      hide *;
      BatchKeeps(oracle, providers, stamp, known, before, p, batch);
      AskAllKeeps(oracle, providers, tail, size, stamp, known, before, q);
      assert batch + tail == rest;
      Associates(Joined(p.asked), batch, tail);
      assert Keeps(oracle, providers, stamp, known, before, r) && Joined(r.asked) == Joined(p.asked) + rest;
    }
  }

  lemma Associates(a: seq<Issue>, b: seq<Issue>, c: seq<Issue>)
    ensures a + b + c == a + (b + c)
  {
  }

  /**
   One review: every candidate without a fresh verdict is shown in some batch, in order; the last
   answer that names a place decides about it, and the cache holds what each key's own batch was
   told, stamped with that batch's time.
   */
  lemma ReviewHears(cache: Cache, issues: seq<Issue>, threshold: nat, oracle: Oracle, providers: nat, size: nat,
                    now: int, stamp: nat -> int)
    requires size > 0
    ensures var p := Reviewed(cache, issues, threshold, oracle, providers, size, now, stamp);
            && Heard(oracle, providers, p.asked, Known(cache, Candidates(issues, threshold), now), p.verdicts)
            && Noted(oracle, providers, p.asked, stamp, cache, p.cache)
            && NoneEmpty(p.asked) && Joined(p.asked) == ToAsk(cache, Candidates(issues, threshold), now)
  {
    var candidates := Candidates(issues, threshold);
    var known, toAsk := Known(cache, candidates, now), ToAsk(cache, candidates, now);
    StartKeeps(oracle, providers, stamp, known, cache);
    hide Known, ToAsk, Candidates, AskAll, Heard, Noted, Joined;
    AskAllKeeps(oracle, providers, toAsk, size, stamp, known, cache, Progress(known, cache, []));
    assert [] + toAsk == toAsk;
  }

  lemma StartKeeps(oracle: Oracle, providers: nat, stamp: nat -> int, known: Verdicts, cache: Cache)
    ensures Keeps(oracle, providers, stamp, known, cache, Progress(known, cache, [])) && Joined([]) == []
  {
  }

  // ---------------------------------------------------------------------------------------------
  // What was known, and who was asked
  // ---------------------------------------------------------------------------------------------

  predicate UsableAt(cache: Cache, candidates: seq<Issue>, now: int, k: nat, place: Place) {
    k < |candidates| && PlaceOf(candidates[k]) == place && Usable(cache, candidates[k], now)
  }

  /** The k-th candidate is the last at the place with a fresh verdict. */
  ghost predicate LastUsable(cache: Cache, candidates: seq<Issue>, now: int, k: nat, place: Place) {
    UsableAt(cache, candidates, now, k, place) && forall m :: m > k ==> !UsableAt(cache, candidates, now, m, place)
  }

  /** What the cache says about a place is the verdict of the last candidate there that has a fresh one. */
  lemma {:induction false} KnownExactly(cache: Cache, candidates: seq<Issue>, now: int, place: Place, v: Verdict)
    ensures (place in Known(cache, candidates, now) && Known(cache, candidates, now)[place] == v)
            <==> exists k: nat ::
                   LastUsable(cache, candidates, now, k, place) && cache[KeyOf(candidates[k])].verdict == v
  {
    if candidates != [] {
      var end := |candidates| - 1;
      var init, last := candidates[..end], candidates[end];
      KnownExactly(cache, init, now, place, v);
      hide Known;
      KnownStep(cache, candidates, now);
      hide KeyOf, Usable;
      assert forall k: nat :: k < end ==> init[k] == candidates[k];
      assert UsableAt(cache, candidates, now, end, place) <==> PlaceOf(last) == place && Usable(cache, last, now);
      assert forall k: nat :: k < end ==>
          (UsableAt(cache, init, now, k, place) <==> UsableAt(cache, candidates, now, k, place));
      if UsableAt(cache, candidates, now, end, place) {
        assert LastUsable(cache, candidates, now, end, place);
      } else {
        assert forall k: nat ::
            LastUsable(cache, init, now, k, place) <==> LastUsable(cache, candidates, now, k, place);
      }
    }
  }

  lemma KnownStep(cache: Cache, candidates: seq<Issue>, now: int)
    requires candidates != []
    ensures var init, last := candidates[..|candidates| - 1], candidates[|candidates| - 1];
            Known(cache, candidates, now)
              == if Usable(cache, last, now) then Known(cache, init, now)[PlaceOf(last) := cache[KeyOf(last)].verdict]
                 else Known(cache, init, now)
  {
  }

  lemma {:induction false} CandidatesAreIssues(issues: seq<Issue>, threshold: nat)
    ensures forall i :: i in Candidates(issues, threshold) <==> i in issues && i.severity >= threshold
  {
    if issues != [] { CandidatesAreIssues(issues[1..], threshold); }
  }

  lemma {:induction false} ToAskHolds(cache: Cache, candidates: seq<Issue>, now: int)
    ensures forall i :: i in ToAsk(cache, candidates, now) <==> i in candidates && !Usable(cache, i, now)
  {
    if candidates != [] {
      hide Usable;
      ToAskHolds(cache, candidates[1..], now);
      assert candidates == [candidates[0]] + candidates[1..];
    }
  }

  predicate InBatch(asked: seq<seq<Issue>>, n: nat, i: Issue) { n < |asked| && i in asked[n] }

  lemma {:induction false} JoinedHolds(asked: seq<seq<Issue>>, i: Issue)
    ensures i in Joined(asked) <==> exists n: nat :: InBatch(asked, n, i)
  {
    if asked != [] {
      var end := |asked| - 1;
      JoinedHolds(asked[..end], i);
      assert forall n: nat :: n < end ==> (InBatch(asked[..end], n, i) <==> InBatch(asked, n, i));
      assert InBatch(asked, end, i) <==> i in asked[end];
    }
  }

  /** Exactly the candidates without a fresh verdict are shown to providers. */
  lemma AskedAreStale(cache: Cache, issues: seq<Issue>, threshold: nat, now: int, asked: seq<seq<Issue>>)
    requires Joined(asked) == ToAsk(cache, Candidates(issues, threshold), now)
    ensures forall i :: (exists n: nat :: InBatch(asked, n, i))
                        <==> i in issues && i.severity >= threshold && !Usable(cache, i, now)
  {
    CandidatesAreIssues(issues, threshold);
    ToAskHolds(cache, Candidates(issues, threshold), now);
    hide Usable;
    forall i ensures i in Joined(asked) <==> exists n: nat :: InBatch(asked, n, i) { JoinedHolds(asked, i); }
  }
}
