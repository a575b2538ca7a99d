/**
 The second opinion on rule findings in linggit/llm_review.py: findings at or above a threshold are
 shown to language-model providers in batches, verdicts are cached for a day, and findings judged
 false positives are dropped.
 */
module LlmReview {
  import opened Base

  datatype Issue = Issue(file: string, line: int, severity: nat, description: string)

  /** The `file:line` under which verdicts are asked for and answered. */
  datatype Place = Place(file: string, line: int)

  datatype CacheKey = CacheKey(file: string, line: int, start: string)

  datatype Verdict = TruePositive | FalsePositive | Uncertain

  datatype Cached = Cached(verdict: Verdict, at: int)

  type Cache = map<CacheKey, Cached>

  type Verdicts = map<Place, Verdict>

  const Ttl := 24 * 3600

  /** What a provider makes of a batch; nothing at all when it fails or cannot be understood. */
  type Oracle = (nat, seq<Issue>) -> Verdicts

  function PlaceOf(i: Issue): Place { Place(i.file, i.line) }

  function KeyOf(i: Issue): CacheKey {
    CacheKey(i.file, i.line, if |i.description| <= 80 then i.description else i.description[..80])
  }

  predicate Usable(cache: Cache, i: Issue, now: int) { KeyOf(i) in cache && now - cache[KeyOf(i)].at <= Ttl }

  function Default(v: Verdicts, p: Place): Verdict { if p in v then v[p] else Uncertain }

  function Candidates(issues: seq<Issue>, threshold: nat): seq<Issue> {
    if issues == [] then []
    else (if issues[0].severity >= threshold then [issues[0]] else []) + Candidates(issues[1..], threshold)
  }

  /** Candidates without a usable verdict, in order. */
  function ToAsk(cache: Cache, candidates: seq<Issue>, now: int): seq<Issue> {
    if candidates == [] then []
    else (if Usable(cache, candidates[0], now) then [] else [candidates[0]]) + ToAsk(cache, candidates[1..], now)
  }

  /** The verdicts found in the cache; a later candidate at the same place wins. */
  function Known(cache: Cache, candidates: seq<Issue>, now: int): Verdicts {
    if candidates == [] then map[]
    else
      var init, last := Known(cache, candidates[..|candidates| - 1], now), candidates[|candidates| - 1];
      if Usable(cache, last, now) then init[PlaceOf(last) := cache[KeyOf(last)].verdict] else init
  }

  /** The first answer that says anything. */
  function FirstAnswer(oracle: Oracle, providers: nat, batch: seq<Issue>, from: nat): Verdicts
    decreases providers - from
  {
    if from >= providers then map[]
    else if oracle(from, batch) != map[] then oracle(from, batch)
    else FirstAnswer(oracle, providers, batch, from + 1)
  }

  function PutAll(cache: Cache, batch: seq<Issue>, answer: Verdicts, at: int): Cache {
    if batch == [] then cache
    else
      var last := batch[|batch| - 1];
      PutAll(cache, batch[..|batch| - 1], answer, at)[KeyOf(last) := Cached(Default(answer, PlaceOf(last)), at)]
  }

  /** Verdicts and cache so far, and the batches that were shown to providers. */
  datatype Progress = Progress(verdicts: Verdicts, cache: Cache, asked: seq<seq<Issue>>)

  function AskBatch(oracle: Oracle, providers: nat, batch: seq<Issue>, at: int, p: Progress): Progress {
    var answer := FirstAnswer(oracle, providers, batch, 0);
    Progress(p.verdicts + answer, PutAll(p.cache, batch, answer, at), p.asked + [batch])
  }

  /** The length of the next batch. */
  function Chunk(rest: seq<Issue>, size: nat): (k: nat)
    ensures k <= |rest| && (rest != [] && size > 0 ==> k > 0)
  {
    if size < |rest| then size else |rest|
  }

  /** The remaining issues batch by batch; `stamp` gives the time each batch is written to the cache. */
  function AskAll(oracle: Oracle, providers: nat, rest: seq<Issue>, size: nat, stamp: nat -> int, n: nat,
                  p: Progress): Progress
    requires size > 0
    decreases |rest|
  {
    if rest == [] then p
    else
      var k := Chunk(rest, size);
      AskAll(oracle, providers, rest[k..], size, stamp, n + 1, AskBatch(oracle, providers, rest[..k], stamp(n), p))
  }

  function Kept(issues: seq<Issue>, v: Verdicts): seq<Issue> {
    if issues == [] then []
    else (if Default(v, PlaceOf(issues[0])) == FalsePositive then [] else [issues[0]]) + Kept(issues[1..], v)
  }

  /** One call of `review` on a reviewer that is enabled and has providers. */
  function Reviewed(cache: Cache, issues: seq<Issue>, threshold: nat, oracle: Oracle, providers: nat, size: nat,
                    now: int, stamp: nat -> int): Progress
    requires size > 0
  {
    var candidates := Candidates(issues, threshold);
    AskAll(oracle, providers, ToAsk(cache, candidates, now), size, stamp, 0,
           Progress(Known(cache, candidates, now), cache, []))
  }

  class LlmReviewer {
    const enabled: bool
    const threshold: nat
    const batchSize: nat
    var cache: Cache
    /** The batches shown to providers by the last call. */
    var asked: seq<seq<Issue>>

    constructor (enabled: bool, threshold: nat, batchSize: nat, cache: Cache)
      requires batchSize > 0
      ensures this.enabled == enabled && this.threshold == threshold && this.batchSize == batchSize
      ensures this.cache == cache
    {
      this.enabled := enabled;
      this.threshold := threshold;
      this.batchSize := batchSize;
      this.cache := cache;
      asked := [];
    }

    method CachePut(i: Issue, verdict: Verdict, now: int)
      modifies this`cache
      ensures cache == old(cache)[KeyOf(i) := Cached(verdict, now)]
    {
      cache := cache[KeyOf(i) := Cached(verdict, now)];
    }

    method AskProviders(oracle: Oracle, providers: nat, batch: seq<Issue>) returns (answer: Verdicts)
      ensures answer == FirstAnswer(oracle, providers, batch, 0)
    {
      answer := map[];
      for p := 0 to providers
        invariant FirstAnswer(oracle, providers, batch, 0) == FirstAnswer(oracle, providers, batch, p)
        invariant answer == map[]
      {
        answer := oracle(p, batch);
        if answer != map[] { return; }
      }
    }

    /** The issues that are kept, in their order, and the verdict of each issue. */
    method Review(issues: seq<Issue>, oracle: Oracle, providers: nat, now: int,
                  stamp: nat -> int)
      returns (kept: seq<Issue>, verdicts: Verdicts)
      requires batchSize > 0
      modifies this
      ensures !enabled || providers == 0 || Candidates(issues, threshold) == [] ==>
                kept == issues && cache == old(cache) && asked == []
      ensures enabled && providers > 0 && Candidates(issues, threshold) != [] ==>
                var p := Reviewed(old(cache), issues, threshold, oracle, providers, batchSize, now, stamp);
                kept == Kept(issues, p.verdicts) && cache == p.cache && asked == p.asked && verdicts == p.verdicts
    {
      asked, verdicts := [], map[];
      if !enabled || issues == [] || providers == 0 { return issues, verdicts; }
      var candidates := FindCandidates(issues);
      if candidates == [] { return issues, verdicts; }
      hide AskAll, Kept, Known, ToAsk, Candidates;
      var known, toAsk := LookUp(candidates, now);
      verdicts := AskInBatches(toAsk, known, oracle, providers, stamp);
      kept := Filter(issues, verdicts);
    }

    method AskInBatches(toAsk: seq<Issue>, known: Verdicts, oracle: Oracle, providers: nat,
                        stamp: nat -> int)
      returns (verdicts: Verdicts)
      requires batchSize > 0
      modifies this
      ensures Progress(verdicts, cache, asked)
              == AskAll(oracle, providers, toAsk, batchSize, stamp, 0, Progress(known, old(cache), old(asked)))
    {
      verdicts := known;
      ghost var goal := AskAll(oracle, providers, toAsk, batchSize, stamp, 0, Progress(known, cache, asked));
      hide AskAll, AskBatch;
      var start, n := 0, 0;
      assert toAsk[0..] == toAsk;
      while start < |toAsk|
        invariant 0 <= start <= |toAsk|
        invariant AskAll(oracle, providers, toAsk[start..], batchSize, stamp, n, Progress(verdicts, cache, asked))
                  == goal
      {
        var end := if start + batchSize < |toAsk| then start + batchSize else |toAsk|;
        var batch := toAsk[start..end];
        AskAllFrom(oracle, providers, toAsk, batchSize, stamp, start, end, n, Progress(verdicts, cache, asked));
        verdicts := AskOneBatch(oracle, providers, batch, stamp(n), verdicts);
        start, n := end, n + 1;
      }
      assert toAsk[start..] == [];
      AskAllDone(oracle, providers, batchSize, stamp, n, Progress(verdicts, cache, asked));
    }

    /**
     One batch: the first provider that answers is believed, and its silence about an issue is cached
     as uncertain.
     */
    method AskOneBatch(oracle: Oracle, providers: nat, batch: seq<Issue>, at: int,
                       known: Verdicts)
      returns (verdicts: Verdicts)
      modifies this
      ensures Progress(verdicts, cache, asked)
              == AskBatch(oracle, providers, batch, at, Progress(known, old(cache), old(asked)))
    {
      hide FirstAnswer, PutAll;
      var answer := AskProviders(oracle, providers, batch);
      asked := asked + [batch];
      verdicts := known + answer;
      WriteBack(batch, answer, at);
    }

    method FindCandidates(issues: seq<Issue>) returns (candidates: seq<Issue>)
      ensures candidates == Candidates(issues, threshold)
    {
      candidates := [];
      ghost var all := Candidates(issues, threshold);
      assert issues[0..] == issues && issues[|issues|..] == [];
      NoCandidates(threshold);
      hide Candidates;
      for i := 0 to |issues|
        invariant all == candidates + Candidates(issues[i..], threshold)
      {
        var issue := issues[i];
        CandidatesFrom(issues, threshold, i);
        ghost var rest := Candidates(issues[i + 1..], threshold);
        if issue.severity >= threshold {
          assert candidates + ([issue] + rest) == (candidates + [issue]) + rest;
          candidates := candidates + [issue];
        } else {
          assert [] + rest == rest;
        }
      }
    }

    method LookUp(candidates: seq<Issue>, now: int) returns (verdicts: Verdicts, toAsk: seq<Issue>)
      ensures verdicts == Known(cache, candidates, now) && toAsk == ToAsk(cache, candidates, now)
    {
      verdicts, toAsk := map[], [];
      assert candidates[0..] == candidates;
      ghost var all := ToAsk(cache, candidates, now);
      var i := 0;
      LookUpDone(cache, candidates, now);
      hide Known, ToAsk, Usable, KeyOf, PlaceOf;
      while i < |candidates|
        invariant 0 <= i <= |candidates|
        invariant verdicts == Known(cache, candidates[..i], now)
        invariant all == toAsk + ToAsk(cache, candidates[i..], now)
      {
        var issue := candidates[i];
        LookUpStep(cache, candidates, i, now);
        ghost var rest := ToAsk(cache, candidates[i + 1..], now);
        if Usable(cache, issue, now) {
          assert [] + rest == rest;
          verdicts := verdicts[PlaceOf(issue) := cache[KeyOf(issue)].verdict];
        } else {
          assert toAsk + ([issue] + rest) == (toAsk + [issue]) + rest;
          toAsk := toAsk + [issue];
        }
        i := i + 1;
      }
    }

    method WriteBack(batch: seq<Issue>, answer: Verdicts, at: int)
      modifies this`cache
      ensures cache == PutAll(old(cache), batch, answer, at)
    {
      for i := 0 to |batch|
        invariant cache == PutAll(old(cache), batch[..i], answer, at)
      {
        assert batch[..i + 1][..i] == batch[..i];
        CachePut(batch[i], Default(answer, PlaceOf(batch[i])), at);
      }
      assert batch[..|batch|] == batch;
    }

    method Filter(issues: seq<Issue>, verdicts: Verdicts) returns (kept: seq<Issue>)
      ensures kept == Kept(issues, verdicts)
    {
      kept := [];
      ghost var all := Kept(issues, verdicts);
      assert issues[0..] == issues && issues[|issues|..] == [];
      KeptNothing(verdicts);
      hide Kept, Default, PlaceOf;
      for i := 0 to |issues|
        invariant all == kept + Kept(issues[i..], verdicts)
      {
        var issue := issues[i];
        KeptFrom(issues, verdicts, i);
        ghost var rest := Kept(issues[i + 1..], verdicts);
        if Default(verdicts, PlaceOf(issue)) != FalsePositive {
          assert kept + ([issue] + rest) == (kept + [issue]) + rest;
          kept := kept + [issue];
        } else {
          assert [] + rest == rest;
        }
      }
    }
  }

  lemma KeptNothing(v: Verdicts)
    ensures Kept([], v) == []
  {
  }

  lemma NoCandidates(threshold: nat)
    ensures Candidates([], threshold) == []
  {
  }

  lemma CandidatesFrom(issues: seq<Issue>, threshold: nat, i: nat)
    requires i < |issues|
    ensures Candidates(issues[i..], threshold)
         == (if issues[i].severity >= threshold then [issues[i]] else []) + Candidates(issues[i + 1..], threshold)
  {
    assert issues[i..][1..] == issues[i + 1..];
  }

  lemma KeptFrom(issues: seq<Issue>, v: Verdicts, i: nat)
    requires i < |issues|
    ensures Kept(issues[i..], v)
         == (if Default(v, PlaceOf(issues[i])) == FalsePositive then [] else [issues[i]]) + Kept(issues[i + 1..], v)
  {
    assert issues[i..][1..] == issues[i + 1..];
  }

  lemma LookUpDone(cache: Cache, candidates: seq<Issue>, now: int)
    ensures Known(cache, candidates[..0], now) == map[] && ToAsk(cache, candidates[|candidates|..], now) == []
    ensures candidates[..|candidates|] == candidates
  {
  }

  lemma LookUpStep(cache: Cache, candidates: seq<Issue>, i: nat, now: int)
    requires i < |candidates|
    ensures Usable(cache, candidates[i], now) ==>
              && KeyOf(candidates[i]) in cache
              && Known(cache, candidates[..i + 1], now)
                 == Known(cache, candidates[..i], now)[PlaceOf(candidates[i]) := cache[KeyOf(candidates[i])].verdict]
    ensures !Usable(cache, candidates[i], now) ==>
              Known(cache, candidates[..i + 1], now) == Known(cache, candidates[..i], now)
    ensures ToAsk(cache, candidates[i..], now)
         == (if Usable(cache, candidates[i], now) then [] else [candidates[i]]) + ToAsk(cache, candidates[i + 1..], now)
  {
    assert candidates[i..][1..] == candidates[i + 1..] && candidates[..i + 1][..i] == candidates[..i];
  }

  lemma AskAllStep(oracle: Oracle, providers: nat, rest: seq<Issue>, size: nat, stamp: nat -> int, n: nat, p: Progress)
    requires size > 0 && rest != []
    ensures var k := Chunk(rest, size);
            var p' := AskBatch(oracle, providers, rest[..k], stamp(n), p);
            AskAll(oracle, providers, rest, size, stamp, n, p)
              == AskAll(oracle, providers, rest[k..], size, stamp, n + 1, p')
  {
  }

  lemma AskAllFrom(oracle: Oracle, providers: nat, toAsk: seq<Issue>, size: nat, stamp: nat -> int, start: nat,
                   end: nat, n: nat, p: Progress)
    requires size > 0 && start < |toAsk| && end == if start + size < |toAsk| then start + size else |toAsk|
    ensures AskAll(oracle, providers, toAsk[start..], size, stamp, n, p)
         == AskAll(oracle, providers, toAsk[end..], size, stamp, n + 1,
                   AskBatch(oracle, providers, toAsk[start..end], stamp(n), p))
  {
    var rest := toAsk[start..];
    assert Chunk(rest, size) == end - start && rest[..end - start] == toAsk[start..end]
           && rest[end - start..] == toAsk[end..];
    hide AskAll, AskBatch;
    AskAllStep(oracle, providers, rest, size, stamp, n, p);
  }

  lemma AskAllDone(oracle: Oracle, providers: nat, size: nat, stamp: nat -> int, n: nat, p: Progress)
    requires size > 0
    ensures AskAll(oracle, providers, [], size, stamp, n, p) == p
  {
  }
}
