/**
 The incremental labeller of scripts/evals_labeler.py: decisions newer than a watermark are
 labelled into a ledger, and the ledger's keys keep a decision from being labelled twice.
 */
module EvalsLabeler {
  import opened Base

  datatype Decision = Decision(ts: int, domain: string, action: string, verdict: string, p: Option<real>)

  datatype Key = Key(ts: int, domain: string, action: string, verdict: string)

  datatype Label = Label(key: Key, text: string)

  function KeyOf(d: Decision): Key { Key(d.ts, d.domain, d.action, d.verdict) }

  /** The confidence label; a missing or unreadable `p` counts as one half. */
  function LabelText(verdict: string, given: Option<real>): string {
    var p := if given.Some? then given.value else 0.5;
    if verdict == "gray" || 0.35 <= p <= 0.65 then "uncertain"
    else if verdict == "deny" then (if p < 0.3 then "likely_overkill" else "confident_deny")
    else if verdict == "allow" then "confident_allow"
    else "unlabeled_" + if verdict == "" then "none" else verdict
  }

  /** The documented meaning of the labels. */
  predicate Documented(text: string, verdict: string, p: real) {
    match text
    case "uncertain" => verdict == "gray" || 0.35 <= p <= 0.65
    case "likely_overkill" => verdict == "deny" && p < 0.3
    case "confident_allow" => verdict == "allow" && p >= 0.65
    case "confident_deny" => verdict == "deny" && p >= 0.3
    case _ => false
  }

  /** For the three verdicts the labels mean what they say, except for every allowance with a low `p`. */
  lemma LabelsMeanWhatTheySay(verdict: string, p: real)
    requires verdict in {"allow", "deny", "gray"}
    ensures Documented(LabelText(verdict, Some(p)), verdict, p) <==> !(verdict == "allow" && p < 0.35)
  {
  }

  function Labelled(d: Decision): Label { Label(KeyOf(d), LabelText(d.verdict, d.p)) }

  function LabelAll(ds: seq<Decision>): seq<Label> { seq(|ds|, i requires 0 <= i < |ds| => Labelled(ds[i])) }

  function Keys(ledger: seq<Label>): set<Key> { set l | l in ledger :: l.key }

  /** The first decisions at or after `since`: `limit` of them, but at least one. */
  function Batch(file: seq<Decision>, since: int, limit: int): seq<Decision> {
    if file == [] then []
    else if file[0].ts < since then Batch(file[1..], since, limit)
    else [file[0]] + if limit <= 1 then [] else Batch(file[1..], since, limit - 1)
  }

  function Unseen(batch: seq<Decision>, keys: set<Key>): seq<Decision> {
    if batch == [] then []
    else (if KeyOf(batch[0]) in keys then [] else [batch[0]]) + Unseen(batch[1..], keys)
  }

  function Latest(batch: seq<Decision>): int
    requires batch != []
  {
    if |batch| == 1 then batch[0].ts
    else
      var rest := Latest(batch[1..]);
      if batch[0].ts > rest then batch[0].ts else rest
  }

  datatype Store = Store(ledger: seq<Label>, watermark: int)

  /** How a run ends: it writes everything, or it dies once that many lines are in the ledger. */
  datatype Fate = Completes | Dies(written: nat)

  function Since(watermark: int, sinceDays: nat, now: int): int {
    if sinceDays > 0 && watermark == 0 then now - sinceDays * 86400 else watermark
  }

  function Run(file: seq<Decision>, s: Store, sinceDays: nat, limit: int, now: int, fate: Fate): Store {
    var batch := Batch(file, Since(s.watermark, sinceDays, now), limit);
    if batch == [] then s
    else
      var unlabelled := LabelAll(Unseen(batch, Keys(s.ledger)));
      match fate
      case Completes => Store(s.ledger + unlabelled, Latest(batch))
      case Dies(written) => s.(ledger := s.ledger + if written < |unlabelled| then unlabelled[..written]
                               else unlabelled)
  }

  class Labeler {
    var ledger: seq<Label>
    var watermark: int

    constructor ()
      ensures State() == Store([], 0)
    {
      ledger := [];
      watermark := 0;
    }

    function State(): Store reads this { Store(ledger, watermark) }

    method ExistingKeys() returns (keys: set<Key>)
      ensures keys == Keys(ledger)
    {
      keys := {};
      for i := 0 to |ledger|
        invariant keys == Keys(ledger[..i])
      {
        assert ledger[..i + 1] == ledger[..i] + [ledger[i]];
        keys := keys + {ledger[i].key};
      }
      assert ledger[..|ledger|] == ledger;
    }

    method IterDecisionEntries(file: seq<Decision>, since: int, limit: int) returns (out: seq<Decision>)
      ensures out == Batch(file, since, limit)
    {
      out := [];
      for i := 0 to |file|
        invariant |out| > 0 ==> |out| < limit
        invariant Batch(file, since, limit) == out + Batch(file[i..], since, limit - |out|)
      {
        assert file[i..][0] == file[i] && file[i..][1..] == file[i + 1..];
        if file[i].ts < since { continue; }
        out := out + [file[i]];
        if |out| >= limit { return; }
      }
    }

    method LatestOf(batch: seq<Decision>) returns (ts: int)
      requires batch != []
      ensures ts == Latest(batch)
    {
      ts := batch[|batch| - 1].ts;
      var i := |batch| - 1;
      assert batch[i..] == [batch[i]];
      while i > 0
        invariant 0 <= i < |batch| && ts == Latest(batch[i..])
      {
        i := i - 1;
        assert batch[i..][1..] == batch[i + 1..];
        if batch[i].ts > ts { ts := batch[i].ts; }
      }
      assert batch[0..] == batch;
    }

    method LabelNew(file: seq<Decision>, sinceDays: nat, limit: int, now: int, dryRun: bool, fate: Fate)
      modifies this
      ensures State() == if dryRun then old(State()) else Run(file, old(State()), sinceDays, limit, now, fate)
    {
      var since := watermark;
      if sinceDays > 0 && since == 0 { since := now - sinceDays * 86400; }
      var entries := IterDecisionEntries(file, since, limit);
      if entries == [] { return; }
      var keys := ExistingKeys();
      var labeled := LabelUnseen(entries, keys);
      if dryRun { return; }
      hide Batch, Unseen, LabelAll, Latest, Keys;
      for i := 0 to |labeled|
        invariant ledger == old(ledger) + labeled[..i] && watermark == old(watermark)
        invariant fate.Dies? ==> i <= fate.written
      {
        if fate == Dies(i) { return; }
        assert labeled[..i + 1] == labeled[..i] + [labeled[i]];
        ledger := ledger + [labeled[i]];
      }
      assert labeled[..|labeled|] == labeled;
      if fate.Dies? { return; }
      watermark := LatestOf(entries);
    }

    method LabelUnseen(entries: seq<Decision>, keys: set<Key>) returns (labeled: seq<Label>)
      ensures labeled == LabelAll(Unseen(entries, keys))
    {
      labeled := [];
      ghost var all := LabelAll(Unseen(entries, keys));
      assert entries[0..] == entries && entries[|entries|..] == [];
      NothingUnseen(keys);
      hide LabelAll, Unseen, Labelled, KeyOf;
      for i := 0 to |entries|
        invariant all == labeled + LabelAll(Unseen(entries[i..], keys))
      {
        UnseenStep(entries, keys, i);
        ghost var rest := LabelAll(Unseen(entries[i + 1..], keys));
        if KeyOf(entries[i]) in keys {
          assert [] + rest == rest;
          continue;
        }
        assert labeled + ([Labelled(entries[i])] + rest) == (labeled + [Labelled(entries[i])]) + rest;
        labeled := labeled + [Labelled(entries[i])];
      }
    }
  }

  lemma NothingUnseen(keys: set<Key>)
    ensures LabelAll(Unseen([], keys)) == []
  {
  }

  lemma UnseenStep(entries: seq<Decision>, keys: set<Key>, i: nat)
    requires i < |entries|
    ensures LabelAll(Unseen(entries[i..], keys))
         == (if KeyOf(entries[i]) in keys then [] else [Labelled(entries[i])])
           + LabelAll(Unseen(entries[i + 1..], keys))
  {
    assert entries[i..][0] == entries[i] && entries[i..][1..] == entries[i + 1..];
    LabelAllCons(entries[i], Unseen(entries[i + 1..], keys));
  }

  lemma LabelAllCons(d: Decision, rest: seq<Decision>)
    ensures LabelAll([d] + rest) == [Labelled(d)] + LabelAll(rest)
  {
  }
}
