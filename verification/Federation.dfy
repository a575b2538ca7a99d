/**
 The federation ledger of scripts/n1_federation_audit.py.

 Each side of a federation keeps one record; the two sides of a pair sit under the keys `a-b` and
 `b-a`.  A record walks a six-state machine, dissolving one side dissolves the other, and a periodic
 audit degrades records that disagree with their partner or with their contract fingerprint.
 */
module Federation {
  import opened Base

  type Key = string

  datatype State = Proposing | Paired | Drift | Broken | Restored | Dissolved | Outside(name: string)
  {
    predicate OneOfSix() { !Outside? }
    predicate Live() { Paired? || Restored? }
  }

  datatype Change = Change(from: State, to: State, at: int, note: string)

  /** A record; `trust` and `plug` are its agreed levels, if any. */
  datatype Pair = Pair(state: State, history: seq<Change>, manifest: string, counterpart: string,
                       trust: Option<string>, plug: Option<string>)

  type Ledger = map<Key, Pair>

  datatype Error = NotOneOfSix | NoSuchPair | IllegalMove

  // ---------------------------------------------------------------------------------------------
  // The opposite key
  // ---------------------------------------------------------------------------------------------

  /** `key` reads `n-r` for two known members. */
  predicate Splits(members: seq<string>, key: Key, n: string) {
    n in members && n + "-" <= key && key[|n| + 1..] in members
  }

  function SwapAt(key: Key, n: nat): Key
    requires n < |key|
  {
    key[n + 1..] + "-" + key[..n]
  }

  /** The first name of `names` that splits `key`, moved behind the rest. */
  function SwapMembers(names: seq<string>, members: seq<string>, key: Key): Option<Key> {
    if names == [] then None
    else if names[0] + "-" <= key && key[|names[0]| + 1..] in members then
      Some(key[|names[0]| + 1..] + "-" + names[0])
    else SwapMembers(names[1..], members, key)
  }

  function FirstHyphen(key: Key): (i: nat)
    ensures i <= |key|
    ensures forall j :: 0 <= j < i ==> key[j] != '-'
    ensures i < |key| ==> key[i] == '-'
  {
    if key == "" || key[0] == '-' then 0 else 1 + FirstHyphen(key[1..])
  }

  /** The fallback for names outside the member list: exactly one hyphen, halves swapped. */
  function SwapHalves(key: Key): Option<Key> {
    var i := FirstHyphen(key);
    if i == |key| || '-' in key[i + 1..] then None else Some(SwapAt(key, i))
  }

  function Opposite(members: seq<string>, key: Key): Option<Key> {
    var swapped := SwapMembers(members, members, key);
    if swapped.Some? then swapped else SwapHalves(key)
  }

  /** The order the member list is searched in: longer names first. */
  ghost predicate LongestFirst(members: seq<string>) {
    forall i, j :: 0 <= i < j < |members| ==> |members[i]| >= |members[j]|
  }

  ghost predicate InvolutiveOn(members: seq<string>, keys: set<Key>) {
    forall k {:trigger k in keys} :: k in keys && Opposite(members, k).Some? ==>
                  Opposite(members, Opposite(members, k).value) == Some(k)
  }

  // ---------------------------------------------------------------------------------------------
  // The six-state machine
  // ---------------------------------------------------------------------------------------------

  predicate Allowed(from: State, to: State) {
    || (from == Proposing && (to == Paired || to == Dissolved))
    || (from == Paired && (to == Drift || to == Broken || to == Dissolved))
    || (from == Drift && (to == Restored || to == Dissolved))
    || (from == Broken && (to == Restored || to == Dissolved))
    || (from == Restored && (to == Drift || to == Broken || to == Dissolved || to == Paired))
  }

  function Moved(p: Pair, to: State, at: int, note: string): Pair {
    p.(state := to, history := p.history + [Change(p.state, to, at, note)])
  }

  /** What linked withdrawal does to the partner.  The state is overwritten before it is logged. */
  function Withdrawn(p: Pair, at: int, note: string): Pair {
    p.(state := Dissolved, history := p.history + [Change(Dissolved, Dissolved, at, note)])
  }

  function LinkNote(key: Key): string { key + " dissolved, no half left" }

  /** Does dissolving `k` also dissolve a partner that is still standing? */
  predicate Links(members: seq<string>, s: Ledger, k: Key, to: State) {
    var o := Opposite(members, k);
    to == Dissolved && o.Some? && o.value != k && o.value in s && s[o.value].state != Dissolved
  }

  function Transited(members: seq<string>, s: Ledger, k: Key, to: State, at: int, note: string): Result<Ledger, Error> {
    if !to.OneOfSix() then Err(NotOneOfSix)
    else if k !in s then Err(NoSuchPair)
    else if s[k].state != to && !Allowed(s[k].state, to) then Err(IllegalMove)
    else
      var s1 := s[k := Moved(s[k], to, at, note)];
      if Links(members, s, k, to) then
        var o := Opposite(members, k).value;
        Ok(s1[o := Withdrawn(s[o], at, LinkNote(k))])
      else Ok(s1)
  }

  // ---------------------------------------------------------------------------------------------
  // The audit
  // ---------------------------------------------------------------------------------------------

  datatype Reason = BadState | KeyShape | StateMismatch | Fingerprint

  datatype Entry = Entry(key: Key, state: State, alert: Option<Reason>)

  datatype Alert =
    | OutsideState(key: Key)
    | NotTwoSided(key: Key)
    | PartnerMissing(key: Key, partner: Key)
    | StatesDiffer(key: Key, partner: Key)
    | PointerAstray(key: Key, partner: Key)
    | FingerprintOff(key: Key)
    | MirrorsMade

  datatype Report = Report(entries: seq<Entry>, alerts: set<Alert>, fixed: seq<Key>)

  datatype Audited = Audited(pairs: Ledger, report: Report)

  function TrimSlashes(s: string): string {
    if s != "" && s[|s| - 1] == '/' then TrimSlashes(s[..|s| - 1]) else s
  }

  predicate EndsWith(s: string, t: string) { |t| <= |s| && s[|s| - |t|..] == t }

  predicate PointsAway(p: Pair, partner: Key) {
    p.counterpart != "" && !EndsWith(TrimSlashes(p.counterpart), partner + ".json")
  }

  /** The contract surface of the record's manifest does not match its recorded fingerprint. */
  predicate Off(drifted: string -> bool, p: Pair) { p.manifest != "" && drifted(p.manifest) }

  function Verdict(members: seq<string>, drifted: string -> bool, s: Ledger, k: Key): Option<Reason>
    requires k in s
  {
    var reason := SideReason(members, s, k);
    if reason.Some? then reason
    else if !s[k].state.OneOfSix() then Some(BadState)
    else if Off(drifted, s[k]) then Some(Fingerprint)
    else None
  }

  /** What the comparison of the two sides finds wrong. */
  function SideReason(members: seq<string>, s: Ledger, k: Key): Option<Reason>
    requires k in s
  {
    var p, o := s[k], Opposite(members, k);
    if o.None? then Some(KeyShape)
    else if o.value in s && s[o.value].state != p.state && p.state != Dissolved then Some(StateMismatch)
    else None
  }

  function SideAlerts(members: seq<string>, s: Ledger, fix: bool, k: Key): set<Alert>
    requires k in s
  {
    var p, o := s[k], Opposite(members, k);
    if o.None? then {NotTwoSided(k)}
    else if o.value !in s then (if fix && p.state != Dissolved then {} else {PartnerMissing(k, o.value)})
    else
      (if s[o.value].state != p.state && p.state != Dissolved then {StatesDiffer(k, o.value)} else {})
      + (if PointsAway(p, o.value) then {PointerAstray(k, o.value)} else {})
  }

  function AlertsFor(members: seq<string>, drifted: string -> bool, s: Ledger, fix: bool, k: Key): set<Alert>
    requires k in s
  {
    (if s[k].state.OneOfSix() then {} else {OutsideState(k)})
    + SideAlerts(members, s, fix, k)
    + (if Off(drifted, s[k]) then {FingerprintOff(k)} else {})
  }

  predicate NeedsMirror(members: seq<string>, s: Ledger, fix: bool, k: Key)
    requires k in s
  {
    var o := Opposite(members, k);
    fix && o.Some? && o.value !in s && s[k].state != Dissolved
  }

  function CounterpartPath(k: Key): string { "data/arch_ledger/federation_pair/" + k + ".json" }

  function Mirror(k: Key, p: Pair): Pair { Pair(Proposing, [], p.manifest, CounterpartPath(k), p.trust, p.plug) }

  function Looked(members: seq<string>, drifted: string -> bool, a: Audited, fix: bool, k: Key): Audited {
    var s := a.pairs;
    if k !in s then a else
    var o := Opposite(members, k);
    var mirror := NeedsMirror(members, s, fix, k);
    Audited(
      if mirror then s[o.value := Mirror(k, s[k])] else s,
      Report(a.report.entries + [Entry(k, s[k].state, Verdict(members, drifted, s, k))],
             a.report.alerts + AlertsFor(members, drifted, s, fix, k),
             if mirror then a.report.fixed + [o.value] else a.report.fixed))
  }

  lemma ReasonsInOrder(members: seq<string>, drifted: string -> bool, s: Ledger, k: Key)
    requires k in s
    ensures Verdict(members, drifted, s, k) ==
              if SideReason(members, s, k).Some? then SideReason(members, s, k)
              else if !s[k].state.OneOfSix() then Some(BadState)
              else if Off(drifted, s[k]) then Some(Fingerprint)
              else None
  {
  }

  lemma LookedIs(members: seq<string>, drifted: string -> bool, s: Ledger, fix: bool, k: Key)
    requires k in s
    ensures Looked(members, drifted, Audited(s, Report([], {}, [])), fix, k) ==
              var o, mirror := Opposite(members, k), NeedsMirror(members, s, fix, k);
              Audited(if mirror then s[o.value := Mirror(k, s[k])] else s,
                      Report([Entry(k, s[k].state, Verdict(members, drifted, s, k))],
                             AlertsFor(members, drifted, s, fix, k), if mirror then [o.value] else []))
  {
    assert {} + AlertsFor(members, drifted, s, fix, k) == AlertsFor(members, drifted, s, fix, k);
  }

  function Scanned(members: seq<string>, drifted: string -> bool, s: Ledger, fix: bool, order: seq<Key>): Audited {
    if order == [] then Audited(s, Report([], {}, []))
    else
      Looked(members, drifted, Scanned(members, drifted, s, fix, order[..|order| - 1]), fix, order[|order| - 1])
  }

  predicate MustDegrade(e: Entry) {
    e.state.Live() && (e.alert == Some(Fingerprint) || e.alert == Some(StateMismatch))
  }

  function DegradeNote(alert: Option<Reason>): string {
    if alert == Some(Fingerprint) then "degraded by audit: fingerprint" else "degraded by audit: state mismatch"
  }

  function DegradedOne(members: seq<string>, s: Ledger, e: Entry, at: int): Ledger {
    if MustDegrade(e) then
      match Transited(members, s, e.key, Drift, at, DegradeNote(e.alert))
      case Ok(s') => s'
      case Err(_) => s
    else s
  }

  function Degraded(members: seq<string>, s: Ledger, entries: seq<Entry>, at: int): Ledger {
    if entries == [] then s
    else DegradedOne(members, Degraded(members, s, entries[..|entries| - 1], at), entries[|entries| - 1], at)
  }

  function AuditedPairs(members: seq<string>, drifted: string -> bool, s: Ledger, fix: bool, order: seq<Key>,
                        at: int): Ledger {
    var a := Scanned(members, drifted, s, fix, order);
    Degraded(members, a.pairs, a.report.entries, at)
  }

  lemma AuditedPairsIs(members: seq<string>, drifted: string -> bool, s: Ledger, fix: bool, order: seq<Key>, at: int)
    ensures var a := Scanned(members, drifted, s, fix, order);
            AuditedPairs(members, drifted, s, fix, order, at) == Degraded(members, a.pairs, a.report.entries, at)
  {
  }

  function FullReport(r: Report): Report {
    if r.fixed != [] then r.(alerts := r.alerts + {MirrorsMade}) else r
  }

  predicate Degradable(s: Ledger, k: Key) { k in s && (s[k].state.Live() || s[k].state == Drift) }

  /** The scan only adds records, and reports every state as it stands. */
  lemma {:induction false} ScanReadsTruly(members: seq<string>, drifted: string -> bool, s: Ledger, fix: bool,
                                          order: seq<Key>)
    ensures var a := Scanned(members, drifted, s, fix, order);
            && (forall k :: k in s ==> k in a.pairs && a.pairs[k] == s[k])
            && (forall e :: e in a.report.entries ==> e.key in a.pairs && a.pairs[e.key].state == e.state)
  {
    if order != [] {
      ScanReadsTruly(members, drifted, s, fix, order[..|order| - 1]);
    }
  }

  // ---------------------------------------------------------------------------------------------
  // The ledger as the program keeps it
  // ---------------------------------------------------------------------------------------------

  class FederationLedger {
    const members: seq<string>
    var pairs: Ledger

    constructor (members: seq<string>, pairs: Ledger)
      ensures this.members == members && this.pairs == pairs
    {
      this.members := members;
      this.pairs := pairs;
    }

    method OppositeKey(key: Key) returns (o: Option<Key>)
      ensures o == Opposite(members, key)
    {
      for i := 0 to |members|
        invariant SwapMembers(members[i..], members, key) == SwapMembers(members, members, key)
      {
        var name := members[i];
        if name + "-" <= key && key[|name| + 1..] in members {
          return Some(key[|name| + 1..] + "-" + name);
        }
        assert members[i..][1..] == members[i + 1..];
      }
      o := SwapHalves(key);
    }

    method Transition(k: Key, to: State, at: int, note: string) returns (r: Result<Pair, Error>)
      modifies this
      ensures match Transited(members, old(pairs), k, to, at, note)
              case Ok(s) => pairs == s && r == Ok(Moved(old(pairs)[k], to, at, note))
              case Err(e) => pairs == old(pairs) && r == Err(e)
    {
      if !to.OneOfSix() { return Err(NotOneOfSix); }
      if k !in pairs { return Err(NoSuchPair); }
      var before := pairs[k].state;
      if before != to && !Allowed(before, to) { return Err(IllegalMove); }
      var rec := Moved(pairs[k], to, at, note);
      pairs := pairs[k := rec];
      var opp := OppositeKey(k);
      if to == Dissolved && opp.Some? && opp.value in pairs && pairs[opp.value].state != Dissolved {
        pairs := pairs[opp.value := Withdrawn(pairs[opp.value], at, LinkNote(k))];
      }
      return Ok(rec);
    }

    /** Looks for the partner: creates it or reports it missing, or compares the two sides. */
    method InspectSides(fix: bool, k: Key, opp: Option<Key>)
      returns (alerts: set<Alert>, alert: Option<Reason>, fixed: seq<Key>)
      requires k in pairs && opp == Opposite(members, k)
      modifies this
      ensures alerts == SideAlerts(members, old(pairs), fix, k)
      ensures alert == SideReason(members, old(pairs), k)
      ensures NeedsMirror(members, old(pairs), fix, k) ==>
                fixed == [opp.value] && pairs == old(pairs)[opp.value := Mirror(k, old(pairs)[k])]
      ensures !NeedsMirror(members, old(pairs), fix, k) ==> fixed == [] && pairs == old(pairs)
    {
      hide Opposite, PointsAway, Mirror;
      var rec := pairs[k];
      alerts, alert, fixed := {}, None, [];
      if opp.None? {
        alerts := {NotTwoSided(k)};
        alert := Some(KeyShape);
      } else if opp.value !in pairs {
        if fix && rec.state != Dissolved {
          pairs := pairs[opp.value := Mirror(k, rec)];
          fixed := [opp.value];
        } else {
          alerts := {PartnerMissing(k, opp.value)};
        }
      } else {
        if pairs[opp.value].state != rec.state && rec.state != Dissolved {
          alerts := {StatesDiffer(k, opp.value)};
          alert := Some(StateMismatch);
        }
        if PointsAway(rec, opp.value) { alerts := alerts + {PointerAstray(k, opp.value)}; }
      }
    }

    method Inspect(drifted: string -> bool, fix: bool, k: Key)
      returns (entry: Entry, alerts: set<Alert>, fixed: seq<Key>)
      requires k in pairs
      modifies this
      ensures Looked(members, drifted, Audited(old(pairs), Report([], {}, [])), fix, k)
              == Audited(pairs, Report([entry], alerts, fixed))
    {
      hide Opposite, SideAlerts, Mirror;
      ghost var s := pairs;
      var rec := pairs[k];
      var alert: Option<Reason> := None;
      alerts := {};
      if !rec.state.OneOfSix() {
        alerts := {OutsideState(k)};
        alert := Some(BadState);
      }
      var opp := OppositeKey(k);
      var more, reason, made := InspectSides(fix, k, opp);
      alerts, fixed := alerts + more, made;
      if reason.Some? { alert := reason; }
      if Off(drifted, rec) {
        alerts := alerts + {FingerprintOff(k)};
        if alert.None? { alert := Some(Fingerprint); }
      }
      entry := Entry(k, rec.state, alert);
      ReasonsInOrder(members, drifted, s, k);
      assert alerts == AlertsFor(members, drifted, s, fix, k);
      hide AlertsFor, Verdict, SideReason;
      LookedIs(members, drifted, s, fix, k);
    }

    method Audit(drifted: string -> bool, fix: bool, order: seq<Key>, at: int) returns (report: Report)
      modifies this
      ensures pairs == AuditedPairs(members, drifted, old(pairs), fix, order, at)
      ensures report == FullReport(Scanned(members, drifted, old(pairs), fix, order).report)
    {
      hide Scanned, Degraded, AuditedPairs;
      report := ScanAll(drifted, fix, order);
      ghost var s := old(pairs);
      ghost var scan := Scanned(members, drifted, s, fix, order);
      ScanReadsTruly(members, drifted, s, fix, order);
      if report.fixed != [] { report := report.(alerts := report.alerts + {MirrorsMade}); }
      DegradeAll(report.entries, at);
      AuditedPairsIs(members, drifted, s, fix, order, at);
    }

    method ScanAll(drifted: string -> bool, fix: bool, order: seq<Key>) returns (report: Report)
      modifies this
      ensures Audited(pairs, report) == Scanned(members, drifted, old(pairs), fix, order)
    {
      hide Opposite, Verdict, AlertsFor, NeedsMirror, Mirror;
      report := Report([], {}, []);
      for i := 0 to |order|
        invariant Audited(pairs, report) == Scanned(members, drifted, old(pairs), fix, order[..i])
      {
        assert order[..i + 1][..i] == order[..i];
        if order[i] in pairs {
          var entry, alerts, fixed := Inspect(drifted, fix, order[i]);
          report := Report(report.entries + [entry], report.alerts + alerts, report.fixed + fixed);
        }
      }
      assert order[..|order|] == order;
    }

    /** Degrades what the scan found wrong; a degradation never fails. */
    method DegradeAll(entries: seq<Entry>, at: int)
      requires forall e :: e in entries && e.state.Live() ==> Degradable(pairs, e.key)
      modifies this
      ensures pairs == Degraded(members, old(pairs), entries, at)
    {
      hide Opposite, DegradeNote, LinkNote, Withdrawn;
      for i := 0 to |entries|
        invariant pairs == Degraded(members, old(pairs), entries[..i], at)
        invariant forall e :: e in entries && e.state.Live() ==> Degradable(pairs, e.key)
      {
        assert entries[..i + 1][..i] == entries[..i];
        var e := entries[i];
        if e.state.Live() && (e.alert == Some(Fingerprint) || e.alert == Some(StateMismatch)) {
          var r := Transition(e.key, Drift, at, DegradeNote(e.alert));
          if r.Err? { assert false; }  // the state cannot have left `paired`, `restored` and `drift` since it was read
        }
      }
      assert entries[..|entries|] == entries;
    }
  }
}
