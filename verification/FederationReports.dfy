/**
 What an audit reports and repairs, alert by alert and record by record.
 */
module FederationReports {
  import opened Base
  import opened Federation
  import opened FederationLaws

  // ---------------------------------------------------------------------------------------------
  // Alerts
  // ---------------------------------------------------------------------------------------------

  function Slashes(n: nat): string { seq(n, i => '/') }

  /** The record names a counterpart, but not the partner's file, with or without slashes behind it. */
  ghost predicate NamesAnother(p: Pair, partner: Key) {
    |p.counterpart| > 0 && forall x, n :: p.counterpart != x + partner + ".json" + Slashes(n)
  }

  lemma {:induction false} TrimmedIs(s: string) returns (n: nat)
    ensures s == TrimSlashes(s) + Slashes(n)
    ensures TrimSlashes(s) == "" || TrimSlashes(s)[|TrimSlashes(s)| - 1] != '/'
  {
    if s != "" && s[|s| - 1] == '/' {
      var m := TrimmedIs(s[..|s| - 1]);
      n := m + 1;
      assert s == s[..|s| - 1] + "/" && Slashes(n) == Slashes(m) + "/";
    } else {
      n := 0;
      assert s == s + Slashes(0);
    }
  }

  lemma {:induction false} TrimsBack(t: string, n: nat)
    requires t != "" && t[|t| - 1] != '/'
    ensures TrimSlashes(t + Slashes(n)) == t
  {
    if n == 0 {
      assert t + Slashes(0) == t;
    } else {
      var s := t + Slashes(n);
      assert s[|s| - 1] == '/' && s[..|s| - 1] == t + Slashes(n - 1);
      TrimsBack(t, n - 1);
    }
  }

  lemma NamesAnotherExactly(p: Pair, partner: Key)
    ensures PointsAway(p, partner) <==> NamesAnother(p, partner)
  {
    var t := partner + ".json";
    assert t[|t| - 1] == 'n';
    var trimmed := TrimSlashes(p.counterpart);
    if EndsWith(trimmed, t) {
      var n := TrimmedIs(p.counterpart);
      var x := trimmed[..|trimmed| - |t|];
      assert trimmed == x + t;
      assert p.counterpart == x + partner + ".json" + Slashes(n);
    }
    if x, n :| p.counterpart == x + partner + ".json" + Slashes(n) {
      assert x + partner + ".json" == x + t;
      TrimsBack(x + t, n);
      assert (x + t)[|x + t| - |t|..] == t;
    }
  }

  /** What each alert says about the ledger. */
  ghost predicate Justified(members: seq<string>, drifted: string -> bool, s: Ledger, a: Alert) {
    match a
    case OutsideState(k) => k in s && s[k].state.Outside?
    case NotTwoSided(k) => k in s && Opposite(members, k) == None
    case PartnerMissing(k, o) => k in s && Opposite(members, k) == Some(o) && o !in s
    case StatesDiffer(k, o) =>
      k in s && Opposite(members, k) == Some(o) && o in s && s[k].state != s[o].state && s[k].state != Dissolved
    case PointerAstray(k, o) => k in s && Opposite(members, k) == Some(o) && o in s && NamesAnother(s[k], o)
    case FingerprintOff(k) => k in s && |s[k].manifest| > 0 && drifted(s[k].manifest)
    case MirrorsMade => false
  }

  function KeyOf(a: Alert): Key {
    match a
    case OutsideState(k) => k
    case NotTwoSided(k) => k
    case PartnerMissing(k, _) => k
    case StatesDiffer(k, _) => k
    case PointerAstray(k, _) => k
    case FingerprintOff(k) => k
    case MirrorsMade => ""
  }

  lemma AlertsOfOne(members: seq<string>, drifted: string -> bool, s: Ledger, k: Key, a: Alert)
    requires k in s
    ensures a in AlertsFor(members, drifted, s, false, k) <==>
              a != MirrorsMade && KeyOf(a) == k && Justified(members, drifted, s, a)
  {
    var o := Opposite(members, k);
    if o.Some? { NamesAnotherExactly(s[k], o.value); }
    hide PointsAway, NamesAnother, Opposite;
  }

  lemma {:induction false} AlertsOfScan(members: seq<string>, drifted: string -> bool, s: Ledger, order: seq<Key>,
                                        a: Alert)
    requires forall k :: k in order ==> k in s
    ensures a in Scanned(members, drifted, s, false, order).report.alerts <==>
              exists k :: k in order && a in AlertsFor(members, drifted, s, false, k)
  {
    if order != [] {
      var init, last := order[..|order| - 1], order[|order| - 1];
      assert order == init + [last];
      AlertsOfScan(members, drifted, s, init, a);
      ScanWithoutRepair(members, drifted, s, init);
      LookWithoutRepair(members, drifted, Scanned(members, drifted, s, false, init), last);
      hide AlertsFor, Looked, ReadsOff;
      assert forall k :: k in order <==> k in init || k == last;
    }
  }

  /** An audit without repair reports exactly what is wrong with the ledger. */
  lemma AlertsExactly(members: seq<string>, drifted: string -> bool, s: Ledger, order: seq<Key>, a: Alert)
    requires Enumerates(order, s.Keys)
    ensures a in FullReport(Scanned(members, drifted, s, false, order).report).alerts
            <==> Justified(members, drifted, s, a)
  {
    ScanWithoutRepair(members, drifted, s, order);
    AlertsOfScan(members, drifted, s, order, a);
    hide Scanned, AlertsFor, NamesAnother, Opposite;
    forall k | k in order
      ensures a in AlertsFor(members, drifted, s, false, k) <==>
                a != MirrorsMade && KeyOf(a) == k && Justified(members, drifted, s, a)
    {
      AlertsOfOne(members, drifted, s, k, a);
    }
  }

  /** With repair the only alert that stays away is that of a partner that is made instead. */
  lemma RepairSilencesOnly(members: seq<string>, drifted: string -> bool, s: Ledger, k: Key, a: Alert)
    requires k in s
    ensures a in AlertsFor(members, drifted, s, true, k) <==>
              a in AlertsFor(members, drifted, s, false, k) && !(a.PartnerMissing? && s[k].state != Dissolved)
  {
    hide PointsAway, Opposite;
  }

  /** The line about a record names its state and the one thing that is wrong with it, the key before all else. */
  lemma EntryExactly(members: seq<string>, drifted: string -> bool, s: Ledger, k: Key)
    requires k in s
    ensures var e := EntryOf(members, drifted, s, k);
            var o := Opposite(members, k);
            var differ := o.Some? && o.value in s && s[o.value].state != s[k].state && s[k].state != Dissolved;
            && e.key == k && e.state == s[k].state
            && (e.alert == Some(KeyShape) <==> o == None)
            && (e.alert == Some(StateMismatch) <==> differ)
            && (e.alert == Some(BadState) <==> o != None && !differ && s[k].state.Outside?)
            && (e.alert == Some(Fingerprint) <==>
                  o != None && !differ && !s[k].state.Outside? && |s[k].manifest| > 0 && drifted(s[k].manifest))
  {
  }

  /**
   What an audit without repair does to one record: a live one with a partner in another state or with its
   fingerprint off drifts, and its history says from where and why; any other stays as it is.
   */
  lemma DegradedExactly(members: seq<string>, drifted: string -> bool, s: Ledger, order: seq<Key>, at: int, k: Key)
    requires Enumerates(order, s.Keys) && k in s
    ensures var r, p, o := AuditedPairs(members, drifted, s, false, order, at), s[k], Opposite(members, k);
            var differ := o.Some? && o.value in s && s[o.value].state != p.state;
            var off := |p.manifest| > 0 && drifted(p.manifest);
            && k in r
            && (if (p.state == Paired || p.state == Restored) && o.Some? && (differ || off)
                then r[k] == p.(state := Drift, history := p.history + [Change(p.state, Drift, at,
                       if differ then "degraded by audit: state mismatch" else "degraded by audit: fingerprint")])
                else r[k] == p)
  {
    AuditIsRound(members, drifted, s, order, at);
    EntryExactly(members, drifted, s, k);
    hide AuditedPairs, Opposite, Verdict;
  }

  // ---------------------------------------------------------------------------------------------
  // Repair
  // ---------------------------------------------------------------------------------------------

  /** A standing record whose partner is missing. */
  ghost predicate Widowed(members: seq<string>, s: Ledger, k: Key, o: Key) {
    k in s && s[k].state != Dissolved && Opposite(members, k) == Some(o) && o !in s
  }

  /** A partner as repair makes it: new, with the other side's manifest and levels, pointing back at it. */
  ghost predicate MadeFor(partner: Pair, k: Key, p: Pair) {
    && partner.state == Proposing && partner.history == []
    && partner.manifest == p.manifest && partner.trust == p.trust && partner.plug == p.plug
    && partner.counterpart != "" && !NamesAnother(partner, k)
    && partner.counterpart == "data/arch_ledger/federation_pair/" + k + ".json"
  }

  lemma MirrorIsMadeFor(k: Key, p: Pair)
    ensures MadeFor(Mirror(k, p), k, p)
  {
    assert Mirror(k, p).counterpart == "data/arch_ledger/federation_pair/" + k + ".json" + Slashes(0);
  }

  /** What a scan with repair has made after the records of `order`. */
  ghost predicate Made(members: seq<string>, s: Ledger, order: seq<Key>, d: Ledger) {
    && (forall k :: k in s ==> k in d && d[k] == s[k])
    && (forall o :: o in d && o !in s ==>
          exists k :: k in order && Widowed(members, s, k, o) && MadeFor(d[o], k, s[k]))
    && (forall k, o :: k in order && Widowed(members, s, k, o) ==> o in d)
  }

  lemma MadeStays(members: seq<string>, s: Ledger, order: seq<Key>, k: Key, d: Ledger)
    requires Made(members, s, order, d) && forall o :: Widowed(members, s, k, o) ==> o in d
    ensures Made(members, s, order + [k], d)
  {
    hide MadeFor, Widowed;
    assert forall j :: j in order + [k] <==> j in order || j == k;
  }

  lemma MadeAdds(members: seq<string>, s: Ledger, order: seq<Key>, k: Key, d: Ledger, o: Key, p: Pair)
    requires Made(members, s, order, d) && Widowed(members, s, k, o) && MadeFor(p, k, s[k]) && o !in d
    ensures Made(members, s, order + [k], d[o := p])
  {
    var d' := d[o := p];
    assert forall j :: j in order + [k] <==> j in order || j == k;
    assert forall o' :: Widowed(members, s, k, o') ==> o' == o;
    hide MadeFor, Widowed;
    forall o' | o' in d' && o' !in s
      ensures exists j :: j in order + [k] && Widowed(members, s, j, o') && MadeFor(d'[o'], j, s[j])
    {
      if o' == o { assert k in order + [k]; } else { assert o' in d; }
    }
  }

  lemma MadeMore(members: seq<string>, drifted: string -> bool, s: Ledger, order: seq<Key>, k: Key, a: Audited)
    requires k in s && Made(members, s, order, a.pairs)
    ensures Made(members, s, order + [k], Looked(members, drifted, a, true, k).pairs)
  {
    var o := Opposite(members, k);
    MirrorIsMadeFor(k, s[k]);
    assert Looked(members, drifted, a, true, k).pairs
        == if o.Some? && o.value !in a.pairs && s[k].state != Dissolved then a.pairs[o.value := Mirror(k, s[k])]
           else a.pairs;
    hide Looked, Mirror, MadeFor, Opposite;
    assert o.Some? && o.value !in a.pairs ==> o.value !in s;
    if o.Some? && o.value !in a.pairs && s[k].state != Dissolved {
      MadeAdds(members, s, order, k, a.pairs, o.value, Mirror(k, s[k]));
    } else {
      MadeStays(members, s, order, k, a.pairs);
    }
  }

  lemma {:induction false} ScanMakes(members: seq<string>, drifted: string -> bool, s: Ledger, order: seq<Key>)
    requires forall k :: k in order ==> k in s
    ensures Made(members, s, order, Scanned(members, drifted, s, true, order).pairs)
  {
    if order != [] {
      var init, last := order[..|order| - 1], order[|order| - 1];
      assert order == init + [last];
      ScanMakes(members, drifted, s, init);
      hide Made, Looked;
      MadeMore(members, drifted, s, init, last, Scanned(members, drifted, s, true, init));
    }
  }

  /**
   After an audit with repair a record is new exactly when it is the missing partner of a standing record, and
   then it is made for such a record.
   */
  lemma RepairExactly(members: seq<string>, drifted: string -> bool, s: Ledger, order: seq<Key>, at: int, o: Key)
    requires Enumerates(order, s.Keys) && o !in s
    ensures var d := AuditedPairs(members, drifted, s, true, order, at);
            && (o in d <==> exists k :: Widowed(members, s, k, o))
            && (o in d ==> exists k :: Widowed(members, s, k, o) && MadeFor(d[o], k, s[k]))
  {
    var a := Scanned(members, drifted, s, true, order);
    ScanMakes(members, drifted, s, order);
    ScanReadsTruly(members, drifted, s, true, order);
    EntriesOfOrder(members, drifted, s, true, order);
    hide Scanned, MadeFor, Widowed;
    assert forall e :: e in a.report.entries ==> e.key != o;
    DegradingElsewhere(members, a.pairs, a.report.entries, at, o);
  }

  lemma {:induction false} EntriesOfOrder(members: seq<string>, drifted: string -> bool, s: Ledger, fix: bool,
                                          order: seq<Key>)
    ensures forall e :: e in Scanned(members, drifted, s, fix, order).report.entries ==> e.key in order
  {
    if order != [] {
      EntriesOfOrder(members, drifted, s, fix, order[..|order| - 1]);
      hide Verdict, AlertsFor, NeedsMirror;
      assert forall k :: k in order[..|order| - 1] ==> k in order;
    }
  }

  /** Degrading leaves alone what no entry is about. */
  lemma {:induction false} DegradingElsewhere(members: seq<string>, s: Ledger, entries: seq<Entry>, at: int, o: Key)
    requires forall e :: e in entries ==> e.key != o
    ensures o in Degraded(members, s, entries, at) <==> o in s
    ensures o in s ==> Degraded(members, s, entries, at)[o] == s[o]
  {
    if entries != [] {
      var init, e := entries[..|entries| - 1], entries[|entries| - 1];
      assert e in entries && forall x :: x in init ==> x in entries;
      DegradingElsewhere(members, s, init, at, o);
      hide Opposite, DegradeNote;
    }
  }

  // ---------------------------------------------------------------------------------------------
  // Moves
  // ---------------------------------------------------------------------------------------------

  /**
   What a move leaves: refused, everything as it was; accepted, the record moved and the move logged last, and
   when it dissolves a pair the partner that still stood dissolved with it; no other record touched.
   */
  lemma MoveExactly(members: seq<string>, s: Ledger, k: Key, to: State, at: int, note: string, j: Key)
    requires Transited(members, s, k, to, at, note).Ok?
    ensures var r := Transited(members, s, k, to, at, note).value;
            var partner := to == Dissolved && j != k && Opposite(members, k) == Some(j);
            && k in s && !to.Outside? && r.Keys == s.Keys
            && (j in s && j != k && !partner ==> r[j] == s[j])
            && (j in s && partner ==>
                  && r[j].state == Dissolved && r[j].manifest == s[j].manifest
                  && (s[j].state == Dissolved ==> r[j] == s[j])
                  && (s[j].state != Dissolved ==> |r[j].history| == |s[j].history| + 1))
            && r[k].state == to && |r[k].history| == |s[k].history| + 1
            && r[k].history[|s[k].history|] == Change(s[k].state, to, at, note)
            && r[k].history[..|s[k].history|] == s[k].history
    ensures !Transited(members, s, k, Outside(""), at, note).Ok?
  {
    hide Opposite;
  }
}
