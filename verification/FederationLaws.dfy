/**
 What repeated audits and arbitrary runs do to a federation ledger: degradation settles after two
 audits, dissolution is two-sided and final, and histories end where the records stand.
 */
module FederationLaws {
  import opened Base
  import opened Federation
  import opened FederationKeys

  // ---------------------------------------------------------------------------------------------
  // An audit without repair is one simultaneous round
  // ---------------------------------------------------------------------------------------------

  function EntryOf(members: seq<string>, drifted: string -> bool, s: Ledger, k: Key): Entry
    requires k in s
  {
    Entry(k, s[k].state, Verdict(members, drifted, s, k))
  }

  /** Every record judged against the same ledger, all degradations at once. */
  function Round(members: seq<string>, drifted: string -> bool, s: Ledger, at: int): Ledger {
    map k | k in s ::
      var e := EntryOf(members, drifted, s, k);
      if MustDegrade(e) then Moved(s[k], Drift, at, DegradeNote(e.alert)) else s[k]
  }

  /** What a scan without repair reads off a ledger. */
  ghost predicate ReadsOff(members: seq<string>, drifted: string -> bool, s: Ledger, order: seq<Key>, a: Audited)
    requires forall k :: k in order ==> k in s
  {
    && a.pairs == s && a.report.fixed == [] && |a.report.entries| == |order|
    && (forall i :: 0 <= i < |order| ==> a.report.entries[i] == EntryOf(members, drifted, s, order[i]))
    && (a.report.alerts == {} <==> forall k :: k in order ==> AlertsFor(members, drifted, s, false, k) == {})
  }

  lemma ReadsOneMore(members: seq<string>, drifted: string -> bool, s: Ledger, order: seq<Key>, k: Key, a: Audited,
                     b: Audited)
    requires (forall j :: j in order ==> j in s) && k in s && ReadsOff(members, drifted, s, order, a)
    requires b.pairs == a.pairs && b.report.fixed == a.report.fixed
    requires b.report.entries == a.report.entries + [EntryOf(members, drifted, s, k)]
    requires b.report.alerts == a.report.alerts + AlertsFor(members, drifted, s, false, k)
    ensures ReadsOff(members, drifted, s, order + [k], b)
  {
    hide AlertsFor, EntryOf;
    assert forall j :: j in order + [k] <==> j in order || j == k;
  }

  lemma {:induction false} ScanWithoutRepair(members: seq<string>, drifted: string -> bool, s: Ledger, order: seq<Key>)
    requires forall k :: k in order ==> k in s
    ensures ReadsOff(members, drifted, s, order, Scanned(members, drifted, s, false, order))
  {
    if order != [] {
      var init, last := order[..|order| - 1], order[|order| - 1];
      assert order == init + [last];
      ScanWithoutRepair(members, drifted, s, init);
      var a, b := Scanned(members, drifted, s, false, init), Scanned(members, drifted, s, false, order);
      assert b == Looked(members, drifted, a, false, last) && a.pairs == s;
      LookWithoutRepair(members, drifted, a, last);
      hide Scanned, Looked, ReadsOff;
      ReadsOneMore(members, drifted, s, init, last, a, b);
    }
  }

  lemma LookWithoutRepair(members: seq<string>, drifted: string -> bool, a: Audited, k: Key)
    requires k in a.pairs
    ensures var b := Looked(members, drifted, a, false, k);
            && b.pairs == a.pairs && b.report.fixed == a.report.fixed
            && b.report.entries == a.report.entries + [EntryOf(members, drifted, a.pairs, k)]
            && b.report.alerts == a.report.alerts + AlertsFor(members, drifted, a.pairs, false, k)
  {
  }

  lemma DegradesInPlace(members: seq<string>, s: Ledger, d: Ledger, e: Entry, at: int)
    requires e.key in s && e.key in d && d[e.key] == s[e.key] && s[e.key].state == e.state
    ensures DegradedOne(members, d, e, at) == d[e.key := DegradedTo(s, e, at)]
  {
    if !MustDegrade(e) { assert d[e.key := d[e.key]] == d; }
  }

  /** What degrading makes of the record an entry is about. */
  function DegradedTo(s: Ledger, e: Entry, at: int): Pair
    requires e.key in s
  {
    if MustDegrade(e) then Moved(s[e.key], Drift, at, DegradeNote(e.alert)) else s[e.key]
  }

  /** `d` is `s` with the records the entries are about degraded, and nothing else. */
  ghost predicate DegradedAll(s: Ledger, d: Ledger, entries: seq<Entry>, at: int) {
    && d.Keys == s.Keys
    && (forall i :: 0 <= i < |entries| ==> entries[i].key in s && d[entries[i].key] == DegradedTo(s, entries[i], at))
    && (forall k :: k in s && (forall i :: 0 <= i < |entries| ==> entries[i].key != k) ==> d[k] == s[k])
  }

  lemma OneMoreDegraded(s: Ledger, d: Ledger, entries: seq<Entry>, e: Entry, at: int)
    requires DegradedAll(s, d, entries, at) && e.key in s
    requires forall i :: 0 <= i < |entries| ==> entries[i].key != e.key
    ensures DegradedAll(s, d[e.key := DegradedTo(s, e, at)], entries + [e], at)
  {
    var d', all := d[e.key := DegradedTo(s, e, at)], entries + [e];
    hide DegradedTo;
    forall k | k in s && (forall i :: 0 <= i < |all| ==> all[i].key != k) ensures d'[k] == s[k] {
      assert all[|entries|] == e;
      assert forall i :: 0 <= i < |entries| ==> all[i] == entries[i];
    }
  }

  lemma {:induction false} DegradedPointwise(members: seq<string>, s: Ledger, entries: seq<Entry>, at: int)
    requires forall i, j :: 0 <= i < j < |entries| ==> entries[i].key != entries[j].key
    requires forall i :: 0 <= i < |entries| ==> entries[i].key in s && s[entries[i].key].state == entries[i].state
    ensures DegradedAll(s, Degraded(members, s, entries, at), entries, at)
  {
    if entries != [] {
      var init, last := entries[..|entries| - 1], entries[|entries| - 1];
      var d := Degraded(members, s, init, at);
      assert entries == init + [last];
      assert forall i :: 0 <= i < |init| ==> init[i] == entries[i] && init[i].key != last.key;
      DegradedPointwise(members, s, init, at);
      Untouched(s, d, init, last, at);
      DegradesInPlace(members, s, d, last, at);
      hide DegradedTo, DegradedOne, DegradedAll;
      OneMoreDegraded(s, d, init, last, at);
    }
  }

  lemma Untouched(s: Ledger, d: Ledger, entries: seq<Entry>, e: Entry, at: int)
    requires DegradedAll(s, d, entries, at) && e.key in s
    requires forall i :: 0 <= i < |entries| ==> entries[i].key != e.key
    ensures e.key in d && d[e.key] == s[e.key]
  {
  }

  lemma RoundAt(members: seq<string>, drifted: string -> bool, s: Ledger, order: seq<Key>, at: int, i: nat)
    requires (forall k :: k in order ==> k in s) && NoDuplicates(order)
    requires i < |order|
    ensures var d, r := AuditedPairs(members, drifted, s, false, order, at), Round(members, drifted, s, at);
            d.Keys == r.Keys == s.Keys && d[order[i]] == r[order[i]]
  {
    hide Verdict, DegradeNote, Scanned, Degraded, Moved, MustDegrade;
    ScanWithoutRepair(members, drifted, s, order);
    var entries := Scanned(members, drifted, s, false, order).report.entries;
    DegradedPointwise(members, s, entries, at);
    assert entries[i] == EntryOf(members, drifted, s, order[i]);
  }

  /** Without repair the audit is exactly one round, in whatever order the records are listed. */
  lemma AuditIsRound(members: seq<string>, drifted: string -> bool, s: Ledger, order: seq<Key>, at: int)
    requires Enumerates(order, s.Keys)
    ensures AuditedPairs(members, drifted, s, false, order, at) == Round(members, drifted, s, at)
  {
    hide AuditedPairs, Round;
    var d, r := AuditedPairs(members, drifted, s, false, order, at), Round(members, drifted, s, at);
    if order == [] {
      assert s == map[];
      EmptyAudit(members, drifted, at);
    } else {
      RoundAt(members, drifted, s, order, at, 0);
      forall k | k in d ensures d[k] == r[k] {
        var i :| 0 <= i < |order| && order[i] == k;
        RoundAt(members, drifted, s, order, at, i);
      }
      SameMaps(d, r);
    }
  }

  lemma EmptyAudit(members: seq<string>, drifted: string -> bool, at: int)
    ensures AuditedPairs(members, drifted, map[], false, [], at) == Round(members, drifted, map[], at)
  {
  }

  // ---------------------------------------------------------------------------------------------
  // Convergence
  // ---------------------------------------------------------------------------------------------

  function LiveKeys(s: Ledger): set<Key> { set k | k in s && s[k].state.Live() }

  /** A round that does anything takes at least one record out of `paired` and `restored`, and puts none in. */
  lemma EveryBusyRoundCosts(members: seq<string>, drifted: string -> bool, s: Ledger, at: int)
    ensures var r := Round(members, drifted, s, at);
            LiveKeys(r) <= LiveKeys(s) && (r == s || |LiveKeys(r)| < |LiveKeys(s)|)
  {
    var r := Round(members, drifted, s, at);
    assert LiveKeys(r) <= LiveKeys(s);
    if r != s {
      var k :| k in s && r[k] != s[k];
      assert k in LiveKeys(s) && k !in LiveKeys(r);
      assert LiveKeys(r) <= LiveKeys(s) - {k};
      CardinalityBound(LiveKeys(r), LiveKeys(s) - {k});
    }
  }

  lemma {:induction false} CardinalityBound<T>(a: set<T>, b: set<T>)
    requires a <= b
    ensures |a| <= |b|
  {
    if a != {} {
      var x :| x in a;
      CardinalityBound(a - {x}, b - {x});
    }
  }

  function Rounds(members: seq<string>, drifted: string -> bool, s: Ledger, times: seq<int>): Ledger {
    if times == [] then s
    else Round(members, drifted, Rounds(members, drifted, s, times[..|times| - 1]), times[|times| - 1])
  }

  lemma {:induction false} QuietStaysQuiet(members: seq<string>, drifted: string -> bool, s: Ledger, at: int, at': int)
    requires Round(members, drifted, s, at) == s
    ensures Round(members, drifted, s, at') == s
  {
    forall k | k in s ensures !MustDegrade(EntryOf(members, drifted, s, k)) {
      assert Round(members, drifted, s, at)[k] == s[k];
    }
  }

  /** For any key shapes at all, as many audits as there are live records are enough. */
  lemma {:induction false} RoundsRunOut(members: seq<string>, drifted: string -> bool, s: Ledger, times: seq<int>,
                                        next: int)
    requires |times| >= |LiveKeys(s)|
    ensures var r := Rounds(members, drifted, s, times);
            Round(members, drifted, r, next) == r
  {
    RoundsSpend(members, drifted, s, times, next);
    EveryBusyRoundCosts(members, drifted, Rounds(members, drifted, s, times), next);
  }

  lemma {:induction false} RoundsSpend(members: seq<string>, drifted: string -> bool, s: Ledger, times: seq<int>,
                                       next: int)
    ensures var r := Rounds(members, drifted, s, times);
            Round(members, drifted, r, next) == r || |LiveKeys(r)| + |times| <= |LiveKeys(s)|
  {
    if times != [] {
      var init, last := times[..|times| - 1], times[|times| - 1];
      var r := Rounds(members, drifted, s, init);
      RoundsSpend(members, drifted, s, init, last);
      EveryBusyRoundCosts(members, drifted, r, last);
      if Round(members, drifted, r, last) == r {
        QuietStaysQuiet(members, drifted, r, last, next);
      }
    }
  }

  /** What keeps a live record live for good: nothing wrong with it, nothing wrong with its partner. */
  predicate Survives(members: seq<string>, drifted: string -> bool, s: Ledger, k: Key)
    requires k in s
  {
    var o := Opposite(members, k);
    o.None? ||
    (!Off(drifted, s[k])
     && (o.value !in s || (s[o.value].state == s[k].state && !Off(drifted, s[o.value]))))
  }

  lemma RoundStep(members: seq<string>, drifted: string -> bool, s: Ledger, at: int, k: Key)
    requires k in s
    ensures var r := Round(members, drifted, s, at);
            k in r && r[k].manifest == s[k].manifest
            && (!s[k].state.Live() ==> r[k] == s[k])
            && (r[k].state.Live() ==> r[k] == s[k])
            && (s[k].state.Live() ==>
                  (r[k].state.Live() <==>
                     var o := Opposite(members, k);
                     o.None? || (!Off(drifted, s[k]) && (o.value !in s || s[o.value].state == s[k].state))))
  {
  }

  /** Exactly which records are left standing after two audits. */
  lemma TwoRoundsDecide(members: seq<string>, drifted: string -> bool, s: Ledger, t1: int, t2: int, k: Key)
    requires InvolutiveOn(members, s.Keys)
    requires k in s
    ensures var r := Round(members, drifted, Round(members, drifted, s, t1), t2);
            k in r && (r[k].state.Live() <==> s[k].state.Live() && Survives(members, drifted, s, k))
  {
    var r1 := Round(members, drifted, s, t1);
    RoundStep(members, drifted, s, t1, k);
    RoundStep(members, drifted, r1, t2, k);
    var o := Opposite(members, k);
    if o.Some? && o.value in s {
      RoundStep(members, drifted, s, t1, o.value);
      RoundStep(members, drifted, r1, t2, o.value);
    }
  }

  /** With involutive keys the third audit changes nothing, from any ledger and any listing order. */
  lemma ThirdAuditChangesNothing(members: seq<string>, drifted: string -> bool, s: Ledger,
                                 o1: seq<Key>, o2: seq<Key>, o3: seq<Key>, t1: int, t2: int, t3: int)
    requires InvolutiveOn(members, s.Keys)
    requires Enumerates(o1, s.Keys) && Enumerates(o2, s.Keys) && Enumerates(o3, s.Keys)
    ensures var r1 := AuditedPairs(members, drifted, s, false, o1, t1);
            var r2 := AuditedPairs(members, drifted, r1, false, o2, t2);
            && AuditedPairs(members, drifted, r2, false, o3, t3) == r2
            && forall k :: k in r2 && r2[k].state.Live() && Opposite(members, k).Some? ==>
                 !Off(drifted, r2[k])
                 && (Opposite(members, k).value in r2 ==> r2[Opposite(members, k).value].state == r2[k].state)
  {
    hide Opposite, Round, AuditedPairs;
    var r1 := Round(members, drifted, s, t1);
    var r2 := Round(members, drifted, r1, t2);
    RoundKeepsKeys(members, drifted, s, t1);
    RoundKeepsKeys(members, drifted, r1, t2);
    AuditIsRound(members, drifted, s, o1, t1);
    AuditIsRound(members, drifted, r1, o2, t2);
    AuditIsRound(members, drifted, r2, o3, t3);
    ThirdRoundChangesNothing(members, drifted, s, t1, t2, t3);
    forall k | k in r2 && r2[k].state.Live() && Opposite(members, k).Some?
      ensures !Off(drifted, r2[k])
      ensures Opposite(members, k).value in r2 ==> r2[Opposite(members, k).value].state == r2[k].state
    {
      SurvivorsStand(members, drifted, s, t1, t2, k);
    }
  }

  lemma RoundKeepsKeys(members: seq<string>, drifted: string -> bool, s: Ledger, at: int)
    ensures Round(members, drifted, s, at).Keys == s.Keys
  {
  }

  lemma ThirdRoundChangesNothing(members: seq<string>, drifted: string -> bool, s: Ledger, t1: int, t2: int, t3: int)
    requires InvolutiveOn(members, s.Keys)
    ensures var r2 := Round(members, drifted, Round(members, drifted, s, t1), t2);
            Round(members, drifted, r2, t3) == r2
  {
    var r1 := Round(members, drifted, s, t1);
    var r2 := Round(members, drifted, r1, t2);
    forall k | k in r2 ensures !MustDegrade(EntryOf(members, drifted, r2, k)) {
      if r2[k].state.Live() { SurvivorsStand(members, drifted, s, t1, t2, k); }
    }
    hide MustDegrade, EntryOf;
    assert Round(members, drifted, r2, t3) == r2;
  }

  lemma SurvivorsStand(members: seq<string>, drifted: string -> bool, s: Ledger, t1: int, t2: int, k: Key)
    requires InvolutiveOn(members, s.Keys)
    requires k in s
    requires Round(members, drifted, Round(members, drifted, s, t1), t2)[k].state.Live()
    ensures var r2 := Round(members, drifted, Round(members, drifted, s, t1), t2);
            && r2[k] == s[k] && Survives(members, drifted, s, k)
            && !MustDegrade(EntryOf(members, drifted, r2, k))
            && (Opposite(members, k).Some? && Opposite(members, k).value in s ==>
                  r2[Opposite(members, k).value] == s[Opposite(members, k).value])
  {
    var r1 := Round(members, drifted, s, t1);
    var r2 := Round(members, drifted, r1, t2);
    TwoRoundsDecide(members, drifted, s, t1, t2, k);
    RoundStep(members, drifted, s, t1, k);
    RoundStep(members, drifted, r1, t2, k);
    var o := Opposite(members, k);
    if o.Some? && o.value in s {
      TwoRoundsDecide(members, drifted, s, t1, t2, o.value);
      RoundStep(members, drifted, s, t1, o.value);
      RoundStep(members, drifted, r1, t2, o.value);
    }
    RoundStep(members, drifted, r2, 0, k);
  }

  // ---------------------------------------------------------------------------------------------
  // Settling for any keys at all
  // ---------------------------------------------------------------------------------------------

  /** The record has reason of its own to degrade: its fingerprint, or a partner in another state. */
  predicate Faulty(members: seq<string>, drifted: string -> bool, s: Ledger, k: Key)
    requires k in s
  {
    var o := Opposite(members, k);
    o.Some? && (Off(drifted, s[k]) || (o.value in s && s[o.value].state != s[k].state))
  }

  /**
   `n - 1` links of opposite keys lead from the live record `k`, over live records without a fault
   of their own, to one with a fault.
   */
  predicate FallsAt(members: seq<string>, drifted: string -> bool, s: Ledger, k: Key, n: nat)
    decreases n
  {
    && n > 0 && k in s && s[k].state.Live()
    && if Faulty(members, drifted, s, k) then n == 1
       else n > 1 && Opposite(members, k).Some? && FallsAt(members, drifted, s, Opposite(members, k).value, n - 1)
  }

  predicate FallsWithin(members: seq<string>, drifted: string -> bool, s: Ledger, k: Key, n: nat)
    decreases n
  {
    n > 0 && (FallsAt(members, drifted, s, k, n) || FallsWithin(members, drifted, s, k, n - 1))
  }

  /** What `n` rounds make of one record: it stands as it was, or it has fallen for good. */
  predicate StandsOrFell(members: seq<string>, drifted: string -> bool, s: Ledger, r: Ledger, k: Key, n: nat)
    requires k in s && k in r
  {
    && r[k].manifest == s[k].manifest
    && (!s[k].state.Live() || r[k].state.Live() ==> r[k] == s[k])
    && (r[k].state.Live() <==> s[k].state.Live() && !FallsWithin(members, drifted, s, k, n))
  }

  /** A live record without a fault of its own falls one step after its partner. */
  lemma {:induction false} FallsAfterPartner(members: seq<string>, drifted: string -> bool, s: Ledger, k: Key, n: nat)
    requires k in s && s[k].state.Live() && !Faulty(members, drifted, s, k)
    ensures FallsWithin(members, drifted, s, k, n + 1) <==>
              Opposite(members, k).Some? && FallsWithin(members, drifted, s, Opposite(members, k).value, n)
  {
    if n == 0 {
      assert !FallsWithin(members, drifted, s, k, 0);
    } else {
      FallsAfterPartner(members, drifted, s, k, n - 1);
    }
  }

  lemma {:induction false} FaultyFallsFirst(members: seq<string>, drifted: string -> bool, s: Ledger, k: Key, n: nat)
    requires k in s && s[k].state.Live() && Faulty(members, drifted, s, k)
    ensures FallsWithin(members, drifted, s, k, n + 1)
  {
    if n == 0 { assert FallsAt(members, drifted, s, k, 1); } else { FaultyFallsFirst(members, drifted, s, k, n - 1); }
  }

  lemma {:induction false} OnlyLiveFall(members: seq<string>, drifted: string -> bool, s: Ledger, k: Key, n: nat)
    requires FallsWithin(members, drifted, s, k, n)
    ensures k in s && s[k].state.Live()
  {
    if !FallsAt(members, drifted, s, k, n) { OnlyLiveFall(members, drifted, s, k, n - 1); }
  }

  /** One more round on one record, its partner standing or fallen as the rounds before left it. */
  lemma RoundGoesOn(members: seq<string>, drifted: string -> bool, s: Ledger, r: Ledger, k: Key, n: nat, at: int)
    requires r.Keys == s.Keys && k in s && StandsOrFell(members, drifted, s, r, k, n)
    requires var o := Opposite(members, k); o.Some? && o.value in s ==> StandsOrFell(members, drifted, s, r, o.value, n)
    requires n == 0 ==> r == s
    ensures k in Round(members, drifted, r, at)
    ensures StandsOrFell(members, drifted, s, Round(members, drifted, r, at), k, n + 1)
  {
    RoundStep(members, drifted, r, at, k);
    if s[k].state.Live() {
      if Faulty(members, drifted, s, k) {
        FaultyFallsFirst(members, drifted, s, k, n);
      } else {
        FallsAfterPartner(members, drifted, s, k, n);
        if Opposite(members, k).Some? && FallsWithin(members, drifted, s, Opposite(members, k).value, n) {
          OnlyLiveFall(members, drifted, s, Opposite(members, k).value, n);
        }
      }
      hide FallsWithin, FallsAt;
      if r[k].state.Live() && n > 0 { StandingIsFaultless(members, drifted, s, r, k, n); }
    } else if FallsWithin(members, drifted, s, k, n + 1) {
      OnlyLiveFall(members, drifted, s, k, n + 1);
    }
  }

  lemma StandingIsFaultless(members: seq<string>, drifted: string -> bool, s: Ledger, r: Ledger, k: Key, n: nat)
    requires k in s && k in r && StandsOrFell(members, drifted, s, r, k, n) && r[k].state.Live() && n > 0
    ensures !Faulty(members, drifted, s, k)
  {
    if Faulty(members, drifted, s, k) { FaultyFallsFirst(members, drifted, s, k, n - 1); }
  }

  /** After any number of audits a record is still live exactly when no chain that short leads to a fault. */
  lemma {:induction false} RoundsDecide(members: seq<string>, drifted: string -> bool, s: Ledger, times: seq<int>)
    ensures var r := Rounds(members, drifted, s, times);
            r.Keys == s.Keys && forall k :: k in s ==> StandsOrFell(members, drifted, s, r, k, |times|)
  {
    if times == [] {
      assert forall k :: k in s ==> StandsOrFell(members, drifted, s, s, k, 0);
    } else {
      var init, at := times[..|times| - 1], times[|times| - 1];
      RoundsDecide(members, drifted, s, init);
      var r := Rounds(members, drifted, s, init);
      hide StandsOrFell;
      forall k | k in s
        ensures k in Round(members, drifted, r, at)
                && StandsOrFell(members, drifted, s, Round(members, drifted, r, at), k, |times|)
      {
        RoundGoesOn(members, drifted, s, r, k, |init|, at);
      }
    }
  }

  /**
   For any ledger and any keys: after some number of audits the next one changes nothing exactly
   when no record is that many links away from a fault.  With two audits behind it, the next one
   still changes something exactly when some record, its partner and its partner's partner are live,
   and only the last has a fault.
   */
  lemma SettlesExactly(members: seq<string>, drifted: string -> bool, s: Ledger, times: seq<int>, next: int)
    ensures var r := Rounds(members, drifted, s, times);
            Round(members, drifted, r, next) == r <==>
              forall k :: k in s ==> !FallsAt(members, drifted, s, k, |times| + 1)
  {
    var r := Rounds(members, drifted, s, times);
    assert (times + [next])[..|times|] == times;
    var r' := Rounds(members, drifted, s, times + [next]);
    assert r' == Round(members, drifted, r, next);
    RoundsDecide(members, drifted, s, times);
    RoundsDecide(members, drifted, s, times + [next]);
    hide Rounds, FallsAt;
    forall k | k in s ensures r'[k] != r[k] <==> FallsAt(members, drifted, s, k, |times| + 1) {
      ChangesExactly(members, drifted, s, r, r', k, |times|, next);
    }
  }

  lemma ChangesExactly(members: seq<string>, drifted: string -> bool, s: Ledger, r: Ledger, r': Ledger, k: Key, n: nat,
                       at: int)
    requires k in s && k in r && r' == Round(members, drifted, r, at)
    requires StandsOrFell(members, drifted, s, r, k, n) && StandsOrFell(members, drifted, s, r', k, n + 1)
    ensures r'[k] != r[k] <==> FallsAt(members, drifted, s, k, n + 1)
  {
    RoundStep(members, drifted, r, at, k);
    if FallsAt(members, drifted, s, k, n + 1) { NotEarlier(members, drifted, s, k, n, n + 1); }
  }

  lemma {:induction false} NotEarlier(members: seq<string>, drifted: string -> bool, s: Ledger, k: Key, n: nat, j: nat)
    requires n < j && FallsAt(members, drifted, s, k, j)
    ensures !FallsWithin(members, drifted, s, k, n)
  {
    if n > 0 {
      NotEarlier(members, drifted, s, k, n - 1, j);
      if FallsAt(members, drifted, s, k, n) { FallsOnce(members, drifted, s, k, n, j); }
    }
  }

  /** A record has one distance from a fault. */
  lemma {:induction false} FallsOnce(members: seq<string>, drifted: string -> bool, s: Ledger, k: Key, i: nat, j: nat)
    requires FallsAt(members, drifted, s, k, i) && FallsAt(members, drifted, s, k, j)
    ensures i == j
    decreases i
  {
    if i > 1 { FallsOnce(members, drifted, s, Opposite(members, k).value, i - 1, j - 1); }
  }

  /** Such a chain: along `b-c-a`, `a-b-c`, `c-a-b` one bad fingerprint travels one link per audit. */
  lemma ChainsNeedThreeRounds(times: seq<int>, next: int)
    requires |times| == 2
    ensures var members := ["b-c", "a-b", "a", "c"];
            var ok := Pair(Paired, [], "", "", None, None);
            var s: Ledger := map["b-c-a" := ok, "a-b-c" := ok, "c-a-b" := ok.(manifest := "m")];
            var drifted := (m: string) => true;
            var r := Rounds(members, drifted, s, times);
            FallsAt(members, drifted, s, "b-c-a", 3) && Round(members, drifted, r, next) != r
  {
    hide Opposite, LongestFirst;
    var members := ["b-c", "a-b", "a", "c"];
    var ok := Pair(Paired, [], "", "", None, None);
    var s: Ledger := map["b-c-a" := ok, "a-b-c" := ok, "c-a-b" := ok.(manifest := "m")];
    var drifted := (m: string) => true;
    OppositeCanDriftAway();
    var x, y, z := "b-c-a", "a-b-c", "c-a-b";
    assert x[0] == 'b' && y[0] == 'a' && z[0] == 'c';
    assert FallsAt(members, drifted, s, z, 1);
    assert FallsAt(members, drifted, s, y, 2);
    assert FallsAt(members, drifted, s, x, 3);
    hide FallsAt, Round, Rounds;
    SettlesExactly(members, drifted, s, times, next);
    assert Round(members, drifted, Rounds(members, drifted, s, times), next) != Rounds(members, drifted, s, times);
  }

  // ---------------------------------------------------------------------------------------------
  // A quiet report means a consistent ledger
  // ---------------------------------------------------------------------------------------------

  /** An audit that reports nothing has seen a ledger with nothing wrong, and the other way round. */
  lemma QuietMeansConsistent(members: seq<string>, drifted: string -> bool, s: Ledger, order: seq<Key>)
    requires InvolutiveOn(members, s.Keys)
    requires Enumerates(order, s.Keys)
    ensures FullReport(Scanned(members, drifted, s, false, order).report).alerts == {} <==>
            forall k :: k in s ==>
              && s[k].state.OneOfSix() && !Off(drifted, s[k])
              && Opposite(members, k).Some? && Opposite(members, k).value in s
              && s[Opposite(members, k).value].state == s[k].state
              && !PointsAway(s[k], Opposite(members, k).value)
  {
    ScanWithoutRepair(members, drifted, s, order);
    if forall k :: k in order ==> AlertsFor(members, drifted, s, false, k) == {} {
      forall k | k in s
        ensures s[k].state.OneOfSix() && !Off(drifted, s[k]) && Opposite(members, k).Some?
                && Opposite(members, k).value in s && s[Opposite(members, k).value].state == s[k].state
                && !PointsAway(s[k], Opposite(members, k).value)
      {
        NoAlerts(members, drifted, s, k);
        NoAlerts(members, drifted, s, Opposite(members, k).value);
      }
    } else {
      var k :| k in order && AlertsFor(members, drifted, s, false, k) != {};
      assert k in s;
    }
  }

  lemma NoAlerts(members: seq<string>, drifted: string -> bool, s: Ledger, k: Key)
    requires k in s && AlertsFor(members, drifted, s, false, k) == {}
    ensures s[k].state.OneOfSix() && !Off(drifted, s[k])
    ensures Opposite(members, k).Some? && Opposite(members, k).value in s
    ensures s[Opposite(members, k).value].state == s[k].state || s[k].state == Dissolved
    ensures !PointsAway(s[k], Opposite(members, k).value)
  {
    var all, side := AlertsFor(members, drifted, s, false, k), SideAlerts(members, s, false, k);
    assert side <= all && side == {};
    assert s[k].state.OneOfSix() || OutsideState(k) in all;
    assert !Off(drifted, s[k]) || FingerprintOff(k) in all;
    var o := Opposite(members, k);
    if o.Some? && o.value in s {
      assert StatesDiffer(k, o.value) !in side && PointerAstray(k, o.value) !in side;
    }
  }

  // ---------------------------------------------------------------------------------------------
  // Runs
  // ---------------------------------------------------------------------------------------------

  datatype Op =
    | Move(key: Key, to: State, at: int, note: string)
    | Check(drifted: string -> bool, fix: bool, order: seq<Key>, at: int)

  function Done(members: seq<string>, s: Ledger, op: Op): Ledger {
    match op
    case Move(k, to, at, note) =>
      (match Transited(members, s, k, to, at, note) case Ok(s') => s' case Err(_) => s)
    case Check(drifted, fix, order, at) => AuditedPairs(members, drifted, s, fix, order, at)
  }

  function Run(members: seq<string>, s: Ledger, ops: seq<Op>): Ledger {
    if ops == [] then s else Done(members, Run(members, s, ops[..|ops| - 1]), ops[|ops| - 1])
  }

  predicate HasPartner(members: seq<string>, s: Ledger, k: Key) {
    Opposite(members, k).Some? && Opposite(members, k).value in s
  }

  predicate LacksPartner(members: seq<string>, s: Ledger, k: Key) {
    Opposite(members, k).Some? && Opposite(members, k).value !in s
  }

  /** No half of a pair is dissolved on its own. */
  ghost predicate BothOrNeither(members: seq<string>, s: Ledger) {
    forall k {:trigger k in s} :: k in s && s[k].state == Dissolved && HasPartner(members, s, k) ==>
                  s[Opposite(members, k).value].state == Dissolved
  }

  predicate EndsHere(p: Pair) { p.history == [] || p.history[|p.history| - 1].to == p.state }

  ghost predicate Sound(members: seq<string>, s: Ledger) {
    && InvolutiveOn(members, s.Keys)
    && BothOrNeither(members, s)
    && forall k :: k in s ==> EndsHere(s[k])
  }

  /** What a run may do to a ledger: records stay, dissolution stays, lost partners of dissolved records stay lost. */
  ghost predicate Evolves(members: seq<string>, s: Ledger, s': Ledger) {
    && s.Keys <= s'.Keys
    && (forall k :: k in s && s[k].state == Dissolved ==> s'[k].state == Dissolved)
    && (forall k {:trigger k in s} :: k in s && s[k].state == Dissolved && LacksPartner(members, s, k) ==>
                      Opposite(members, k).value !in s')
  }

  lemma DissolveKeeps(members: seq<string>, s: Ledger, s': Ledger, k: Key)
    requires Sound(members, s) && k in s && s'.Keys == s.Keys
    requires s'[k].state == Dissolved
    requires var o := Opposite(members, k); o.Some? && o.value in s ==> s'[o.value].state == Dissolved
    requires forall j :: j in s && s'[j] != s[j] ==> s'[j].state == Dissolved && EndsHere(s'[j])
    requires forall j :: j in s && s'[j] != s[j] ==> j == k || Some(j) == Opposite(members, k)
    ensures Sound(members, s') && Evolves(members, s, s')
  {
    forall j | j in s' && s'[j].state == Dissolved && Opposite(members, j).Some? && Opposite(members, j).value in s'
      ensures s'[Opposite(members, j).value].state == Dissolved
    {
      if j != k && s'[j] == s[j] {
        assert s[Opposite(members, j).value].state == Dissolved;
      } else if j != k {
        assert Opposite(members, j) == Some(k);
      }
    }
  }

  lemma StepKeeps(members: seq<string>, s: Ledger, s': Ledger, k: Key)
    requires Sound(members, s) && k in s && s'.Keys == s.Keys
    requires forall j :: j in s && j != k ==> s'[j] == s[j]
    requires s[k].state != Dissolved && s'[k].state != Dissolved && EndsHere(s'[k])
    ensures Sound(members, s') && Evolves(members, s, s')
  {
  }

  lemma MoveKeeps(members: seq<string>, s: Ledger, k: Key, to: State, at: int, note: string)
    requires Sound(members, s)
    ensures match Transited(members, s, k, to, at, note)
            case Ok(s') => Sound(members, s') && Evolves(members, s, s')
            case Err(_) => true
  {
    hide Opposite, LinkNote, Sound, Evolves;
    var r := Transited(members, s, k, to, at, note);
    if r.Ok? {
      assert r.value.Keys == s.Keys;
      if to == Dissolved {
        DissolveKeeps(members, s, r.value, k);
      } else {
        StepKeeps(members, s, r.value, k);
      }
    }
  }

  lemma LookKeeps(members: seq<string>, drifted: string -> bool, a: Audited, fix: bool, k: Key)
    requires Sound(members, a.pairs)
    ensures Sound(members, Looked(members, drifted, a, fix, k).pairs)
    ensures Evolves(members, a.pairs, Looked(members, drifted, a, fix, k).pairs)
  {
    var s, s' := a.pairs, Looked(members, drifted, a, fix, k).pairs;
    if k in s && NeedsMirror(members, s, fix, k) {
      var o := Opposite(members, k).value;
      assert s' == s[o := Mirror(k, s[k])];
      assert Opposite(members, o) == Some(k);
      forall j | j in s && Opposite(members, j) == Some(o) ensures j == k { }
    }
  }

  lemma {:induction false} ScanKeeps(members: seq<string>, drifted: string -> bool, s: Ledger, fix: bool,
                                     order: seq<Key>)
    requires Sound(members, s)
    ensures var s' := Scanned(members, drifted, s, fix, order).pairs;
            Sound(members, s') && Evolves(members, s, s')
  {
    if order != [] {
      var init := order[..|order| - 1];
      ScanKeeps(members, drifted, s, fix, init);
      LookKeeps(members, drifted, Scanned(members, drifted, s, fix, init), fix, order[|order| - 1]);
    }
  }

  lemma {:induction false} DegradeKeeps(members: seq<string>, s: Ledger, entries: seq<Entry>, at: int)
    requires Sound(members, s)
    ensures var s' := Degraded(members, s, entries, at);
            Sound(members, s') && Evolves(members, s, s')
  {
    if entries != [] {
      var init, e := entries[..|entries| - 1], entries[|entries| - 1];
      DegradeKeeps(members, s, init, at);
      MoveKeeps(members, Degraded(members, s, init, at), e.key, Drift, at, DegradeNote(e.alert));
    }
  }

  /**
   Over every run of transitions and audits, with or without repair: pairs dissolve together,
   `dissolved` is never left, repair never brings back the partner of a dissolved record, and every
   non-empty history ends in the current state.
   */
  lemma {:induction false} RunKeepsLedgerSound(members: seq<string>, s: Ledger, ops: seq<Op>)
    requires Sound(members, s)
    ensures Sound(members, Run(members, s, ops))
    ensures Evolves(members, s, Run(members, s, ops))
  {
    if ops != [] {
      var init, op := ops[..|ops| - 1], ops[|ops| - 1];
      RunKeepsLedgerSound(members, s, init);
      var mid := Run(members, s, init);
      match op {
        case Move(k, to, at, note) => MoveKeeps(members, mid, k, to, at, note);
        case Check(drifted, fix, order, at) =>
          ScanKeeps(members, drifted, mid, fix, order);
          var a := Scanned(members, drifted, mid, fix, order);
          DegradeKeeps(members, a.pairs, a.report.entries, at);
      }
    }
  }

  /** The last change logged for `k` names the state `k` really left. */
  predicate LoggedTruly(s: Ledger, s': Ledger, k: Key)
    requires k in s && k in s'
  {
    var h := s'[k].history;
    h != [] && h[|h| - 1].from == s[k].state && h[|h| - 1].to == s'[k].state
  }

  /**
   A transition logs the state that was left for every record it changes, exactly when it does not
   dissolve a standing partner along with the record: the linked entry always reads
   `dissolved -> dissolved`.
   */
  lemma TransitionLogsTrulyUnlessLinked(members: seq<string>, s: Ledger, k: Key, to: State, at: int, note: string)
    requires Transited(members, s, k, to, at, note).Ok?
    ensures var s' := Transited(members, s, k, to, at, note).value;
            (forall j :: j in s && s'[j] != s[j] ==> LoggedTruly(s, s', j)) <==> !Links(members, s, k, to)
  {
    var s' := Transited(members, s, k, to, at, note).value;
    if Links(members, s, k, to) {
      var o := Opposite(members, k).value;
      assert s'[o].state == Dissolved != s[o].state;
      assert !LoggedTruly(s, s', o);
    }
  }
}
