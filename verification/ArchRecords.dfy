/**
 What each request to the architecture ledger stores and journals, field by field, and which debts are
 overdue, in terms of dates.
 */
module ArchRecords {
  import opened Base
  import opened ArchLedger

  // ---------------------------------------------------------------------------------------------
  // Requests
  // ---------------------------------------------------------------------------------------------

  predicate Stored(store: map<Id, Payload>, kind: string, key: string) {
    Id(kind, key) in store && |store[Id(kind, key)]| > 0
  }

  lemma StoredExactly(store: map<Id, Payload>, kind: string, key: string)
    ensures Present(store, Id(kind, key)) <==> Stored(store, kind, key)
  {
  }

  /** `rec` is `was` with exactly these fields set. */
  predicate Updated(was: Payload, rec: Payload, fields: Payload) {
    && rec.Keys == was.Keys + fields.Keys
    && forall f :: f in rec ==> rec[f] == if f in fields then fields[f] else was[f]
  }

  /** The kind and key a request is about. */
  function About(r: Request): Id {
    match r
    case AddDebt(slug, _, _, _, _, _, _) => Id("arch_debt", slug)
    case ResolveDebt(slug) => Id("arch_debt", slug)
    case AddExemption(guard, path, _, _, _) => Id("arch_exemption", guard + ":" + path)
    case RemoveExemption(guard, path) => Id("arch_exemption", guard + ":" + path)
    case UpdateExemption(guard, path, _) => Id("arch_exemption", guard + ":" + path)
  }

  predicate Grants(store: map<Id, Payload>, r: Request) {
    var known := Stored(store, About(r).kind, About(r).key);
    match r
    case AddDebt(_, _, _, _, dueIsDate, _, _) => dueIsDate && !known
    case AddExemption(_, _, _, _, _) => true
    case _ => known
  }

  /** The name of the journal entry. */
  function Called(r: Request): string {
    match r
    case AddDebt(_, _, _, _, _, _, _) => "debt_add"
    case ResolveDebt(_) => "debt_resolve"
    case AddExemption(_, _, _, _, _) => "exemption_add"
    case RemoveExemption(_, _) => "exemption_remove"
    case UpdateExemption(_, _, _) => "exemption_update_fields"
  }

  /** What the record is afterwards. */
  predicate RecordAfter(store: map<Id, Payload>, r: Request, now: string, rec: Payload) {
    var was := if About(r) in store then store[About(r)] else map[];
    match r
    case AddDebt(_, location, reason, due, _, kind, hint) =>
      && rec.Keys == {"kind", "location", "reason", "due", "resolve_hint", "state", "created"}
      && rec["kind"] == kind && rec["location"] == location && rec["reason"] == reason && rec["due"] == due
      && rec["resolve_hint"] == hint && rec["state"] == "open" && rec["created"] == now
    case ResolveDebt(_) => Updated(was, rec, map["state" := "resolved", "resolved_at" := now])
    case AddExemption(guard, path, reason, reviewDue, lines) =>
      && rec.Keys == {"guard", "file", "reason", "granted", "state", "review_due"}
                     + (if lines.Some? then {"lines"} else {})
      && rec["guard"] == guard && rec["file"] == path && rec["reason"] == reason && rec["granted"] == now
      && rec["state"] == "active" && rec["review_due"] == reviewDue
      && (lines.Some? ==> rec["lines"] == lines.value)
    case RemoveExemption(_, _) => Updated(was, rec, map["state" := "removed", "removed_at" := now])
    case UpdateExemption(_, _, fields) => Updated(was, rec, fields)
  }

  /**
   A granted request sets one record and stamps one line that says which, when, by what request and with
   which content; a request that is not granted changes nothing.
   */
  lemma RequestExactly(c: Codec, l: Ledger, r: Request, now: string, lost: bool)
    ensures var l' := Perform(c, l, r, now, lost);
            && (Plan(l.store, r, now).Ok? <==> Grants(l.store, r))
            && (!Grants(l.store, r) ==> l' == l)
            && (Grants(l.store, r) ==>
                  && About(r) in l'.store && RecordAfter(l.store, r, now, l'.store[About(r)])
                  && l'.store == l.store[About(r) := l'.store[About(r)]]
                  && (lost || HasScalar(l.journal) ==> l'.journal == l.journal)
                  && (!lost && !HasScalar(l.journal) ==>
                        exists line :: Says(line, |l.journal|, now, Called(r), About(r), l'.store[About(r)])
                          && l'.journal == l.journal + Landed(c, line)))
  {
    StoredExactly(l.store, About(r).kind, About(r).key);
    var plan := Plan(l.store, r, now);
    PlanExactly(l.store, r, now);
    hide Plan, RecordAfter, Landed;
    if plan.Ok? && !lost && !HasScalar(l.journal) {
      var line := NewLine(c, l.journal, now, plan.value.op, plan.value.id, plan.value.payload);
      assert Says(line, |l.journal|, now, Called(r), About(r), plan.value.payload);
    }
  }

  /** Why a request is refused. */
  lemma RefusedExactly(store: map<Id, Payload>, r: Request, now: string)
    ensures var known := Stored(store, About(r).kind, About(r).key);
            && (Plan(store, r, now) == Err(BadDate) <==> r.AddDebt? && !r.dueIsDate)
            && (Plan(store, r, now) == Err(DebtExists) <==> r.AddDebt? && r.dueIsDate && known)
            && (Plan(store, r, now) == Err(NoSuchDebt) <==> r.ResolveDebt? && !known)
            && (Plan(store, r, now) == Err(NoSuchExemption) <==> (r.RemoveExemption? || r.UpdateExemption?) && !known)
  {
    StoredExactly(store, About(r).kind, About(r).key);
  }

  lemma PlanExactly(store: map<Id, Payload>, r: Request, now: string)
    ensures var plan := Plan(store, r, now);
            && (plan.Ok? <==> Grants(store, r))
            && (plan.Ok? ==>
                  plan.value.op == Called(r) && plan.value.id == About(r)
                  && RecordAfter(store, r, now, plan.value.payload))
  {
    StoredExactly(store, About(r).kind, About(r).key);
  }

  /** A journal line with these contents and no others. */
  ghost predicate Says(line: Line, number: nat, now: string, called: string, about: Id, rec: Payload) {
    && line.Object? && line.digest.Some?
    && line.content == map[Seq := Number(number), Ts := Text(now), Op := Text(called), Type := Text(about.kind),
                           Key := Text(about.key), Body := Dict(rec)]
  }

  // ---------------------------------------------------------------------------------------------
  // Dates
  // ---------------------------------------------------------------------------------------------

  datatype Date = Date(year: nat, month: nat, day: nat)

  predicate Proper(d: Date) { d.year < 10000 && d.month < 100 && d.day < 100 }

  predicate Earlier(a: Date, b: Date) {
    a.year < b.year || (a.year == b.year && (a.month < b.month || (a.month == b.month && a.day < b.day)))
  }

  function Digit(n: nat): char
    requires n < 10
  {
    "0123456789"[n]
  }

  function TwoDigits(n: nat): string
    requires n < 100
  {
    [Digit(n / 10), Digit(n % 10)]
  }

  function FourDigits(n: nat): string
    requires n < 10000
  {
    TwoDigits(n / 100) + TwoDigits(n % 100)
  }

  /** Year, month and day between hyphens. */
  function Hyphened(d: Date): string
    requires Proper(d)
  {
    FourDigits(d.year) + ("-" + (TwoDigits(d.month) + ("-" + TwoDigits(d.day))))
  }

  /** The same digits without hyphens, which also reads as a date. */
  function Compact(d: Date): string
    requires Proper(d)
  {
    FourDigits(d.year) + (TwoDigits(d.month) + TwoDigits(d.day))
  }

  lemma {:induction false} BeforeJoined(a: string, b: string, x: string, y: string)
    requires |a| == |b|
    ensures Before(a + x, b + y) <==> Before(a, b) || (a == b && Before(x, y))
  {
    if a == "" {
      assert a + x == x && b + y == y;
    } else {
      assert (a + x)[1..] == a[1..] + x && (b + y)[1..] == b[1..] + y;
      BeforeJoined(a[1..], b[1..], x, y);
      assert a == b <==> a[0] == b[0] && a[1..] == b[1..] by { assert a == [a[0]] + a[1..] && b == [b[0]] + b[1..]; }
    }
  }

  lemma TwoDigitsOrder(m: nat, n: nat)
    requires m < 100 && n < 100
    ensures Before(TwoDigits(m), TwoDigits(n)) <==> m < n
    ensures TwoDigits(m) == TwoDigits(n) <==> m == n
  {
    var a, b := TwoDigits(m), TwoDigits(n);
    DigitOrder(m / 10, n / 10);
    DigitOrder(m % 10, n % 10);
    assert a[0] == Digit(m / 10) && a[1] == Digit(m % 10) && b[0] == Digit(n / 10) && b[1] == Digit(n % 10);
    hide Digit;
    assert a[1..] == [a[1]] && b[1..] == [b[1]] && a[1..][1..] == [] && b[1..][1..] == [];
    assert Before(a[1..], b[1..]) <==> a[1] < b[1];
  }

  lemma DigitOrder(m: nat, n: nat)
    requires m < 10 && n < 10
    ensures Digit(m) < Digit(n) <==> m < n
    ensures Digit(m) == Digit(n) <==> m == n
    ensures Digit(m) > '-'
  {
  }

  lemma FourDigitsOrder(m: nat, n: nat)
    requires m < 10000 && n < 10000
    ensures Before(FourDigits(m), FourDigits(n)) <==> m < n
    ensures FourDigits(m) == FourDigits(n) <==> m == n
  {
    hide TwoDigits, Before;
    TwoDigitsOrder(m / 100, n / 100);
    TwoDigitsOrder(m % 100, n % 100);
    Joined(m / 100, n / 100, TwoDigits(m % 100), TwoDigits(n % 100));
  }

  /** Two texts that start with two digits each. */
  lemma Joined(m: nat, n: nat, x: string, y: string)
    requires m < 100 && n < 100
    ensures Before(TwoDigits(m) + x, TwoDigits(n) + y) <==> m < n || (m == n && Before(x, y))
    ensures TwoDigits(m) + x == TwoDigits(n) + y <==> m == n && x == y
  {
    TwoDigitsOrder(m, n);
    BeforeJoined(TwoDigits(m), TwoDigits(n), x, y);
    assert |TwoDigits(m)| == |TwoDigits(n)| == 2;
    assert x == (TwoDigits(m) + x)[2..] && y == (TwoDigits(n) + y)[2..];
    assert TwoDigits(m) == (TwoDigits(m) + x)[..2] && TwoDigits(n) == (TwoDigits(n) + y)[..2];
  }

  lemma HyphensKeepOrder(x: string, y: string)
    ensures Before("-" + x, "-" + y) <==> Before(x, y)
  {
    BeforeJoined("-", "-", x, y);
    assert !Before("-", "-") by { assert "-"[1..] == ""; }
  }

  /** Dates between hyphens compare as texts as they do as dates. */
  lemma HyphenedInOrder(a: Date, b: Date)
    requires Proper(a) && Proper(b)
    ensures Before(Hyphened(a), Hyphened(b)) <==> Earlier(a, b)
  {
    hide TwoDigits, FourDigits, Before;
    FourDigitsOrder(a.year, b.year);
    var x, y := TwoDigits(a.month) + ("-" + TwoDigits(a.day)), TwoDigits(b.month) + ("-" + TwoDigits(b.day));
    assert |FourDigits(a.year)| == |FourDigits(b.year)| by { FourLong(a.year); FourLong(b.year); }
    BeforeJoined(FourDigits(a.year), FourDigits(b.year), "-" + x, "-" + y);
    HyphensKeepOrder(x, y);
    Joined(a.month, b.month, "-" + TwoDigits(a.day), "-" + TwoDigits(b.day));
    HyphensKeepOrder(TwoDigits(a.day), TwoDigits(b.day));
    TwoDigitsOrder(a.day, b.day);
  }

  lemma FourLong(n: nat)
    requires n < 10000
    ensures |FourDigits(n)| == 4
  {
  }

  /** A debt is overdue exactly when it is open and its date is earlier than today. */
  lemma OverdueByDate(rec: Payload, due: Date, today: Date)
    requires Proper(due) && Proper(today) && "due" in rec && rec["due"] == Hyphened(due)
    ensures Overdue(rec, Hyphened(today)) <==> "state" in rec && rec["state"] == "open" && Earlier(due, today)
  {
    HyphenedInOrder(due, today);
  }

  /** Without a date it is not before the year 9999. */
  lemma OverdueWithoutDate(rec: Payload, today: Date)
    requires Proper(today) && "due" !in rec
    ensures Overdue(rec, Hyphened(today)) <==> "state" in rec && rec["state"] == "open" && today.year == 9999
  {
    var far := "9999";
    assert far == FourDigits(9999) by { assert FourDigits(9999)[..] == ['9', '9', '9', '9']; }
    FourDigitsOrder(9999, today.year);
    FourLong(today.year);
    hide FourDigits, Before;
    BeforeJoined(far, FourDigits(today.year), "", "-" + (TwoDigits(today.month) + ("-" + TwoDigits(today.day))));
    assert far + "" == far && Before("", "-" + (TwoDigits(today.month) + ("-" + TwoDigits(today.day)))) by {
      BeforeAnything("-" + (TwoDigits(today.month) + ("-" + TwoDigits(today.day))));
    }
  }

  lemma BeforeAnything(s: string)
    ensures Before("", s) <==> s != ""
  {
  }

  /**
   A date without hyphens, where it is accepted as a date at all, is compared as a text too: it is overdue
   only from the next year on, because at the fifth character a digit stands against a hyphen.
   */
  lemma CompactIsLate(rec: Payload, due: Date, today: Date)
    requires Proper(due) && Proper(today) && "due" in rec && rec["due"] == Compact(due)
    ensures Overdue(rec, Hyphened(today)) <==> "state" in rec && rec["state"] == "open" && due.year < today.year
  {
    FourDigitsOrder(due.year, today.year);
    FourLong(due.year);
    FourLong(today.year);
    var x := TwoDigits(due.month) + TwoDigits(due.day);
    var y := "-" + (TwoDigits(today.month) + ("-" + TwoDigits(today.day)));
    DigitOrder(due.month / 10, 0);
    assert x[0] > '-' && y[0] == '-';
    assert !Before(x, y);
    hide FourDigits, TwoDigits, Before;
    BeforeJoined(FourDigits(due.year), FourDigits(today.year), x, y);
  }
}
