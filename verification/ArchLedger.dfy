/**
 The architecture ledger of scripts/arch_ledger.py: debt and exemption records that are
 overwritten in place, and a hash-chained journal kept as text and read back line by line.
 */
module ArchLedger {
  import opened Base
  import opened Splitting

  // ---------------------------------------------------------------------------------------------
  // Journal lines and their text
  // ---------------------------------------------------------------------------------------------

  type Payload = map<string, string>

  datatype Id = Id(kind: string, key: string)

  const Debt := "arch_debt"
  const Exemption := "arch_exemption"

  datatype Field = Seq | Ts | Op | Type | Key | Body | Other(name: string)

  datatype Json = Number(n: int) | Text(s: string) | Dict(fields: Payload) | Flag(b: bool)

  /** The names that are fields of their own. */
  const Reserved: set<string> := {"seq", "ts", "op", "type", "key", "payload", "entry_digest"}

  /** An object's fields but for its digest, each name once. */
  type Content = m: map<Field, Json> | (forall f :: f in m && f.Other? ==> f.name !in Reserved) witness map[]

  predicate Truthy(v: Json) {
    match v
    case Number(n) => n != 0
    case Text(s) => s != ""
    case Dict(fields) => fields != map[]
    case Flag(b) => b
  }

  /** An object that carries the mark the reader gives to lines it cannot parse. */
  predicate Marked(content: Content) { Other("corrupt") in content && Truthy(content[Other("corrupt")]) }

  /** A line read back: an object, valid JSON that is no object, or no JSON at all. */
  datatype Line = Object(content: Content, digest: Option<string>) | Scalar | Corrupt

  /** JSON rendering and parsing, the blank characters, and the digest function. */
  datatype Codec = Codec(render: Line -> string, parse: string -> Line, blank: char -> bool, hash: string -> string)

  /** The characters `splitlines` cuts at, once reading has turned carriage returns into newlines. */
  const Breaks: set<char> := {'\n', '\U{000B}', '\U{000C}', '\U{001C}', '\U{001D}', '\U{001E}', '\U{0085}', '\U{2028}',
                              '\U{2029}'}

  /** The breaks that rendering leaves as they are: they are not below U+0020. */
  const Unescaped: set<char> := {'\U{0085}', '\U{2028}', '\U{2029}'}

  ghost predicate RendersObject(c: Codec, l: Line) {
    var text := c.render(l);
    && |text| >= 2 && text[0] == '{' && text[|text| - 1] == '}'
    && c.parse(text) == l
    && (forall ch :: ch in text && ch in Breaks ==> ch in Unescaped)
    && (forall k :: 0 < k < |text| ==> c.parse(text[..k]) == Corrupt)
  }

  /** What holds of JSON and of a hexadecimal SHA-256. */
  ghost predicate Lawful(c: Codec) {
    && (forall l: Line :: l.Object? ==> RendersObject(c, l))
    && (forall s :: |c.hash(s)| == 64 && c.hash(s)[0] != '{')
    && !c.blank('{') && !c.blank('}')
  }

  function TrimLeft(blank: char -> bool, s: string): string {
    if s != "" && blank(s[0]) then TrimLeft(blank, s[1..]) else s
  }

  function TrimRight(blank: char -> bool, s: string): string {
    if s != "" && blank(s[|s| - 1]) then TrimRight(blank, s[..|s| - 1]) else s
  }

  function Strip(blank: char -> bool, s: string): string { TrimRight(blank, TrimLeft(blank, s)) }

  function ParseAll(c: Codec, pieces: seq<string>): seq<Line> {
    if pieces == [] then []
    else
      var s := Strip(c.blank, pieces[0]);
      (if s == "" then [] else [c.parse(s)]) + ParseAll(c, pieces[1..])
  }

  /** The journal file read back. */
  function ReadJournal(c: Codec, text: string): seq<Line> { ParseAll(c, Split(text, Breaks)) }

  function Written(c: Codec, l: Line): string { c.render(l) + "\n" }

  /** What a written line is read back as. */
  function Landed(c: Codec, l: Line): seq<Line> { ReadJournal(c, Written(c, l)) }

  /** The rendered line holds a character the reader cuts at. */
  predicate Torn(c: Codec, l: Line) { !Free(c.render(l), Breaks) }

  lemma {:induction false} ParseAllAppend(c: Codec, a: seq<string>, b: seq<string>)
    ensures ParseAll(c, a + b) == ParseAll(c, a) + ParseAll(c, b)
  {
    if a == [] {
      assert a + b == b;
    } else {
      hide Strip;
      ParseAllAppend(c, a[1..], b);
      assert (a + b)[1..] == a[1..] + b && (a + b)[0] == a[0];
    }
  }

  /** Text that starts after a newline is read on its own. */
  lemma ReadAfterNewline(c: Codec, a: string, b: string)
    ensures ReadJournal(c, a + "\n" + b) == ReadJournal(c, a + "\n") + ReadJournal(c, b)
  {
    SplitAppend(a, '\n', b, Breaks);
    ParseAllAppend(c, Split(a + "\n", Breaks), Split(b, Breaks));
  }

  lemma {:induction false} TrimRightKeeps(blank: char -> bool, s: string)
    requires s != "" && !blank(s[0])
    ensures exists k :: 0 < k <= |s| && TrimRight(blank, s) == s[..k]
    ensures !blank(s[|s| - 1]) ==> TrimRight(blank, s) == s
  {
    if blank(s[|s| - 1]) {
      assert |s| > 1;
      TrimRightKeeps(blank, s[..|s| - 1]);
      var k :| 0 < k <= |s| - 1 && TrimRight(blank, s[..|s| - 1]) == s[..|s| - 1][..k];
      assert s[..|s| - 1][..k] == s[..k];
    } else {
      assert s[..|s|] == s;
    }
  }

  /** Reading text that starts with a piece up to a break. */
  lemma ReadPiece(c: Codec, piece: string, cut: char, rest: string)
    requires Free(piece, Breaks) && cut in Breaks && Strip(c.blank, piece) != ""
    ensures ReadJournal(c, piece + [cut] + rest) == [c.parse(Strip(c.blank, piece))] + ReadJournal(c, rest)
  {
    SplitFirst(piece, cut, rest, Breaks);
    hide Strip, Split;
    assert ([piece] + Split(rest, Breaks))[1..] == Split(rest, Breaks);
  }

  lemma LandsWhole(c: Codec, l: Line)
    requires RendersObject(c, l) && !Torn(c, l) && !c.blank('{') && !c.blank('}')
    ensures Landed(c, l) == [l]
  {
    var text := c.render(l);
    TrimRightKeeps(c.blank, text);
    hide TrimRight, TrimLeft, RendersObject, Split;
    assert TrimLeft(c.blank, text) == text by { TrimLeftKeeps(c.blank, text); }
    ReadPiece(c, text, '\n', []);
    assert text + ['\n'] + [] == Written(c, l);
    SplitNothing<char>(Breaks);
  }

  lemma StripsToPrefix(blank: char -> bool, text: string, k: nat) returns (m: nat)
    requires 0 < k <= |text| && !blank(text[0])
    ensures 0 < m <= k && Strip(blank, text[..k]) == text[..m]
  {
    var piece := text[..k];
    TrimRightKeeps(blank, piece);
    m :| 0 < m <= |piece| && TrimRight(blank, piece) == piece[..m];
    assert piece[..m] == text[..m];
    TrimLeftKeeps(blank, piece);
  }

  lemma LandsCorrupt(c: Codec, l: Line)
    requires RendersObject(c, l) && Torn(c, l) && !c.blank('{')
    ensures |Landed(c, l)| > 0 && Landed(c, l)[0] == Corrupt
  {
    hide Strip, Split, FirstCut;
    var text := c.render(l);
    var k := FirstCut(text, Breaks);
    assert k > 0 by { assert text[0] == '{'; }
    var m := StripsToPrefix(c.blank, text, k);
    assert c.parse(text[..m]) == Corrupt && text[..m] != "";
    hide RendersObject;
    var rest := text[k + 1..] + "\n";
    ReadPiece(c, text[..k], text[k], rest);
    assert Written(c, l) == text[..k] + [text[k]] + rest;
  }

  lemma TrimLeftKeeps(blank: char -> bool, s: string)
    requires s != "" && !blank(s[0])
    ensures TrimLeft(blank, s) == s
  {
  }

  /** A line without a break comes back as itself; a torn one comes back starting with a corrupt line. */
  lemma LandsWholeOrCorrupt(c: Codec, l: Line)
    requires Lawful(c) && l.Object?
    ensures Landed(c, l) == [l] <==> !Torn(c, l)
    ensures Torn(c, l) ==> |Landed(c, l)| > 0 && Landed(c, l)[0] == Corrupt
  {
    assert RendersObject(c, l);
    hide RendersObject, Landed;
    if Torn(c, l) { LandsCorrupt(c, l); } else { LandsWhole(c, l); }
  }

  // ---------------------------------------------------------------------------------------------
  // The hash chain
  // ---------------------------------------------------------------------------------------------

  function DigestOf(l: Line): string {
    match l
    case Object(_, Some(d)) => d
    case _ => ""
  }

  predicate Damaged(l: Line) { l.Corrupt? || (l.Object? && Marked(l.content)) }

  /** The digest of the last undamaged object in the journal. */
  function Head(j: seq<Line>): string {
    if j == [] then ""
    else if Damaged(j[|j| - 1]) then Head(j[..|j| - 1])
    else DigestOf(j[|j| - 1])
  }

  function Preimage(c: Codec, prev: string, content: Content): string { prev + c.render(Object(content, None)) }

  function Stamped(c: Codec, prev: string, content: Content): Line {
    Object(content, Some(c.hash(Preimage(c, prev, content))))
  }

  /** The number a value compares equal to: booleans are numbers. */
  function AsNumber(v: Json): Option<int> {
    match v
    case Number(n) => Some(n)
    case Flag(b) => Some(if b then 1 else 0)
    case _ => None
  }

  predicate NumberedAt(content: Content, i: nat) { Seq in content && AsNumber(content[Seq]) == Some(i) }

  predicate LinkHolds(c: Codec, j: seq<Line>, i: nat)
    requires i < |j|
  {
    && j[i].Object? && !Marked(j[i].content)
    && j[i] == Stamped(c, Head(j[..i]), j[i].content) && NumberedAt(j[i].content, i)
  }

  /** Every line is an unmarked object, in its place, whose digest covers it and the digest before it. */
  ghost predicate Accepted(c: Codec, j: seq<Line>) { forall i :: 0 <= i < |j| ==> LinkHolds(c, j, i) }

  predicate HasScalar(j: seq<Line>) { exists i :: 0 <= i < |j| && j[i].Scalar? }

  function NewLine(c: Codec, j: seq<Line>, ts: string, op: string, id: Id, payload: Payload): Line {
    Stamped(c, Head(j), map[Seq := Number(|j|), Ts := Text(ts), Op := Text(op), Type := Text(id.kind),
                            Key := Text(id.key), Body := Dict(payload)])
  }

  /** The journal after an append; one that meets an I/O error (`lost`) or a scalar line gives up silently. */
  function AfterAppend(c: Codec, j: seq<Line>, ts: string, op: string, id: Id, payload: Payload,
                       lost: bool): seq<Line> {
    if lost || HasScalar(j) then j else j + Landed(c, NewLine(c, j, ts, op, id, payload))
  }

  // ---------------------------------------------------------------------------------------------
  // Requests on the ledger
  // ---------------------------------------------------------------------------------------------

  datatype Request =
    | AddDebt(slug: string, location: string, reason: string, due: string, dueIsDate: bool, kind: string, hint: string)
    | ResolveDebt(slug: string)
    | AddExemption(guard: string, path: string, reason: string, reviewDue: string, lines: Option<string>)
    | RemoveExemption(guard: string, path: string)
    | UpdateExemption(guard: string, path: string, fields: Payload)

  datatype Refusal = BadDate | DebtExists | NoSuchDebt | NoSuchExemption

  datatype Change = Change(op: string, id: Id, payload: Payload)

  function ExemptionId(guard: string, path: string): Id { Id(Exemption, guard + ":" + path) }

  /** A stored record that counts as present: an empty one does not. */
  predicate Present(store: map<Id, Payload>, id: Id) { id in store && store[id] != map[] }

  function NewDebt(r: Request, now: string): Payload
    requires r.AddDebt?
  {
    map["kind" := r.kind, "location" := r.location, "reason" := r.reason, "due" := r.due,
        "resolve_hint" := r.hint, "created" := now]["state" := "open"]
  }

  function NewExemption(r: Request, now: string): Payload
    requires r.AddExemption?
  {
    var p := map["guard" := r.guard, "file" := r.path, "reason" := r.reason, "granted" := now,
                 "state" := "active", "review_due" := r.reviewDue];
    if r.lines.Some? then p["lines" := r.lines.value] else p
  }

  /** What a request saves and journals. */
  function Plan(store: map<Id, Payload>, r: Request, now: string): Result<Change, Refusal> {
    match r
    case AddDebt(slug, _, _, _, dueIsDate, _, _) =>
      if !dueIsDate then Err(BadDate)
      else if Present(store, Id(Debt, slug)) then Err(DebtExists)
      else Ok(Change("debt_add", Id(Debt, slug), NewDebt(r, now)))
    case ResolveDebt(slug) =>
      if !Present(store, Id(Debt, slug)) then Err(NoSuchDebt)
      else Ok(Change("debt_resolve", Id(Debt, slug),
                     store[Id(Debt, slug)]["resolved_at" := now]["state" := "resolved"]))
    case AddExemption(guard, path, _, _, _) =>
      Ok(Change("exemption_add", ExemptionId(guard, path), NewExemption(r, now)))
    case RemoveExemption(guard, path) =>
      var id := ExemptionId(guard, path);
      if !Present(store, id) then Err(NoSuchExemption)
      else Ok(Change("exemption_remove", id, store[id]["state" := "removed"]["removed_at" := now]))
    case UpdateExemption(guard, path, fields) =>
      var id := ExemptionId(guard, path);
      if !Present(store, id) then Err(NoSuchExemption)
      else Ok(Change("exemption_update_fields", id, store[id] + fields))
  }

  datatype Ledger = Ledger(store: map<Id, Payload>, journal: seq<Line>)

  const Empty := Ledger(map[], [])

  /** A request at its time; `lost` says that its journal line meets an I/O error. */
  function Perform(c: Codec, l: Ledger, r: Request, now: string, lost: bool): Ledger {
    var plan := Plan(l.store, r, now);
    if plan.Err? then l
    else Ledger(l.store[plan.value.id := plan.value.payload],
                AfterAppend(c, l.journal, now, plan.value.op, plan.value.id, plan.value.payload, lost))
  }

  /** The order of strings, which is the order of dates written year first. */
  predicate Before(a: string, b: string) {
    b != "" && (a == "" || a[0] < b[0] || (a[0] == b[0] && Before(a[1..], b[1..])))
  }

  function FieldOr(rec: Payload, field: string, other: string): string { if field in rec then rec[field] else other }

  /** A debt that is open past its due date. */
  predicate Overdue(rec: Payload, today: string) {
    && "state" in rec && rec["state"] == "open"
    && Before(FieldOr(rec, "due", "9999"), today)
  }

  // ---------------------------------------------------------------------------------------------
  // The program
  // ---------------------------------------------------------------------------------------------

  class ArchLedgerFiles {
    const codec: Codec
    var store: map<Id, Payload>
    var text: string

    constructor (c: Codec)
      ensures codec == c && State() == Empty && Sane()
    {
      codec := c;
      store := map[];
      text := "";
      new;
      SplitNothing<char>(Breaks);
    }

    /** Whatever was written ends in a newline. */
    predicate Sane() reads this { text == "" || text[|text| - 1] == '\n' }

    function State(): Ledger reads this { Ledger(store, ReadJournal(codec, text)) }

    method AppendJournal(op: string, id: Id, payload: Payload, now: string, lost: bool)
      requires Sane()
      modifies this`text
      ensures Sane()
      ensures ReadJournal(codec, text) == AfterAppend(codec, old(State()).journal, now, op, id, payload, lost)
    {
      hide ReadJournal, Landed;
      if lost { return; }
      var entries := ReadJournal(codec, text);
      var head := "";
      for i := 0 to |entries|
        invariant head == Head(entries[..i])
        invariant forall k :: 0 <= k < i ==> !entries[k].Scalar?
      {
        assert entries[..i + 1][..i] == entries[..i];
        if entries[i].Scalar? { return; }
        if !Damaged(entries[i]) { head := DigestOf(entries[i]); }
      }
      assert entries[..|entries|] == entries;
      var line := Stamped(codec, head, map[Seq := Number(|entries|), Ts := Text(now), Op := Text(op),
                                           Type := Text(id.kind), Key := Text(id.key), Body := Dict(payload)]);
      ghost var before := text;
      text := text + Written(codec, line);
      JoinText(codec, before, line);
    }

    method Save(id: Id, payload: Payload)
      modifies this`store
      ensures store == old(store)[id := payload]
    {
      store := store[id := payload];
    }

    method AddDebt(slug: string, location: string, reason: string, due: string, dueIsDate: bool, kind: string,
                   hint: string, now: string, lost: bool)
      returns (refused: Option<Refusal>)
      requires Sane()
      modifies this
      ensures Sane()
      ensures var r := Request.AddDebt(slug, location, reason, due, dueIsDate, kind, hint);
              State() == Perform(codec, old(State()), r, now, lost) && Agrees(refused, Plan(old(store), r, now))
    {
      var id := Id(Debt, slug);
      if !dueIsDate { return Some(BadDate); }
      if Present(store, id) { return Some(DebtExists); }
      var payload := NewDebt(Request.AddDebt(slug, location, reason, due, dueIsDate, kind, hint), now);
      Save(id, payload);
      AppendJournal("debt_add", id, payload, now, lost);
      refused := None;
    }

    method ResolveDebt(slug: string, now: string, lost: bool) returns (refused: Option<Refusal>)
      requires Sane()
      modifies this
      ensures Sane() && State() == Perform(codec, old(State()), Request.ResolveDebt(slug), now, lost)
      ensures Agrees(refused, Plan(old(store), Request.ResolveDebt(slug), now))
    {
      var id := Id(Debt, slug);
      if !Present(store, id) { return Some(NoSuchDebt); }
      var rec := store[id]["resolved_at" := now]["state" := "resolved"];
      Save(id, rec);
      AppendJournal("debt_resolve", id, rec, now, lost);
      refused := None;
    }

    method AddExemption(guard: string, path: string, reason: string, reviewDue: string, lines: Option<string>,
                        now: string, lost: bool)
      returns (refused: Option<Refusal>)
      requires Sane()
      modifies this
      ensures Sane()
      ensures var r := Request.AddExemption(guard, path, reason, reviewDue, lines);
              State() == Perform(codec, old(State()), r, now, lost) && Agrees(refused, Plan(old(store), r, now))
    {
      var id := ExemptionId(guard, path);
      var payload := NewExemption(Request.AddExemption(guard, path, reason, reviewDue, lines), now);
      Save(id, payload);
      AppendJournal("exemption_add", id, payload, now, lost);
      refused := None;
    }

    method RemoveExemption(guard: string, path: string, now: string, lost: bool) returns (refused: Option<Refusal>)
      requires Sane()
      modifies this
      ensures Sane() && State() == Perform(codec, old(State()), Request.RemoveExemption(guard, path), now, lost)
      ensures Agrees(refused, Plan(old(store), Request.RemoveExemption(guard, path), now))
    {
      var id := ExemptionId(guard, path);
      if !Present(store, id) { return Some(NoSuchExemption); }
      var rec := store[id]["state" := "removed"]["removed_at" := now];
      assert Plan(store, Request.RemoveExemption(guard, path), now) == Ok(Change("exemption_remove", id, rec));
      hide ReadJournal, AfterAppend, Plan;
      Save(id, rec);
      AppendJournal("exemption_remove", id, rec, now, lost);
      refused := None;
    }

    method UpdateExemption(guard: string, path: string, fields: Payload, now: string, lost: bool)
      returns (refused: Option<Refusal>)
      requires Sane()
      modifies this
      ensures Sane() && State() == Perform(codec, old(State()), Request.UpdateExemption(guard, path, fields), now, lost)
      ensures Agrees(refused, Plan(old(store), Request.UpdateExemption(guard, path, fields), now))
    {
      var id := ExemptionId(guard, path);
      if !Present(store, id) { return Some(NoSuchExemption); }
      var rec := store[id] + fields;
      assert Plan(store, Request.UpdateExemption(guard, path, fields), now)
             == Ok(Change("exemption_update_fields", id, rec));
      hide ReadJournal, AfterAppend, Plan;
      Save(id, rec);
      AppendJournal("exemption_update_fields", id, rec, now, lost);
      refused := None;
    }

    /** The exit code: 2 without a journal, 0 exactly for an accepted one, an exception only at a scalar line. */
    method VerifyJournal() returns (code: Result<int, ()>)
      ensures var j := ReadJournal(codec, text);
              && (code.Err? <==> HasScalar(j))
              && (code == Ok(2) <==> j == [])
              && (code == Ok(0) <==> j != [] && Accepted(codec, j))
              && (code.Ok? ==> code.value in {0, 1, 2})
    {
      var entries := ReadJournal(codec, text);
      hide ReadJournal;
      if entries == [] { return Ok(2); }
      var prev, ok := "", true;
      for i := 0 to |entries|
        invariant prev == Head(entries[..i])
        invariant forall k :: 0 <= k < i ==> !entries[k].Scalar?
        invariant ok <==> forall k :: 0 <= k < i ==> LinkHolds(codec, entries, k)
      {
        assert entries[..i + 1][..i] == entries[..i];
        var e := entries[i];
        assert LinkHolds(codec, entries, i) ==> e.Object?;
        if e.Scalar? { return Err(()); }
        if Damaged(e) {
          ok := false;
        } else {
          assert LinkHolds(codec, entries, i)
                 <==> e.digest == Some(codec.hash(Preimage(codec, prev, e.content))) && NumberedAt(e.content, i);
          var digest := codec.hash(Preimage(codec, prev, e.content));
          if Some(digest) != e.digest { ok := false; }
          if !NumberedAt(e.content, i) { ok := false; }
          prev := DigestOf(e);
        }
      }
      code := if ok then Ok(0) else Ok(1);
    }

    /** One report line for each overdue debt and no other, in the order the records are listed. */
    method ExpiredDebts(slugs: seq<string>, today: string) returns (out: seq<string>)
      requires forall s :: s in slugs ==> Id(Debt, s) in store
      ensures out == ReportLines(OverdueOf(store, slugs, today), store)
    {
      out := [];
      for i := 0 to |slugs|
        invariant out == ReportLines(OverdueOf(store, slugs[..i], today), store)
      {
        assert slugs[..i + 1][..i] == slugs[..i];
        var rec := store[Id(Debt, slugs[i])];
        if Overdue(rec, today) { out := out + [ReportLine(slugs[i], rec)]; }
      }
      assert slugs[..|slugs|] == slugs;
    }
  }

  function ReportLine(slug: string, rec: Payload): string {
    slug + " (location=" + FieldOr(rec, "location", "None") + " due=" + FieldOr(rec, "due", "9999") + ")"
  }

  function ReportLines(slugs: seq<string>, store: map<Id, Payload>): seq<string>
    requires forall s :: s in slugs ==> Id(Debt, s) in store
  {
    seq(|slugs|, i requires 0 <= i < |slugs| => ReportLine(slugs[i], store[Id(Debt, slugs[i])]))
  }

  /** Exactly the overdue slugs of a listing, in its order. */
  function OverdueOf(store: map<Id, Payload>, slugs: seq<string>, today: string): (r: seq<string>)
    requires forall s :: s in slugs ==> Id(Debt, s) in store
    ensures forall s :: s in r <==> s in slugs && Overdue(store[Id(Debt, s)], today)
  {
    if slugs == [] then []
    else
      var init, last := slugs[..|slugs| - 1], slugs[|slugs| - 1];
      assert slugs == init + [last];
      OverdueOf(store, init, today) + if Overdue(store[Id(Debt, last)], today) then [last] else []
  }

  predicate Agrees(refused: Option<Refusal>, plan: Result<Change, Refusal>) {
    if plan.Ok? then refused == None else refused == Some(plan.error)
  }

  lemma JoinText(c: Codec, before: string, l: Line)
    requires before == "" || before[|before| - 1] == '\n'
    ensures ReadJournal(c, before + Written(c, l)) == ReadJournal(c, before) + Landed(c, l)
  {
    if before == "" {
      assert before + Written(c, l) == Written(c, l);
      SplitNothing<char>(Breaks);
    } else {
      var a := before[..|before| - 1];
      assert before == a + "\n";
      ReadAfterNewline(c, a, Written(c, l));
    }
  }
}
