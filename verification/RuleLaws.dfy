/**
 What the two writers keep between them: one record per rule text, whose evidence is exactly the
 set of traces offered for it, promoted exactly at the third.
 */
module RuleLaws {
  import opened Base
  import opened RecordStore
  import opened RecordLaws
  import opened RuleStore

  /** `offered` only records history: the traces offered so far for each rule text. */
  datatype World = World(store: Store, offered: map<string, set<Id>>)

  datatype Op =
    | Learn(e: Entry, trace: Id, distilled: bool, id: Id, member: string, now: int)
    | Ask(call: Call)

  function LimitOf(op: Op): nat
    requires op.Learn?
  {
    if op.distilled then DistillLimit else ExtractLimit
  }

  predicate RuleLifecycle(reg: Registry, t: Tables) {
    && "coding_rule" in reg && reg["coding_rule"].initial == "hypothesized"
    && Target(reg, "coding_rule", "hypothesized", "evidence_sufficient") == Some("validated")
  }

  function Texts(t: Tables): set<string> {
    (set e | e in t.errors :: e.rule) + (set e | e in t.code :: e.rule)
      + (set l, e | l in t.byLanguage && e in t.byLanguage[l] :: e.rule)
  }

  ghost predicate ErrorsLead(t: Tables, trace: Data, e: Entry) {
    exists lower :: ErrorLesson(t, lower, trace) == Some(e)
  }

  ghost predicate CodeLeads(t: Tables, trace: Data, e: Entry) {
    exists matches :: CodeLesson(t, matches, trace) == Some(e)
  }

  /** A lesson comes from the tables, its record can be created, and nobody else touches rules. */
  ghost predicate Enabled(reg: Registry, t: Tables, w: World, op: Op) {
    var rows := w.store.rows;
    match op
    case Learn(e, trace, distilled, id, _, _) =>
      && Position(rows, trace).Some? && Position(rows, id).None?
      && (if distilled then CodeLeads(t, rows[Position(rows, trace).value].rec.data, e)
          else ErrorsLead(t, rows[Position(rows, trace).value].rec.data, e))
      && "coding_rule" in reg && reg["coding_rule"].accepts(NewRule(e, trace, distilled))
    case Ask(call) =>
      match call.request
      case Create(kind, _, _, _, _) => kind != "coding_rule"
      case Transition(id, _, _) => Position(rows, id).None? || rows[Position(rows, id).value].rec.kind != "coding_rule"
      case _ => true
  }

  function Offered(w: World, op: Op): map<string, set<Id>> {
    match op
    case Learn(e, trace, _, _, _, _) =>
      w.offered[e.rule := (if e.rule in w.offered then w.offered[e.rule] else {}) + {trace}]
    case Ask(_) => w.offered
  }

  function Step(reg: Registry, w: World, op: Op): World {
    match op
    case Learn(e, trace, distilled, id, member, now) =>
      World(Learned(reg, w.store, e, trace, LimitOf(op), distilled, id, member, now), Offered(w, op))
    case Ask(call) => World(After(reg, w.store, call), w.offered)
  }

  function Run(reg: Registry, w: World, ops: seq<Op>): World {
    if ops == [] then w else Step(reg, Run(reg, w, ops[..|ops| - 1]), ops[|ops| - 1])
  }

  ghost predicate Legal(reg: Registry, t: Tables, w: World, ops: seq<Op>) {
    forall k :: 0 <= k < |ops| ==> Enabled(reg, t, Run(reg, w, ops[..k]), ops[k])
  }

  const Start := World(Blank, map[])

  function ToSet(s: seq<string>): set<string> { set x | x in s }

  /** The record of a rule says what was offered for it, and is validated exactly from the third trace on. */
  ghost predicate Sound(offered: map<string, set<Id>>, rec: Record) {
    rec.kind == "coding_rule" ==>
      && "rule" in rec.data && rec.data["rule"].Str? && RuleText(rec) in offered
      && NoDuplicates(Evidence(rec)) && ToSet(Evidence(rec)) == offered[RuleText(rec)]
      && (rec.state == "hypothesized" || rec.state == "validated")
      && (rec.state == "validated" <==> |Evidence(rec)| >= Enough)
  }

  predicate HasRecord(rows: seq<Row>, rule: string) {
    exists i :: 0 <= i < |rows| && IsRule(rows[i]) && RuleText(rows[i].rec) == rule
  }

  predicate OnePerText(rows: seq<Row>) {
    forall i, j :: 0 <= i < j < |rows| && IsRule(rows[i]) && IsRule(rows[j]) ==>
        RuleText(rows[i].rec) != RuleText(rows[j].rec)
  }

  ghost predicate AllSound(w: World) { forall i :: 0 <= i < |w.store.rows| ==> Sound(w.offered, w.store.rows[i].rec) }

  ghost predicate AllOnRecord(w: World) { forall rule :: rule in w.offered ==> HasRecord(w.store.rows, rule) }

  ghost predicate Inv(t: Tables, w: World) {
    && RowsInOrder(w.store.rows) && IdsDistinct(w.store.rows) && OnePerText(w.store.rows)
    && AllSound(w) && AllOnRecord(w) && w.offered.Keys <= Texts(t)
  }

  // ---------------------------------------------------------------------------------------------
  // The duplicate look-up never misses
  // ---------------------------------------------------------------------------------------------

  lemma {:induction false} DistinctFit(xs: seq<string>, s: set<string>)
    requires NoDuplicates(xs) && forall x :: x in xs ==> x in s
    ensures |xs| <= |s|
  {
    if xs != [] {
      var last := xs[|xs| - 1];
      var init := xs[..|xs| - 1];
      forall x | x in init ensures x in s - {last} {}
      DistinctFit(init, s - {last});
    }
  }

  /** The rule texts of the listing, in its order: no text twice. */
  lemma {:induction false} ListedTexts(rows: seq<Row>, s: set<string>) returns (texts: seq<string>)
    requires OnePerText(rows) && forall i :: 0 <= i < |rows| && IsRule(rows[i]) ==> RuleText(rows[i].rec) in s
    ensures |texts| == |Below(rows, Rules, None)| && NoDuplicates(texts)
    ensures forall x :: x in texts ==> x in s && HasRecord(rows, x)
  {
    if rows == [] {
      texts := [];
    } else {
      var init, last := rows[..|rows| - 1], rows[|rows| - 1];
      var rest := ListedTexts(init, s);
      forall x | x in rest ensures HasRecord(rows, x) && (IsRule(last) ==> x != RuleText(last.rec)) {
        var i :| 0 <= i < |init| && IsRule(init[i]) && RuleText(init[i].rec) == x;
        assert rows[i] == init[i];
      }
      texts := if IsRule(last) then [RuleText(last.rec)] + rest else rest;
    }
  }

  lemma FindRuleFinds(items: seq<Row>, rule: string)
    ensures var r := FindRule(items, rule);
            if r.Some? then r.value in items && SameRule(r.value, rule) else forall row :: row in items ==>
                !SameRule(row, rule)
  {
  }

  /** With at most that many rule texts, a page of all rules holds every rule. */
  lemma PageHoldsAllRules(t: Tables, w: World, limit: nat)
    requires AllSound(w) && OnePerText(w.store.rows) && w.offered.Keys <= Texts(t) && RowsInOrder(w.store.rows)
    requires |Texts(t)| <= limit
    ensures forall row :: row in PageOf(w.store.rows, Rules, None, limit).items <==> row in w.store.rows && IsRule(row)
  {
    var rows := w.store.rows;
    forall i | 0 <= i < |rows| && IsRule(rows[i]) ensures RuleText(rows[i].rec) in Texts(t) {
      assert Sound(w.offered, rows[i].rec);
    }
    var texts := ListedTexts(rows, Texts(t));
    DistinctFit(texts, Texts(t));
    BelowListsExactly(rows, Rules, None);
  }

  lemma LookupIn(w: World, items: seq<Row>, rule: string)
    requires AllSound(w) && AllOnRecord(w) && forall row :: row in items <==> row in w.store.rows && IsRule(row)
    ensures var r := FindRule(items, rule);
            && (r.None? <==> rule !in w.offered)
            && (r.Some? ==> r.value in w.store.rows && IsRule(r.value) && RuleText(r.value.rec) == rule)
  {
    var rows := w.store.rows;
    FindRuleFinds(items, rule);
    hide FindRule, AllOnRecord, AllSound, SameRule, Sound, IsRule, RuleText, HasRecord;
    if rule in w.offered {
      OnRecord(w, rule);
      var i := RecordOf(rows, rule);
      SoundAt(w, i);
      assert rows[i] in items;
    }
    var r := FindRule(items, rule);
    if r.Some? {
      var p :| 0 <= p < |rows| && rows[p] == r.value;
      SoundAt(w, p);
    }
  }

  lemma RecordOf(rows: seq<Row>, rule: string) returns (i: nat)
    requires HasRecord(rows, rule)
    ensures i < |rows| && IsRule(rows[i]) && RuleText(rows[i].rec) == rule
  {
    i :| 0 <= i < |rows| && IsRule(rows[i]) && RuleText(rows[i].rec) == rule;
  }

  /** With at most 500 rule texts, neither limit ever hides the record of a rule. */
  lemma LookupIsExact(t: Tables, w: World, rule: string, limit: nat)
    requires Inv(t, w) && |Texts(t)| <= limit
    ensures var r := FindRule(PageOf(w.store.rows, Rules, None, limit).items, rule);
            && (r.None? <==> rule !in w.offered)
            && (r.Some? ==> r.value in w.store.rows && IsRule(r.value) && RuleText(r.value.rec) == rule)
  {
    PageHoldsAllRules(t, w, limit);
    LookupIn(w, PageOf(w.store.rows, Rules, None, limit).items, rule);
  }

  lemma OnRecord(w: World, rule: string)
    requires AllOnRecord(w) && rule in w.offered
    ensures HasRecord(w.store.rows, rule)
  {
  }

  lemma SoundAt(w: World, i: nat)
    requires AllSound(w) && i < |w.store.rows|
    ensures Sound(w.offered, w.store.rows[i].rec)
    ensures IsRule(w.store.rows[i]) ==>
              SameRule(w.store.rows[i], RuleText(w.store.rows[i].rec)) && RuleText(w.store.rows[i].rec) in w.offered
    ensures forall rule :: SameRule(w.store.rows[i], rule) ==> rule == RuleText(w.store.rows[i].rec)
  {
  }

  // ---------------------------------------------------------------------------------------------
  // One lesson
  // ---------------------------------------------------------------------------------------------

  /** `rows'` holds the rules of `rows` at the same places. */
  predicate SameRules(rows: seq<Row>, rows': seq<Row>) {
    |rows| <= |rows'| &&
    forall i :: 0 <= i < |rows| ==>
        IsRule(rows'[i]) == IsRule(rows[i]) && RuleText(rows'[i].rec) == RuleText(rows[i].rec)
  }

  lemma StillOnRecord(rows: seq<Row>, rows': seq<Row>, rule: string)
    requires SameRules(rows, rows') && HasRecord(rows, rule)
    ensures HasRecord(rows', rule)
  {
    var i :| 0 <= i < |rows| && IsRule(rows[i]) && RuleText(rows[i].rec) == rule;
    assert IsRule(rows'[i]) && RuleText(rows'[i].rec) == rule;
  }

  lemma AllStillOnRecord(w: World, w': World)
    requires AllOnRecord(w) && SameRules(w.store.rows, w'.store.rows)
    requires forall rule :: rule in w'.offered ==> rule in w.offered || HasRecord(w'.store.rows, rule)
    ensures AllOnRecord(w')
  {
    hide HasRecord, SameRules;
    forall rule | rule in w'.offered ensures HasRecord(w'.store.rows, rule) {
      if rule in w.offered { StillOnRecord(w.store.rows, w'.store.rows, rule); }
    }
  }

  /** Rows other than `p` keep their rules while `p`'s own rule gets new traces. */
  lemma AllStillSound(w: World, w': World, p: nat, rule: string)
    requires AllSound(w) && OnePerText(w.store.rows) && p < |w'.store.rows|
    requires |w.store.rows| <= |w'.store.rows| <= |w.store.rows| + 1
    requires forall i :: 0 <= i < |w'.store.rows| && i != p ==>
               i < |w.store.rows| && w'.store.rows[i] == w.store.rows[i]
    requires forall i :: 0 <= i < |w.store.rows| && i != p && IsRule(w.store.rows[i]) ==>
               RuleText(w.store.rows[i].rec) != rule
    requires rule in w'.offered && w'.offered == w.offered[rule := w'.offered[rule]]
    requires Sound(w'.offered, w'.store.rows[p].rec)
    ensures AllSound(w')
  {
    hide RuleText, Sound, OnePerText;
    forall i | 0 <= i < |w'.store.rows| ensures Sound(w'.offered, w'.store.rows[i].rec) {
      if i != p {
        var row := w'.store.rows[i];
        assert row == w.store.rows[i] && Sound(w.offered, w.store.rows[i].rec);
        OthersStaySound(w.offered, rule, w'.offered[rule], w.store.rows[i].rec);
      }
    }
  }

  lemma StillOnePerText(rows: seq<Row>, rows': seq<Row>)
    requires SameRules(rows, rows') && OnePerText(rows)
    requires |rows'| == |rows|
             || (|rows'| == |rows| + 1 && (IsRule(rows'[|rows|]) ==> !HasRecord(rows, RuleText(rows'[|rows|].rec))))
    ensures OnePerText(rows')
  {
    forall i, j | 0 <= i < j < |rows'| && IsRule(rows'[i]) && IsRule(rows'[j])
      ensures RuleText(rows'[i].rec) != RuleText(rows'[j].rec)
    {
      assert IsRule(rows[i]) && RuleText(rows[i].rec) == RuleText(rows'[i].rec);
      assert j < |rows| ==> IsRule(rows[j]) && RuleText(rows[j].rec) == RuleText(rows'[j].rec);
    }
  }

  lemma OthersStaySound(offered: map<string, set<Id>>, rule: string, traces: set<Id>, rec: Record)
    requires Sound(offered, rec) && (rec.kind == "coding_rule" ==> RuleText(rec) != rule)
    ensures Sound(offered[rule := traces], rec)
  {
  }

  lemma MergedIsSound(offered: map<string, set<Id>>, was: Record, rec: Record, e: Entry, trace: Id)
    requires Sound(offered, was) && was.kind == rec.kind == "coding_rule" && RuleText(was) == e.rule
    requires "rule" in rec.data && rec.data["rule"] == Str(e.rule)
    requires Evidence(rec) == if trace in Evidence(was) then Evidence(was) else Evidence(was) + [trace]
    requires rec.state == if |Evidence(rec)| >= Enough then "validated" else "hypothesized"
    ensures Sound(offered[e.rule := offered[e.rule] + {trace}], rec)
  {
    assert ToSet(Evidence(rec)) == ToSet(Evidence(was)) + {trace};
  }

  /** Rows other than `p` are untouched, and row `p` is the record of `e.rule` with one trace more. */
  lemma KeepsOnMerge(t: Tables, w: World, s: Store, e: Entry, trace: Id, p: nat, rec: Record)
    requires Inv(t, w) && p < |w.store.rows| && IsRule(w.store.rows[p]) && RuleText(w.store.rows[p].rec) == e.rule
    requires e.rule in w.offered
    requires s.rows == Changed(w.store.rows, p, rec) && rec.id == w.store.rows[p].rec.id && rec.kind == "coding_rule"
    requires "rule" in rec.data && rec.data["rule"] == Str(e.rule)
    requires var before := Evidence(w.store.rows[p].rec); Evidence(rec) == if trace in before then before
             else before + [trace]
    requires rec.state == if |Evidence(rec)| >= Enough then "validated" else "hypothesized"
    ensures Inv(t, World(s, w.offered[e.rule := w.offered[e.rule] + {trace}]))
  {
    var w' := World(s, w.offered[e.rule := w.offered[e.rule] + {trace}]);
    MergeKeepsRules(t, w, s, e, p, rec);
    SoundAt(w, p);
    MergedIsSound(w.offered, w.store.rows[p].rec, rec, e, trace);
    hide Evidence, RuleText, Sound, HasRecord, RowsInOrder, IdsDistinct, OnePerText, SameRules, Texts, AllSound,
         AllOnRecord;
    AllStillSound(w, w', p, e.rule);
    AllStillOnRecord(w, w');
    assert Inv(t, w');
  }

  lemma MergeKeepsRules(t: Tables, w: World, s: Store, e: Entry, p: nat, rec: Record)
    requires Inv(t, w) && p < |w.store.rows| && IsRule(w.store.rows[p]) && RuleText(w.store.rows[p].rec) == e.rule
    requires s.rows == Changed(w.store.rows, p, rec) && rec.id == w.store.rows[p].rec.id && rec.kind == "coding_rule"
    requires "rule" in rec.data && rec.data["rule"] == Str(e.rule)
    ensures RowsInOrder(s.rows) && IdsDistinct(s.rows) && OnePerText(s.rows) && SameRules(w.store.rows, s.rows)
    ensures forall i :: 0 <= i < |w.store.rows| && i != p && IsRule(w.store.rows[i]) ==> OtherRule(w.store.rows[i], e)
  {
    var rows := w.store.rows;
    ChangedKeepsShape(rows, p, rec);
    assert RuleText(rec) == e.rule;
    assert SameRules(rows, s.rows);
    StillOnePerText(rows, s.rows);
  }

  predicate OtherRule(row: Row, e: Entry) { RuleText(row.rec) != e.rule }

  lemma NewIsSound(offered: map<string, set<Id>>, rec: Record, e: Entry, trace: Id)
    requires rec.kind == "coding_rule" && rec.state == "hypothesized"
    requires (rec.data == NewRule(e, trace, true) || rec.data == NewRule(e, trace, false))
    ensures Sound(offered[e.rule := {trace}], rec) && RuleText(rec) == e.rule
  {
    assert Evidence(rec) == [trace];
  }

  lemma KeepsOnNewRule(t: Tables, w: World, s: Store, e: Entry, trace: Id, rec: Record)
    requires Inv(t, w) && e.rule !in w.offered && e.rule in Texts(t) && Position(w.store.rows, rec.id).None?
    requires s.rows == w.store.rows + [Row(NextRowid(w.store.rows), rec)]
    requires rec.kind == "coding_rule" && rec.state == "hypothesized"
    requires (rec.data == NewRule(e, trace, true) || rec.data == NewRule(e, trace, false))
    ensures Inv(t, World(s, w.offered[e.rule := {trace}]))
  {
    var rows := w.store.rows;
    var w' := World(s, w.offered[e.rule := {trace}]);
    AppendKeepsRows(rows, rec);
    NewIsSound(w.offered, rec, e, trace);
    forall i | 0 <= i < |rows| && IsRule(rows[i]) ensures RuleText(rows[i].rec) != e.rule { SoundAt(w, i); }
    assert SameRules(rows, s.rows);
    StillOnePerText(rows, s.rows);
    assert IsRule(s.rows[|rows|]) && HasRecord(s.rows, e.rule);
    hide Evidence, RuleText, Sound, HasRecord, RowsInOrder, IdsDistinct, OnePerText, SameRules, Texts, NewRule,
         AllSound, AllOnRecord;
    AllStillSound(w, w', |rows|, e.rule);
    AllStillOnRecord(w, w');
    assert Inv(t, w');
  }

  predicate IsMerged(rec: Record, r: Record, trace: Id, distilled: bool) {
    && r.id == rec.id && r.kind == rec.kind && r.data == WithEvidence(rec.data, Evidence(rec) + [trace], distilled)
    && r.state == if |Evidence(rec)| + 1 >= Enough && rec.state == "hypothesized" then "validated" else rec.state
  }

  /** What a merged record looks like. */
  lemma MergedRow(reg: Registry, t: Tables, s: Store, p: nat, trace: Id, distilled: bool, member: string,
                  now: int)
    returns (r: Record)
    requires IdsDistinct(s.rows) && RowsInOrder(s.rows) && RuleLifecycle(reg, t) && p < |s.rows| && IsRule(s.rows[p])
    ensures IsMerged(s.rows[p].rec, r, trace, distilled)
    ensures var rec := s.rows[p].rec;
            var s' := Promoted(reg, Rewritten(s, rec, Evidence(rec) + [trace], distilled), rec, |Evidence(rec)| + 1,
                               member, now);
            s'.rows == Changed(s.rows, p, r)
  {
    var rec := s.rows[p].rec;
    var evidence := Evidence(rec) + [trace];
    PositionIsP(s.rows, p);
    var r1 := rec.(data := WithEvidence(rec.data, evidence, distilled));
    ChangedKeepsShape(s.rows, p, r1);
    var s1 := Rewritten(s, rec, evidence, distilled);
    assert s1.rows == Changed(s.rows, p, r1);
    PositionIsP(s1.rows, p);
    hide IdsDistinct, RowsInOrder, WithEvidence, Position;
    var s2 := Promoted(reg, s1, rec, |evidence|, member, now);
    r := s2.rows[p].rec;
    assert s2.rows == Changed(s.rows, p, r);
  }

  lemma PositionIsP(rows: seq<Row>, i: nat)
    requires IdsDistinct(rows) && i < |rows|
    ensures Position(rows, rows[i].rec.id) == Some(i)
  {
  }

  lemma {:induction false} HitIsEntry(entries: seq<Entry>, hits: string -> bool)
    ensures FirstHit(entries, hits).Some? ==> FirstHit(entries, hits).value in entries
  {
    if entries != [] { HitIsEntry(entries[1..], hits); }
  }

  lemma LessonIsInTables(reg: Registry, t: Tables, w: World, op: Op)
    requires op.Learn? && Enabled(reg, t, w, op)
    ensures op.e.rule in Texts(t)
  {
    var data := w.store.rows[Position(w.store.rows, op.trace).value].rec.data;
    if op.distilled {
      var matches :| CodeLesson(t, matches, data) == Some(op.e);
      var code, language := Text(data, "generated_code"), Text(data, "language");
      HitIsEntry(t.code, pattern => matches(pattern, code));
      HitIsEntry(LanguageEntries(t, language), pattern => matches(pattern, code));
      assert op.e in t.code || (language in t.byLanguage && op.e in t.byLanguage[language]);
    } else {
      var lower :| ErrorLesson(t, lower, data) == Some(op.e);
      HitIsEntry(t.errors, pattern => Occurs(pattern, lower(Text(data, "stderr_snippet"))));
    }
  }

  lemma MergedData(rec: Record, r: Record, e: Entry, trace: Id, distilled: bool, offered: map<string, set<Id>>)
    requires IsMerged(rec, r, trace, distilled) && rec.kind == "coding_rule" && RuleText(rec) == e.rule
    requires Sound(offered, rec)
    ensures Evidence(r) == Evidence(rec) + [trace] && "rule" in r.data && r.data["rule"] == Str(e.rule)
    ensures r.state == if |Evidence(r)| >= Enough then "validated" else "hypothesized"
  {
    assert r.data["rule"] == rec.data["rule"];
  }

  lemma LearnsNew(reg: Registry, t: Tables, w: World, op: Op)
    requires Inv(t, w) && RuleLifecycle(reg, t) && op.Learn? && Enabled(reg, t, w, op) && op.e.rule in Texts(t)
    requires op.e.rule !in w.offered
    requires FindRule(PageOf(w.store.rows, Rules, None, LimitOf(op)).items, op.e.rule).None?
    ensures Inv(t, Step(reg, w, op))
  {
    var rows := w.store.rows;
    var w' := Step(reg, w, op);
    var rec := w'.store.rows[|rows|].rec;
    assert w'.store.rows == rows + [Row(NextRowid(rows), rec)] && rec.id == op.id;
    assert {} + {op.trace} == {op.trace};
    assert w' == World(w'.store, w.offered[op.e.rule := {op.trace}]);
    assert rec.kind == "coding_rule" && rec.state == "hypothesized"
           && rec.data == NewRule(op.e, op.trace, op.distilled);
    hide Inv, Step, Learned, Enabled, PageOf, FindRule;
    KeepsOnNewRule(t, w, w'.store, op.e, op.trace, rec);
  }

  lemma MergeStep(reg: Registry, w: World, op: Op, p: nat)
    requires op.Learn? && p < |w.store.rows| && op.e.rule in w.offered
    requires FindRule(PageOf(w.store.rows, Rules, None, LimitOf(op)).items, op.e.rule) == Some(w.store.rows[p])
    ensures var rec, w' := w.store.rows[p].rec, Step(reg, w, op);
            && w'.offered == w.offered[op.e.rule := w.offered[op.e.rule] + {op.trace}]
            && w'.store == if op.trace in Evidence(rec) then w.store
                           else Promoted(reg, Rewritten(w.store, rec, Evidence(rec) + [op.trace], op.distilled), rec,
                                         |Evidence(rec)| + 1, op.member, op.now)
  {
  }

  lemma LearnsMore(reg: Registry, t: Tables, w: World, op: Op, p: nat)
    requires Inv(t, w) && RuleLifecycle(reg, t) && op.Learn? && p < |w.store.rows| && op.e.rule in w.offered
    requires FindRule(PageOf(w.store.rows, Rules, None, LimitOf(op)).items, op.e.rule) == Some(w.store.rows[p])
    requires IsRule(w.store.rows[p]) && RuleText(w.store.rows[p].rec) == op.e.rule
    ensures Inv(t, Step(reg, w, op))
  {
    var rows := w.store.rows;
    var rec, w' := rows[p].rec, Step(reg, w, op);
    SoundAt(w, p);
    MergeStep(reg, w, op, p);
    assert w' == World(w'.store, w.offered[op.e.rule := w.offered[op.e.rule] + {op.trace}]);
    hide Step, Learned, PageOf, FindRule, Position, RowsInOrder, IdsDistinct, IsMerged, Promoted, Rewritten, RuleText,
         Sound;
    if op.trace in Evidence(rec) {
      assert rows[p := Row(rows[p].rowid, rec)] == rows;
      SoundState(w.offered, rec);
      KeepsOnMerge(t, w, w'.store, op.e, op.trace, p, rec);
    } else {
      var r := MergedRow(reg, t, w.store, p, op.trace, op.distilled, op.member, op.now);
      MergedData(rec, r, op.e, op.trace, op.distilled, w.offered);
      MergedSame(rec, r, op.trace, op.distilled);
      KeepsOnMerge(t, w, w'.store, op.e, op.trace, p, r);
    }
  }

  lemma KeepsOnLearn(reg: Registry, t: Tables, w: World, op: Op)
    requires Inv(t, w) && RuleLifecycle(reg, t) && op.Learn? && Enabled(reg, t, w, op) && |Texts(t)| <= DistillLimit
    ensures Inv(t, Step(reg, w, op))
  {
    LessonIsInTables(reg, t, w, op);
    LookupIsExact(t, w, op.e.rule, LimitOf(op));
    var found := FindRule(PageOf(w.store.rows, Rules, None, LimitOf(op)).items, op.e.rule);
    hide Inv, Step, Enabled, PageOf, FindRule, RuleText;
    if found.None? {
      LearnsNew(reg, t, w, op);
    } else {
      var p :| 0 <= p < |w.store.rows| && w.store.rows[p] == found.value;
      LearnsMore(reg, t, w, op, p);
    }
  }

  lemma SoundState(offered: map<string, set<Id>>, rec: Record)
    requires Sound(offered, rec) && rec.kind == "coding_rule"
    ensures "rule" in rec.data && rec.data["rule"] == Str(RuleText(rec))
    ensures rec.state == if |Evidence(rec)| >= Enough then "validated" else "hypothesized"
  {
  }

  lemma MergedSame(rec: Record, r: Record, trace: Id, distilled: bool)
    requires IsMerged(rec, r, trace, distilled)
    ensures r.id == rec.id && r.kind == rec.kind
  {
  }

  /** Other requests leave rules and their data alone. */
  lemma AskLeavesRules(reg: Registry, t: Tables, w: World, op: Op)
    requires op.Ask? && Enabled(reg, t, w, op)
    ensures var rows, rows' := w.store.rows, After(reg, w.store, op.call).rows;
            && |rows| <= |rows'| <= |rows| + 1
            && (forall i :: 0 <= i < |rows| ==>
                  rows'[i].rec.kind == rows[i].rec.kind && rows'[i].rec.data == rows[i].rec.data)
            && (forall i :: 0 <= i < |rows| && IsRule(rows[i]) ==> rows'[i].rec.state == rows[i].rec.state)
            && (|rows| < |rows'| ==> !IsRule(rows'[|rows|]))
  {
  }

  lemma SameDataSound(offered: map<string, set<Id>>, was: Record, rec: Record)
    requires Sound(offered, was) && rec.kind == was.kind && rec.data == was.data
    requires (rec.kind == "coding_rule" ==> rec.state == was.state)
    ensures Sound(offered, rec)
  {
  }

  lemma AskKeepsSound(reg: Registry, t: Tables, w: World, op: Op)
    requires AllSound(w) && op.Ask? && Enabled(reg, t, w, op)
    ensures AllSound(World(After(reg, w.store, op.call), w.offered))
  {
    var rows, rows' := w.store.rows, After(reg, w.store, op.call).rows;
    AskLeavesRules(reg, t, w, op);
    hide After, Enabled, Sound, Evidence, RuleText;
    forall i | 0 <= i < |rows'| ensures Sound(w.offered, rows'[i].rec) {
      if i < |rows| {
        SoundAt(w, i);
        SameDataSound(w.offered, rows[i].rec, rows'[i].rec);
      } else {
        NoRuleIsSound(w.offered, rows'[i].rec);
      }
    }
  }

  lemma AskKeepsRules(reg: Registry, t: Tables, w: World, op: Op)
    requires op.Ask? && Enabled(reg, t, w, op) && OnePerText(w.store.rows)
    ensures SameRules(w.store.rows, After(reg, w.store, op.call).rows)
    ensures OnePerText(After(reg, w.store, op.call).rows)
  {
    var rows' := After(reg, w.store, op.call).rows;
    AskLeavesRules(reg, t, w, op);
    hide After, Enabled;
    assert SameRules(w.store.rows, rows');
    StillOnePerText(w.store.rows, rows');
  }

  lemma KeepsOnAsk(reg: Registry, t: Tables, w: World, op: Op)
    requires Inv(t, w) && op.Ask? && Enabled(reg, t, w, op)
    ensures Inv(t, Step(reg, w, op))
  {
    var s' := After(reg, w.store, op.call);
    assert Step(reg, w, op) == World(s', w.offered);
    hide After, Step, Enabled, RowsInOrder, IdsDistinct, OnePerText, AllSound, AllOnRecord, SameRules, Texts;
    AskKeepsSound(reg, t, w, op);
    AskKeepsRules(reg, t, w, op);
    AskKeepsShape(reg, w.store, op.call);
    AllStillOnRecord(w, World(s', w.offered));
    assert Inv(t, World(s', w.offered));
  }

  lemma NoRuleIsSound(offered: map<string, set<Id>>, rec: Record)
    requires rec.kind != "coding_rule"
    ensures Sound(offered, rec)
  {
  }

  lemma {:induction false} RunKeeps(reg: Registry, t: Tables, w: World, ops: seq<Op>)
    requires Inv(t, w) && RuleLifecycle(reg, t) && |Texts(t)| <= DistillLimit && Legal(reg, t, w, ops)
    ensures Inv(t, Run(reg, w, ops))
  {
    hide *;
    RunUnfolds(reg, w, ops);
    if ops != [] {
      var init, last := ops[..|ops| - 1], ops[|ops| - 1];
      LastIsEnabled(reg, t, w, ops);
      PrefixIsLegal(reg, t, w, ops, |ops| - 1);
      RunKeeps(reg, t, w, init);
      KeepsOnStep(reg, t, Run(reg, w, init), last);
    }
  }

  lemma RunUnfolds(reg: Registry, w: World, ops: seq<Op>)
    ensures Run(reg, w, ops) == if ops == [] then w else Step(reg, Run(reg, w, ops[..|ops| - 1]), ops[|ops| - 1])
  {
  }

  lemma LastIsEnabled(reg: Registry, t: Tables, w: World, ops: seq<Op>)
    requires Legal(reg, t, w, ops) && ops != []
    ensures Enabled(reg, t, Run(reg, w, ops[..|ops| - 1]), ops[|ops| - 1])
  {
    hide Enabled, Run;
  }

  lemma KeepsOnStep(reg: Registry, t: Tables, w: World, op: Op)
    requires Inv(t, w) && RuleLifecycle(reg, t) && Enabled(reg, t, w, op) && |Texts(t)| <= DistillLimit
    ensures Inv(t, Step(reg, w, op))
  {
    if op.Learn? { KeepsOnLearn(reg, t, w, op); } else { KeepsOnAsk(reg, t, w, op); }
  }

  lemma PrefixIsLegal(reg: Registry, t: Tables, w: World, ops: seq<Op>, k: nat)
    requires Legal(reg, t, w, ops) && k <= |ops|
    ensures Legal(reg, t, w, ops[..k])
  {
    hide Enabled, Run;
    forall j | 0 <= j < k ensures Enabled(reg, t, Run(reg, w, ops[..k][..j]), ops[..k][j]) {
      assert ops[..k][..j] == ops[..j] && Enabled(reg, t, Run(reg, w, ops[..j]), ops[j]);
    }
  }

  /**
   After any run of the two writers, with at most 500 rule texts: no text has two records, every
   record's evidence is exactly what was offered for it, each trace once, and it is validated
   exactly when that is three traces or more.
   */
  lemma OneRecordPerRule(reg: Registry, t: Tables, ops: seq<Op>, i: nat, j: nat)
    requires RuleLifecycle(reg, t) && |Texts(t)| <= 500 && Legal(reg, t, Start, ops)
    requires i < |Run(reg, Start, ops).store.rows| && j < |Run(reg, Start, ops).store.rows|
    requires IsRule(Run(reg, Start, ops).store.rows[i]) && IsRule(Run(reg, Start, ops).store.rows[j])
    ensures var w := Run(reg, Start, ops);
            var rec := w.store.rows[i].rec;
            && (RuleText(rec) == RuleText(w.store.rows[j].rec) ==> i == j)
            && RuleText(rec) in w.offered && ToSet(Evidence(rec)) == w.offered[RuleText(rec)]
               && NoDuplicates(Evidence(rec))
            && (rec.state == "validated" <==> |w.offered[RuleText(rec)]| >= 3)
            && (rec.state == "hypothesized" <==> |w.offered[RuleText(rec)]| < 3)
  {
    RunKeeps(reg, t, Start, ops);
    var w := Run(reg, Start, ops);
    assert Sound(w.offered, w.store.rows[i].rec);
    SizeOfSet(Evidence(w.store.rows[i].rec));
  }

  lemma {:induction false} SizeOfSet(xs: seq<string>)
    requires NoDuplicates(xs)
    ensures |ToSet(xs)| == |xs|
  {
    if xs != [] {
      var init, last := xs[..|xs| - 1], xs[|xs| - 1];
      SizeOfSet(init);
      assert ToSet(xs) == ToSet(init) + {last};
    }
  }

  lemma {:induction false} RulesOf(entries: seq<Entry>)
    ensures |set e | e in entries :: e.rule| <= |entries|
  {
    if entries != [] {
      var init, last := entries[..|entries| - 1], entries[|entries| - 1];
      RulesOf(init);
      assert (set e | e in entries :: e.rule) == (set e | e in init :: e.rule) + {last.rule};
    }
  }
}
