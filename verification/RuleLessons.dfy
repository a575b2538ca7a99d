/**
 What a trace teaches and what one lesson does to the store, said without the writers' own helpers.
 */
module RuleLessons {
  import opened Base
  import opened RecordStore
  import opened RecordLaws
  import opened RecordRequests
  import opened RuleStore
  import opened RuleLaws

  // ---------------------------------------------------------------------------------------------
  // What is taught
  // ---------------------------------------------------------------------------------------------

  ghost predicate Contains(hay: string, needle: string) { exists a, b :: hay == a + needle + b }

  lemma OccursExactly(needle: string, hay: string)
    ensures Occurs(needle, hay) <==> Contains(hay, needle)
  {
    if i :| 0 <= i <= |hay| && needle <= hay[i..] {
      assert hay == hay[..i] + needle + hay[i + |needle|..];
    }
    if a, b :| hay == a + needle + b { assert hay[|a|..] == needle + b; }
  }

  /** The value a trace gives to a field, the empty string for none. */
  ghost predicate Says(trace: Data, field: string, value: string) {
    if field in trace && trace[field].Str? then trace[field].s == value else value == ""
  }

  /** `e` is the first of the entries whose pattern hits. */
  ghost predicate LeadsTo(entries: seq<Entry>, hits: string -> bool, e: Entry) {
    exists i :: 0 <= i < |entries| && entries[i] == e && hits(e.pattern)
      && forall k :: 0 <= k < i ==> !hits(entries[k].pattern)
  }

  ghost predicate NoneHits(entries: seq<Entry>, hits: string -> bool) {
    forall e :: e in entries ==> !hits(e.pattern)
  }

  lemma {:induction false} NoFirstHit(entries: seq<Entry>, hits: string -> bool)
    ensures FirstHit(entries, hits) == None <==> NoneHits(entries, hits)
  {
    if entries != [] {
      NoFirstHit(entries[1..], hits);
      assert entries == [entries[0]] + entries[1..];
    }
  }

  /** The trace has been fixed: something other than nothing, `false`, zero or emptiness is noted as its fix. */
  predicate Fixed(trace: Data) {
    "fix" in trace &&
    match trace["fix"]
    case Str(s) => |s| > 0
    case Flag(b) => b
    case Num(r) => r < 0.0 || r > 0.0
    case List(l) => |l| > 0
  }

  /**
   A failed trace teaches exactly the first entry whose pattern occurs in its error output in lower case, and
   only if it was fixed and has an error output.
   */
  lemma FailureTeachesExactly(t: Tables, lower: string -> string, trace: Data, e: Entry)
    ensures ErrorLesson(t, lower, trace) == Some(e) <==>
              && Fixed(trace)
              && exists stderr :: |stderr| > 0 && Says(trace, "stderr_snippet", stderr)
                   && LeadsTo(t.errors, pattern => Contains(lower(stderr), pattern), e)
  {
    var stderr := Text(trace, "stderr_snippet");
    assert Says(trace, "stderr_snippet", stderr);
    FirstHitIsFirst(t.errors, pattern => Occurs(pattern, lower(Text(trace, "stderr_snippet"))), e);
    forall pattern, hay ensures Occurs(pattern, hay) <==> Contains(hay, pattern) { OccursExactly(pattern, hay); }
    SameHits(t.errors, pattern => Occurs(pattern, lower(Text(trace, "stderr_snippet"))),
             pattern => Contains(lower(stderr), pattern), e);
  }

  lemma SameHits(entries: seq<Entry>, f: string -> bool, g: string -> bool, e: Entry)
    requires forall pattern :: f(pattern) == g(pattern)
    ensures LeadsTo(entries, f, e) <==> LeadsTo(entries, g, e)
  {
  }

  /** The patterns of the trace's language. */
  function ForLanguage(t: Tables, language: string): seq<Entry> {
    if language in t.byLanguage.Keys then t.byLanguage[language] else []
  }

  /**
   A trace teaches from its code only if its tests passed and the code has at least 30 characters: the first
   general entry that matches, and only without one the first of its language.
   */
  lemma SuccessTeachesExactly(t: Tables, matches: (string, string) -> bool, trace: Data, e: Entry)
    ensures CodeLesson(t, matches, trace) == Some(e) <==>
              && Says(trace, "test_result", "pass")
              && exists code, language ::
                   && Says(trace, "generated_code", code) && Says(trace, "language", language) && 30 <= |code|
                   && var hits := (pattern: string) => matches(pattern, code);
                      LeadsTo(t.code, hits, e)
                      || (NoneHits(t.code, hits) && LeadsTo(ForLanguage(t, language), hits, e))
  {
    var code, language := Text(trace, "generated_code"), Text(trace, "language");
    var hits := (pattern: string) => matches(pattern, code);
    assert Says(trace, "generated_code", code) && Says(trace, "language", language);
    FirstHitIsFirst(t.code, hits, e);
    FirstHitIsFirst(ForLanguage(t, language), hits, e);
    NoFirstHit(t.code, hits);
  }

  // ---------------------------------------------------------------------------------------------
  // What one lesson does
  // ---------------------------------------------------------------------------------------------

  /** The data of a new record: the rule, its first trace, its category, a low confidence, and who found it. */
  ghost predicate FirstNote(data: Data, e: Entry, trace: Id, distilled: bool) {
    && data.Keys == {"rule", "evidence", "category", "confidence"} + (if distilled then {"distilled"} else {})
    && data["rule"] == Str(e.rule) && data["category"] == Str(e.category)
    && data["evidence"] == List([trace]) && data["confidence"] == Num(3.0 / 10.0)
    && (distilled ==> data["distilled"] == Flag(true))
  }

  /** The traces noted under a rule. */
  predicate Lists(data: Data, traces: seq<string>) {
    if "evidence" in data && data["evidence"].List? then data["evidence"].items == traces else traces == []
  }

  /** What the distiller makes of `n` traces: a fifth for each, and no more than one. */
  predicate Fifths(c: real, n: nat) { if n <= 5 then 5.0 * c == n as real else c == 1.0 }

  /** `data'` is `data` with one more trace; the distiller also sets the confidence anew. */
  ghost predicate OneTraceMore(data: Data, data': Data, trace: Id, distilled: bool) {
    && (exists traces :: Lists(data, traces) && trace !in traces && Lists(data', traces + [trace])
          && (distilled ==> "confidence" in data' && data'["confidence"].Num?
                              && Fifths(data'["confidence"].r, |traces| + 1)))
    && (forall k :: k != "evidence" && (distilled ==> k != "confidence") ==>
          (k in data <==> k in data') && (k in data ==> data[k] == data'[k]))
  }

  /** The record of a rule is looked for among the newest 500 rules by the distiller, the newest 1000 by the other. */
  lemma LooksThroughNewest(s: Store, op: Op, rule: string)
    requires op.Learn?
    ensures var found := Below(s.rows, Rules, None);
            var n := if op.distilled then 500 else 1000;
            FindRule(PageOf(s.rows, Rules, None, LimitOf(op)).items, rule)
              == FindRule(if |found| <= n then found else found[..n], rule)
  {
  }

  lemma FreshLesson(t: Tables, w: World, op: Op)
    requires RuleLaws.Inv(t, w) && op.Learn? && |Texts(t)| <= 500
    requires !HasRecord(w.store.rows, op.e.rule)
    ensures FindRule(PageOf(w.store.rows, Rules, None, LimitOf(op)).items, op.e.rule).None?
  {
    LookupIsExact(t, w, op.e.rule, LimitOf(op));
    assert forall row :: row in w.store.rows ==> !(IsRule(row) && RuleText(row.rec) == op.e.rule);
  }

  /** A rule nobody wrote down yet: the lesson is the creation of one record, under the name of whoever learnt it. */
  lemma NewLessonExactly(reg: Registry, t: Tables, w: World, op: Op)
    requires RuleLaws.Inv(t, w) && op.Learn? && |Texts(t)| <= 500 && !HasRecord(w.store.rows, op.e.rule)
    ensures exists data :: FirstNote(data, op.e, op.trace, op.distilled)
              && Step(reg, w, op).store
                 == After(reg, w.store, Call(Create("coding_rule", data, None, op.member, op.id), op.now))
  {
    FreshLesson(t, w, op);
    var data := NewRule(op.e, op.trace, op.distilled);
    FirstNoted(op.e, op.trace, op.distilled);
    LearnedNew(reg, w.store, op.e, op.trace, LimitOf(op), op.distilled, op.id, op.member, op.now);
    hide Learned, FirstNote, NewRule, After, RuleLaws.Inv;
    assert Step(reg, w, op).store
        == After(reg, w.store, Call(Create("coding_rule", data, None, op.member, op.id), op.now));
  }

  lemma FirstNoted(e: Entry, trace: Id, distilled: bool)
    ensures FirstNote(NewRule(e, trace, distilled), e, trace, distilled)
  {
  }

  lemma LearnedNew(reg: Registry, s: Store, e: Entry, trace: string, limit: nat, distilled: bool, id: Id,
                   member: string, now: int)
    requires FindRule(PageOf(s.rows, Rules, None, limit).items, e.rule).None?
    ensures Learned(reg, s, e, trace, limit, distilled, id, member, now)
         == After(reg, s, Call(Create("coding_rule", NewRule(e, trace, distilled), None, member, id), now))
  {
    hide Perform, FindRule, PageOf, NewRule;
  }

  lemma KnownLesson(t: Tables, w: World, op: Op, i: nat)
    requires RuleLaws.Inv(t, w) && op.Learn? && |Texts(t)| <= 500
    requires i < |w.store.rows| && IsRule(w.store.rows[i]) && RuleText(w.store.rows[i].rec) == op.e.rule
    ensures FindRule(PageOf(w.store.rows, Rules, None, LimitOf(op)).items, op.e.rule) == Some(w.store.rows[i])
  {
    LookupIsExact(t, w, op.e.rule, LimitOf(op));
    SoundAt(w, i);
    var found := FindRule(PageOf(w.store.rows, Rules, None, LimitOf(op)).items, op.e.rule);
    var j :| 0 <= j < |w.store.rows| && w.store.rows[j] == found.value;
  }

  /**
   A rule with a record: a trace that is on it changes nothing; any other is added to the record, and from the
   third on a hypothesis is moved on by the event that says so.
   */
  lemma KnownLessonExactly(reg: Registry, t: Tables, w: World, op: Op, i: nat) returns (mid: Store)
    requires RuleLaws.Inv(t, w) && op.Learn? && |Texts(t)| <= 500
    requires i < |w.store.rows| && w.store.rows[i].rec.kind == "coding_rule"
    requires Says(w.store.rows[i].rec.data, "rule", op.e.rule)
    ensures var s, s', rec := w.store, Step(reg, w, op).store, w.store.rows[i].rec;
            exists traces :: Lists(rec.data, traces) &&
              if op.trace in traces then s' == s
              else
                && |mid.rows| == |s.rows| && mid.events == s.events
                && mid.rows[i] == Row(s.rows[i].rowid, rec.(data := mid.rows[i].rec.data))
                && OneTraceMore(rec.data, mid.rows[i].rec.data, op.trace, op.distilled)
                && (forall j :: 0 <= j < |s.rows| && j != i ==> mid.rows[j] == s.rows[j])
                && s' == (if |traces| >= 2 && rec.state == "hypothesized"
                          then After(reg, mid, Call(Transition(rec.id, "evidence_sufficient", op.member), op.now))
                          else mid)
  {
    var s, rec := w.store, w.store.rows[i].rec;
    SoundAt(w, i);
    KnownLesson(t, w, op, i);
    MergeStep(reg, w, op, i);
    assert IdsDistinct(s.rows) && Lists(rec.data, Evidence(rec));
    hide FindRule, PageOf, OneTraceMore, Learned, Sound, RuleLaws.Inv, Lists, Evidence, Step, IdsDistinct, After;
    mid := s;
    if op.trace !in Evidence(rec) {
      mid := Merged(reg, s, i, Evidence(rec), op.trace, op.distilled, op.member, op.now);
    }
  }

  /** What merging one more trace into the `i`-th row leaves. */
  lemma Merged(reg: Registry, s: Store, i: nat, traces: seq<string>, trace: Id, distilled: bool, member: string,
               now: int)
    returns (mid: Store)
    requires IdsDistinct(s.rows) && i < |s.rows| && trace !in traces && Lists(s.rows[i].rec.data, traces)
    ensures var rec := s.rows[i].rec;
            && |mid.rows| == |s.rows| && mid.events == s.events
            && mid.rows[i] == Row(s.rows[i].rowid, rec.(data := mid.rows[i].rec.data))
            && OneTraceMore(rec.data, mid.rows[i].rec.data, trace, distilled)
            && (forall j :: 0 <= j < |s.rows| && j != i ==> mid.rows[j] == s.rows[j])
            && Promoted(reg, Rewritten(s, rec, traces + [trace], distilled), rec, |traces| + 1, member, now)
               == (if |traces| >= 2 && rec.state == "hypothesized"
                   then After(reg, mid, Call(Transition(rec.id, "evidence_sufficient", member), now))
                   else mid)
  {
    var rec := s.rows[i].rec;
    PositionIsP(s.rows, i);
    Grows(rec.data, traces, trace, distilled);
    mid := Rewritten(s, rec, traces + [trace], distilled);
    hide Perform, OneTraceMore, Position, WithEvidence, IdsDistinct, Lists;
  }

  lemma Grows(data: Data, traces: seq<string>, trace: Id, distilled: bool)
    requires Lists(data, traces) && trace !in traces
    ensures OneTraceMore(data, WithEvidence(data, traces + [trace], distilled), trace, distilled)
  {
    var data' := WithEvidence(data, traces + [trace], distilled);
    assert Lists(data', traces + [trace]);
    assert distilled ==> Fifths(data'["confidence"].r, |traces| + 1);
  }
}
