/**
 The two writers of coding rules on the record store: lingmemory/data_flywheel.py learns from
 failures, lingmemory/distiller.py from successes.
 */
module RuleStore {
  import opened Base
  import opened RecordStore

  /** A pattern, the rule it stands for, and its category. */
  datatype Entry = Entry(pattern: string, rule: string, category: string)

  /** The error patterns, the code patterns, and the code patterns of each language. */
  datatype Tables = Tables(errors: seq<Entry>, code: seq<Entry>, byLanguage: map<string, seq<Entry>>)

  const ExtractLimit := 1000
  const DistillLimit := 500
  const Enough := 3

  function FirstHit(entries: seq<Entry>, hits: string -> bool): Option<Entry> {
    if entries == [] then None
    else if hits(entries[0].pattern) then Some(entries[0])
    else FirstHit(entries[1..], hits)
  }

  /** The lesson is the first entry whose pattern hits, if any does. */
  lemma {:induction false} FirstHitIsFirst(entries: seq<Entry>, hits: string -> bool, e: Entry)
    ensures FirstHit(entries, hits) == Some(e) <==>
              exists i :: 0 <= i < |entries| && entries[i] == e && hits(e.pattern) && forall k :: 0 <= k < i ==>
                  !hits(entries[k].pattern)
  {
    if entries != [] && !hits(entries[0].pattern) {
      var rest := entries[1..];
      FirstHitIsFirst(rest, hits, e);
      if FirstHit(entries, hits) == Some(e) {
        var i :| 0 <= i < |rest| && rest[i] == e && hits(e.pattern) && forall k :: 0 <= k < i ==>
            !hits(rest[k].pattern);
        assert entries[i + 1] == e;
        assert forall k :: 0 < k < i + 1 ==> entries[k] == rest[k - 1];
      }
      if i :| 0 <= i < |entries| && entries[i] == e && hits(e.pattern) && forall k :: 0 <= k < i ==>
          !hits(entries[k].pattern) {
        assert i > 0 && rest[i - 1] == e;
        assert forall k :: 0 <= k < i - 1 ==> rest[k] == entries[k + 1];
      }
    }
  }

  function LanguageEntries(t: Tables, language: string): seq<Entry> {
    if language in t.byLanguage then t.byLanguage[language] else []
  }

  function Text(data: Data, field: string): string {
    if field in data && data[field].Str? then data[field].s else ""
  }

  predicate Truthy(data: Data, field: string) {
    field in data && match data[field]
                     case Str(s) => s != ""
                     case Flag(b) => b
                     case Num(r) => r != 0.0
                     case List(l) => l != []
  }

  predicate Occurs(needle: string, hay: string) { exists i :: 0 <= i <= |hay| && needle <= hay[i..] }

  /** What a failed trace teaches. */
  function ErrorLesson(t: Tables, lower: string -> string, trace: Data): Option<Entry> {
    if !Truthy(trace, "fix") || Text(trace, "stderr_snippet") == "" then None
    else FirstHit(t.errors, pattern => Occurs(pattern, lower(Text(trace, "stderr_snippet"))))
  }

  /** What a successful trace teaches; `matches` stands for the regular expressions. */
  function CodeLesson(t: Tables, matches: (string, string) -> bool, trace: Data): Option<Entry> {
    var code := Text(trace, "generated_code");
    if Text(trace, "test_result") != "pass" || |code| < 30 then None
    else
      var general := FirstHit(t.code, pattern => matches(pattern, code));
      if general.Some? then general
      else FirstHit(LanguageEntries(t, Text(trace, "language")), pattern => matches(pattern, code))
  }

  const Rules := Filter(Some("coding_rule"), None, None, None, map[])

  predicate IsRule(row: Row) { row.rec.kind == "coding_rule" }

  function RuleText(rec: Record): string { Text(rec.data, "rule") }

  function Evidence(rec: Record): seq<string> {
    if "evidence" in rec.data && rec.data["evidence"].List? then rec.data["evidence"].items else []
  }

  predicate SameRule(row: Row, rule: string) { "rule" in row.rec.data && row.rec.data["rule"] == Str(rule) }

  function FindRule(items: seq<Row>, rule: string): Option<Row> {
    if items == [] then None
    else if SameRule(items[0], rule) then Some(items[0])
    else FindRule(items[1..], rule)
  }

  function NewRule(e: Entry, trace: string, distilled: bool): Data {
    var data := map["rule" := Str(e.rule), "evidence" := List([trace]), "category" := Str(e.category),
                    "confidence" := Num(0.3)];
    if distilled then data["distilled" := Flag(true)] else data
  }

  function ConfidenceFor(n: nat): real { if n as real * 0.2 > 1.0 then 1.0 else n as real * 0.2 }

  function WithEvidence(data: Data, evidence: seq<string>, distilled: bool): Data {
    var data' := if distilled then data["confidence" := Num(ConfidenceFor(|evidence|))] else data;
    data'["evidence" := List(evidence)]
  }

  /** One lesson put into the store; `id` names the record if a new one is needed. */
  function Learned(reg: Registry, s: Store, e: Entry, trace: string, limit: nat, distilled: bool, id: Id,
                   member: string, now: int): Store {
    var found := FindRule(PageOf(s.rows, Rules, None, limit).items, e.rule);
    if found.None? then
      var done := Perform(reg, s, Create("coding_rule", NewRule(e, trace, distilled), None, member, id), now);
      if done.Ok? then done.value else s
    else
      var rec := found.value.rec;
      if trace in Evidence(rec) then s
      else Promoted(reg, Rewritten(s, rec, Evidence(rec) + [trace], distilled), rec, |Evidence(rec)| + 1, member, now)
  }

  function Rewritten(s: Store, rec: Record, evidence: seq<string>, distilled: bool): Store {
    var p := Position(s.rows, rec.id);
    if p.None? then s
    else s.(rows := Changed(s.rows, p.value, s.rows[p.value].rec.(data := WithEvidence(rec.data, evidence, distilled))))
  }

  function Promoted(reg: Registry, s: Store, rec: Record, n: nat, member: string, now: int): Store {
    if n >= Enough && rec.state == "hypothesized" then
      var done := Perform(reg, s, Transition(rec.id, "evidence_sufficient", member), now);
      if done.Ok? then done.value else s
    else s
  }

  class RuleWriter {
    const lm: LingMemory
    const tables: Tables
    const member: string

    constructor (lm: LingMemory, tables: Tables, member: string)
      ensures this.lm == lm && this.tables == tables && this.member == member
    {
      this.lm := lm;
      this.tables := tables;
      this.member := member;
    }

    method MatchFirst(entries: seq<Entry>, hits: string -> bool) returns (e: Option<Entry>)
      ensures e == FirstHit(entries, hits)
    {
      for i := 0 to |entries|
        invariant FirstHit(entries, hits) == FirstHit(entries[i..], hits)
      {
        if hits(entries[i].pattern) { return Some(entries[i]); }
        assert entries[i..][1..] == entries[i + 1..];
      }
      e := None;
    }

    /** Merges the trace into the record of this rule, or creates one. */
    method Learn(e: Entry, trace: string, limit: nat, distilled: bool, id: Id,
                 now: int)
      returns (rule: Result<Id, Refusal>)
      modifies lm
      ensures lm.State() == Learned(lm.registry, old(lm.State()), e, trace, limit, distilled, id, member, now)
    {
      var page := lm.Query(Rules, None, limit);
      var items := page.items;
      for i := 0 to |items|
        invariant lm.State() == old(lm.State())
        invariant FindRule(items, e.rule) == FindRule(items[i..], e.rule)
      {
        if SameRule(items[i], e.rule) {
          var rec := items[i].rec;
          var evidence := Evidence(rec);
          if trace !in evidence {
            evidence := evidence + [trace];
            Rewrite(rec, evidence, distilled);
            if |evidence| >= Enough && rec.state == "hypothesized" {
              var moved := lm.Transition(rec.id, "evidence_sufficient", member, now);
              if moved.Err? { return Err(moved.error); }
            }
          }
          return Ok(rec.id);
        }
        assert items[i..][1..] == items[i + 1..];
      }
      rule := lm.Create("coding_rule", NewRule(e, trace, distilled), None, member, id, now);
    }

    method Rewrite(rec: Record, evidence: seq<string>, distilled: bool)
      modifies lm
      ensures lm.State() == Rewritten(old(lm.State()), rec, evidence, distilled)
    {
      var p := Position(lm.rows, rec.id);
      if p.Some? {
        lm.rows := Changed(lm.rows, p.value,
                           lm.rows[p.value].rec.(data := WithEvidence(rec.data, evidence, distilled)));
      }
    }

    method ExtractRule(trace: Id, lower: string -> string, id: Id, now: int) returns (rule: Option<Result<Id, Refusal>>)
      modifies lm
      ensures var p := Position(old(lm.rows), trace);
              var lesson := if p.None? then None else ErrorLesson(tables, lower, old(lm.rows)[p.value].rec.data);
              && (rule.None? <==> lesson.None?)
              && lm.State() == if lesson.None? then old(lm.State())
                               else Learned(lm.registry, old(lm.State()), lesson.value, trace, ExtractLimit, false, id,
                                            member, now)
    {
      var p := Position(lm.rows, trace);
      if p.None? { return None; }
      var data := lm.rows[p.value].rec.data;
      if !Truthy(data, "fix") { return None; }
      var stderr := Text(data, "stderr_snippet");
      if stderr == "" { return None; }
      var lesson := MatchFirst(tables.errors, pattern => Occurs(pattern, lower(Text(data, "stderr_snippet"))));
      if lesson.None? { return None; }
      var r := Learn(lesson.value, trace, ExtractLimit, false, id, now);
      rule := Some(r);
    }

    method Distill(trace: Id, matches: (string, string) -> bool, id: Id,
                   now: int)
      returns (rule: Option<Result<Id, Refusal>>)
      modifies lm
      ensures var p := Position(old(lm.rows), trace);
              var lesson := if p.None? then None else CodeLesson(tables, matches, old(lm.rows)[p.value].rec.data);
              && (rule.None? <==> lesson.None?)
              && lm.State() == if lesson.None? then old(lm.State())
                               else Learned(lm.registry, old(lm.State()), lesson.value, trace, DistillLimit, true, id,
                                            member, now)
    {
      var p := Position(lm.rows, trace);
      if p.None? { return None; }
      var data := lm.rows[p.value].rec.data;
      var code := Text(data, "generated_code");
      if Text(data, "test_result") != "pass" { return None; }
      if |code| < 30 { return None; }
      var lesson := MatchFirst(tables.code, pattern => matches(pattern, code));
      if lesson.None? {
        lesson := MatchFirst(LanguageEntries(tables, Text(data, "language")), pattern => matches(pattern, code));
      }
      if lesson.None? { return None; }
      var r := Learn(lesson.value, trace, DistillLimit, true, id, now);
      rule := Some(r);
    }
  }
}
