/**
 Whole runs of the architecture ledger: when the journal verifies, what its last digest commits
 to, what replaying it gives back, and what a resolved debt can still become.
 */
module ArchLaws {
  import opened Base
  import opened Splitting
  import opened ArchLedger

  /** A request at its time, and whether its journal line is lost to an I/O error. */
  datatype Event = Event(request: Request, now: string, lost: bool)

  function Run(c: Codec, l: Ledger, events: seq<Event>): Ledger {
    if events == [] then l
    else
      var before, e := Run(c, l, events[..|events| - 1]), events[|events| - 1];
      Perform(c, before, e.request, e.now, e.lost)
  }

  /** The line a request stamps, unless it is refused, its line is lost or the append gives up. */
  function Stamping(c: Codec, l: Ledger, e: Event): seq<Line> {
    var plan := Plan(l.store, e.request, e.now);
    if plan.Err? || e.lost || HasScalar(l.journal) then []
    else [NewLine(c, l.journal, e.now, plan.value.op, plan.value.id, plan.value.payload)]
  }

  /** All lines stamped by a run that starts with nothing. */
  function Stamps(c: Codec, events: seq<Event>): seq<Line> {
    if events == [] then []
    else
      var earlier := events[..|events| - 1];
      Stamps(c, earlier) + Stamping(c, Run(c, Empty, earlier), events[|events| - 1])
  }

  /** The last payload per kind and key. */
  function Replay(j: seq<Line>): map<Id, Payload> {
    if j == [] then map[]
    else
      var before, l := Replay(j[..|j| - 1]), j[|j| - 1];
      if IsRecord(l) then before[Id(l.content[Type].s, l.content[Key].s) := l.content[Body].fields] else before
  }

  predicate IsRecord(l: Line) {
    && l.Object?
    && Type in l.content && l.content[Type].Text?
    && Key in l.content && l.content[Key].Text?
    && Body in l.content && l.content[Body].Dict?
  }

  // ---------------------------------------------------------------------------------------------
  // When a run verifies
  // ---------------------------------------------------------------------------------------------

  lemma AcceptedHasNoScalar(c: Codec, j: seq<Line>)
    requires Accepted(c, j)
    ensures !HasScalar(j)
  {
    forall i | 0 <= i < |j| ensures !j[i].Scalar? { assert LinkHolds(c, j, i); }
  }

  /** Whether a journal is accepted is settled by its prefixes, so a broken one never heals. */
  lemma PrefixesAreAccepted(c: Codec, j: seq<Line>, more: seq<Line>)
    requires Accepted(c, j + more)
    ensures Accepted(c, j)
  {
    forall i | 0 <= i < |j| ensures LinkHolds(c, j, i) {
      assert LinkHolds(c, j + more, i);
      assert (j + more)[..i] == j[..i];
    }
  }

  lemma StampIsAccepted(c: Codec, j: seq<Line>, l: Line)
    requires Accepted(c, j) && l.Object? && l == Stamped(c, Head(j), l.content) && NumberedAt(l.content, |j|)
    requires !Marked(l.content)
    ensures Accepted(c, j + [l])
  {
    var j' := j + [l];
    hide Head, Stamped;
    forall i | 0 <= i < |j'| ensures LinkHolds(c, j', i) {
      assert j'[..i] == j[..i];
      if i < |j| { assert LinkHolds(c, j, i); } else { assert j[..i] == j; }
    }
  }

  lemma StampExtends(c: Codec, j: seq<Line>, ts: string, op: string, id: Id, payload: Payload)
    requires Accepted(c, j)
    ensures var l := NewLine(c, j, ts, op, id, payload);
            Accepted(c, j + [l]) && IsRecord(l) && Replay(j + [l]) == Replay(j)[id := payload]
  {
    var l := NewLine(c, j, ts, op, id, payload);
    assert (j + [l])[..|j|] == j && IsRecord(l);
    assert l == Stamped(c, Head(j), l.content) && NumberedAt(l.content, |j|) && !Marked(l.content);
    assert Id(l.content[Type].s, l.content[Key].s) == id && l.content[Body].fields == payload;
    hide Accepted, NewLine, Stamped, Head;
    StampIsAccepted(c, j, l);
  }

  lemma CorruptIsNotAccepted(c: Codec, j: seq<Line>, i: nat)
    requires i < |j| && j[i].Corrupt?
    ensures !Accepted(c, j)
  {
    assert !LinkHolds(c, j, i);
  }

  ghost predicate AllWhole(c: Codec, lines: seq<Line>) { forall l :: l in lines ==> !Torn(c, l) }

  /** The records whose last change is not in the journal because its line was lost. */
  function Dropped(c: Codec, events: seq<Event>): set<Id> {
    if events == [] then {}
    else
      var earlier := events[..|events| - 1];
      DroppedNext(Run(c, Empty, earlier), events[|events| - 1], Dropped(c, earlier))
  }

  function DroppedNext(l: Ledger, e: Event, dropped: set<Id>): set<Id> {
    var plan := Plan(l.store, e.request, e.now);
    if plan.Err? then dropped
    else if e.lost then dropped + {plan.value.id}
    else dropped - {plan.value.id}
  }

  /** The two agree on every record but these. */
  ghost predicate AgreeBut(replay: map<Id, Payload>, store: map<Id, Payload>, but: set<Id>) {
    forall id :: id !in but ==> (id in replay <==> id in store) && (id in replay ==> replay[id] == store[id])
  }

  /**
   After any run from nothing: the journal is accepted exactly when no line stamped so far holds a
   character the reader cuts at.  While that is so, the journal is exactly the stamped lines and
   replaying it gives the stored records, but for those whose last change was lost.
   */
  lemma {:induction false} VerifiesExactlyWhenWhole(c: Codec, events: seq<Event>)
    requires Lawful(c)
    ensures var l := Run(c, Empty, events);
            && (Accepted(c, l.journal) <==> AllWhole(c, Stamps(c, events)))
            && (Accepted(c, l.journal) ==>
                  l.journal == Stamps(c, events) && AgreeBut(Replay(l.journal), l.store, Dropped(c, events)))
            && (Accepted(c, l.journal) && (forall e :: e in events ==> !e.lost) ==> Replay(l.journal) == l.store)
  {
    if events != [] {
      var earlier, e := events[..|events| - 1], events[|events| - 1];
      VerifiesExactlyWhenWhole(c, earlier);
      var l := Run(c, Empty, earlier);
      hide Lawful, Accepted, Landed, Replay, NewLine, Torn, AgreeBut;
      OneStep(c, l, e, Stamps(c, earlier), Dropped(c, earlier));
    }
    if forall e :: e in events ==> !e.lost { NothingDropped(c, events); }
    AgreeOnAll(Replay(Run(c, Empty, events).journal), Run(c, Empty, events).store);
  }

  lemma AgreeOnAll(replay: map<Id, Payload>, store: map<Id, Payload>)
    ensures AgreeBut(replay, store, {}) ==> replay == store
  {
    if AgreeBut(replay, store, {}) {
      assert forall id :: id !in {} ==> (id in replay <==> id in store);
      assert replay.Keys == store.Keys;
    }
  }

  lemma {:induction false} NothingDropped(c: Codec, events: seq<Event>)
    requires forall e :: e in events ==> !e.lost
    ensures Dropped(c, events) == {}
  {
    if events != [] {
      hide Plan;
      NothingDropped(c, events[..|events| - 1]);
    }
  }

  lemma OneStep(c: Codec, l: Ledger, e: Event, stamps: seq<Line>, dropped: set<Id>)
    requires Lawful(c)
    requires Accepted(c, l.journal) <==> AllWhole(c, stamps)
    requires Accepted(c, l.journal) ==> l.journal == stamps && AgreeBut(Replay(l.journal), l.store, dropped)
    ensures var l', stamps' := Perform(c, l, e.request, e.now, e.lost), stamps + Stamping(c, l, e);
            && (Accepted(c, l'.journal) <==> AllWhole(c, stamps'))
            && (Accepted(c, l'.journal) ==>
                  l'.journal == stamps' && AgreeBut(Replay(l'.journal), l'.store, DroppedNext(l, e, dropped)))
  {
    var j, plan := l.journal, Plan(l.store, e.request, e.now);
    hide Lawful, Accepted, Landed, Replay, NewLine, Torn, Plan;
    if plan.Ok? && !HasScalar(j) && !e.lost {
      var ch := plan.value;
      var line := NewLine(c, j, e.now, ch.op, ch.id, ch.payload);
      assert line.Object? by { StampIsObject(c, j, e.now, ch.op, ch.id, ch.payload); }
      LandsWholeOrCorrupt(c, line);
      var l' := Perform(c, l, e.request, e.now, e.lost);
      assert l'.journal == j + Landed(c, line);
      assert AllWhole(c, stamps + [line]) <==> AllWhole(c, stamps) && !Torn(c, line);
      if Accepted(c, j) { StampExtends(c, j, e.now, ch.op, ch.id, ch.payload); }
      if Accepted(c, l'.journal) { PrefixesAreAccepted(c, j, Landed(c, line)); }
      if Torn(c, line) { CorruptIsNotAccepted(c, l'.journal, |j|); }
    } else if plan.Ok? && Accepted(c, j) {
      AcceptedHasNoScalar(c, j);
    }
  }

  lemma StampIsObject(c: Codec, j: seq<Line>, ts: string, op: string, id: Id, payload: Payload)
    ensures NewLine(c, j, ts, op, id, payload).Object?
  {
  }

  // ---------------------------------------------------------------------------------------------
  // What the last digest commits to
  // ---------------------------------------------------------------------------------------------

  function Preimages(c: Codec, j: seq<Line>): set<string> {
    set i | 0 <= i < |j| && j[i].Object? :: Preimage(c, Head(j[..i]), j[i].content)
  }

  /** The digest function has no collision among these texts. */
  ghost predicate NoCollision(c: Codec, texts: set<string>) {
    forall s, t :: s in texts && t in texts && c.hash(s) == c.hash(t) ==> s == t
  }

  predicate DigestShaped(s: string) { s == "" || (|s| == 64 && s[0] != '{') }

  lemma HeadIsDigest(c: Codec, j: seq<Line>)
    requires Lawful(c) && Accepted(c, j)
    ensures j == [] ==> Head(j) == ""
    ensures j != [] ==>
              j[|j| - 1].Object? && Head(j) == c.hash(Preimage(c, Head(j[..|j| - 1]), j[|j| - 1].content))
                && |Head(j)| == 64
    ensures DigestShaped(Head(j))
  {
    if j != [] { assert LinkHolds(c, j, |j| - 1); }
  }

  /** A preimage can be taken apart again. */
  lemma PreimageSplits(c: Codec, p: string, a: Content, q: string, b: Content)
    requires Lawful(c) && DigestShaped(p) && DigestShaped(q) && Preimage(c, p, a) == Preimage(c, q, b)
    ensures p == q && a == b
  {
    var x, y := Object(a, None), Object(b, None);
    var s, t := c.render(x), c.render(y);
    assert RendersObject(c, x) && RendersObject(c, y);
    assert (p + s)[0] == if p == "" then s[0] else p[0];
    assert (q + t)[0] == if q == "" then t[0] else q[0];
    assert |p| == |q|;
    assert p == (p + s)[..|p|] && q == (q + t)[..|q|];
    assert s == (p + s)[|p|..] && t == (q + t)[|q|..];
  }

  /** The last line of an accepted journal, and what comes before it. */
  lemma LastLine(c: Codec, j: seq<Line>) returns (init: seq<Line>, a: Line)
    requires Lawful(c) && j != [] && Accepted(c, j)
    ensures j == init + [a] && a.Object? && Accepted(c, init) && DigestShaped(Head(init))
    ensures a == Stamped(c, Head(init), a.content) && Head(j) == DigestOf(a)
    ensures Preimage(c, Head(init), a.content) in Preimages(c, j) && Preimages(c, init) <= Preimages(c, j)
  {
    init, a := j[..|j| - 1], j[|j| - 1];
    assert LinkHolds(c, j, |j| - 1);
    assert j == init + [a];
    PrefixesAreAccepted(c, init, [a]);
    PreimagesOfPrefix(c, init, [a]);
    HeadIsDigest(c, init);
  }

  lemma FewerTextsFewerCollisions(c: Codec, texts: set<string>, some: set<string>)
    requires NoCollision(c, texts) && some <= texts
    ensures NoCollision(c, some)
  {
  }

  /** Without collisions, two last lines with the same digest are the same, and so is what they hang on. */
  lemma SameLastLine(c: Codec, p: string, a: Line, q: string, b: Line, texts: set<string>)
    requires Lawful(c) && NoCollision(c, texts) && DigestShaped(p) && DigestShaped(q) && a.Object? && b.Object?
    requires a == Stamped(c, p, a.content) && b == Stamped(c, q, b.content) && DigestOf(a) == DigestOf(b)
    requires Preimage(c, p, a.content) in texts && Preimage(c, q, b.content) in texts
    ensures a == b && p == q
  {
    PreimageSplits(c, p, a.content, q, b.content);
  }

  lemma EmptyByHead(c: Codec, j: seq<Line>)
    requires Lawful(c) && Accepted(c, j)
    ensures Head(j) == "" <==> j == []
  {
    HeadIsDigest(c, j);
  }

  /** Two accepted journals with the same last digest are the same journal. */
  lemma {:induction false} LastDigestCommits(c: Codec, j: seq<Line>, k: seq<Line>)
    requires Lawful(c) && Accepted(c, j) && Accepted(c, k) && NoCollision(c, Preimages(c, j) + Preimages(c, k))
    requires Head(j) == Head(k)
    ensures j == k
    decreases |j|
  {
    hide Lawful, Accepted, Preimages, Head, Preimage, DigestShaped, NoCollision, Stamped, DigestOf;
    EmptyByHead(c, j);
    EmptyByHead(c, k);
    if j != [] {
      var j', a := LastLine(c, j);
      var k', b := LastLine(c, k);
      SameLastLine(c, Head(j'), a, Head(k'), b, Preimages(c, j) + Preimages(c, k));
      FewerTextsFewerCollisions(c, Preimages(c, j) + Preimages(c, k), Preimages(c, j') + Preimages(c, k'));
      LastDigestCommits(c, j', k');
    }
  }

  /** A journal up to and including line `m`. */
  lemma UpTo(c: Codec, j: seq<Line>, m: nat) returns (a: seq<Line>)
    requires Accepted(c, j) && m < |j|
    ensures a == j[..m + 1] && |a| == m + 1 && Accepted(c, a) && Head(a) == DigestOf(j[m])
    ensures Preimages(c, a) <= Preimages(c, j)
  {
    a := j[..m + 1];
    assert j == a + j[m + 1..];
    assert LinkHolds(c, j, m);
    PrefixesAreAccepted(c, a, j[m + 1..]);
    PreimagesOfPrefix(c, a, j[m + 1..]);
  }

  /** A digest met at any place of two accepted journals pins the place and everything before it. */
  lemma SharedDigestPinsHistory(c: Codec, j: seq<Line>, k: seq<Line>, m: nat, n: nat)
    requires Lawful(c) && Accepted(c, j) && Accepted(c, k) && NoCollision(c, Preimages(c, j) + Preimages(c, k))
    requires m < |j| && n < |k| && DigestOf(j[m]) == DigestOf(k[n])
    ensures m == n && j[..m + 1] == k[..n + 1]
  {
    hide Lawful, Accepted, Preimages, Head, DigestOf;
    var a := UpTo(c, j, m);
    var b := UpTo(c, k, n);
    LastDigestCommits(c, a, b);
    assert j[..m + 1] == k[..n + 1];
  }

  lemma PreimagesOfPrefix(c: Codec, j: seq<Line>, more: seq<Line>)
    ensures Preimages(c, j) <= Preimages(c, j + more)
  {
    forall i | 0 <= i < |j| && j[i].Object? ensures Preimage(c, Head(j[..i]), j[i].content) in Preimages(c, j + more) {
      assert (j + more)[..i] == j[..i] && (j + more)[i] == j[i];
    }
  }

  ghost predicate Holds(j: seq<Line>, digest: string) { exists m :: 0 <= m < |j| && DigestOf(j[m]) == digest }

  /**
   Cutting lines off the end is the only change that goes unnoticed: against a journal `j` whose
   digests are known, another journal is accepted with a last digest on record exactly when it is
   a prefix of `j`.
   */
  lemma OnlyTruncationGoesUnnoticed(c: Codec, j: seq<Line>, k: seq<Line>)
    requires Lawful(c) && Accepted(c, j) && NoCollision(c, Preimages(c, j) + Preimages(c, k)) && k != []
    ensures Accepted(c, k) && Holds(j, Head(k)) <==> k <= j
  {
    hide Lawful, NoCollision, Preimages, Head, Accepted, Holds;
    if k <= j {
      assert j == k + j[|k|..];
      PrefixesAreAccepted(c, k, j[|k|..]);
      PrefixIsHeld(c, j, k);
    }
    if Accepted(c, k) && Holds(j, Head(k)) { KnownHeadIsPrefix(c, j, k); }
  }

  lemma PrefixIsHeld(c: Codec, j: seq<Line>, k: seq<Line>)
    requires Accepted(c, j) && k <= j && k != []
    ensures Holds(j, Head(k))
  {
    assert LinkHolds(c, j, |k| - 1);
    assert DigestOf(j[|k| - 1]) == Head(k);
  }

  lemma KnownHeadIsPrefix(c: Codec, j: seq<Line>, k: seq<Line>)
    requires Lawful(c) && Accepted(c, j) && Accepted(c, k) && NoCollision(c, Preimages(c, j) + Preimages(c, k))
    requires k != [] && Holds(j, Head(k))
    ensures k <= j
  {
    hide Lawful, NoCollision, Preimages;
    var m :| 0 <= m < |j| && DigestOf(j[m]) == Head(k);
    assert LinkHolds(c, k, |k| - 1);
    hide Accepted;
    SharedDigestPinsHistory(c, j, k, m, |k| - 1);
    assert k[..|k|] == k;
  }

  // ---------------------------------------------------------------------------------------------
  // What the sequence numbers add
  // ---------------------------------------------------------------------------------------------

  /** The content is numbered `i`; JSON's booleans stand for 0 and 1. */
  predicate CarriesNumber(content: Content, i: nat) {
    Seq in content &&
    (content[Seq] == Number(i) || (i == 0 && content[Seq] == Flag(false)) || (i == 1 && content[Seq] == Flag(true)))
  }

  /** Not parsed, or an object that says so of itself. */
  predicate Unusable(l: Line) { l.Corrupt? || (l.Object? && CallsItselfCorrupt(l.content)) }

  /** A new line is chained to the last usable one, whatever lies behind it, and to nothing if there is none. */
  lemma {:induction false} ChainsToLastUsable(j: seq<Line>)
    ensures || (Head(j) == "" && forall i :: 0 <= i < |j| ==> Unusable(j[i]))
            || exists i :: 0 <= i < |j| && !Unusable(j[i]) && Head(j) == DigestIn(j[i])
                 && forall k :: i < k < |j| ==> Unusable(j[k])
  {
    if j != [] {
      var init, last := j[..|j| - 1], j[|j| - 1];
      assert forall i :: 0 <= i < |init| ==> init[i] == j[i];
      if last.Object? { NumberIsCarried(last.content, 0); }
      hide CallsItselfCorrupt, Marked;
      if Unusable(last) { ChainsToLastUsable(init); }
    }
  }

  /** An append or a check gives up exactly at a journal with a line that is JSON but no object. */
  lemma GivesUpExactly(j: seq<Line>)
    ensures HasScalar(j) <==> exists l :: l in j && l.Scalar?
  {
    if l :| l in j && l.Scalar? {
      var i :| 0 <= i < |j| && j[i] == l;
    }
  }

  /** In an accepted journal every line is an object that carries its own place. */
  lemma AcceptedIsNumbered(c: Codec, j: seq<Line>, i: nat)
    requires Accepted(c, j) && i < |j|
    ensures j[i].Object? && CarriesNumber(j[i].content, i)
  {
    assert LinkHolds(c, j, i);
  }

  /** The digest in a line, nothing for none. */
  function DigestIn(l: Line): string { if l.Object? && l.digest.Some? then l.digest.value else "" }

  /** A content in a line behind `before`: its digest covers the digest before it and its own text. */
  function Chained(c: Codec, before: seq<Line>, content: Content): Line {
    var previous := if before == [] then "" else DigestIn(before[|before| - 1]);
    Object(content, Some(c.hash(previous + c.render(Object(content, None)))))
  }

  /** A journal made of these contents alone. */
  function Restamped(c: Codec, contents: seq<Content>): seq<Line> {
    if contents == [] then []
    else
      var before := Restamped(c, contents[..|contents| - 1]);
      before + [Chained(c, before, contents[|contents| - 1])]
  }

  lemma ChainedIsStamped(c: Codec, before: seq<Line>, content: Content)
    requires Accepted(c, before)
    ensures Chained(c, before, content) == Stamped(c, Head(before), content)
  {
    if before != [] {
      assert LinkHolds(c, before, |before| - 1);
    }
  }

  predicate CallsItselfCorrupt(content: Content) {
    Other("corrupt") in content &&
    match content[Other("corrupt")]
    case Flag(b) => b
    case Number(n) => n != 0
    case Text(s) => |s| > 0
    case Dict(fields) => |fields| > 0
  }

  predicate InPlace(contents: seq<Content>) {
    forall i :: 0 <= i < |contents| ==> CarriesNumber(contents[i], i) && !CallsItselfCorrupt(contents[i])
  }

  lemma InPlaceMore(init: seq<Content>, last: Content)
    ensures InPlace(init + [last])
            <==> InPlace(init) && CarriesNumber(last, |init|) && !CallsItselfCorrupt(last)
  {
    var all := init + [last];
    assert all[|init|] == last && forall i :: 0 <= i < |init| ==> all[i] == init[i];
    hide CarriesNumber, CallsItselfCorrupt;
  }

  lemma {:induction false} RestampedKeepsContents(c: Codec, contents: seq<Content>)
    ensures |Restamped(c, contents)| == |contents|
    ensures forall i :: 0 <= i < |contents| ==>
              Restamped(c, contents)[i].Object? && Restamped(c, contents)[i].content == contents[i]
  {
    if contents != [] { RestampedKeepsContents(c, contents[..|contents| - 1]); }
  }

  /**
   Somebody who recomputes all digests gets past the check exactly with contents numbered from 0 on, none of
   them marked as corrupt.
   */
  lemma {:induction false} RestampedVerifiesExactly(c: Codec, contents: seq<Content>)
    ensures Accepted(c, Restamped(c, contents)) <==> InPlace(contents)
  {
    if contents != [] {
      var init, last := contents[..|contents| - 1], contents[|contents| - 1];
      var before := Restamped(c, init);
      var line := Chained(c, before, last);
      assert Restamped(c, contents) == before + [line];
      assert contents == init + [last];
      hide Chained, Restamped, Accepted, InPlace, CarriesNumber, CallsItselfCorrupt;
      RestampedVerifiesExactly(c, init);
      RestampedKeepsContents(c, init);
      InPlaceMore(init, last);
      if Accepted(c, before) { LastLinkExactly(c, before, last); }
      if Accepted(c, before + [line]) { PrefixesAreAccepted(c, before, [line]); }
    }
  }

  lemma LastLinkExactly(c: Codec, before: seq<Line>, last: Content)
    requires Accepted(c, before)
    ensures Accepted(c, before + [Chained(c, before, last)])
            <==> CarriesNumber(last, |before|) && !CallsItselfCorrupt(last)
  {
    var line := Chained(c, before, last);
    var j := before + [line];
    assert j[..|before|] == before && j[|before|] == line;
    NumberIsCarried(last, |before|);
    ChainedIsStamped(c, before, last);
    assert LinkHolds(c, j, |before|) <==> NumberedAt(last, |before|) && !Marked(last);
    assert Accepted(c, j) ==> LinkHolds(c, j, |before|);
    hide Chained, Stamped, Head, Accepted, LinkHolds, NumberedAt, Marked;
    if NumberedAt(last, |before|) && !Marked(last) {
      StampIsAccepted(c, before, line);
    }
  }

  lemma NumberIsCarried(content: Content, i: nat)
    ensures NumberedAt(content, i) <==> CarriesNumber(content, i)
    ensures Marked(content) <==> CallsItselfCorrupt(content)
  {
  }

  function Contents(j: seq<Line>): seq<Content> {
    if j == [] then []
    else Contents(j[..|j| - 1]) + match j[|j| - 1] case Object(content, _) => [content] case _ => []
  }

  lemma {:induction false} ContentsAre(j: seq<Line>)
    requires forall i :: 0 <= i < |j| ==> j[i].Object?
    ensures |Contents(j)| == |j| && forall i :: 0 <= i < |j| ==> Contents(j)[i] == j[i].content
  {
    if j != [] { ContentsAre(j[..|j| - 1]); }
  }

  lemma {:induction false} AcceptedIsRestamped(c: Codec, j: seq<Line>)
    requires Accepted(c, j)
    ensures j == Restamped(c, Contents(j)) && forall i :: 0 <= i < |j| ==> j[i].Object?
  {
    forall i | 0 <= i < |j| ensures j[i].Object? { AcceptedIsNumbered(c, j, i); }
    if j != [] {
      var init, last := j[..|j| - 1], j[|j| - 1];
      assert j == init + [last] && LinkHolds(c, j, |j| - 1);
      ContentsAre(j);
      assert Contents(j)[..|init|] == Contents(init);
      PrefixesAreAccepted(c, init, [last]);
      ChainedIsStamped(c, init, last.content);
      hide Chained, Stamped, Head, Accepted;
      AcceptedIsRestamped(c, init);
    }
  }

  /**
   A journal is accepted exactly when it is a chain of objects made from its own contents, which are numbered
   from 0 on and not marked as corrupt.
   */
  lemma AcceptedExactly(c: Codec, j: seq<Line>)
    ensures Accepted(c, j) <==> j == Restamped(c, Contents(j)) && InPlace(Contents(j))
  {
    hide Accepted, InPlace, Restamped, Contents;
    RestampedVerifiesExactly(c, Contents(j));
    if Accepted(c, j) { AcceptedIsRestamped(c, j); }
  }

  /** Taking any line but the last out of an accepted journal is noticed even if all digests are made anew. */
  lemma DroppedLineIsNoticed(c: Codec, j: seq<Line>, d: nat)
    requires Accepted(c, j) && d < |j| - 1
    ensures !Accepted(c, Restamped(c, Contents(j[..d] + j[d + 1..])))
  {
    var rest := j[..d] + j[d + 1..];
    forall i | 0 <= i < |j| ensures j[i].Object? { AcceptedIsNumbered(c, j, i); }
    forall i | 0 <= i < |rest| ensures rest[i].Object? { assert rest[i] == if i < d then j[i] else j[i + 1]; }
    ContentsAre(rest);
    RestampedVerifiesExactly(c, Contents(rest));
    assert InPlace(Contents(rest)) ==> CarriesNumber(Contents(rest)[d], d);
    AcceptedIsNumbered(c, j, d + 1);
    assert Contents(rest)[d] == j[d + 1].content;
    assert !CarriesNumber(j[d + 1].content, d);
  }

  // ---------------------------------------------------------------------------------------------
  // Debts
  // ---------------------------------------------------------------------------------------------

  predicate Resolved(store: map<Id, Payload>, slug: string) {
    Id(Debt, slug) in store && "state" in store[Id(Debt, slug)] && store[Id(Debt, slug)]["state"] == "resolved"
  }

  /** Nothing but a debt operation on its own slug touches a debt, and a present debt is only ever resolved. */
  lemma DebtStep(c: Codec, l: Ledger, e: Event, slug: string)
    requires Present(l.store, Id(Debt, slug))
    ensures var store' := Perform(c, l, e.request, e.now, e.lost).store;
            && Present(store', Id(Debt, slug))
            && (store'[Id(Debt, slug)] == l.store[Id(Debt, slug)]
                || (e.request == ResolveDebt(slug) && Resolved(store', slug)))
  {
    assert |Debt| != |Exemption|;
    if e.request.ResolveDebt? && e.request.slug == slug {
      assert "state" in Perform(c, l, e.request, e.now, e.lost).store[Id(Debt, slug)];
    }
  }

  /** A resolved debt stays resolved and is never overdue again, whatever is asked afterwards. */
  lemma {:induction false} ResolvedForGood(c: Codec, l: Ledger, events: seq<Event>, slug: string, today: string)
    requires Resolved(l.store, slug)
    ensures Resolved(Run(c, l, events).store, slug)
    ensures !Overdue(Run(c, l, events).store[Id(Debt, slug)], today)
  {
    if events != [] {
      ResolvedForGood(c, l, events[..|events| - 1], slug, today);
      var mid := Run(c, l, events[..|events| - 1]);
      assert "state" in mid.store[Id(Debt, slug)];
      DebtStep(c, mid, events[|events| - 1], slug);
    }
  }

  lemma PresentStep(c: Codec, l: Ledger, e: Event, id: Id)
    requires Present(l.store, id)
    ensures Present(Perform(c, l, e.request, e.now, e.lost).store, id)
  {
    var plan := Plan(l.store, e.request, e.now);
    if plan.Ok? && plan.value.id == id { PayloadsAreNotEmpty(l.store, e.request, e.now); }
  }

  lemma SomeKey(m: Payload) returns (k: string)
    requires m != map[]
    ensures k in m
  {
    assert m.Keys == {} ==> m == map[];
    k :| k in m;
  }

  lemma PayloadsAreNotEmpty(store: map<Id, Payload>, r: Request, now: string)
    requires Plan(store, r, now).Ok?
    ensures Plan(store, r, now).value.payload != map[]
  {
    var p := Plan(store, r, now).value.payload;
    match r
    case UpdateExemption(guard, path, fields) =>
      var rec := store[ExemptionId(guard, path)];
      var k := SomeKey(rec);
      assert k in rec + fields;
    case _ => assert "state" in p;
  }

  /** Records are overwritten, never lost: what is present once is present for the rest of the run. */
  lemma {:induction false} PresentForGood(c: Codec, l: Ledger, events: seq<Event>, id: Id)
    requires Present(l.store, id)
    ensures Present(Run(c, l, events).store, id)
  {
    if events != [] {
      PresentForGood(c, l, events[..|events| - 1], id);
      PresentStep(c, Run(c, l, events[..|events| - 1]), events[|events| - 1], id);
    }
  }

  lemma {:induction false} RunAppend(c: Codec, l: Ledger, a: seq<Event>, b: seq<Event>)
    ensures Run(c, l, a + b) == Run(c, Run(c, l, a), b)
  {
    if b == [] {
      assert a + b == a;
    } else {
      RunAppend(c, l, a, b[..|b| - 1]);
      assert (a + b)[..|a + b| - 1] == a + b[..|b| - 1];
    }
  }

  /** In a whole run, resolved or not, a slug is added at most once. */
  lemma OneAddPerSlug(c: Codec, l: Ledger, events: seq<Event>, i: nat, k: nat)
    requires i < k < |events| && events[i].request.AddDebt? && events[k].request.AddDebt?
    requires events[i].request.slug == events[k].request.slug
    requires Plan(Run(c, l, events[..i]).store, events[i].request, events[i].now).Ok?
    ensures Plan(Run(c, l, events[..k]).store, events[k].request, events[k].now).Err?
  {
    var slug := events[i].request.slug;
    var upTo, between := events[..i + 1], events[i + 1..k];
    assert upTo[..i] == events[..i] && upTo + between == events[..k];
    AddedIsPresent(c, Run(c, l, upTo[..i]), upTo[i]);
    assert Run(c, l, upTo) == Perform(c, Run(c, l, upTo[..i]), upTo[i].request, upTo[i].now, upTo[i].lost);
    hide Run, Perform, Plan;
    PresentForGood(c, Run(c, l, upTo), between, Id(Debt, slug));
    RunAppend(c, l, upTo, between);
    PresentIsRefused(Run(c, l, events[..k]).store, events[k]);
  }

  lemma AddedIsPresent(c: Codec, l: Ledger, e: Event)
    requires e.request.AddDebt? && Plan(l.store, e.request, e.now).Ok?
    ensures Present(Perform(c, l, e.request, e.now, e.lost).store, Id(Debt, e.request.slug))
  {
    PayloadsAreNotEmpty(l.store, e.request, e.now);
  }

  lemma PresentIsRefused(store: map<Id, Payload>, e: Event)
    requires e.request.AddDebt? && Present(store, Id(Debt, e.request.slug))
    ensures Plan(store, e.request, e.now).Err?
  {
  }

  // ---------------------------------------------------------------------------------------------
  // A broken chain
  // ---------------------------------------------------------------------------------------------

  /** Once a stamped line holds such a character, every later check fails, whatever is done next. */
  lemma TornOnceBrokenForGood(c: Codec, events: seq<Event>, more: seq<Event>)
    requires Lawful(c) && !AllWhole(c, Stamps(c, events))
    ensures !Accepted(c, Run(c, Empty, events + more).journal)
  {
    StampsGrow(c, events, more);
    VerifiesExactlyWhenWhole(c, events + more);
  }

  /** A payload string holds `ch`. */
  predicate InPayload(payload: Payload, ch: char) { exists k :: k in payload && ch in payload[k] }

  /** Rendering keeps the characters it does not escape. */
  ghost predicate KeepsUnescaped(c: Codec) {
    forall l: Line, ch :: IsRecord(l) && ch in Unescaped && InPayload(l.content[Body].fields, ch) ==> ch in c.render(l)
  }

  /** Such a character in the reason of an accepted debt is enough. */
  lemma SeparatorInReasonBreaks(c: Codec, events: seq<Event>, more: seq<Event>, e: Event, ch: char)
    requires Lawful(c) && KeepsUnescaped(c) && AllWhole(c, Stamps(c, events))
    requires e.request.AddDebt? && !e.lost && ch in e.request.reason && ch in {'\U{0085}', '\U{2028}', '\U{2029}'}
    requires Plan(Run(c, Empty, events).store, e.request, e.now).Ok?
    ensures !Accepted(c, Run(c, Empty, events + [e] + more).journal)
  {
    VerifiesExactlyWhenWhole(c, events);
    var l := Run(c, Empty, events);
    assert (events + [e])[..|events|] == events;
    hide Lawful, KeepsUnescaped, Accepted, Run, Plan;
    AcceptedHasNoScalar(c, l.journal);
    TornStamp(c, l, e, ch);
    TornOnceBrokenForGood(c, events + [e], more);
  }

  lemma TornStamp(c: Codec, l: Ledger, e: Event, ch: char)
    requires KeepsUnescaped(c) && !HasScalar(l.journal) && Accepted(c, l.journal) && ch in Unescaped
    requires e.request.AddDebt? && !e.lost && ch in e.request.reason && Plan(l.store, e.request, e.now).Ok?
    ensures |Stamping(c, l, e)| == 1 && Torn(c, Stamping(c, l, e)[0])
  {
    var plan := Plan(l.store, e.request, e.now).value;
    assert "reason" in plan.payload && plan.payload["reason"] == e.request.reason;
    assert InPayload(plan.payload, ch);
    StampExtends(c, l.journal, e.now, plan.op, plan.id, plan.payload);
    var line := NewLine(c, l.journal, e.now, plan.op, plan.id, plan.payload);
    assert line.content[Body].fields == plan.payload;
    assert ch in c.render(line) && ch in Breaks;
  }

  lemma {:induction false} StampsGrow(c: Codec, a: seq<Event>, b: seq<Event>)
    ensures Stamps(c, a) <= Stamps(c, a + b)
  {
    if b == [] {
      assert a + b == a;
    } else {
      StampsGrow(c, a, b[..|b| - 1]);
      assert (a + b)[..|a + b| - 1] == a + b[..|b| - 1];
    }
  }
}
