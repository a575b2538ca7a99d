/**
 Which commits a push is judged by, in terms of the commit graph, and which pushes are refused.
 */
module GateLaws {
  import opened Base
  import opened ReviewProtocol
  import opened ReviewLaws
  import opened ReviewGate

  // ---------------------------------------------------------------------------------------------
  // The commit graph
  // ---------------------------------------------------------------------------------------------

  /** Each commit's parents. */
  type Graph = string -> set<string>

  /** A walk from a commit to an ancestor of it, parent by parent. */
  predicate Descends(g: Graph, walk: seq<string>, from: string, to: string) {
    && walk != [] && walk[0] == from && walk[|walk| - 1] == to
    && forall i :: 0 <= i < |walk| - 1 ==> walk[i + 1] in g(walk[i])
  }

  ghost predicate Reaches(g: Graph, from: string, to: string) { exists walk :: Descends(g, walk, from, to) }

  lemma ReachesItself(g: Graph, c: string)
    ensures Reaches(g, c, c)
  {
    assert Descends(g, [c], c, c);
  }

  ghost predicate OnSomeRemote(g: Graph, remotes: set<string>, c: string) {
    exists r :: r in remotes && Reaches(g, r, c)
  }

  /**
   What git answers: `between(a, b)` is what `b` reaches and `a` does not, `unpushed(b)` what `b` reaches and
   no remote tip does; each commit once.
   */
  ghost predicate AnswersFrom(h: History, g: Graph, remotes: set<string>) {
    && (forall a, b, c :: c in h.between(a, b) <==> Reaches(g, b, c) && !Reaches(g, a, c))
    && (forall b, c :: c in h.unpushed(b) <==> Reaches(g, b, c) && !OnSomeRemote(g, remotes, c))
    && (forall a, b :: NoDuplicates(h.between(a, b))) && (forall b :: NoDuplicates(h.unpushed(b)))
  }

  /** The sha git writes for a ref that does not exist. */
  ghost predicate AllZeros(sha: string) { sha != "" && forall ch :: ch in sha ==> ch == '0' }

  /** One pushed line: what it wants to put where. */
  datatype Pushed = Pushed(localRef: string, localTip: string, remoteRef: string, remoteTip: string)

  function FieldsOf(p: Pushed): Fields { [p.localRef, p.localTip, p.remoteRef, p.remoteTip] }

  /**
   The commits a pushed line brings: none when the ref is deleted; for a new ref what no remote has yet;
   else what the remote tip does not reach.
   */
  ghost predicate Brings(g: Graph, remotes: set<string>, p: Pushed, c: string) {
    && !AllZeros(p.localTip) && Reaches(g, p.localTip, c)
    && if AllZeros(p.remoteTip) then !OnSomeRemote(g, remotes, c) else !Reaches(g, p.remoteTip, c)
  }

  lemma ZeroIsAllZeros(sha: string)
    ensures Zero(sha) <==> AllZeros(sha)
  {
    if AllZeros(sha) { assert forall i :: 0 <= i < |sha| ==> sha[i] in sha; }
  }

  /** The commits listed for a pushed line are exactly those it brings. */
  lemma ListedExactly(h: History, g: Graph, remotes: set<string>, p: Pushed, c: string)
    requires AnswersFrom(h, g, remotes)
    ensures c in Listed(h, FieldsOf(p)) <==> Brings(g, remotes, p, c)
    ensures NoDuplicates(Listed(h, FieldsOf(p)))
  {
    ZeroIsAllZeros(p.localTip);
    ZeroIsAllZeros(p.remoteTip);
  }

  // ---------------------------------------------------------------------------------------------
  // Which commits are turned away
  // ---------------------------------------------------------------------------------------------

  /** The name under which a commit is reviewed: its first seven characters. */
  function NameOf(sha: string): Commit { if |sha| > 7 then sha[..7] else sha }

  /** The newest result of the commit's review is a failure nobody acknowledged, or the review is still to come. */
  ghost predicate Unsettled(f: Files, sha: string) {
    var shelf := ShelfOf(f, NameOf(sha));
    if shelf.Keys == {} then HasMarker(f, NameOf(sha))
    else
      NameOf(sha) !in f.acks
      && exists last :: last in shelf && (forall s :: s in shelf ==> s <= last) && shelf[last] == Whole(Fail)
  }

  lemma RefusedExactly(f: Files, sha: string)
    ensures Refused(f, sha) <==> Unsettled(f, sha)
  {
    assert Short(sha) == NameOf(sha);
    EvidenceExactly(f, NameOf(sha));
    hide EvidenceOf, ShelfOf;
  }

  // ---------------------------------------------------------------------------------------------
  // Which pushes are refused
  // ---------------------------------------------------------------------------------------------

  function Input(push: seq<Pushed>): seq<Fields> {
    seq(|push|, i requires 0 <= i < |push| => FieldsOf(push[i]))
  }

  /** No line brings more commits than are looked at. */
  ghost predicate Small(h: History, push: seq<Pushed>) {
    forall i :: 0 <= i < |push| ==> |Listed(h, FieldsOf(push[i]))| <= 500
  }

  ghost predicate BringsUnsettled(f: Files, g: Graph, remotes: set<string>, push: seq<Pushed>) {
    exists i, c :: 0 <= i < |push| && Brings(g, remotes, push[i], c) && Unsettled(f, c)
  }

  /**
   A push of which no line brings more than 500 commits is refused exactly when it brings a commit whose
   review is unsettled.
   */
  lemma RefusedPushExactly(f: Files, h: History, g: Graph, remotes: set<string>, push: seq<Pushed>)
    requires AnswersFrom(h, g, remotes) && Small(h, push)
    ensures (exists sha :: InSomeRange(h, Input(push), sha) && Refused(f, sha))
            <==> BringsUnsettled(f, g, remotes, push)
  {
    hide AnswersFrom, Unsettled, Refused, Brings;
    if sha :| InSomeRange(h, Input(push), sha) && Refused(f, sha) {
      var i :| 0 <= i < |push| && sha in PushRange(h, Input(push)[i]);
      assert Input(push)[i] == FieldsOf(push[i]);
      ListedExactly(h, g, remotes, push[i], sha);
      RefusedExactly(f, sha);
    }
    if i, c :| 0 <= i < |push| && Brings(g, remotes, push[i], c) && Unsettled(f, c) {
      assert Input(push)[i] == FieldsOf(push[i]);
      ListedExactly(h, g, remotes, push[i], c);
      RefusedExactly(f, c);
      assert InSomeRange(h, Input(push), c);
    }
  }

  /** So a small push is refused when the tip it pushes is new and has an unread failure. */
  lemma UnreadTipIsRefused(f: Files, h: History, g: Graph, remotes: set<string>, push: seq<Pushed>, i: nat)
    requires AnswersFrom(h, g, remotes) && Small(h, push) && i < |push|
    requires !AllZeros(push[i].localTip) && Unsettled(f, push[i].localTip)
    requires if AllZeros(push[i].remoteTip) then !OnSomeRemote(g, remotes, push[i].localTip)
             else !Reaches(g, push[i].remoteTip, push[i].localTip)
    ensures exists sha :: InSomeRange(h, Input(push), sha) && Refused(f, sha)
  {
    ReachesItself(g, push[i].localTip);
    assert Brings(g, remotes, push[i], push[i].localTip);
    hide Unsettled, Refused;
    RefusedPushExactly(f, h, g, remotes, push);
  }

  /**
   After any run of the review protocol, a small push of commits under review is let through exactly when
   each of them has a newest result that is green, acknowledged, or cut short.
   */
  lemma PushAfterRun(ops: seq<Op>, h: History, g: Graph, remotes: set<string>, push: seq<Pushed>)
    requires AnswersFrom(h, g, remotes) && Small(h, push)
    requires forall i, c :: 0 <= i < |push| && Brings(g, remotes, push[i], c) ==>
               NameOf(c) in Run(Start, ops).planted
    ensures var f := Run(Start, ops).files;
            (exists sha :: InSomeRange(h, Input(push), sha) && Refused(f, sha)) <==>
              exists i, c :: 0 <= i < |push| && Brings(g, remotes, push[i], c)
                && !LetThrough(f, NameOf(c))
  {
    var f := Run(Start, ops).files;
    hide AnswersFrom, Brings, Small, Refused, Unsettled, InSomeRange;
    RefusedPushExactly(f, h, g, remotes, push);
    forall i, c | 0 <= i < |push| && Brings(g, remotes, push[i], c)
      ensures Unsettled(f, c) <==> !LetThrough(f, NameOf(c))
    {
      SettledExactly(ops, c);
    }
  }

  predicate LetThrough(f: Files, name: Commit) {
    var newest := Newest(f, name);
    newest == Some(Whole(Pass)) || newest == Some(Torn) || (newest == Some(Whole(Fail)) && name in f.acks)
  }

  lemma SettledExactly(ops: seq<Op>, c: string)
    requires NameOf(c) in Run(Start, ops).planted
    ensures var f := Run(Start, ops).files; Unsettled(f, c) <==> !LetThrough(f, NameOf(c))
  {
    var f := Run(Start, ops).files;
    GateDecidesPlanted(ops, NameOf(c));
    RefusedExactly(f, c);
    assert Short(c) == NameOf(c);
  }

  // ---------------------------------------------------------------------------------------------
  // Acknowledging what is pushed
  // ---------------------------------------------------------------------------------------------

  /** A failure acknowledged under a name git resolves to the commit no longer refuses that commit. */
  lemma AckedIsLetThrough(f: Files, resolve: string -> Option<string>, shas: seq<string>, given: string, sha: string)
    requires given in shas && resolve(given) == Some(sha)
    requires EvidenceOf(f, NameOf(sha)) == FailUnacked
    ensures !Refused(f.(acks := f.acks + AckedBy(resolve, shas)), sha)
  {
    assert Short(sha) == NameOf(sha) && Short(Full(resolve, given)) in AckedBy(resolve, shas);
    AckSettlesOnlyFailures(f, AckedBy(resolve, shas), NameOf(sha));
  }
}
