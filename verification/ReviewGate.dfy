/**
 The push gate of scripts/exempt_review_gate.py: reading the pushed ranges from a pipe, checking
 each commit's evidence, and acknowledging failures.
 */
module ReviewGate {
  import opened Base
  import opened ReviewProtocol
  import opened Splitting

  // ---------------------------------------------------------------------------------------------
  // Splitting a byte stream into lines
  // ---------------------------------------------------------------------------------------------

  type Byte = bv8

  const Newline: Byte := 10

  /** What `select` and `read` give: bytes, no bytes for end of file, or nothing before the deadline. */
  datatype Input = Arrived(bytes: seq<Byte>) | TimedOut

  predicate Ends(input: Input) { input.TimedOut? || input.bytes == [] }

  /** All bytes that arrive before the first end of file or timeout. */
  function Received(inputs: seq<Input>): seq<Byte> {
    if inputs == [] || Ends(inputs[0]) then [] else inputs[0].bytes + Received(inputs[1..])
  }

  /** The newline split with an empty tail dropped. */
  function Lines(b: seq<Byte>): seq<seq<Byte>> { Split(b, {Newline}) }

  /** The lines, each ended by a newline. */
  function Unlines(ls: seq<seq<Byte>>): seq<Byte> {
    if ls == [] then [] else ls[0] + [Newline] + Unlines(ls[1..])
  }

  predicate Plain(ls: seq<seq<Byte>>) { forall l :: l in ls ==> Newline !in l }

  /** `ls` is a reading of `b`: every line ends in a newline, except that a last, non-empty one need not. */
  predicate Reads(b: seq<Byte>, ls: seq<seq<Byte>>) {
    && Plain(ls)
    && (b == Unlines(ls) || (ls != [] && ls[|ls| - 1] != [] && b + [Newline] == Unlines(ls)))
  }

  lemma SplitPlain(line: seq<Byte>, rest: seq<Byte>)
    requires Newline !in line
    ensures Lines(line + [Newline] + rest) == [line] + Lines(rest)
  {
    SplitFirst(line, Newline, rest, {Newline});
  }

  /** The split is the one and only reading. */
  lemma {:induction false} LinesIsTheReading(b: seq<Byte>, ls: seq<seq<Byte>>)
    ensures Reads(b, ls) <==> ls == Lines(b)
    ensures Newline == 10
    decreases |ls|, 1
  {
    if Reads(b, ls) { ReadingIsLines(b, ls); }
    LinesReads(b);
  }

  /** A reading of one line or more, with its first line taken off. */
  lemma FirstOfReading(b: seq<Byte>, ls: seq<seq<Byte>>) returns (rest: seq<Byte>)
    requires Reads(b, ls) && ls != [] && (|ls| > 1 || b == Unlines(ls))
    ensures Newline !in ls[0] && b == ls[0] + [Newline] + rest && Reads(rest, ls[1..])
  {
    var after := Unlines(ls[1..]);
    assert Unlines(ls) == ls[0] + [Newline] + after;
    if b == Unlines(ls) {
      rest := after;
    } else {
      assert after != [] by { assert Unlines(ls[1..]) == ls[1] + [Newline] + Unlines(ls[1..][1..]); }
      rest := after[..|after| - 1];
      LastByte(b, ls[0] + [Newline], after);
    }
  }

  lemma LastByte(b: seq<Byte>, front: seq<Byte>, after: seq<Byte>)
    requires b + [Newline] == front + after && after != []
    ensures b == front + after[..|after| - 1] && after[..|after| - 1] + [Newline] == after
  {
    assert b == (b + [Newline])[..|b|];
    assert after[|after| - 1] == (b + [Newline])[|b|];
  }

  lemma LastLineOpen(b: seq<Byte>, line: seq<Byte>)
    requires Newline !in line && line != [] && b + [Newline] == Unlines([line])
    ensures [line] == Lines(b)
  {
    assert Unlines([line]) == line + [Newline] + Unlines([line][1..]) && [line][1..] == [];
    assert b == (b + [Newline])[..|b|] == line;
  }

  lemma {:induction false} ReadingIsLines(b: seq<Byte>, ls: seq<seq<Byte>>)
    requires Reads(b, ls)
    ensures ls == Lines(b)
    decreases |ls|
  {
    if |ls| > 1 || (|ls| == 1 && b == Unlines(ls)) {
      hide Unlines, Lines;
      var rest := FirstOfReading(b, ls);
      ReadingIsLines(rest, ls[1..]);
      SplitPlain(ls[0], rest);
      assert ls == [ls[0]] + ls[1..];
      assert ls == Lines(b);
    } else if ls != [] {
      assert ls == [ls[0]];
      LastLineOpen(b, ls[0]);
    }
  }

  lemma ReadsMore(line: seq<Byte>, rest: seq<Byte>, ls: seq<seq<Byte>>)
    requires Newline !in line && Reads(rest, ls)
    ensures Reads(line + [Newline] + rest, [line] + ls)
  {
    var b, all := line + [Newline] + rest, [line] + ls;
    assert all[1..] == ls;
    assert Unlines(all) == line + [Newline] + Unlines(ls);
    if rest != Unlines(ls) {
      assert all[|all| - 1] == ls[|ls| - 1];
      assert b + [Newline] == line + [Newline] + (rest + [Newline]);
    }
  }

  lemma {:induction false} LinesReads(b: seq<Byte>)
    ensures Reads(b, Lines(b))
    decreases |b|
  {
    if Newline in b {
      var k := FirstCut(b, {Newline});
      hide Reads, Unlines;
      LinesReads(b[k + 1..]);
      ReadsMore(b[..k], b[k + 1..], Lines(b[k + 1..]));
      assert b == b[..k] + [Newline] + b[k + 1..];
    } else if b != [] {
      assert Lines(b)[1..] == [];
      assert Unlines(Lines(b)) == b + [Newline];
    }
  }

  /** The lines read so far and the unfinished tail stand for everything received. */
  ghost predicate Consumed(b: seq<Byte>, lines: seq<seq<Byte>>, buf: seq<Byte>) {
    b == Unlines(lines) + buf && Plain(lines)
  }

  lemma {:induction false} UnlinesAppend(lines: seq<seq<Byte>>, line: seq<Byte>)
    ensures Unlines(lines + [line]) == Unlines(lines) + line + [Newline]
  {
    if lines == [] {
      assert Unlines([line]) == line + [Newline];
    } else {
      UnlinesAppend(lines[1..], line);
      assert (lines + [line])[1..] == lines[1..] + [line];
    }
  }

  lemma ConsumedAll(b: seq<Byte>, lines: seq<seq<Byte>>, buf: seq<Byte>)
    requires Consumed(b, lines, buf) && Newline !in buf
    ensures Lines(b) == if buf == [] then lines else lines + [buf]
  {
    UnlinesAppend(lines, buf);
    var ls := if buf == [] then lines else lines + [buf];
    assert Reads(b, ls) by {
      if buf != [] { assert b + [Newline] == Unlines(ls); }
    }
    ReadingIsLines(b, ls);
  }

  lemma {:induction false} ReceivedMore(inputs: seq<Input>, i: nat)
    requires i < |inputs| && !Ends(inputs[i]) && forall j :: 0 <= j < i ==> !Ends(inputs[j])
    ensures Received(inputs[..i + 1]) == Received(inputs[..i]) + inputs[i].bytes
  {
    if i > 0 {
      ReceivedMore(inputs[1..], i - 1);
      assert inputs[1..][..i] == inputs[..i + 1][1..] && inputs[1..][..i - 1] == inputs[..i][1..];
    } else {
      assert inputs[..1][1..] == [];
    }
  }

  lemma {:induction false} ReceivedUpTo(inputs: seq<Input>, i: nat)
    requires i <= |inputs| && (i < |inputs| ==> Ends(inputs[i]))
    requires forall j :: 0 <= j < i ==> !Ends(inputs[j])
    ensures Received(inputs) == Received(inputs[..i])
  {
    if i > 0 {
      ReceivedUpTo(inputs[1..], i - 1);
      assert inputs[1..][..i - 1] == inputs[..i][1..];
    }
  }

  lemma ConsumeChunk(b: seq<Byte>, chunk: seq<Byte>, lines: seq<seq<Byte>>, buf: seq<Byte>)
    requires Consumed(b, lines, buf)
    ensures Consumed(b + chunk, lines, buf + chunk)
  {
  }

  lemma ConsumeLine(b: seq<Byte>, lines: seq<seq<Byte>>, buf: seq<Byte>)
    requires Consumed(b, lines, buf) && Newline in buf
    ensures var k := FirstCut(buf, {Newline}); Consumed(b, lines + [buf[..k]], buf[k + 1..])
  {
    hide FirstCut, Unlines;
    var k := FirstCut(buf, {Newline});
    UnlinesAppend(lines, buf[..k]);
    assert buf == buf[..k] + [Newline] + buf[k + 1..];
  }

  /** Every line as text. */
  function Decoded(decode: seq<Byte> -> string, ls: seq<seq<Byte>>): seq<string> {
    seq(|ls|, i requires 0 <= i < |ls| => decode(ls[i]))
  }

  /**
   Reads until end of file or timeout; the result is the split of everything received, each line
   decoded on its own.
   */
  method ReadStdinLines(inputs: seq<Input>, decode: seq<Byte> -> string) returns (lines: seq<string>)
    ensures lines == Decoded(decode, Lines(Received(inputs)))
  {
    hide Consumed, Lines, Received;
    lines := [];
    var buf: seq<Byte> := [];
    ghost var b: seq<Byte>, raw: seq<seq<Byte>> := [], [];
    NothingConsumed(inputs);
    var i := 0;
    while i < |inputs| && !Ends(inputs[i])
      invariant 0 <= i <= |inputs| && forall j :: 0 <= j < i ==> !Ends(inputs[j])
      invariant b == Received(inputs[..i]) && Consumed(b, raw, buf) && Newline !in buf
      invariant lines == Decoded(decode, raw)
    {
      ReceivedMore(inputs, i);
      ConsumeChunk(b, inputs[i].bytes, raw, buf);
      b := b + inputs[i].bytes;
      buf := buf + inputs[i].bytes;
      i := i + 1;
      while Newline in buf
        invariant Consumed(b, raw, buf) && lines == Decoded(decode, raw)
        decreases |buf|
      {
        ConsumeLine(b, raw, buf);
        var k := FirstCut(buf, {Newline});
        raw := raw + [buf[..k]];
        lines, buf := lines + [decode(buf[..k])], buf[k + 1..];
      }
    }
    ReceivedUpTo(inputs, i);
    ConsumedAll(b, raw, buf);
    if buf != [] { lines := lines + [decode(buf)]; }
  }

  lemma NothingConsumed(inputs: seq<Input>)
    ensures Received(inputs[..0]) == [] && Consumed([], [], [])
  {
  }

  function Flat(chunks: seq<seq<Byte>>): seq<Byte> {
    if chunks == [] then [] else chunks[0] + Flat(chunks[1..])
  }

  /** However the bytes are cut into chunks, and whatever would come after the end, the same bytes are received. */
  lemma {:induction false} ChunkingIsInvisible(chunks: seq<seq<Byte>>, end: Input, rest: seq<Input>)
    requires end == TimedOut || end == Arrived([])
    requires forall i :: 0 <= i < |chunks| ==> chunks[i] != []
    ensures Received(seq(|chunks|, i requires 0 <= i < |chunks| => Arrived(chunks[i])) + [end] + rest) == Flat(chunks)
  {
    var inputs := seq(|chunks|, i requires 0 <= i < |chunks| => Arrived(chunks[i])) + [end] + rest;
    if chunks != [] {
      var tail := chunks[1..];
      ChunkingIsInvisible(tail, end, rest);
      assert inputs[1..] == seq(|tail|, i requires 0 <= i < |tail| => Arrived(tail[i])) + [end] + rest;
    }
  }

  // ---------------------------------------------------------------------------------------------
  // The pushed commits
  // ---------------------------------------------------------------------------------------------

  const RangeCap := 500

  /** One `local_ref local_sha remote_ref remote_sha` line, already split at blanks. */
  type Fields = seq<string>

  predicate Zero(sha: string) { sha != "" && forall i :: 0 <= i < |sha| ==> sha[i] == '0' }

  /** `rev-list` answers newest first: what is new to every remote, or what lies between two commits. */
  datatype History = History(unpushed: string -> seq<string>, between: (string, string) -> seq<string>)

  function Listed(h: History, p: Fields): seq<string>
    requires |p| >= 4
  {
    if Zero(p[1]) then [] else if Zero(p[3]) then h.unpushed(p[1]) else h.between(p[3], p[1])
  }

  function Capped(shas: seq<string>): seq<string> {
    if |shas| <= RangeCap then shas else shas[|shas| - RangeCap..]
  }

  function PushRange(h: History, p: Fields): seq<string>
    requires |p| >= 4
  {
    Capped(Listed(h, p))
  }

  /**
   A commit listed once survives the cap exactly when fewer than 500 older ones follow it, so the
   newest commit of a push is looked at only if the push has at most 500.
   */
  lemma CapKeepsTheOldest(shas: seq<string>, i: nat)
    requires i < |shas| && NoDuplicates(shas)
    ensures shas[i] in Capped(shas) <==> |shas| - 1 - i < 500
    ensures shas[0] in Capped(shas) <==> |shas| <= 500
  {
    var kept := Capped(shas);
    if |shas| > RangeCap {
      forall j | 0 <= j < |kept| ensures kept[j] == shas[|shas| - RangeCap + j] {}
      if |shas| - 1 - i < RangeCap { assert kept[i - (|shas| - RangeCap)] == shas[i]; }
    }
  }

  // ---------------------------------------------------------------------------------------------
  // The verdict
  // ---------------------------------------------------------------------------------------------

  function Short(sha: string): Commit { if |sha| <= 7 then sha else sha[..7] }

  /** The commit is looked at and turned away. */
  predicate Refused(f: Files, sha: string) { !Decide(EvidenceOf(f, Short(sha))) }

  ghost predicate InSomeRange(h: History, input: seq<Fields>, sha: string) {
    exists i :: 0 <= i < |input| && |input[i]| >= 4 && sha in PushRange(h, input[i])
  }

  class Gate {
    var files: Files

    constructor (f: Files)
      ensures files == f
    {
      files := f;
    }

    method CollectCommits(h: History, input: seq<Fields>) returns (commits: seq<string>)
      ensures forall sha :: sha in commits <==> InSomeRange(h, input, sha)
    {
      commits := [];
      for k := 0 to |input|
        invariant forall sha :: sha in commits <==> InSomeRange(h, input[..k], sha)
      {
        assert input[..k + 1] == input[..k] + [input[k]];
        ghost var before := commits;
        if |input[k]| >= 4 { commits := commits + PushRange(h, input[k]); }
        forall sha ensures sha in commits <==> InSomeRange(h, input[..k + 1], sha) {
          if InSomeRange(h, input[..k], sha) {
            var i :| 0 <= i < k && |input[i]| >= 4 && sha in PushRange(h, input[i]);
            assert input[..k + 1][i] == input[i];
          }
          if |input[k]| >= 4 && sha in PushRange(h, input[k]) { assert input[..k + 1][k] == input[k]; }
          if InSomeRange(h, input[..k + 1], sha) {
            var i :| 0 <= i < k + 1 && |input[i]| >= 4 && sha in PushRange(h, input[..k + 1][i]);
            if i < k { assert input[..k][i] == input[i]; }
          }
        }
      }
      assert input[..|input|] == input;
    }

    /** Refuses the push exactly when some commit in some range has an unread failure or an unfinished review. */
    method Check(bypass: bool, h: History, input: seq<Fields>) returns (code: int)
      ensures code == 0 || code == 1
      ensures code == 1 <==> !bypass && exists sha :: InSomeRange(h, input, sha) && Refused(files, sha)
    {
      if bypass { return 0; }
      var commits := CollectCommits(h, input);
      var blocked := 0;
      for k := 0 to |commits|
        invariant 0 <= blocked <= k
        invariant blocked > 0 <==> exists j :: 0 <= j < k && Refused(files, commits[j])
      {
        if Refused(files, commits[k]) { blocked := blocked + 1; }
      }
      if blocked > 0 {
        var j :| 0 <= j < |commits| && Refused(files, commits[j]);
        assert commits[j] in commits;
        return 1;
      }
      code := 0;
    }

    /** Adds exactly the named commits, resolved where git knows them, to the acknowledged ones. */
    method Acknowledge(resolve: string -> Option<string>, shas: seq<string>)
      modifies this
      ensures files == old(files).(acks := old(files).acks + AckedBy(resolve, shas))
    {
      var acks := files.acks;
      for k := 0 to |shas|
        invariant acks == old(files).acks + AckedBy(resolve, shas[..k])
        invariant files == old(files)
      {
        assert shas[..k + 1] == shas[..k] + [shas[k]];
        acks := acks + {Short(Full(resolve, shas[k]))};
      }
      assert shas[..|shas|] == shas;
      files := files.(acks := acks);
    }
  }

  function Full(resolve: string -> Option<string>, sha: string): string {
    if resolve(sha).Some? then resolve(sha).value else sha
  }

  function AckedBy(resolve: string -> Option<string>, shas: seq<string>): set<Commit> {
    set sha | sha in shas :: Short(Full(resolve, sha))
  }

  /** Acknowledging settles unread failures of the named commits and changes no other evidence. */
  lemma AckSettlesOnlyFailures(f: Files, more: set<Commit>, c: Commit)
    ensures var g := f.(acks := f.acks + more);
            EvidenceOf(g, c) == if EvidenceOf(f, c) == FailUnacked && c in more then FailAcked else EvidenceOf(f, c)
  {
    var g := f.(acks := f.acks + more);
    assert Newest(g, c) == Newest(f, c);
    assert HasMarker(g, c) == HasMarker(f, c);
  }

  /**
   A push of one range is let through although its newest commit has an unread failure exactly when
   no older commit is refused either among those looked at, and more than 500 commits are pushed.
   */
  lemma CapCanHideTheNewest(f: Files, h: History, p: Fields)
    requires |p| >= 4 && Listed(h, p) != [] && NoDuplicates(Listed(h, p))
    requires Refused(f, Listed(h, p)[0])
    ensures (forall sha :: InSomeRange(h, [p], sha) ==> !Refused(f, sha))
       <==> var n := |Listed(h, p)|; n > 500 && forall i :: n - 500 <= i < n ==> !Refused(f, Listed(h, p)[i])
  {
    hide Refused;
    var shas := Listed(h, p);
    CapKeepsTheOldest(shas, 0);
    assert [p][0] == p;
    assert forall sha :: InSomeRange(h, [p], sha) <==> sha in Capped(shas);
    if |shas| > RangeCap {
      forall i | |shas| - RangeCap <= i < |shas| ensures shas[i] in Capped(shas) {
        assert Capped(shas)[i - (|shas| - RangeCap)] == shas[i];
      }
    }
  }
}
