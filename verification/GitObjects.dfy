/**
 Git objects as scripts/manual_commit.py writes them: object bytes, the sorted serialisation of one
 directory, and the reader that takes it apart again.
 */
module GitObjects {
  import opened Base

  newtype byte = x: int | 0 <= x < 256
  type Bytes = seq<byte>
  type Sha = s: Bytes | |s| == 20 witness seq(20, i => 0)
  type Path = Bytes

  const NUL: byte := 0
  const SPACE: byte := 32
  const SLASH: byte := 47
  const TREE_MODE: Bytes := [52, 48, 48, 48, 48]          // "40000"
  const FILE_MODE: Bytes := [49, 48, 48, 54, 52, 52]      // "100644"
  const TREE: Bytes := [116, 114, 101, 101]               // "tree"
  const BLOB: Bytes := [98, 108, 111, 98]                 // "blob"

  /** What one directory says about one name, and what the flat listing says about one path. */
  datatype Leaf = Leaf(mode: Bytes, sha: Sha)

  datatype Child = Child(name: Bytes, mode: Bytes, sha: Sha)

  function FirstAt(b: byte, s: Bytes): (i: nat)
    ensures i <= |s| && b !in s[..i]
    ensures i < |s| ==> s[i] == b
  {
    if s == [] || s[0] == b then 0
    else
      assert s[..1 + FirstAt(b, s[1..])] == [s[0]] + s[1..][..FirstAt(b, s[1..])];
      1 + FirstAt(b, s[1..])
  }

  lemma FirstAtSplit(b: byte, x: Bytes, y: Bytes)
    requires b !in x
    ensures FirstAt(b, x + [b] + y) == |x|
    ensures (x + [b] + y)[..|x|] == x && (x + [b] + y)[|x| + 1..] == y
  {
    var s := x + [b] + y;
    var i := FirstAt(b, s);
    assert s[|x|] == b;
    assert forall j :: 0 <= j < |x| ==> s[j] == x[j];
    assert forall j :: 0 <= j < i ==> s[..i][j] == s[j];
  }

  // ---------------------------------------------------------------------------------------------
  // Object bytes
  // ---------------------------------------------------------------------------------------------

  function Decimal(n: nat): (d: Bytes)
    ensures NUL !in d
  {
    (if n < 10 then [] else Decimal(n / 10)) + [48 + (n % 10) as byte]
  }

  /** kind, size, zero byte, payload: the bytes that are hashed and stored. */
  function ObjectBytes(kind: Bytes, data: Bytes): Bytes {
    kind + [SPACE] + Decimal(|data|) + [NUL] + data
  }

  function Payload(full: Bytes): Option<Bytes> {
    var i := FirstAt(NUL, full);
    if TREE + [SPACE] <= full && i < |full| then Some(full[i + 1..]) else None
  }

  lemma PayloadOfTree(data: Bytes)
    ensures Payload(ObjectBytes(TREE, data)) == Some(data)
  {
    var head := TREE + [SPACE] + Decimal(|data|);
    assert ObjectBytes(TREE, data) == head + [NUL] + data;
    assert NUL !in TREE && NUL !in [SPACE];
    FirstAtSplit(NUL, head, data);
  }

  // ---------------------------------------------------------------------------------------------
  // The order of a directory: byte order, with directories compared as if they ended in a slash
  // ---------------------------------------------------------------------------------------------

  predicate Less(a: Bytes, b: Bytes) {
    b != [] && (a == [] || a[0] < b[0] || (a[0] == b[0] && Less(a[1..], b[1..])))
  }

  lemma {:induction false} LessTransitive(a: Bytes, b: Bytes, c: Bytes)
    requires Less(a, b) && Less(b, c)
    ensures Less(a, c)
  {
    if a != [] && a[0] == b[0] == c[0] { LessTransitive(a[1..], b[1..], c[1..]); }
  }

  lemma {:induction false} LessIsTotal(a: Bytes, b: Bytes)
    ensures !(Less(a, b) && Less(b, a)) && !Less(a, a)
    ensures a == b || Less(a, b) || Less(b, a)
  {
    if a != [] { LessIsTotal(a[1..], a[1..]); }
    if a != [] && b != [] {
      LessIsTotal(a[1..], b[1..]);
      if a[0] == b[0] && a[1..] == b[1..] { assert a == [a[0]] + a[1..] == b; }
    }
  }

  function SortKey(c: Child): Bytes {
    c.name + if c.mode == TREE_MODE then [SLASH] else []
  }

  predicate Before(c: Child, d: Child) { Less(SortKey(c), SortKey(d)) }

  ghost predicate Ascending(cs: seq<Child>) {
    forall i, j :: 0 <= i < j < |cs| ==> Before(cs[i], cs[j])
  }

  lemma DistinctKeys(c: Child, d: Child)
    requires SLASH !in c.name && SLASH !in d.name && c.name != d.name
    ensures SortKey(c) != SortKey(d)
  {
    var k, l := SortKey(c), SortKey(d);
    if |c.name| == |d.name| {
      var t :| 0 <= t < |c.name| && c.name[t] != d.name[t];
      assert k[t] != l[t];
    } else if |c.name| < |d.name| {
      assert |k| > |c.name| ==> k[|c.name|] == SLASH != l[|c.name|];
    } else {
      assert |l| > |d.name| ==> l[|d.name|] == SLASH != k[|d.name|];
    }
  }

  function Insert(c: Child, cs: seq<Child>): (r: seq<Child>)
    ensures multiset(r) == multiset(cs) + multiset{c}
  {
    if cs == [] || Before(c, cs[0]) then [c] + cs
    else
      assert cs == [cs[0]] + cs[1..];
      [cs[0]] + Insert(c, cs[1..])
  }

  lemma {:induction false} InsertKeepsOrder(c: Child, cs: seq<Child>)
    requires Ascending(cs)
    requires forall d :: d in cs ==> SortKey(c) != SortKey(d)
    ensures Ascending(Insert(c, cs))
  {
    if cs == [] {
    } else if Before(c, cs[0]) {
      forall j | 0 <= j < |cs| ensures Before(c, cs[j]) {
        if j > 0 { LessTransitive(SortKey(c), SortKey(cs[0]), SortKey(cs[j])); }
      }
    } else {
      var rest := Insert(c, cs[1..]);
      InsertKeepsOrder(c, cs[1..]);
      forall j | 0 <= j < |rest| ensures Before(cs[0], rest[j]) {
        assert rest[j] in multiset(rest);
        if rest[j] == c {
          LessIsTotal(SortKey(c), SortKey(cs[0]));
        } else {
          assert rest[j] in multiset(cs[1..]);
        }
      }
    }
  }

  lemma HasMember<T>(s: seq<T>)
    requires s != []
    ensures exists x :: x in s
  {
    assert s[0] in s;
  }

  /** An ascending listing is determined by the set of its children. */
  lemma {:induction false} AscendingIsUnique(a: seq<Child>, b: seq<Child>)
    requires Ascending(a) && Ascending(b)
    requires forall c :: c in a <==> c in b
    ensures a == b
  {
    if a == [] {
      if b != [] { HasMember(b); }
    } else {
      var c := a[0];
      assert c in a;
      var d := b[0];
      assert d in b;
      LessIsTotal(SortKey(c), SortKey(d));
      assert c == d;
      forall x ensures x in a[1..] <==> x in b[1..] {
        LessIsTotal(SortKey(c), SortKey(c));
        if x in a[1..] { assert x in a && x != d; }
        if x in b[1..] { assert x in b && x != c; }
      }
      AscendingIsUnique(a[1..], b[1..]);
    }
  }

  // ---------------------------------------------------------------------------------------------
  // One directory, written and read
  // ---------------------------------------------------------------------------------------------

  function Line(c: Child): Bytes { c.mode + [SPACE] + c.name + [NUL] + c.sha }

  function Serialized(cs: seq<Child>): Bytes {
    if cs == [] then [] else Line(cs[0]) + Serialized(cs[1..])
  }

  function Parsed(b: Bytes): Option<seq<Child>>
    decreases |b|
  {
    if b == [] then Some([])
    else
      var i := FirstAt(SPACE, b);
      if i == |b| then None else
      var rest := b[i + 1..];
      var j := FirstAt(NUL, rest);
      if |rest| < j + 21 then None else
      match Parsed(rest[j + 21..])
      case None => None
      case Some(cs) => Some([Child(rest[..j], b[..i], rest[j + 1..j + 21])] + cs)
  }

  predicate Readable(c: Child) { SPACE !in c.mode && NUL !in c.name }

  lemma ParsedLine(c: Child, tail: Bytes, cs: seq<Child>)
    requires Readable(c) && Parsed(tail) == Some(cs)
    ensures Parsed(Line(c) + tail) == Some([c] + cs)
  {
    hide Parsed, FirstAt;
    var rest := c.name + [NUL] + (c.sha + tail);
    var b := c.mode + [SPACE] + rest;
    var j := |c.name|;
    assert Line(c) + tail == b;
    FirstAtSplit(SPACE, c.mode, rest);
    FirstAtSplit(NUL, c.name, c.sha + tail);
    assert rest[j + 1..j + 21] == c.sha;
    assert rest[j + 21..] == tail;
    ParsedStep(b, |c.mode|, j);
  }

  lemma ParsedStep(b: Bytes, i: nat, j: nat)
    requires i == FirstAt(SPACE, b) < |b|
    requires j == FirstAt(NUL, b[i + 1..]) && j + 21 <= |b| - i - 1
    ensures var rest := b[i + 1..];
            Parsed(b) == match Parsed(rest[j + 21..])
                         case None => None
                         case Some(cs) => Some([Child(rest[..j], b[..i], rest[j + 1..j + 21])] + cs)
  {
    hide FirstAt;
  }

  /** Reading back a serialised directory gives the same children, whatever bytes the shas hold. */
  lemma {:induction false} ParsedSerialized(cs: seq<Child>)
    requires forall c :: c in cs ==> Readable(c)
    ensures Parsed(Serialized(cs)) == Some(cs)
  {
    if cs != [] {
      assert cs[0] in cs;
      ParsedSerialized(cs[1..]);
      ParsedLine(cs[0], Serialized(cs[1..]), cs[1..]);
      assert cs == [cs[0]] + cs[1..];
    }
  }

  lemma SerializedInjective(a: seq<Child>, b: seq<Child>)
    requires forall c :: c in a ==> Readable(c)
    requires forall c :: c in b ==> Readable(c)
    requires ObjectBytes(TREE, Serialized(a)) == ObjectBytes(TREE, Serialized(b))
    ensures a == b
  {
    PayloadOfTree(Serialized(a));
    PayloadOfTree(Serialized(b));
    ParsedSerialized(a);
    ParsedSerialized(b);
  }
}
