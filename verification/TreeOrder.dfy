/**
 The order git wants in a tree: going through a written tree depth first, each directory's children
 as they are stored, the full paths rise byte by byte; and the header that each object starts with.
 */
module TreeOrder {
  import opened Base
  import opened GitObjects
  import opened TreeBuilder
  import opened TreeLaws

  // ---------------------------------------------------------------------------------------------
  // Byte order of paths
  // ---------------------------------------------------------------------------------------------

  /** At the first byte in which they differ `p` has the smaller one. */
  predicate DiffersBelow(p: Path, q: Path) {
    exists k :: 0 <= k < |p| && k < |q| && p[..k] == q[..k] && p[k] < q[k]
  }

  /** `p` comes first: by the first differing byte, or as a proper prefix. */
  predicate Precedes(p: Path, q: Path) { DiffersBelow(p, q) || (|p| < |q| && p == q[..|p|]) }

  ghost predicate Rising(ps: seq<Path>) { forall i, j :: 0 <= i < j < |ps| ==> Precedes(ps[i], ps[j]) }

  lemma {:induction false} LessIsPrecedes(p: Path, q: Path)
    ensures Less(p, q) <==> Precedes(p, q)
  {
    if p != [] && q != [] && p[0] == q[0] {
      LessIsPrecedes(p[1..], q[1..]);
      OneByteOn(p, q);
    } else if p != [] && q != [] && p[0] < q[0] {
      assert p[..0] == q[..0];
    }
  }

  lemma OneByteOn(p: Path, q: Path)
    requires p != [] && q != [] && p[0] == q[0]
    ensures Precedes(p, q) <==> Precedes(p[1..], q[1..])
  {
    DifferenceOneByteOn(p, q);
    PrefixOneByteOn(p, q);
    hide DiffersBelow;
  }

  lemma PrefixOneByteOn(p: Path, q: Path)
    requires p != [] && q != [] && p[0] == q[0]
    ensures |p| < |q| && p == q[..|p|] <==> |p[1..]| < |q[1..]| && p[1..] == q[1..][..|p[1..]|]
  {
    var r, s := p[1..], q[1..];
    if |p| < |q| {
      assert q[..|p|][1..] == s[..|r|];
      assert p == [p[0]] + r && q[..|p|] == [q[0]] + q[..|p|][1..];
    }
  }

  lemma DifferenceOneByteOn(p: Path, q: Path)
    requires p != [] && q != [] && p[0] == q[0]
    ensures DiffersBelow(p, q) <==> DiffersBelow(p[1..], q[1..])
  {
    var r, s := p[1..], q[1..];
    if k :| 0 <= k < |p| && k < |q| && p[..k] == q[..k] && p[k] < q[k] {
      assert k > 0 && r[..k - 1] == p[..k][1..] && s[..k - 1] == q[..k][1..];
    }
    if k :| 0 <= k < |r| && k < |s| && r[..k] == s[..k] && r[k] < s[k] {
      assert p[..k + 1] == [p[0]] + r[..k] && q[..k + 1] == [q[0]] + s[..k];
    }
  }

  lemma PrecedesIsStrict(p: Path, q: Path)
    ensures !(Precedes(p, q) && Precedes(q, p))
  {
    LessIsPrecedes(p, q);
    LessIsPrecedes(q, p);
    LessIsTotal(p, q);
  }

  lemma {:induction false} PrefixedPrecedes(pre: Path, p: Path, q: Path)
    ensures Less(pre + p, pre + q) <==> Less(p, q)
  {
    if pre == [] {
      assert [] + p == p && [] + q == q;
    } else {
      assert (pre + p)[1..] == pre[1..] + p && (pre + q)[1..] == pre[1..] + q;
      PrefixedPrecedes(pre[1..], p, q);
    }
  }

  // ---------------------------------------------------------------------------------------------
  // Two children of one directory
  // ---------------------------------------------------------------------------------------------

  /** A path that a child leads to: its own name, or something below it. */
  function Under(c: Child, rest: Path): Path {
    if c.mode == TREE_MODE then c.name + [SLASH] + rest else c.name
  }

  /** A byte string whose only slash, if any, is its last byte. */
  predicate SlashOnlyLast(k: Bytes) { forall i :: 0 <= i < |k| - 1 ==> k[i] != SLASH }

  /** What is added behind two names cannot turn their order round. */
  lemma {:induction false} TailsDoNotMatter(k: Bytes, l: Bytes, x: Path, y: Path)
    requires Less(k, l) && SlashOnlyLast(l) && (x != [] ==> k != [] && k[|k| - 1] == SLASH)
    ensures Less(k + x, l + y)
  {
    if k == [] {
      assert x == [] && (k + x) == [] && l + y != [];
    } else {
      assert (k + x)[0] == k[0] && (l + y)[0] == l[0];
      if k[0] == l[0] {
        assert (k + x)[1..] == k[1..] + x && (l + y)[1..] == l[1..] + y;
        assert |l| > 1 by { assert l[1..] != []; }
        assert k[0] != SLASH;
        assert x != [] ==> k[1..] != [] && k[1..][|k[1..]| - 1] == k[|k| - 1];
        TailsDoNotMatter(k[1..], l[1..], x, y);
      }
    }
  }

  lemma KeyAndTail(c: Child, rest: Path)
    requires SLASH !in c.name
    ensures SlashOnlyLast(SortKey(c))
    ensures Under(c, rest) == SortKey(c) + if c.mode == TREE_MODE then rest else []
    ensures c.mode == TREE_MODE ==> SortKey(c) != [] && SortKey(c)[|SortKey(c)| - 1] == SLASH
  {
    assert c.name + [] == c.name && SortKey(c) + [] == SortKey(c);
  }

  lemma ChildrenInPathOrder(c: Child, d: Child, x: Path, y: Path)
    requires SLASH !in c.name && SLASH !in d.name && Before(c, d)
    ensures Precedes(Under(c, x), Under(d, y))
  {
    KeyAndTail(c, x);
    KeyAndTail(d, y);
    var x', y' := if c.mode == TREE_MODE then x else [], if d.mode == TREE_MODE then y else [];
    hide SortKey, Less;
    TailsDoNotMatter(SortKey(c), SortKey(d), x', y');
    LessIsPrecedes(Under(c, x), Under(d, y));
  }

  /**
   One child stands before another exactly when every path it leads to precedes every path the other
   leads to, in plain byte order.
   */
  lemma BeforeExactly(c: Child, d: Child)
    requires SLASH !in c.name && SLASH !in d.name && c.name != d.name
    ensures Before(c, d) <==> forall x, y :: Precedes(Under(c, x), Under(d, y))
  {
    DistinctKeys(c, d);
    LessIsTotal(SortKey(c), SortKey(d));
    hide SortKey, Less, Precedes, Under;
    if Before(c, d) {
      forall x, y ensures Precedes(Under(c, x), Under(d, y)) { ChildrenInPathOrder(c, d, x, y); }
    } else {
      ChildrenInPathOrder(d, c, [], []);
      PrecedesIsStrict(Under(c, []), Under(d, []));
    }
  }

  // ---------------------------------------------------------------------------------------------
  // A whole tree
  // ---------------------------------------------------------------------------------------------

  function AllBelow(n: Bytes, ps: seq<Path>): seq<Path> {
    seq(|ps|, i requires 0 <= i < |ps| => n + [SLASH] + ps[i])
  }

  /** The full paths of the tree under `sha`, depth first, in the order in which its children are stored. */
  function Walked(objects: Objects, sha: Sha, depth: nat): Option<seq<Path>>
    decreases depth, 0, 0
  {
    if depth == 0 || sha !in objects || Payload(objects[sha]).None? then None else
    match Parsed(Payload(objects[sha]).value)
    case None => None
    case Some(cs) => WalkedAll(objects, cs, depth - 1)
  }

  function WalkedAll(objects: Objects, cs: seq<Child>, depth: nat): Option<seq<Path>>
    decreases depth, |cs|, 0
  {
    if cs == [] then Some([]) else
    var first, rest := WalkedChild(objects, cs[0], depth), WalkedAll(objects, cs[1..], depth);
    if first.None? || rest.None? then None else Some(first.value + rest.value)
  }

  function WalkedChild(objects: Objects, c: Child, depth: nat): Option<seq<Path>>
    decreases depth, 0, 1
  {
    if c.mode != TREE_MODE then Some([c.name])
    else
      match Walked(objects, c.sha, depth)
      case None => None
      case Some(ps) => Some(AllBelow(c.name, ps))
  }

  /** A walk gives exactly the paths of the listing. */
  ghost predicate Covering(ps: seq<Path>, l: Listing) { forall p :: p in ps <==> p in l }

  lemma AllBelowHas(n: Bytes, ps: seq<Path>, p: Path)
    ensures p in AllBelow(n, ps) <==> Below(n) <= p && After(n, p) in ps
  {
    if Below(n) <= p && After(n, p) in ps {
      var i :| 0 <= i < |ps| && ps[i] == After(n, p);
      assert AllBelow(n, ps)[i] == p;
    }
    if p in AllBelow(n, ps) {
      var i :| 0 <= i < |ps| && AllBelow(n, ps)[i] == p;
      assert After(n, p) == ps[i];
    }
  }

  /** The walk meets exactly what the recursive listing lists. */
  lemma {:induction false} WalksTheListing(objects: Objects, sha: Sha, depth: nat)
    requires Flattened(objects, sha, depth).Some?
    ensures Walked(objects, sha, depth).Some?
    ensures Covering(Walked(objects, sha, depth).value, Flattened(objects, sha, depth).value)
    decreases depth, 0
  {
    WalksTheChildren(objects, Parsed(Payload(objects[sha]).value).value, depth - 1);
  }

  lemma {:induction false} WalksTheChildren(objects: Objects, cs: seq<Child>, depth: nat)
    requires FlattenedAll(objects, cs, depth).Some?
    ensures WalkedAll(objects, cs, depth).Some?
    ensures Covering(WalkedAll(objects, cs, depth).value, FlattenedAll(objects, cs, depth).value)
    decreases depth, |cs|
  {
    if cs != [] {
      var c := cs[0];
      WalksTheChildren(objects, cs[1..], depth);
      if c.mode == TREE_MODE {
        WalksTheListing(objects, c.sha, depth);
        forall p ensures p in AllBelow(c.name, Walked(objects, c.sha, depth).value) <==>
                         p in Prefixed(c.name, Flattened(objects, c.sha, depth).value) {
          AllBelowHas(c.name, Walked(objects, c.sha, depth).value, p);
        }
      }
    }
  }

  lemma {:induction false} LessBelow(n: Bytes, ps: seq<Path>)
    requires Rising(ps)
    ensures Rising(AllBelow(n, ps))
  {
    var rs := AllBelow(n, ps);
    forall i, j | 0 <= i < j < |rs| ensures Precedes(rs[i], rs[j]) {
      LessIsPrecedes(ps[i], ps[j]);
      PrefixedPrecedes(n + [SLASH], ps[i], ps[j]);
      LessIsPrecedes(rs[i], rs[j]);
    }
  }

  lemma RisingJoins(a: seq<Path>, b: seq<Path>)
    requires Rising(a) && Rising(b) && forall p, q :: p in a && q in b ==> Precedes(p, q)
    ensures Rising(a + b)
  {
    var all := a + b;
    forall i, j | 0 <= i < j < |all| ensures Precedes(all[i], all[j]) {
      assert i < |a| ==> all[i] in a;
      assert j >= |a| ==> all[j] in b;
    }
  }

  /** Every path of the walk of some children lies under one of them. */
  lemma {:induction false} WalkedUnder(objects: Objects, cs: seq<Child>, depth: nat, p: Path)
    requires WalkedAll(objects, cs, depth).Some? && p in WalkedAll(objects, cs, depth).value
    ensures exists c, rest :: c in cs && p == Under(c, rest)
  {
    var c := cs[0];
    if p in WalkedChild(objects, c, depth).value {
      var rest := OneUnder(objects, c, depth, p);
      assert c in cs && p == Under(c, rest);
    } else {
      WalkedUnder(objects, cs[1..], depth, p);
      var d, rest :| d in cs[1..] && p == Under(d, rest);
      assert d in cs;
    }
  }

  lemma OneUnder(objects: Objects, c: Child, depth: nat, p: Path) returns (rest: Path)
    requires WalkedChild(objects, c, depth).Some? && p in WalkedChild(objects, c, depth).value
    ensures p == Under(c, rest)
  {
    rest := [];
    if c.mode == TREE_MODE {
      var ps := Walked(objects, c.sha, depth).value;
      var i :| 0 <= i < |ps| && AllBelow(c.name, ps)[i] == p;
      rest := ps[i];
    }
  }

  /** Children in git's order, each with a rising walk, have a rising walk together. */
  lemma {:induction false} ChildrenRise(objects: Objects, cs: seq<Child>, depth: nat)
    requires WalkedAll(objects, cs, depth).Some? && Ascending(cs)
    requires forall c :: c in cs ==> SLASH !in c.name && ChildWalksUp(objects, c, depth)
    ensures Rising(WalkedAll(objects, cs, depth).value)
  {
    if cs != [] {
      var first, rest := WalkedChild(objects, cs[0], depth).value, WalkedAll(objects, cs[1..], depth).value;
      assert cs[0] in cs;
      ChildrenRise(objects, cs[1..], depth);
      hide Precedes, Under, Before, WalkedAll, WalkedChild;
      forall p, q | p in first && q in rest ensures Precedes(p, q) {
        var x := OneUnder(objects, cs[0], depth, p);
        WalkedUnder(objects, cs[1..], depth, q);
        var d, y :| d in cs[1..] && q == Under(d, y);
        var j :| 0 <= j < |cs[1..]| && cs[1..][j] == d;
        assert cs[j + 1] == d && Before(cs[0], cs[j + 1]);
        ChildrenInPathOrder(cs[0], d, x, y);
      }
      RisingJoins(first, rest);
      assert WalkedAll(objects, cs, depth).value == first + rest by { WalkedFirst(objects, cs, depth); }
    }
  }

  lemma WalkedFirst(objects: Objects, cs: seq<Child>, depth: nat)
    requires cs != [] && WalkedAll(objects, cs, depth).Some?
    ensures WalkedAll(objects, cs, depth).value
         == WalkedChild(objects, cs[0], depth).value + WalkedAll(objects, cs[1..], depth).value
  {
  }

  ghost predicate WalksUp(objects: Objects, sha: Sha, depth: nat) {
    Walked(objects, sha, depth).Some? && Rising(Walked(objects, sha, depth).value)
  }

  ghost predicate ChildWalksUp(objects: Objects, c: Child, depth: nat) {
    WalkedChild(objects, c, depth).Some? && Rising(WalkedChild(objects, c, depth).value)
  }

  lemma WalkOfStored(objects: Objects, sha: Sha, cs: seq<Child>, depth: nat)
    requires depth > 0 && sha in objects && Payload(objects[sha]).Some?
    requires Parsed(Payload(objects[sha]).value) == Some(cs)
    ensures Walked(objects, sha, depth) == WalkedAll(objects, cs, depth - 1)
  {
    hide Parsed, Payload;
  }

  /** One directory whose subdirectories all have rising walks. */
  lemma DirectoryRises(objects: Objects, sha: Sha, cs: seq<Child>, depth: nat)
    requires depth > 0 && Walked(objects, sha, depth) == WalkedAll(objects, cs, depth - 1)
    requires Walked(objects, sha, depth).Some? && Ascending(cs)
    requires forall c :: c in cs ==> SLASH !in c.name && (c.mode == TREE_MODE ==> WalksUp(objects, c.sha, depth - 1))
    ensures WalksUp(objects, sha, depth)
  {
    hide *;
    forall c | c in cs ensures ChildWalksUp(objects, c, depth - 1) { ChildRises(objects, c, depth - 1); }
    ChildrenRise(objects, cs, depth - 1);
    WalksUpIf(objects, sha, depth);
  }

  lemma WalksUpIf(objects: Objects, sha: Sha, depth: nat)
    requires Walked(objects, sha, depth).Some? && Rising(Walked(objects, sha, depth).value)
    ensures WalksUp(objects, sha, depth)
  {
  }

  lemma ChildOfListing(h: Hash, m: Listing, c: Child)
    requires NoTreeModes(m) && c in Sorted(Items(h, m))
    ensures SLASH !in c.name
    ensures c.mode == TREE_MODE ==> c.name in Dirs(m) && c.sha == TreeSha(h, Sub(m, c.name))
  {
    assert c == ToChild(Items(h, m), c.name);
    if c.name in m { assert Items(h, m)[c.name] == m[c.name]; } else { ItemOfDir(h, m, c.name); }
  }

  lemma ChildRises(objects: Objects, c: Child, depth: nat)
    requires c.mode == TREE_MODE ==> WalksUp(objects, c.sha, depth)
    ensures ChildWalksUp(objects, c, depth)
  {
    if c.mode == TREE_MODE { LessBelow(c.name, Walked(objects, c.sha, depth).value); }
  }

  /**
   Depth first through a written tree, in the stored order of its children, the full paths are those that
   no file hides, and they rise in byte order: a directory is compared as if its name ended in a slash.
   */
  lemma WalkRises(h: Hash, objects: Objects, m: Listing, depth: nat)
    requires Clean(m) && NoTreeModes(m)
    requires Intact(h, objects) && Present(h, objects, m) && NoClash(h, objects, m)
    requires depth > Longest(m.Keys)
    ensures var ps := Walked(objects, TreeSha(h, m), depth);
            ps.Some? && Rising(ps.value) && forall p :: p in ps.value <==> p in m && !Shadowed(m, p)
  {
    WalkRisesThere(h, objects, m, depth);
    ListsBackUnshadowed(h, objects, m, depth);
    hide Clean, NoTreeModes, Intact, TreeSha, Walked, Rising, Present, NoClash, Flattened, Shadowed;
    WalksTheListing(objects, TreeSha(h, m), depth);
  }

  lemma {:induction false} WalkRisesThere(h: Hash, objects: Objects, m: Listing, depth: nat)
    requires Clean(m) && NoTreeModes(m)
    requires Intact(h, objects) && Present(h, objects, m) && NoClash(h, objects, m)
    requires depth > Longest(m.Keys)
    ensures WalksUp(objects, TreeSha(h, m), depth)
    decreases Longest(m.Keys), 1
  {
    var sha, cs := TreeSha(h, m), Sorted(Items(h, m));
    assert sha in objects && Lists(cs, Items(h, m));
    ReadsOneTree(h, objects, m);
    ListsBackUnshadowed(h, objects, m, depth);
    WalksTheListing(objects, sha, depth);
    forall c | c in cs
      ensures SLASH !in c.name && (c.mode == TREE_MODE ==> WalksUp(objects, c.sha, depth - 1))
    {
      ChildOfListing(h, m, c);
      if c.mode == TREE_MODE { WalkRisesBelow(h, objects, m, c.name, depth); }
    }
    hide Clean, NoTreeModes, Intact, Walked, WalksUp, Present, NoClash, Flattened, Payload, Parsed, Items, Sorted,
         TreeSha;
    WalkOfStored(objects, sha, cs, depth);
    DirectoryRises(objects, sha, cs, depth);
  }

  lemma {:induction false} WalkRisesBelow(h: Hash, objects: Objects, m: Listing, n: Bytes, depth: nat)
    requires Clean(m) && NoTreeModes(m) && n in Dirs(m)
    requires Intact(h, objects) && Present(h, objects, m) && NoClash(h, objects, m)
    requires depth > Longest(m.Keys)
    ensures WalksUp(objects, TreeSha(h, Sub(m, n)), depth - 1)
    decreases Longest(m.Keys), 0
  {
    hide Clean, NoTreeModes, Sub, Intact, TreeSha, Dirs, Longest, NoClash, WalksUp, TreeOf;
    assert Present(h, objects, Sub(m, n));
    hide Present;
    SubIsShorter(m, n);
    CleanSub(m, n);
    NoClashSub(h, objects, m, n);
    WalkRisesThere(h, objects, Sub(m, n), depth - 1);
  }

  // ---------------------------------------------------------------------------------------------
  // The header of an object
  // ---------------------------------------------------------------------------------------------

  function Ascii(s: string): Bytes
    requires forall i :: 0 <= i < |s| ==> s[i] as int < 128
  {
    seq(|s|, i requires 0 <= i < |s| => s[i] as int as byte)
  }

  /** The words git knows the parts of its objects by. */
  lemma WordsOfGit()
    ensures TREE == Ascii("tree") && BLOB == Ascii("blob")
    ensures TREE_MODE == Ascii("40000") && FILE_MODE == Ascii("100644")
    ensures [SLASH] == Ascii("/") && [SPACE] == Ascii(" ") && [NUL] == Ascii("\0")
  {
  }

  predicate Digits(d: Bytes) { forall i :: 0 <= i < |d| ==> 48 <= d[i] <= 57 }

  /** The number that decimal digits spell. */
  function Spelled(d: Bytes): int {
    if d == [] then 0 else 10 * Spelled(d[..|d| - 1]) + (d[|d| - 1] as int - 48)
  }

  lemma SpelledMore(d: Bytes, last: byte)
    requires Digits(d) && 48 <= last <= 57
    ensures Digits(d + [last]) && Spelled(d + [last]) == 10 * Spelled(d) + (last as int - 48)
  {
    assert (d + [last])[..|d|] == d;
  }

  /** A size is written in decimal digits without a leading zero. */
  lemma {:induction false} DecimalSpells(n: nat)
    ensures Digits(Decimal(n)) && Spelled(Decimal(n)) == n && Decimal(n) != []
    ensures n > 0 ==> Decimal(n)[0] != 48
  {
    var last := 48 + (n % 10) as byte;
    if n >= 10 {
      DecimalSpells(n / 10);
      var d := Decimal(n / 10);
      assert Decimal(n) == d + [last];
      hide Decimal;
      SpelledMore(d, last);
    } else {
      assert Decimal(n) == [] + [last];
      SpelledMore([], last);
    }
  }

  /**
   Any reader of an object can take it apart: up to the first blank the kind, up to the first zero byte
   the size of what follows it.
   */
  lemma HeaderTells(kind: Bytes, data: Bytes)
    requires SPACE !in kind && NUL !in kind
    ensures var full := ObjectBytes(kind, data);
            var i, j := FirstAt(SPACE, full), FirstAt(NUL, full);
            && i < j < |full| && full[..i] == kind && full[j + 1..] == data
            && Digits(full[i + 1..j]) && Spelled(full[i + 1..j]) == |full| - j - 1
  {
    var size := Decimal(|data|);
    DecimalSpells(|data|);
    HeaderSplits(kind, size, data);
  }

  lemma HeaderSplits(kind: Bytes, size: Bytes, data: Bytes)
    requires SPACE !in kind && NUL !in kind && NUL !in size
    ensures var full := kind + [SPACE] + size + [NUL] + data;
            var i, j := FirstAt(SPACE, full), FirstAt(NUL, full);
            && i == |kind| && j == |kind| + 1 + |size| && |full| == j + 1 + |data|
            && full[..i] == kind && full[i + 1..j] == size && full[j + 1..] == data
  {
    var full := kind + [SPACE] + size + [NUL] + data;
    assert full == kind + [SPACE] + (size + [NUL] + data);
    assert full == (kind + [SPACE]) + size + ([NUL] + data);
    assert NUL !in kind + [SPACE] + size;
    hide FirstAt;
    FirstAtSplit(SPACE, kind, size + [NUL] + data);
    FirstAtSplit(NUL, kind + [SPACE] + size, data);
    Between(kind + [SPACE], size, [NUL] + data);
  }

  lemma Between(a: Bytes, b: Bytes, c: Bytes)
    ensures (a + b + c)[|a|..|a| + |b|] == b
  {
  }
}
