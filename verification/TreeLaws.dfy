/**
 What a written tree says: listing it back gives exactly the paths that no file hides, equal roots
 mean equal listings, and overriding files leaves untouched directories alone.
 */
module TreeLaws {
  import opened Base
  import opened GitObjects
  import opened TreeBuilder

  // ---------------------------------------------------------------------------------------------
  // Listing a tree, as git's recursive listing does
  // ---------------------------------------------------------------------------------------------

  function After(n: Bytes, p: Path): Path
    requires Below(n) <= p
  {
    p[|n| + 1..]
  }

  function Prefixed(n: Bytes, sub: Listing): (r: Listing)
    ensures forall p :: p in r <==> Below(n) <= p && After(n, p) in sub
    ensures forall p :: p in r ==> r[p] == sub[After(n, p)]
  {
    assert forall q: Path :: After(n, Below(n) + q) == q;
    assert forall p: Path | Below(n) <= p :: p == Below(n) + After(n, p);
    map q | q in sub :: Below(n) + q := sub[q]
  }

  /** The flat listing of the tree object under `sha`; nothing when an object is missing or malformed. */
  function Flattened(objects: Objects, sha: Sha, depth: nat): Option<Listing>
    decreases depth, 0
  {
    if depth == 0 || sha !in objects || Payload(objects[sha]).None? then None else
    match Parsed(Payload(objects[sha]).value)
    case None => None
    case Some(cs) => FlattenedAll(objects, cs, depth - 1)
  }

  function FlattenedAll(objects: Objects, cs: seq<Child>, depth: nat): Option<Listing>
    decreases depth, |cs|
  {
    if cs == [] then Some(map[]) else
    var c, rest := cs[0], FlattenedAll(objects, cs[1..], depth);
    if rest.None? then None
    else if c.mode != TREE_MODE then Some(rest.value[c.name := Leaf(c.mode, c.sha)])
    else
      match Flattened(objects, c.sha, depth)
      case None => None
      case Some(sub) => Some(rest.value + Prefixed(c.name, sub))
  }

  // ---------------------------------------------------------------------------------------------
  // Hidden paths
  // ---------------------------------------------------------------------------------------------

  /** Some file of the listing stands where `p` needs a directory. */
  predicate Shadowed(m: Listing, p: Path) {
    exists k :: 0 <= k < |p| && p[k] == SLASH && p[..k] in m
  }

  function Unshadowed(m: Listing): Listing { map p | p in m && !Shadowed(m, p) :: m[p] }

  ghost predicate NoConflict(m: Listing) { forall p :: p in m ==> !Shadowed(m, p) }

  ghost predicate NoTreeModes(m: Listing) { forall p :: p in m ==> m[p].mode != TREE_MODE }

  /** What git's own listing guarantees of its input: paths without zero bytes, modes without blanks. */
  ghost predicate Clean(m: Listing) { forall p :: p in m ==> NUL !in p && SPACE !in m[p].mode }

  lemma ShadowMovesUp(m: Listing, n: Bytes, q: Path)
    requires Shadowed(Sub(m, n), q)
    ensures Shadowed(m, Below(n) + q)
  {
    var p, s := Below(n) + q, Sub(m, n);
    var k :| 0 <= k < |q| && q[k] == SLASH && q[..k] in s;
    assert p[..|n| + 1 + k] == Below(n) + q[..k];
    assert p[|n| + 1 + k] == SLASH;
  }

  lemma ShadowMovesDown(m: Listing, n: Bytes, q: Path)
    requires SLASH !in n && n !in m && Shadowed(m, Below(n) + q)
    ensures Shadowed(Sub(m, n), q)
  {
    var p := Below(n) + q;
    var k :| 0 <= k < |p| && p[k] == SLASH && p[..k] in m;
    assert forall j :: 0 <= j < |n| ==> p[j] == n[j];
    assert p[..|n|] == n;
    assert k > |n|;
    assert p[..k] == Below(n) + q[..k - |n| - 1];
    assert q[k - |n| - 1] == SLASH;
  }

  lemma UnshadowedBelow(m: Listing, n: Bytes, q: Path)
    requires SLASH !in n && n !in m
    ensures Below(n) + q in Unshadowed(m) <==> q in Unshadowed(Sub(m, n))
    ensures q in Unshadowed(Sub(m, n)) ==> Unshadowed(m)[Below(n) + q] == Unshadowed(Sub(m, n))[q]
  {
    var p, s := Below(n) + q, Sub(m, n);
    assert Shadowed(s, q) <==> Shadowed(m, p) by {
      if Shadowed(s, q) { ShadowMovesUp(m, n, q); }
      if Shadowed(m, p) { ShadowMovesDown(m, n, q); }
    }
    assert q in s <==> p in m;
    assert q in s ==> s[q] == m[p];
  }

  lemma CleanSub(m: Listing, n: Bytes)
    requires Clean(m) && NoTreeModes(m)
    ensures Clean(Sub(m, n)) && NoTreeModes(Sub(m, n))
  {
    forall q | q in Sub(m, n) ensures NUL !in q {
      assert Below(n) + q in m;
      assert forall b :: b in q ==> b in Below(n) + q;
    }
  }

  lemma ItemsReadable(h: Hash, m: Listing)
    requires Clean(m)
    ensures forall c :: c in Sorted(Items(h, m)) ==> Readable(c)
  {
    var items := Items(h, m);
    forall c | c in Sorted(items) ensures Readable(c) {
      assert c == ToChild(items, c.name) && c.name in items;
      if c.name in m {
        assert items[c.name] == m[c.name];
      } else {
        assert c.name in Dirs(m) && c.mode == TREE_MODE;
        DirNameReadable(m, c.name);
      }
    }
  }

  lemma DirNameReadable(m: Listing, n: Bytes)
    requires Clean(m) && n in Dirs(m)
    ensures NUL !in n
  {
    var p :| p in m && SLASH in p && Head(p) == n;
    HeadTail(p);
    assert forall b :: b in Head(p) ==> b in p;
  }

  /** `o` is the object of the tree of `m` or of a tree below it. */
  ghost predicate TreeOf(h: Hash, m: Listing, o: Bytes)
    decreases Longest(m.Keys)
  {
    o == TreeObject(h, m) || exists n :: n in Dirs(m) && (SubIsShorter(m, n); TreeOf(h, Sub(m, n), o))
  }

  /** No stored object shares its sha with a different tree object of `m`. */
  ghost predicate NoClash(h: Hash, objects: Objects, m: Listing) {
    forall s, o :: s in objects && TreeOf(h, m, o) && HashOf(h, objects[s]) == HashOf(h, o) ==> objects[s] == o
  }

  /** The paths of `Unshadowed(m)` that start with one of `names`. */
  function Part(m: Listing, names: set<Bytes>): Listing {
    map p | p in Unshadowed(m) && Head(p) in names :: m[p]
  }

  function Names(cs: seq<Child>): set<Bytes> { set c | c in cs :: c.name }

  lemma PartFile(m: Listing, names: set<Bytes>, n: Bytes)
    requires n in m && SLASH !in n
    ensures Part(m, names + {n}) == Part(m, names)[n := m[n]]
  {
    var a, b := Part(m, names + {n}), Part(m, names)[n := m[n]];
    assert Head(n) == n;
    assert !Shadowed(m, n);
    forall p ensures p in a <==> p in b {
      if p in m && Head(p) == n && p != n {
        if SLASH in p {
          HeadTail(p);
          assert p[|n|] == SLASH && p[..|n|] == n;
        }
      }
    }
  }

  lemma PartDirAt(m: Listing, names: set<Bytes>, n: Bytes, p: Path)
    requires n !in m && SLASH !in n
    ensures var sub := Prefixed(n, Unshadowed(Sub(m, n)));
            && (p in sub <==> p in Unshadowed(m) && Head(p) == n)
            && (p in sub ==> sub[p] == m[p])
  {
    assert SLASH !in p ==> Head(p) == p;
    if SLASH in p { HeadTail(p); }
    if Below(n) <= p {
      var q := After(n, p);
      assert p == Below(n) + q;
      BelowIs(n, q);
      UnshadowedBelow(m, n, q);
    }
  }

  lemma PartDir(m: Listing, names: set<Bytes>, n: Bytes)
    requires n !in m && SLASH !in n
    ensures Part(m, names + {n}) == Part(m, names) + Prefixed(n, Unshadowed(Sub(m, n)))
  {
    hide Unshadowed, Sub, Head, Prefixed;
    var sub := Prefixed(n, Unshadowed(Sub(m, n)));
    var a, b := Part(m, names + {n}), Part(m, names) + sub;
    forall p ensures (p in a <==> p in b) && (p in a && p in b ==> a[p] == b[p]) {
      PartDirAt(m, names, n, p);
    }
    assert a.Keys == b.Keys;
    SameMaps(a, b);
  }

  /** The listing of one child more. */
  lemma FlattensChild(h: Hash, objects: Objects, m: Listing, c: Child, names: set<Bytes>, depth: nat)
    requires NoTreeModes(m) && c.name in Items(h, m) && c == ToChild(Items(h, m), c.name)
    requires c.name in Dirs(m) ==>
               Flattened(objects, TreeSha(h, Sub(m, c.name)), depth) == Some(Unshadowed(Sub(m, c.name)))
    ensures SLASH !in c.name
    ensures c.mode != TREE_MODE ==> Part(m, names + {c.name}) == Part(m, names)[c.name := Leaf(c.mode, c.sha)]
    ensures c.mode == TREE_MODE ==>
              Flattened(objects, c.sha, depth).Some?
              && Part(m, names + {c.name}) == Part(m, names) + Prefixed(c.name, Flattened(objects, c.sha, depth).value)
  {
    hide Flattened, Part, Prefixed, Sub, Unshadowed;
    if c.name in m {
      assert Items(h, m)[c.name] == m[c.name];
      PartFile(m, names, c.name);
    } else {
      PartDir(m, names, c.name);
      ItemOfDir(h, m, c.name);
    }
  }

  lemma {:induction false} FlattensPart(h: Hash, objects: Objects, m: Listing, cs: seq<Child>, depth: nat)
    requires NoTreeModes(m)
    requires forall c :: c in cs ==> c.name in Items(h, m) && c == ToChild(Items(h, m), c.name)
    requires forall n :: n in Dirs(m) ==>
               Flattened(objects, TreeSha(h, Sub(m, n)), depth) == Some(Unshadowed(Sub(m, n)))
    ensures FlattenedAll(objects, cs, depth) == Some(Part(m, Names(cs)))
  {
    if cs == [] {
      assert Part(m, Names(cs)) == map[];
    } else {
      var c := cs[0];
      assert c in cs && cs == [c] + cs[1..];
      assert Names(cs) == Names(cs[1..]) + {c.name};
      FlattensPart(h, objects, m, cs[1..], depth);
      FlattensChild(h, objects, m, c, Names(cs[1..]), depth);
      hide Flattened, Part, Names, Items, ToChild, NoTreeModes, Prefixed;
    }
  }

  lemma ItemOfDir(h: Hash, m: Listing, n: Bytes)
    requires n in Items(h, m) && n !in m
    ensures n in Dirs(m) && Items(h, m)[n] == Leaf(TREE_MODE, TreeSha(h, Sub(m, n)))
  {
  }

  lemma EverythingIsPart(h: Hash, m: Listing)
    ensures Part(m, Items(h, m).Keys) == Unshadowed(m)
  {
    forall p | p in Unshadowed(m) ensures Head(p) in Items(h, m) {
      if SLASH in p {
        HeadTail(p);
        assert p[|Head(p)|] == SLASH;
        assert Head(p) !in m;
      } else {
        assert Head(p) == p;
      }
    }
  }

  /** Listing back a written tree gives the paths that no file hides. */
  lemma {:induction false} ListsBackUnshadowed(h: Hash, objects: Objects, m: Listing, depth: nat)
    requires Clean(m) && NoTreeModes(m)
    requires Intact(h, objects) && Present(h, objects, m) && NoClash(h, objects, m)
    requires depth > Longest(m.Keys)
    ensures Flattened(objects, TreeSha(h, m), depth) == Some(Unshadowed(m))
    decreases Longest(m.Keys)
  {
    hide Clean, NoTreeModes, Unshadowed, Sub, Intact, Items, TreeSha, Dirs, Longest, Payload, Parsed, FlattenedAll,
         Sorted, HashOf;
    forall n | n in Dirs(m)
      ensures Flattened(objects, TreeSha(h, Sub(m, n)), depth - 1) == Some(Unshadowed(Sub(m, n)))
    {
      SubIsShorter(m, n);
      CleanSub(m, n);
      NoClashSub(h, objects, m, n);
      ListsBackUnshadowed(h, objects, Sub(m, n), depth - 1);
    }
    ReadsOneTree(h, objects, m);
    var cs := Sorted(Items(h, m));
    FlattensPart(h, objects, m, cs, depth - 1);
    assert Names(cs) == Items(h, m).Keys by {
      forall n | n in Items(h, m) ensures n in Names(cs) { assert ToChild(Items(h, m), n) in cs; }
    }
    EverythingIsPart(h, m);
  }

  lemma NoClashSub(h: Hash, objects: Objects, m: Listing, n: Bytes)
    requires n in Dirs(m) && NoClash(h, objects, m)
    ensures NoClash(h, objects, Sub(m, n))
  {
    assert forall o :: TreeOf(h, Sub(m, n), o) ==> TreeOf(h, m, o);
  }

  lemma ReadsOneTree(h: Hash, objects: Objects, m: Listing)
    requires Clean(m)
    requires Intact(h, objects) && TreeSha(h, m) in objects && NoClash(h, objects, m)
    ensures var full := objects[TreeSha(h, m)];
            Payload(full).Some? && Parsed(Payload(full).value) == Some(Sorted(Items(h, m)))
  {
    var full := objects[TreeSha(h, m)];
    assert TreeOf(h, m, TreeObject(h, m));
    assert full == TreeObject(h, m);
    PayloadOfTree(Serialized(Sorted(Items(h, m))));
    ItemsReadable(h, m);
    ParsedSerialized(Sorted(Items(h, m)));
  }

  lemma JoinKeepsModes(rest: Listing, n: Bytes, sub: Listing)
    requires NoTreeModes(rest) && NoTreeModes(sub)
    ensures NoTreeModes(rest + Prefixed(n, sub))
  {
    hide Prefixed;
    forall p | p in Prefixed(n, sub) ensures Prefixed(n, sub)[p].mode != TREE_MODE { assert After(n, p) in sub; }
  }

  /** Whatever is read from a tree has no directory mode. */
  lemma {:induction false} NoTreeModesInTree(objects: Objects, sha: Sha, depth: nat)
    ensures Flattened(objects, sha, depth).Some? ==> NoTreeModes(Flattened(objects, sha, depth).value)
    decreases depth, 0
  {
    if depth > 0 && sha in objects && Payload(objects[sha]).Some? && Parsed(Payload(objects[sha]).value).Some? {
      NoTreeModesRead(objects, Parsed(Payload(objects[sha]).value).value, depth - 1);
    }
  }

  lemma {:induction false} NoTreeModesRead(objects: Objects, cs: seq<Child>, depth: nat)
    ensures FlattenedAll(objects, cs, depth).Some? ==> NoTreeModes(FlattenedAll(objects, cs, depth).value)
    decreases depth, |cs|
  {
    if cs != [] {
      NoTreeModesInTree(objects, cs[0].sha, depth);
      NoTreeModesRead(objects, cs[1..], depth);
      var rest, sub := FlattenedAll(objects, cs[1..], depth), Flattened(objects, cs[0].sha, depth);
      if rest.Some? && sub.Some? && cs[0].mode == TREE_MODE { JoinKeepsModes(rest.value, cs[0].name, sub.value); }
    }
  }

  /**
   The tree written for a listing lists back as exactly that listing, if and only if no file of the
   listing stands where another path needs a directory and no file carries the directory mode.
   */
  lemma ListsBackExactly(h: Hash, objects: Objects, m: Listing, depth: nat)
    requires Clean(m)
    requires Intact(h, objects) && Present(h, objects, m) && NoClash(h, objects, m)
    requires depth > Longest(m.Keys)
    ensures Flattened(objects, TreeSha(h, m), depth) == Some(m) <==> NoConflict(m) && NoTreeModes(m)
  {
    NoTreeModesInTree(objects, TreeSha(h, m), depth);
    if NoTreeModes(m) {
      ListsBackUnshadowed(h, objects, m, depth);
      if NoConflict(m) {
        SameMaps(Unshadowed(m), m);
      } else {
        var p :| p in m && Shadowed(m, p);
        assert p !in Unshadowed(m);
      }
    }
  }

  // ---------------------------------------------------------------------------------------------
  // Equal roots
  // ---------------------------------------------------------------------------------------------

  ghost predicate NoClashBetween(h: Hash, a: Listing, b: Listing) {
    forall o, o' :: TreeOf(h, a, o) && TreeOf(h, b, o') && HashOf(h, o) == HashOf(h, o') ==> o == o'
  }

  lemma SortedDetermines(a: map<Bytes, Leaf>, b: map<Bytes, Leaf>)
    requires Plain(a) && Plain(b) && Sorted(a) == Sorted(b)
    ensures a == b
  {
    forall n ensures (n in a <==> n in b) && (n in a && n in b ==> a[n] == b[n]) {
      if n in a { assert ToChild(a, n) in Sorted(b); }
      if n in b { assert ToChild(b, n) in Sorted(a); }
    }
    SameMaps(a, b);
  }

  lemma EqualShasEqualItems(h: Hash, a: Listing, b: Listing)
    requires Clean(a) && Clean(b) && NoClashBetween(h, a, b)
    requires TreeSha(h, a) == TreeSha(h, b)
    ensures Items(h, a) == Items(h, b)
  {
    assert TreeOf(h, a, TreeObject(h, a)) && TreeOf(h, b, TreeObject(h, b));
    ItemsReadable(h, a);
    ItemsReadable(h, b);
    SerializedInjective(Sorted(Items(h, a)), Sorted(Items(h, b)));
    SortedDetermines(Items(h, a), Items(h, b));
  }

  /** Equal root shas mean that the same paths are visible, with the same modes and contents. */
  lemma {:induction false} EqualRootsEqualListings(h: Hash, a: Listing, b: Listing)
    requires Clean(a) && NoTreeModes(a) && Clean(b) && NoTreeModes(b) && NoClashBetween(h, a, b)
    requires TreeSha(h, a) == TreeSha(h, b)
    ensures Unshadowed(a) == Unshadowed(b)
    ensures NoConflict(a) && NoConflict(b) ==> a == b
    decreases Longest(a.Keys)
  {
    EqualShasEqualItems(h, a, b);
    forall n | n in Dirs(a) ensures n in Dirs(b) && Unshadowed(Sub(a, n)) == Unshadowed(Sub(b, n)) {
      SameSubtree(h, a, b, n);
      SubIsShorter(a, n);
      CleanSub(a, n);
      CleanSub(b, n);
      assert forall o :: TreeOf(h, Sub(a, n), o) ==> TreeOf(h, a, o);
      assert forall o :: TreeOf(h, Sub(b, n), o) ==> TreeOf(h, b, o);
      EqualRootsEqualListings(h, Sub(a, n), Sub(b, n));
    }
    forall n | n in Dirs(b) ensures n in Dirs(a) { SameSubtree(h, b, a, n); }
    forall p ensures (p in Unshadowed(a) <==> p in Unshadowed(b))
                     && (p in Unshadowed(a) && p in Unshadowed(b) ==> a[p] == b[p]) {
      SamePath(h, a, b, p);
    }
    SameMaps(Unshadowed(a), Unshadowed(b));
    if NoConflict(a) && NoConflict(b) {
      SameMaps(Unshadowed(a), a);
      SameMaps(Unshadowed(b), b);
    }
  }

  lemma SameSubtree(h: Hash, a: Listing, b: Listing, n: Bytes)
    requires NoTreeModes(b) && Items(h, a) == Items(h, b) && n in Dirs(a)
    ensures n in Dirs(b) && TreeSha(h, Sub(a, n)) == TreeSha(h, Sub(b, n))
  {
    DirsAre(a, n);
    assert n in Items(h, a);
    ItemOfDir(h, a, n);
    assert n !in b;
    ItemOfDir(h, b, n);
  }

  lemma SamePath(h: Hash, a: Listing, b: Listing, p: Path)
    requires NoTreeModes(a) && NoTreeModes(b) && Items(h, a) == Items(h, b)
    requires Dirs(a) == Dirs(b)
    requires forall n :: n in Dirs(a) ==> Unshadowed(Sub(a, n)) == Unshadowed(Sub(b, n))
    ensures p in Unshadowed(a) <==> p in Unshadowed(b)
    ensures p in Unshadowed(a) && p in Unshadowed(b) ==> a[p] == b[p]
  {
    if SLASH in p {
      var n, q := Head(p), Tail(p);
      HeadTail(p);
      assert p[|n|] == SLASH && p[..|n|] == n;
      if n in Dirs(a) {
        DirsAre(a, n);
        DirsAre(b, n);
        UnshadowedBelow(a, n, q);
        UnshadowedBelow(b, n, q);
      }
    } else {
      assert !Shadowed(a, p) && !Shadowed(b, p);
      assert p in a <==> p in Files(a);
      assert p in b <==> p in Files(b);
      assert p in Items(h, a) <==> p in Items(h, b);
      assert p in Dirs(a) ==> p !in a;
    }
  }

  // ---------------------------------------------------------------------------------------------
  // Overriding files
  // ---------------------------------------------------------------------------------------------

  lemma {:induction false} OverriddenOutside(h: Hash, m: Listing, files: seq<(Path, Bytes)>, dir: Path)
    requires forall f :: f in files ==> !(dir <= f.0)
    ensures Strip(Overridden(h, m, files), dir) == Strip(m, dir)
  {
    if files != [] {
      var init, f := files[..|files| - 1], files[|files| - 1];
      OverriddenOutside(h, m, init, dir);
      assert f in files;
      assert forall q :: dir + q != f.0;
      SameMaps(Strip(Overridden(h, m, files), dir), Strip(m, dir));
    }
  }

  /** A directory that contains none of the overridden files keeps its sha. */
  lemma UntouchedDirectoriesKeepTheirSha(h: Hash, m: Listing, files: seq<(Path, Bytes)>, dir: Path)
    requires forall f :: f in files ==> !(dir <= f.0)
    ensures TreeSha(h, Strip(Overridden(h, m, files), dir)) == TreeSha(h, Strip(m, dir))
  {
    OverriddenOutside(h, m, files, dir);
  }

  /** What `files` sets `p` to; the last word counts. */
  function LastWord(files: seq<(Path, Bytes)>, p: Path): Option<Bytes> {
    if files == [] then None
    else if files[|files| - 1].0 == p then Some(files[|files| - 1].1)
    else LastWord(files[..|files| - 1], p)
  }

  lemma {:induction false} OverriddenSays(h: Hash, m: Listing, files: seq<(Path, Bytes)>, p: Path)
    ensures match LastWord(files, p)
            case Some(data) =>
              p in Overridden(h, m, files)
              && Overridden(h, m, files)[p] == Leaf(FILE_MODE, HashOf(h, ObjectBytes(BLOB, data)))
            case None =>
              (p in Overridden(h, m, files) <==> p in m) && (p in m ==> Overridden(h, m, files)[p] == m[p])
  {
    if files != [] { OverriddenSays(h, m, files[..|files| - 1], p); }
  }

  /** The commit's tree lists back as HEAD's listing with the files replaced, each by its own blob. */
  lemma CommitListsBack(h: Hash, objects: Objects, m: Listing, files: seq<(Path, Bytes)>, depth: nat, p: Path)
    requires var all := Overridden(h, m, files);
             && Clean(all) && NoConflict(all) && NoTreeModes(all)
             && Intact(h, objects) && Present(h, objects, all) && NoClash(h, objects, all)
             && depth > Longest(all.Keys)
    ensures var r := Flattened(objects, TreeSha(h, Overridden(h, m, files)), depth);
            && r.Some?
            && match LastWord(files, p)
               case Some(data) => p in r.value && r.value[p] == Leaf(FILE_MODE, HashOf(h, ObjectBytes(BLOB, data)))
               case None => (p in r.value <==> p in m) && (p in m ==> r.value[p] == m[p])
  {
    ListsBackExactly(h, objects, Overridden(h, m, files), depth);
    OverriddenSays(h, m, files, p);
  }
}
