/**
 From a flat path listing to a nested tree of git objects, as `build_tree` in
 scripts/manual_commit.py does it, and the recursive listing that git makes of the result.
 */
module TreeBuilder {
  import opened Base
  import opened GitObjects

  type Listing = map<Path, Leaf>
  type Hash = Bytes -> Sha
  type Objects = map<Sha, Bytes>

  // ---------------------------------------------------------------------------------------------
  // Listings
  // ---------------------------------------------------------------------------------------------

  /** The paths below `dir`, with `dir` taken off. */
  function Strip(m: Listing, dir: Path): (r: Listing)
    ensures forall q :: q in r <==> dir + q in m
    ensures forall q :: q in r ==> r[q] == m[dir + q]
  {
    assert forall p :: p in m && dir <= p ==> p == dir + p[|dir|..];
    assert forall q :: (dir + q)[|dir|..] == q;
    map p | p in m && dir <= p :: p[|dir|..] := m[p]
  }

  function Below(n: Bytes): Path { n + [SLASH] }

  function Sub(m: Listing, n: Bytes): Listing { Strip(m, Below(n)) }

  function Head(p: Path): Bytes { p[..FirstAt(SLASH, p)] }

  function Tail(p: Path): Path
    requires SLASH in p
  {
    p[FirstAt(SLASH, p) + 1..]
  }

  lemma HeadTail(p: Path)
    requires SLASH in p
    ensures SLASH !in Head(p) && p == Below(Head(p)) + Tail(p)
  {
    var i := FirstAt(SLASH, p);
    assert p == p[..i] + p[i..];
  }

  lemma BelowIs(n: Bytes, q: Path)
    requires SLASH !in n
    ensures SLASH in Below(n) + q && Head(Below(n) + q) == n && Tail(Below(n) + q) == q
  {
    assert Below(n) + q == n + [SLASH] + q;
    FirstAtSplit(SLASH, n, q);
    assert (Below(n) + q)[|n|] == SLASH;
  }

  /** Names of the files and of the directories at the top.  A file hides a directory of its name. */
  function Files(m: Listing): set<Bytes> { set p | p in m && SLASH !in p }

  function Dirs(m: Listing): set<Bytes> { set p | p in m && SLASH in p && Head(p) !in m :: Head(p) }

  lemma DirsAre(m: Listing, n: Bytes)
    ensures n in Dirs(m) <==> SLASH !in n && n !in m && Sub(m, n) != map[]
  {
    if n in Dirs(m) {
      var p :| p in m && SLASH in p && Head(p) == n && n !in m;
      HeadTail(p);
      assert Tail(p) in Sub(m, n);
    }
    if SLASH !in n && n !in m && Sub(m, n) != map[] {
      var q :| q in Sub(m, n);
      BelowIs(n, q);
      assert Below(n) + q in m;
    }
  }

  ghost function Longest(ps: set<Path>): (l: nat)
    ensures forall p :: p in ps ==> |p| <= l
    ensures ps != {} ==> exists p :: p in ps && |p| == l
  {
    if ps == {} then 0
    else
      var p :| p in ps;
      var l := Longest(ps - {p});
      assert ps == (ps - {p}) + {p};
      if |p| > l then |p| else l
  }

  lemma SubIsShorter(m: Listing, n: Bytes)
    requires n in Dirs(m)
    ensures Longest(Sub(m, n).Keys) < Longest(m.Keys)
  {
    DirsAre(m, n);
    var s := Sub(m, n);
    var k :| k in s;
    assert k in s.Keys;
    var q :| q in s.Keys && |q| == Longest(s.Keys);
    assert Below(n) + q in m.Keys;
  }

  function HashOf(h: Hash, full: Bytes): Sha { h(full) }

  // ---------------------------------------------------------------------------------------------
  // The tree a listing stands for
  // ---------------------------------------------------------------------------------------------

  function ToChild(items: map<Bytes, Leaf>, n: Bytes): Child
    requires n in items
  {
    Child(n, items[n].mode, items[n].sha)
  }

  ghost predicate Plain(items: map<Bytes, Leaf>) { forall n :: n in items ==> SLASH !in n }

  ghost predicate Lists(cs: seq<Child>, items: map<Bytes, Leaf>) {
    Ascending(cs) && forall c :: c in cs <==> c.name in items && c == ToChild(items, c.name)
  }

  /** The children of one directory in git's order. */
  ghost function Sorted(items: map<Bytes, Leaf>): (cs: seq<Child>)
    requires Plain(items)
    ensures Lists(cs, items)
    decreases items.Keys
  {
    if items.Keys == {} then []
    else
      var n :| n in items.Keys;
      var rest := items - {n};
      var c := ToChild(items, n);
      InsertLists(Sorted(rest), items, n);
      Insert(c, Sorted(rest))
  }

  lemma InsertLists(cs: seq<Child>, items: map<Bytes, Leaf>, n: Bytes)
    requires Plain(items) && n in items && Lists(cs, items - {n})
    ensures Lists(Insert(ToChild(items, n), cs), items)
  {
    var c := ToChild(items, n);
    forall d | d in cs ensures SortKey(c) != SortKey(d) { DistinctKeys(c, d); }
    InsertKeepsOrder(c, cs);
    forall d ensures d in Insert(c, cs) <==> d.name in items && d == ToChild(items, d.name) {
      assert d in Insert(c, cs) <==> d in multiset(Insert(c, cs));
      assert d in cs <==> d in multiset(cs);
    }
  }

  lemma SortedIsOnly(cs: seq<Child>, items: map<Bytes, Leaf>)
    requires Plain(items) && Lists(cs, items)
    ensures cs == Sorted(items)
  {
    AscendingIsUnique(cs, Sorted(items));
  }

  /** One directory: files as listed, subdirectories by the sha of their own tree. */
  ghost function Items(h: Hash, m: Listing): (items: map<Bytes, Leaf>)
    ensures items.Keys == Files(m) + Dirs(m) && Plain(items)
    decreases Longest(m.Keys), 0
  {
    map n | n in Files(m) + Dirs(m) ::
      if n in m then m[n] else (SubIsShorter(m, n); Leaf(TREE_MODE, TreeSha(h, Sub(m, n))))
  }

  ghost function TreeObject(h: Hash, m: Listing): Bytes
    decreases Longest(m.Keys), 1
  {
    ObjectBytes(TREE, Serialized(Sorted(Items(h, m))))
  }

  ghost function TreeSha(h: Hash, m: Listing): Sha
    decreases Longest(m.Keys), 2
  {
    HashOf(h, TreeObject(h, m))
  }

  // ---------------------------------------------------------------------------------------------
  // The object store
  // ---------------------------------------------------------------------------------------------

  /** Every object sits under its own hash. */
  ghost predicate Intact(h: Hash, objects: Objects) {
    forall s :: s in objects ==> HashOf(h, objects[s]) == s
  }

  /** The shas of the tree and of all trees below it are in the store. */
  ghost predicate Present(h: Hash, objects: Objects, m: Listing)
    decreases Longest(m.Keys)
  {
    TreeSha(h, m) in objects &&
    forall n :: n in Dirs(m) ==> (SubIsShorter(m, n); Present(h, objects, Sub(m, n)))
  }

  lemma {:induction false} PresentGrows(h: Hash, a: Objects, b: Objects, m: Listing)
    requires Present(h, a, m) && a.Keys <= b.Keys
    ensures Present(h, b, m)
    decreases Longest(m.Keys)
  {
    forall n | n in Dirs(m) ensures Present(h, b, Sub(m, n)) {
      SubIsShorter(m, n);
      PresentGrows(h, a, b, Sub(m, n));
    }
  }

  lemma TreeShaIs(h: Hash, m: Listing)
    ensures TreeSha(h, m) == HashOf(h, ObjectBytes(TREE, Serialized(Sorted(Items(h, m)))))
  {
  }

  lemma PresentNow(h: Hash, a: Objects, b: Objects, m: Listing)
    requires a.Keys <= b.Keys && TreeSha(h, m) in b
    requires forall n :: n in Dirs(m) ==> Present(h, a, Sub(m, n))
    ensures Present(h, b, m)
  {
    forall n | n in Dirs(m) ensures Present(h, b, Sub(m, n)) {
      PresentGrows(h, a, b, Sub(m, n));
    }
  }

  function Stored(h: Hash, objects: Objects, full: Bytes): Objects {
    if HashOf(h, full) in objects then objects else objects[HashOf(h, full) := full]
  }

  lemma StoredIsIntact(h: Hash, objects: Objects, full: Bytes)
    requires Intact(h, objects)
    ensures Intact(h, Stored(h, objects, full)) && HashOf(h, full) in Stored(h, objects, full)
    ensures forall s :: s in objects ==> s in Stored(h, objects, full) && Stored(h, objects, full)[s] == objects[s]
  {
  }

  // ---------------------------------------------------------------------------------------------
  // The builder
  // ---------------------------------------------------------------------------------------------

  datatype Entry = Entry(path: Path, leaf: Leaf)

  ghost predicate Distinct(entries: seq<Entry>) {
    forall i, j :: 0 <= i < j < |entries| ==> entries[i].path != entries[j].path
  }

  /** The listing an insertion-ordered dictionary stands for. */
  function ListingOf(entries: seq<Entry>): Listing {
    if entries == [] then map[]
    else
      var e := entries[|entries| - 1];
      ListingOf(entries[..|entries| - 1])[e.path := e.leaf]
  }

  lemma {:induction false} ListingOfHas(entries: seq<Entry>)
    requires Distinct(entries)
    ensures forall p :: p in ListingOf(entries) <==> exists i :: 0 <= i < |entries| && entries[i].path == p
    ensures forall i :: 0 <= i < |entries| ==> ListingOf(entries)[entries[i].path] == entries[i].leaf
  {
    if entries != [] {
      var init := entries[..|entries| - 1];
      ListingOfHas(init);
      assert entries == init + [entries[|entries| - 1]];
    }
  }

  function Find(entries: seq<Entry>, path: Path): (i: nat)
    ensures i <= |entries| && forall j :: 0 <= j < i ==> entries[j].path != path
    ensures i < |entries| ==> entries[i].path == path
  {
    if entries == [] || entries[0].path == path then 0 else 1 + Find(entries[1..], path)
  }

  /** Setting one key: in place when it is there, at the end when it is new. */
  function SetEntry(entries: seq<Entry>, path: Path, leaf: Leaf): seq<Entry> {
    var i := Find(entries, path);
    if i < |entries| then entries[i := Entry(path, leaf)] else entries + [Entry(path, leaf)]
  }

  lemma SetEntrySets(entries: seq<Entry>, path: Path, leaf: Leaf)
    requires Distinct(entries)
    ensures Distinct(SetEntry(entries, path, leaf))
    ensures ListingOf(SetEntry(entries, path, leaf)) == ListingOf(entries)[path := leaf]
  {
    var r, i := SetEntry(entries, path, leaf), Find(entries, path);
    if i < |entries| {
      SetInPlace(entries, i, leaf);
    } else {
      assert r[..|r| - 1] == entries;
    }
  }

  lemma {:induction false} SetInPlace(entries: seq<Entry>, i: nat, leaf: Leaf)
    requires Distinct(entries) && i < |entries|
    ensures ListingOf(entries[i := Entry(entries[i].path, leaf)]) == ListingOf(entries)[entries[i].path := leaf]
  {
    var r := entries[i := Entry(entries[i].path, leaf)];
    var init := entries[..|entries| - 1];
    if i == |entries| - 1 {
      assert r[..i] == init;
    } else {
      SetInPlace(init, i, leaf);
      assert r[..|r| - 1] == init[i := Entry(entries[i].path, leaf)];
      assert entries[i].path != entries[|entries| - 1].path;
    }
  }

  /** The subprefix a path leads to below `dir`, and why the recursion ends. */
  lemma SubprefixGrows(m: Listing, dir: Path, path: Path)
    requires path in m && dir <= path && SLASH in path[|dir|..]
    ensures var sub := Head(path[|dir|..]);
            var next := dir + Below(sub);
            SLASH !in sub && |dir| < |next| <= Longest(m.Keys) && Strip(m, next) == Sub(Strip(m, dir), sub)
  {
    var rest := path[|dir|..];
    var sub := Head(rest);
    var next := dir + Below(sub);
    HeadTail(rest);
    assert path == dir + rest;
    assert path in m.Keys;
    StripTwice(m, dir, Below(sub));
  }

  lemma StripTwiceAt(m: Listing, a: Path, b: Path, q: Path)
    ensures q in Strip(m, a + b) <==> q in Strip(Strip(m, a), b)
    ensures q in Strip(m, a + b) ==> Strip(m, a + b)[q] == Strip(Strip(m, a), b)[q]
  {
    hide Strip;
    assert (a + b) + q == a + (b + q);
  }

  lemma StripTwice(m: Listing, a: Path, b: Path)
    ensures Strip(m, a + b) == Strip(Strip(m, a), b)
  {
    var x, y := Strip(m, a + b), Strip(Strip(m, a), b);
    SamePaths(m, a, b, x, y);
    SameMaps(x, y);
  }

  lemma SamePaths(m: Listing, a: Path, b: Path, x: Listing, y: Listing)
    requires x == Strip(m, a + b) && y == Strip(Strip(m, a), b)
    ensures x.Keys == y.Keys && forall q :: q in x ==> x[q] == y[q]
  {
    hide Strip;
    forall q ensures (q in x <==> q in y) && (q in x ==> x[q] == y[q]) { StripTwiceAt(m, a, b, q); }
  }

  /** `e` has left its mark on the items: its file, or the directory it lies in. */
  predicate Covers(items: map<Bytes, Leaf>, dir: Path, e: Entry) {
    dir <= e.path ==>
      var rest := e.path[|dir|..];
      if SLASH in rest then Head(rest) in items else rest in items && items[rest] == e.leaf
  }

  /** Name `n` has its final value, or a file of that name is still to come. */
  ghost predicate Faithful(all: map<Bytes, Leaf>, entries: seq<Entry>, dir: Path, i: nat, items: map<Bytes, Leaf>,
                           n: Bytes)
    requires i <= |entries| && n in items
  {
    n in all && (items[n] == all[n]
                 || exists j :: i <= j < |entries| && entries[j].path == dir + n)
  }

  /** How far the items collected from the first `i` entries agree with the directory's final items. */
  ghost predicate Collected(all: map<Bytes, Leaf>, entries: seq<Entry>, dir: Path, i: nat, items: map<Bytes, Leaf>)
    requires i <= |entries|
  {
    && (forall j :: 0 <= j < i ==> Covers(items, dir, entries[j]))
    && (forall n :: n in items ==> Faithful(all, entries, dir, i, items, n))
  }

  lemma EntryFor(entries: seq<Entry>, dir: Path, p: Path) returns (j: nat)
    requires Distinct(entries) && p in Strip(ListingOf(entries), dir)
    ensures j < |entries| && entries[j].path == dir + p && entries[j].path[|dir|..] == p
    ensures entries[j].leaf == Strip(ListingOf(entries), dir)[p]
  {
    ListingOfHas(entries);
    j :| 0 <= j < |entries| && entries[j].path == dir + p;
  }

  lemma WhereFrom(h: Hash, d: Listing, n: Bytes) returns (p: Path)
    requires n in Items(h, d)
    ensures p in d && (if SLASH in p then Head(p) == n else p == n)
    ensures n in d ==> p == n && Items(h, d)[n] == d[n]
  {
    if n in d { p := n; } else { p :| p in d && SLASH in p && Head(p) == n; }
  }

  lemma CollectedOne(h: Hash, entries: seq<Entry>, dir: Path, items: map<Bytes, Leaf>, n: Bytes)
    requires Distinct(entries)
    requires Collected(Items(h, Strip(ListingOf(entries), dir)), entries, dir, |entries|, items)
    requires n in Items(h, Strip(ListingOf(entries), dir))
    ensures n in items
  {
    var p := WhereFrom(h, Strip(ListingOf(entries), dir), n);
    hide Items, Strip, ListingOf, Head;
    var j := EntryFor(entries, dir, p);
    assert Covers(items, dir, entries[j]);
  }

  lemma CollectedAll(h: Hash, entries: seq<Entry>, dir: Path, items: map<Bytes, Leaf>)
    requires Distinct(entries)
    requires Collected(Items(h, Strip(ListingOf(entries), dir)), entries, dir, |entries|, items)
    ensures items == Items(h, Strip(ListingOf(entries), dir))
  {
    hide Items, Strip, ListingOf, Head;
    var all := Items(h, Strip(ListingOf(entries), dir));
    forall n | n in all ensures n in items { CollectedOne(h, entries, dir, items, n); }
    assert forall n :: n in items ==> Faithful(all, entries, dir, |entries|, items, n);
    assert items.Keys == all.Keys;
    SameMaps(items, all);
  }

  /** What one turn of the loop over the entries does to the items of the directory with listing `d`. */
  ghost function NextItems(h: Hash, d: Listing, dir: Path, e: Entry, items: map<Bytes, Leaf>): map<Bytes, Leaf> {
    if !(dir <= e.path) then items else
    var rest := e.path[|dir|..];
    if SLASH !in rest then items[rest := e.leaf]
    else if Head(rest) in items then items
    else items[Head(rest) := Leaf(TREE_MODE, TreeSha(h, Sub(d, Head(rest))))]
  }

  lemma EntryIsListed(entries: seq<Entry>, i: nat)
    requires Distinct(entries) && i < |entries|
    ensures entries[i].path in ListingOf(entries) && ListingOf(entries)[entries[i].path] == entries[i].leaf
  {
    ListingOfHas(entries);
  }

  lemma CollectedSkip(all: map<Bytes, Leaf>, entries: seq<Entry>, dir: Path, i: nat, items: map<Bytes, Leaf>)
    requires i < |entries| && Collected(all, entries, dir, i, items)
    requires Covers(items, dir, entries[i])
    requires forall n :: dir + n == entries[i].path ==> SLASH in n
    requires forall n :: n in all ==> SLASH !in n
    ensures Collected(all, entries, dir, i + 1, items)
  {
    forall n | n in items ensures Faithful(all, entries, dir, i + 1, items, n) {
      assert Faithful(all, entries, dir, i, items, n);
    }
  }

  lemma CollectedAdd(all: map<Bytes, Leaf>, entries: seq<Entry>, dir: Path, i: nat, items: map<Bytes, Leaf>, n: Bytes,
                     leaf: Leaf)
    requires Distinct(entries) && i < |entries| && Collected(all, entries, dir, i, items)
    requires forall n :: n in all ==> SLASH !in n
    requires dir <= entries[i].path && n in all
    requires var rest := entries[i].path[|dir|..];
             if SLASH in rest then n == Head(rest) && n !in items
               && (leaf == all[n] || exists j :: i < j < |entries| && entries[j].path == dir + n)
             else n == rest && leaf == entries[i].leaf == all[n]
    ensures Collected(all, entries, dir, i + 1, items[n := leaf])
  {
    var items' := items[n := leaf];
    var rest := entries[i].path[|dir|..];
    assert entries[i].path == dir + rest;
    forall j | 0 <= j < i + 1 ensures Covers(items', dir, entries[j]) {
      if j < i {
        assert Covers(items, dir, entries[j]);
        assert dir <= entries[j].path ==> entries[j].path == dir + entries[j].path[|dir|..];
      }
    }
    forall x | x in items' ensures Faithful(all, entries, dir, i + 1, items', x) {
      if x != n {
        assert Faithful(all, entries, dir, i, items, x);
        assert dir + x == entries[i].path ==> x == rest;
      }
    }
  }

  /** A directory met before the file that hides it: the file is further on. */
  lemma LaterFile(all: map<Bytes, Leaf>, entries: seq<Entry>, dir: Path, i: nat, items: map<Bytes, Leaf>)
    requires Distinct(entries) && i < |entries| && Collected(all, entries, dir, i, items)
    requires dir <= entries[i].path && SLASH in entries[i].path[|dir|..] && Head(entries[i].path[|dir|..]) !in items
    requires Head(entries[i].path[|dir|..]) in Strip(ListingOf(entries), dir)
    ensures exists j :: i < j < |entries| && entries[j].path == dir + Head(entries[i].path[|dir|..])
  {
    var rest := entries[i].path[|dir|..];
    HeadTail(rest);
    hide ListingOf, Strip, Head, Distinct, Collected;
    FileIsLater(all, entries, dir, i, items, rest, Head(rest));
  }

  lemma FileIsLater(all: map<Bytes, Leaf>, entries: seq<Entry>, dir: Path, i: nat, items: map<Bytes, Leaf>,
                    rest: Path, n: Bytes)
    requires Distinct(entries) && i < |entries| && Collected(all, entries, dir, i, items)
    requires dir <= entries[i].path && rest == entries[i].path[|dir|..] && SLASH in rest
    requires SLASH !in n && n !in items && n in Strip(ListingOf(entries), dir)
    ensures exists j :: i < j < |entries| && entries[j].path == dir + n
  {
    hide ListingOf, Strip, Distinct;
    var j := EntryFor(entries, dir, n);
    hide Collected;
    assert j != i;
    if j < i { NotCollectedYet(all, entries, dir, i, items, j, n); }
  }

  lemma NotCollectedYet(all: map<Bytes, Leaf>, entries: seq<Entry>, dir: Path, i: nat, items: map<Bytes, Leaf>,
                        k: nat, n: Bytes)
    requires k < i <= |entries| && Collected(all, entries, dir, i, items) && n !in items && SLASH !in n
    ensures entries[k].path != dir + n
  {
    CoveredElsewhere(items, dir, entries[k], n);
  }

  lemma CoveredElsewhere(items: map<Bytes, Leaf>, dir: Path, e: Entry, n: Bytes)
    requires Covers(items, dir, e) && n !in items && SLASH !in n
    ensures e.path != dir + n
  {
    assert (dir + n)[|dir|..] == n;
  }

  lemma CollectedNext(h: Hash, d: Listing, all: map<Bytes, Leaf>, entries: seq<Entry>, dir: Path, i: nat,
                      items: map<Bytes, Leaf>)
    requires Distinct(entries) && i < |entries|
    requires d == Strip(ListingOf(entries), dir) && all == Items(h, d)
    requires Collected(all, entries, dir, i, items)
    ensures Collected(all, entries, dir, i + 1, NextItems(h, d, dir, entries[i], items))
  {
    hide Items, TreeSha, Sub, ListingOf, Head, Collected, Strip;
    var e := entries[i];
    EntryIsListed(entries, i);
    assert forall n :: n in all ==> SLASH !in n;
    if dir <= e.path {
      var rest := e.path[|dir|..];
      assert e.path == dir + rest && rest in d;
      assert forall n :: dir + n == e.path ==> n == rest;
      if SLASH in rest {
        NewDirectory(h, d, rest);
        if Head(rest) in items {
          CollectedSkip(all, entries, dir, i, items);
        } else {
          if Head(rest) in d { LaterFile(all, entries, dir, i, items); }
          CollectedAdd(all, entries, dir, i, items, Head(rest), Leaf(TREE_MODE, TreeSha(h, Sub(d, Head(rest)))));
        }
      } else {
        FileItem(h, d, rest);
        CollectedAdd(all, entries, dir, i, items, rest, e.leaf);
      }
    } else {
      assert forall n :: dir + n != e.path;
      CollectedSkip(all, entries, dir, i, items);
    }
  }

  lemma CollectedNone(all: map<Bytes, Leaf>, entries: seq<Entry>, dir: Path)
    ensures Collected(all, entries, dir, 0, map[])
  {
  }

  lemma FileItem(h: Hash, d: Listing, n: Bytes)
    requires n in d && SLASH !in n
    ensures n in Items(h, d) && Items(h, d)[n] == d[n]
  {
  }

  lemma NotADirectory(d: Listing, n: Bytes)
    requires n in d
    ensures n !in Dirs(d)
  {
    DirsAre(d, n);
  }

  lemma NewDirectory(h: Hash, d: Listing, rest: Path)
    requires rest in d && SLASH in rest
    ensures SLASH !in Head(rest) && Head(rest) in Items(h, d)
    ensures Head(rest) in d || Items(h, d)[Head(rest)] == Leaf(TREE_MODE, TreeSha(h, Sub(d, Head(rest))))
  {
    HeadTail(rest);
  }

  /** HEAD's listing with each of `files` set to its blob, as an ordinary file. */
  function Overridden(h: Hash, m: Listing, files: seq<(Path, Bytes)>): Listing {
    if files == [] then m
    else
      var f := files[|files| - 1];
      Overridden(h, m, files[..|files| - 1])[f.0 := Leaf(FILE_MODE, HashOf(h, ObjectBytes(BLOB, f.1)))]
  }

  class TreeWriter {
    const hash: Hash
    var objects: Objects
    var cache: map<Path, Sha>

    constructor (hash: Hash, objects: Objects)
      ensures this.hash == hash && this.objects == objects
    {
      this.hash := hash;
      this.objects := objects;
      this.cache := map[];
    }

    /** Writes an object unless its sha is already taken. */
    method Store(kind: Bytes, data: Bytes) returns (sha: Sha)
      modifies this`objects
      ensures sha == HashOf(hash, ObjectBytes(kind, data)) && sha in objects
      ensures old(Intact(hash, objects)) ==> Intact(hash, objects)
      ensures forall s :: s in old(objects) ==> s in objects && objects[s] == old(objects)[s]
      ensures objects == Stored(hash, old(objects), ObjectBytes(kind, data))
    {
      hide ObjectBytes, Intact;
      var full := ObjectBytes(kind, data);
      sha := HashOf(hash, full);
      if Intact(hash, objects) { StoredIsIntact(hash, objects, full); }
      if sha !in objects { objects := objects[sha := full]; }
    }

    method SortItems(items: map<Bytes, Leaf>) returns (cs: seq<Child>)
      requires Plain(items)
      ensures cs == Sorted(items)
    {
      cs := [];
      var rest := items.Keys;
      ghost var done := map[];
      while rest != {}
        invariant rest <= items.Keys
        invariant done == items - rest
        invariant Plain(done) && Lists(cs, done)
        decreases rest
      {
        var n :| n in rest;
        ghost var more := items - (rest - {n});
        assert more - {n} == done;
        assert ToChild(more, n) == Child(n, items[n].mode, items[n].sha);
        InsertLists(cs, more, n);
        cs := Insert(Child(n, items[n].mode, items[n].sha), cs);
        rest := rest - {n};
        done := more;
      }
      assert done == items;
      SortedIsOnly(cs, items);
    }

    ghost predicate CacheHolds(m: Listing)
      reads this
    {
      forall p :: p in cache ==> cache[p] == TreeSha(hash, Strip(m, p)) && Present(hash, objects, Strip(m, p))
    }

    /** The sha of the tree of `dir`, with that tree and every tree below it written. */
    method Build(entries: seq<Entry>, dir: Path, ghost m: Listing, ghost d: Listing) returns (sha: Sha)
      requires Distinct(entries) && Intact(hash, objects) && CacheHolds(m)
      requires m == ListingOf(entries) && d == Strip(m, dir)
      modifies this
      ensures Intact(hash, objects) && CacheHolds(m)
      ensures sha == TreeSha(hash, d) && Present(hash, objects, d)
      ensures forall s :: s in old(objects) ==> s in objects && objects[s] == old(objects)[s]
      decreases Longest(m.Keys) - |dir|, 1
    {
      if dir in cache { return cache[dir]; }
      hide Items, TreeSha, Strip, ListingOf, Present, Longest, Dirs, Sorted, Sub, Serialized, ObjectBytes;
      var items := Collect(entries, dir, m, d);
      var children := SortItems(items);
      TreeShaIs(hash, d);
      sha := Finish(m, d, dir, Serialized(children));
    }

    /** The last step of `Build`: one write that completes the tree and disturbs nothing that was cached. */
    method Finish(ghost m: Listing, ghost d: Listing, dir: Path, data: Bytes) returns (sha: Sha)
      requires d == Strip(m, dir) && HashOf(hash, ObjectBytes(TREE, data)) == TreeSha(hash, d)
      requires Intact(hash, objects) && CacheHolds(m)
      requires forall n :: n in Dirs(d) ==> Present(hash, objects, Sub(d, n))
      modifies this
      ensures Intact(hash, objects) && CacheHolds(m)
      ensures sha == TreeSha(hash, d) && Present(hash, objects, d)
      ensures forall s :: s in old(objects) ==> s in objects && objects[s] == old(objects)[s]
    {
      hide HashOf, Present, Longest, ObjectBytes, Strip, Sub, Dirs, TreeSha, Intact, Stored;
      ghost var before := objects;
      sha := Store(TREE, data);
      PresentNow(hash, before, objects, d);
      forall p | p in cache ensures Present(hash, objects, Strip(m, p)) {
        PresentGrows(hash, before, objects, Strip(m, p));
      }
      cache := cache[dir := sha];
      assert Intact(hash, objects) && CacheHolds(m);
    }

    /** The loop of `Build`: the items of one directory, with every tree below it written. */
    method Collect(entries: seq<Entry>, dir: Path, ghost m: Listing, ghost d: Listing) returns (items: map<Bytes, Leaf>)
      requires Distinct(entries) && Intact(hash, objects) && CacheHolds(m)
      requires m == ListingOf(entries) && d == Strip(m, dir)
      modifies this
      ensures Intact(hash, objects) && CacheHolds(m)
      ensures items == Items(hash, d)
      ensures forall n :: n in Dirs(d) ==> Present(hash, objects, Sub(d, n))
      ensures forall s :: s in old(objects) ==> s in objects && objects[s] == old(objects)[s]
      decreases Longest(m.Keys) - |dir|, 0
    {
      hide Items, TreeSha, Strip, Head, ListingOf, Collected, Present, Longest, Dirs, Sub;
      items := map[];
      ghost var all := Items(hash, d);
      CollectedNone(all, entries, dir);
      for i := 0 to |entries|
        invariant Intact(hash, objects) && CacheHolds(m)
        invariant forall s :: s in old(objects) ==> s in objects && objects[s] == old(objects)[s]
        invariant Collected(all, entries, dir, i, items)
        invariant forall n :: n in items && n in Dirs(d) ==> Present(hash, objects, Sub(d, n))
      {
        CollectedNext(hash, d, all, entries, dir, i, items);
        EntryIsListed(entries, i);
        var path := entries[i].path;
        if !(dir <= path) { continue; }
        var rest := path[|dir|..];
        if SLASH in rest {
          var sub := Head(rest);
          if sub in items { continue; }
          var subprefix := dir + Below(sub);
          SubprefixGrows(m, dir, path);
          ghost var before := objects;
          var s := Build(entries, subprefix, m, Sub(d, sub));
          forall n | n in items && n in Dirs(d) ensures Present(hash, objects, Sub(d, n)) {
            PresentGrows(hash, before, objects, Sub(d, n));
          }
          items := items[sub := Leaf(TREE_MODE, s)];
        } else {
          assert path == dir + rest;
          NotADirectory(d, rest);
          items := items[rest := entries[i].leaf];
        }
      }
      CollectedAll(hash, entries, dir, items);
      assert forall n :: n in Dirs(d) ==> n in all;
    }

    /** Writes the blobs of `files` and enters them in the listing. */
    method Override(entries: seq<Entry>, files: seq<(Path, Bytes)>) returns (r: seq<Entry>)
      requires Distinct(entries) && Intact(hash, objects)
      modifies this`objects
      ensures Distinct(r) && Intact(hash, objects)
      ensures ListingOf(r) == Overridden(hash, ListingOf(entries), files)
      ensures forall i :: 0 <= i < |files| ==> HashOf(hash, ObjectBytes(BLOB, files[i].1)) in objects
      ensures forall s :: s in old(objects) ==> s in objects && objects[s] == old(objects)[s]
    {
      hide ObjectBytes, Intact, HashOf, SetEntry;
      r := entries;
      for i := 0 to |files|
        invariant Distinct(r) && Intact(hash, objects)
        invariant ListingOf(r) == Overridden(hash, ListingOf(entries), files[..i])
        invariant forall j :: 0 <= j < i ==> HashOf(hash, ObjectBytes(BLOB, files[j].1)) in objects
        invariant forall s :: s in old(objects) ==> s in objects && objects[s] == old(objects)[s]
      {
        assert files[..i + 1][..i] == files[..i];
        var sha := Store(BLOB, files[i].1);
        SetEntrySets(r, files[i].0, Leaf(FILE_MODE, sha));
        r := SetEntry(r, files[i].0, Leaf(FILE_MODE, sha));
      }
      assert files[..|files|] == files;
    }

    /** The middle of `main`: HEAD's listing, overridden by `files`, rebuilt into a root tree. */
    method Rebuild(entries: seq<Entry>, files: seq<(Path, Bytes)>) returns (root: Sha)
      requires Distinct(entries) && Intact(hash, objects)
      modifies this
      ensures Intact(hash, objects)
      ensures root == TreeSha(hash, Overridden(hash, ListingOf(entries), files))
      ensures Present(hash, objects, Overridden(hash, ListingOf(entries), files))
      ensures forall s :: s in old(objects) ==> s in objects && objects[s] == old(objects)[s]
    {
      hide Intact, Present, TreeSha, Overridden;
      var all := Override(entries, files);
      root := BuildTree(all);
    }

    /** The root sha of a listing, whatever order its entries are in. */
    method BuildTree(entries: seq<Entry>) returns (sha: Sha)
      requires Distinct(entries) && Intact(hash, objects)
      modifies this
      ensures Intact(hash, objects)
      ensures sha == TreeSha(hash, ListingOf(entries)) && Present(hash, objects, ListingOf(entries))
      ensures forall s :: s in old(objects) ==> s in objects && objects[s] == old(objects)[s]
    {
      hide Items, TreeSha, Strip, ListingOf, Present, Longest, Intact;
      cache := map[];
      assert CacheHolds(ListingOf(entries));
      WholeStrip(ListingOf(entries));
      sha := Build(entries, [], ListingOf(entries), ListingOf(entries));
    }
  }

  lemma WholeStrip(m: Listing)
    ensures Strip(m, []) == m
  {
    assert forall q: Path :: [] + q == q;
    SameMaps(Strip(m, []), m);
  }
}
