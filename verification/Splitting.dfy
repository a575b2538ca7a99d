/** Cutting a sequence at separator elements, an empty tail dropped. */
module Splitting {

  predicate Free<T(==)>(s: seq<T>, cuts: set<T>) { forall x :: x in s ==> x !in cuts }

  /** The position of the first separator. */
  function FirstCut<T(==)>(s: seq<T>, cuts: set<T>): (k: nat)
    requires !Free(s, cuts)
    ensures k < |s| && s[k] in cuts && Free(s[..k], cuts)
  {
    if s[0] in cuts then 0
    else
      assert s == [s[0]] + s[1..];
      var k := 1 + FirstCut(s[1..], cuts);
      assert s[..k] == [s[0]] + s[1..][..k - 1];
      k
  }

  function Split<T(==)>(s: seq<T>, cuts: set<T>): seq<seq<T>>
    decreases |s|
  {
    if Free(s, cuts) then (if s == [] then [] else [s])
    else var k := FirstCut(s, cuts); [s[..k]] + Split(s[k + 1..], cuts)
  }

  lemma FirstCutIsFirst<T>(line: seq<T>, cut: T, rest: seq<T>, cuts: set<T>)
    requires Free(line, cuts) && cut in cuts
    ensures var s := line + [cut] + rest; !Free(s, cuts) && FirstCut(s, cuts) == |line|
  {
    var s := line + [cut] + rest;
    assert s[|line|] == cut && cut in s;
    assert forall j :: 0 <= j < |line| ==> s[j] == line[j] && line[j] in line;
    var k := FirstCut(s, cuts);
    forall j | 0 <= j < k ensures s[j] !in cuts { assert s[..k][j] in s[..k]; }
  }

  /** A separator-free line followed by a separator is one piece. */
  lemma SplitFirst<T>(line: seq<T>, cut: T, rest: seq<T>, cuts: set<T>)
    requires Free(line, cuts) && cut in cuts
    ensures Split(line + [cut] + rest, cuts) == [line] + Split(rest, cuts)
  {
    var s := line + [cut] + rest;
    FirstCutIsFirst(line, cut, rest, cuts);
    assert s[..|line|] == line && s[|line| + 1..] == rest;
  }

  lemma SplitNothing<T>(cuts: set<T>)
    ensures Split<T>([], cuts) == []
  {
  }

  /** What comes after a separator is split on its own. */
  lemma {:induction false} SplitAppend<T>(a: seq<T>, cut: T, b: seq<T>, cuts: set<T>)
    requires cut in cuts
    ensures Split(a + [cut] + b, cuts) == Split(a + [cut], cuts) + Split(b, cuts)
    decreases |a|
  {
    hide Split, FirstCut;
    if Free(a, cuts) {
      SplitFirst(a, cut, b, cuts);
      SplitFirst(a, cut, [], cuts);
      assert a + [cut] + [] == a + [cut];
      SplitNothing<T>(cuts);
    } else {
      var k := FirstCut(a, cuts);
      var line, c, rest := a[..k], a[k], a[k + 1..];
      assert a == line + [c] + rest;
      SplitAppend(rest, cut, b, cuts);
      SplitFirst(line, c, rest + [cut] + b, cuts);
      SplitFirst(line, c, rest + [cut], cuts);
      assert a + [cut] + b == line + [c] + (rest + [cut] + b);
      assert a + [cut] == line + [c] + (rest + [cut]);
    }
  }
}
