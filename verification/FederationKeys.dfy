/**
 Key reversal in the federation ledger: which keys come back when they are reversed twice, and for
 which member lists all of them do.
 */
module FederationKeys {
  import opened Base
  import opened Federation

  lemma {:induction false} SwapMembersPicks(names: seq<string>, members: seq<string>, key: Key)
    requires forall n :: n in names ==> n in members
    ensures SwapMembers(names, members, key).None? ==> forall n :: n in names ==> !Splits(members, key, n)
    ensures SwapMembers(names, members, key).Some? ==>
              exists i :: 0 <= i < |names| && Splits(members, key, names[i])
                          && SwapMembers(names, members, key) == Some(SwapAt(key, |names[i]|))
                          && forall j :: 0 <= j < i ==> !Splits(members, key, names[j])
  {
    if names != [] {
      var rest := names[1..];
      SwapMembersPicks(rest, members, key);
      if Splits(members, key, names[0]) {
        assert key[..|names[0]|] == names[0];
      } else if SwapMembers(rest, members, key).Some? {
        var i :| 0 <= i < |rest| && Splits(members, key, rest[i])
                 && SwapMembers(rest, members, key) == Some(SwapAt(key, |rest[i]|))
                 && forall j :: 0 <= j < i ==> !Splits(members, key, rest[j]);
        assert names[i + 1] == rest[i];
        forall j | 0 <= j < i + 1 ensures !Splits(members, key, names[j]) {
          if j > 0 { assert names[j] == rest[j - 1]; }
        }
      } else {
        forall n | n in names ensures !Splits(members, key, n) {
          assert n == names[0] || n in rest;
        }
      }
    }
  }

  /** The first name that splits the key. */
  lemma Picked(ms: seq<string>, key: Key) returns (i: nat)
    requires SwapMembers(ms, ms, key).Some?
    ensures i < |ms| && Splits(ms, key, ms[i]) && SwapMembers(ms, ms, key) == Some(SwapAt(key, |ms[i]|))
    ensures forall j :: 0 <= j < i ==> !Splits(ms, key, ms[j])
  {
    SwapMembersPicks(ms, ms, key);
    i :| 0 <= i < |ms| && Splits(ms, key, ms[i]) && SwapMembers(ms, ms, key) == Some(SwapAt(key, |ms[i]|))
         && forall j :: 0 <= j < i ==> !Splits(ms, key, ms[j]);
  }

  lemma SameSplits(ms: seq<string>, ns: seq<string>, key: Key)
    requires forall n :: n in ms <==> n in ns
    ensures forall n :: Splits(ms, key, n) == Splits(ns, key, n)
  {
  }

  /** Ties between equally long names cannot matter: the opposite key depends on the set of members only. */
  lemma OppositeIgnoresTies(ms: seq<string>, ns: seq<string>, key: Key)
    requires LongestFirst(ms) && LongestFirst(ns)
    requires forall n :: n in ms <==> n in ns
    ensures Opposite(ms, key) == Opposite(ns, key)
  {
    SwapMembersPicks(ms, ms, key);
    SwapMembersPicks(ns, ns, key);
    SameSplits(ms, ns, key);
    hide SwapMembers, Splits, SwapAt;
    if SwapMembers(ms, ms, key).Some? && SwapMembers(ns, ns, key).Some? {
      var i := Picked(ms, key);
      var k := Picked(ns, key);
      var i' :| 0 <= i' < |ns| && ns[i'] == ms[i];
      var k' :| 0 <= k' < |ms| && ms[k'] == ns[k];
      assert k <= i' && i <= k';
      assert |ms[i]| == |ns[k]|;
    }
  }

  // ---------------------------------------------------------------------------------------------
  // Reversing twice
  // ---------------------------------------------------------------------------------------------

  /** The longest member that splits `key`. */
  predicate LongestSplit(members: seq<string>, key: Key, n: string) {
    Splits(members, key, n) && forall m | m in members :: Splits(members, key, m) ==> |m| <= |n|
  }

  /** What `n` leaves of a key it splits. */
  function Rest(key: Key, n: string): string
    requires |n| < |key|
  {
    key[|n| + 1..]
  }

  lemma SplitsRead(members: seq<string>, key: Key, n: string)
    requires Splits(members, key, n)
    ensures |n| < |key| && key == n + "-" + Rest(key, n) && Rest(key, n) in members
    ensures SwapAt(key, |n|) == Rest(key, n) + "-" + n
  {
    assert key[..|n|] == n;
  }

  lemma JoinSplits(members: seq<string>, n: string, r: string)
    requires n in members && r in members
    ensures Splits(members, n + "-" + r, n) && Rest(n + "-" + r, n) == r
  {
  }

  /** Two members of the same length split a key in the same way. */
  lemma SameLengthSameSplit(members: seq<string>, key: Key, n: string, m: string)
    requires Splits(members, key, n) && Splits(members, key, m) && |n| == |m|
    ensures n == m
  {
    assert key[..|n|] == n && key[..|m|] == m;
  }

  /** The search finds the longest split. */
  lemma SearchFindsLongest(members: seq<string>, key: Key) returns (n: string)
    requires LongestFirst(members) && SwapMembers(members, members, key).Some?
    ensures LongestSplit(members, key, n) && |n| < |key|
    ensures SwapMembers(members, members, key) == Some(Rest(key, n) + "-" + n)
  {
    var i := Picked(members, key);
    n := members[i];
    SplitsRead(members, key, n);
    forall m | m in members && Splits(members, key, m) ensures |m| <= |n| {
      var j :| 0 <= j < |members| && members[j] == m;
      assert j >= i;
    }
  }

  lemma SearchIsLongest(members: seq<string>, key: Key, n: string)
    requires LongestFirst(members) && LongestSplit(members, key, n)
    ensures |n| < |key| && SwapMembers(members, members, key) == Some(Rest(key, n) + "-" + n)
  {
    SwapMembersPicks(members, members, key);
    var m := SearchFindsLongest(members, key);
    SameLengthSameSplit(members, key, n, m);
  }

  predicate ReadsAs(members: seq<string>, key: Key, n: string, r: string) {
    n in members && r in members && key == n + "-" + r
  }

  lemma ReadsWhenSplit(members: seq<string>, key: Key, n: string)
    ensures Splits(members, key, n) <==> exists r :: ReadsAs(members, key, n, r)
    ensures Splits(members, key, n) ==> |n| < |key| && ReadsAs(members, key, n, Rest(key, n))
  {
    if Splits(members, key, n) {
      SplitsRead(members, key, n);
      assert ReadsAs(members, key, n, Rest(key, n));
    }
    if r :| ReadsAs(members, key, n, r) { JoinSplits(members, n, r); }
  }

  /** The key reads as two members around a hyphen, with the first as long as possible; these two the other way. */
  ghost predicate SwapsMembers(members: seq<string>, key: Key, o: Key) {
    exists n, r :: ReadsAs(members, key, n, r) && o == r + "-" + n
      && forall m, q :: ReadsAs(members, key, m, q) ==> |m| <= |n|
  }

  /** It does not, but has exactly one hyphen; its two halves the other way. */
  ghost predicate SwapsHalves(members: seq<string>, key: Key, o: Key) {
    && (forall n, r :: !ReadsAs(members, key, n, r))
    && exists a, b :: '-' !in a && '-' !in b && key == a + "-" + b && o == b + "-" + a
  }

  /** What the opposite of a key is, in whatever order equally long members are searched. */
  lemma OppositeExactly(members: seq<string>, key: Key, o: Key)
    requires LongestFirst(members)
    ensures Opposite(members, key) == Some(o) <==> SwapsMembers(members, key, o) || SwapsHalves(members, key, o)
  {
    SwapMembersPicks(members, members, key);
    forall n ensures Splits(members, key, n) <==> exists r :: ReadsAs(members, key, n, r) {
      ReadsWhenSplit(members, key, n);
    }
    if SwapMembers(members, members, key).Some? {
      var n := SearchFindsLongest(members, key);
      ReadsWhenSplit(members, key, n);
      hide LongestFirst, SwapMembers, SwapHalves;
      MembersSwapped(members, key, n, o);
    } else {
      HalvesSwapped(key, o);
    }
  }

  lemma MembersSwapped(members: seq<string>, key: Key, n: string, o: Key)
    requires LongestSplit(members, key, n) && |n| < |key| && ReadsAs(members, key, n, Rest(key, n))
    ensures SwapsMembers(members, key, o) <==> o == Rest(key, n) + "-" + n
    ensures !SwapsHalves(members, key, o)
  {
    forall m, q | ReadsAs(members, key, m, q) ensures |m| <= |n| && (|m| == |n| ==> m == n && q == Rest(key, n)) {
      JoinSplits(members, m, q);
      if |m| == |n| { SameLengthSameSplit(members, key, n, m); }
    }
  }

  lemma HalvesSwapped(key: Key, o: Key)
    ensures SwapHalves(key) == Some(o) <==>
              exists a, b :: '-' !in a && '-' !in b && key == a + "-" + b && o == b + "-" + a
  {
    if a, b :| '-' !in a && '-' !in b && key == a + "-" + b && o == b + "-" + a { HyphenPlace(key, a, b); }
    if SwapHalves(key) == Some(o) {
      var i := FirstHyphen(key);
      var a, b := key[..i], key[i + 1..];
      assert '-' !in a && key == a + "-" + b && o == b + "-" + a;
    }
  }

  /** If `key` reads `n-r` at its longest split and `r-n` reads `m-q` at its own, then `q-m` is `key`. */
  predicate Returns(members: seq<string>, key: Key) {
    forall n | n in members :: LongestSplit(members, key, n) ==> ReturnsFrom(members, n, Rest(key, n))
  }

  predicate ReturnsFrom(members: seq<string>, n: string, r: string) {
    forall m | m in members :: LongestSplit(members, r + "-" + n, m) ==> Rest(r + "-" + n, m) + "-" + m == n + "-" + r
  }

  /** The key that a split key is reversed to is split again. */
  lemma SwappedSplitsAgain(members: seq<string>, n: string, r: string) returns (m: string)
    requires LongestFirst(members) && n in members && r in members
    ensures LongestSplit(members, r + "-" + n, m) && |m| < |r + "-" + n|
    ensures SwapMembers(members, members, r + "-" + n) == Some(Rest(r + "-" + n, m) + "-" + m)
  {
    JoinSplits(members, r, n);
    SwapMembersPicks(members, members, r + "-" + n);
    m := SearchFindsLongest(members, r + "-" + n);
  }

  lemma HyphenPlace(o: Key, q: string, p: string)
    requires o == q + "-" + p && '-' !in q
    ensures FirstHyphen(o) == |q| && o[|q| + 1..] == p && o[..|q|] == q
  {
    assert o[|q|] == '-';
    assert forall j :: 0 <= j < |q| ==> o[j] == q[j];
  }

  lemma SoleHyphenSplit(members: seq<string>, o: Key, q: string, p: string, m: string)
    requires o == q + "-" + p && '-' !in q && '-' !in p
    requires Splits(members, o, m)
    ensures m == q && p in members
  {
    assert o[|m|] == (m + "-")[|m|] == '-';
    assert forall j :: 0 <= j < |q| ==> o[j] == q[j];
    assert forall j :: 0 <= j < |p| ==> o[|q| + 1 + j] == p[j];
    assert |m| == |q|;
    assert o[..|m|] == m && o[..|q|] == q;
    assert o[|m| + 1..] == p;
  }

  lemma HalfSwapReturns(members: seq<string>, key: Key)
    requires SwapMembers(members, members, key).None? && SwapHalves(key).Some?
    ensures Opposite(members, SwapHalves(key).value) == Some(key)
  {
    var i := FirstHyphen(key);
    var p, q := key[..i], key[i + 1..];
    var o := q + "-" + p;
    assert key == p + "-" + q;
    assert '-' !in p;
    HyphenPlace(o, q, p);
    SwapMembersPicks(members, members, o);
    if SwapMembers(members, members, o).Some? {
      var j :| 0 <= j < |members| && Splits(members, o, members[j]);
      SoleHyphenSplit(members, o, q, p, members[j]);
      assert p + "-" <= key && key[|p| + 1..] == q;
      assert Splits(members, key, p);
      SwapMembersPicks(members, members, key);
    }
  }

  /**
   Reversed twice, a key comes back exactly when its two longest splits fit together; keys outside
   the list always do.
   */
  lemma OppositeReturnsExactly(members: seq<string>, key: Key)
    requires LongestFirst(members) && Opposite(members, key).Some?
    ensures Opposite(members, Opposite(members, key).value) == Some(key) <==> Returns(members, key)
  {
    hide SwapMembers, SwapHalves, LongestFirst, LongestSplit;
    if SwapMembers(members, members, key).Some? {
      var n := SearchFindsLongest(members, key);
      assert Splits(members, key, n) by { LongestSplits(members, key, n); }
      SplitsRead(members, key, n);
      var r := Rest(key, n);
      var m := SwappedSplitsAgain(members, n, r);
      OnlyLongest(members, key, n);
      OnlyLongest(members, r + "-" + n, m);
      assert Returns(members, key) <==> Rest(r + "-" + n, m) + "-" + m == key;
    } else {
      HalfSwapReturns(members, key);
      NoSplitNoLongest(members, key);
    }
  }

  lemma LongestSplits(members: seq<string>, key: Key, n: string)
    requires LongestSplit(members, key, n)
    ensures Splits(members, key, n) && n in members
  {
  }

  lemma OnlyLongest(members: seq<string>, key: Key, n: string)
    requires LongestSplit(members, key, n)
    ensures n in members && forall m | m in members :: LongestSplit(members, key, m) ==> m == n
  {
    forall m | m in members && LongestSplit(members, key, m) ensures m == n { SameLengthSameSplit(members, key, n, m); }
  }

  lemma NoSplitNoLongest(members: seq<string>, key: Key)
    requires SwapMembers(members, members, key).None?
    ensures forall n | n in members :: !LongestSplit(members, key, n)
  {
    SwapMembersPicks(members, members, key);
  }

  /**
   For all members `a` and `b` such that `a` is the longest member splitting `a-b`, the longest split
   of `b-a` leads back.
   */
  predicate Reversible(members: seq<string>) {
    forall a, b | a in members && b in members :: LongestSplit(members, a + "-" + b, a) ==> ReturnsFrom(members, a, b)
  }

  /**
   Every key comes back over a member list exactly when the list is reversible, which takes its own
   names to find out.
   */
  lemma AllKeysReturnExactly(members: seq<string>)
    requires LongestFirst(members)
    ensures (forall key :: KeyReturns(members, key)) <==> Reversible(members)
  {
    if Reversible(members) {
      forall key ensures KeyReturns(members, key) { ReversibleReturns(members, key); }
    }
    if forall key :: KeyReturns(members, key) { ReturningIsReversible(members); }
  }

  lemma ReturningIsReversible(members: seq<string>)
    requires LongestFirst(members) && forall key :: KeyReturns(members, key)
    ensures Reversible(members)
  {
    hide KeyReturns, LongestFirst, LongestSplit, ReturnsFrom;
    forall a, b | a in members && b in members && LongestSplit(members, a + "-" + b, a)
      ensures ReturnsFrom(members, a, b)
    {
      assert KeyReturns(members, a + "-" + b);
      ReturningFits(members, a, b);
    }
  }

  lemma ReversibleReturns(members: seq<string>, key: Key)
    requires LongestFirst(members) && Reversible(members)
    ensures KeyReturns(members, key)
  {
    forall n | n in members && LongestSplit(members, key, n) ensures ReturnsFrom(members, n, Rest(key, n)) {
      SplitsRead(members, key, n);
    }
    hide LongestSplit, ReturnsFrom, Opposite;
    if Opposite(members, key).Some? { OppositeReturnsExactly(members, key); }
  }

  lemma ReturningFits(members: seq<string>, a: string, b: string)
    requires LongestFirst(members) && a in members && b in members && LongestSplit(members, a + "-" + b, a)
    requires KeyReturns(members, a + "-" + b)
    ensures ReturnsFrom(members, a, b)
  {
    var key := a + "-" + b;
    JoinSplits(members, a, b);
    SearchIsLongest(members, key, a);
    hide LongestSplit, ReturnsFrom, SwapMembers;
    OppositeReturnsExactly(members, key);
  }

  predicate KeyReturns(members: seq<string>, key: Key) {
    Opposite(members, key).Some? ==> Opposite(members, Opposite(members, key).value) == Some(key)
  }

  /** No text reads as `a-b` for two different pairs of members. */
  ghost predicate Unambiguous(members: seq<string>) {
    forall a, b, c, d {:trigger a + "-" + b, c + "-" + d}
      | a in members && b in members && c in members && d in members ::
      a + "-" + b == c + "-" + d ==> a == c
  }

  /** A list in which no text reads in two ways is reversible. */
  lemma UnambiguousIsReversible(members: seq<string>)
    requires Unambiguous(members)
    ensures Reversible(members)
  {
    forall a, b, m | a in members && b in members && m in members && LongestSplit(members, b + "-" + a, m)
      ensures Rest(b + "-" + a, m) + "-" + m == a + "-" + b
    {
      SplitsRead(members, b + "-" + a, m);
      JoinSplits(members, b, a);
    }
  }

  /** Names that contain hyphens can break this: `b-c-a` leads to `a-b-c`, and that leads to `c-a-b`. */
  lemma OppositeCanDriftAway()
    ensures var ms := ["b-c", "a-b", "a", "c"];
            LongestFirst(ms)
            && Opposite(ms, "b-c-a") == Some("a-b-c")
            && Opposite(ms, "a-b-c") == Some("c-a-b")
            && Opposite(ms, "c-a-b") == Some("a-b-c")
  {
    var ms := ["b-c", "a-b", "a", "c"];
    DriftsFirst(ms);
    DriftsSecond(ms);
    DriftsThird(ms);
    hide SwapMembers, SwapHalves;
  }

  lemma DriftsFirst(ms: seq<string>)
    requires ms == ["b-c", "a-b", "a", "c"]
    ensures SwapMembers(ms, ms, "b-c-a") == Some("a-b-c")
  {
    var x := "b-c-a";
    assert x == ("b-c" + "-") + "a" && x[4..] == "a" && ms[0] == "b-c" && ms[2] == "a";
    assert "a" + "-" + "b-c" == "a-b-c";
  }

  lemma DriftsSecond(ms: seq<string>)
    requires ms == ["b-c", "a-b", "a", "c"]
    ensures SwapMembers(ms, ms, "a-b-c") == Some("c-a-b")
  {
    var y, tail := "a-b-c", ["a-b", "a", "c"];
    assert ms[1..] == tail && ms[0] == "b-c" && ms[3] == "c";
    assert y == ("a-b" + "-") + "c" && y[4..] == "c" && y[0] == 'a' && ("b-c" + "-")[0] == 'b';
    assert "c" + "-" + "a-b" == "c-a-b";
    assert SwapMembers(tail, ms, y) == Some("c" + "-" + "a-b");
  }

  lemma DriftsThird(ms: seq<string>)
    requires ms == ["b-c", "a-b", "a", "c"]
    ensures SwapMembers(ms, ms, "c-a-b") == Some("a-b-c")
  {
    var z, t1, t2, t3 := "c-a-b", ["a-b", "a", "c"], ["a", "c"], ["c"];
    assert ms[1..] == t1 && t1[1..] == t2 && t2[1..] == t3 && ms[0] == "b-c" && ms[1] == "a-b";
    assert z == ("c" + "-") + "a-b" && z[2..] == "a-b" && z[0] == 'c';
    assert ("a-b" + "-")[0] == 'a' && ("a" + "-")[0] == 'a' && ("b-c" + "-")[0] == 'b';
    assert "a-b" + "-" + "c" == "a-b-c";
    assert SwapMembers(t3, ms, z) == Some("a-b" + "-" + "c");
    assert SwapMembers(t2, ms, z) == SwapMembers(t3, ms, z);
    assert SwapMembers(t1, ms, z) == SwapMembers(t2, ms, z);
  }
}
