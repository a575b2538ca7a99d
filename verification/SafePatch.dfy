/**
 The patcher of scripts/safe_patch.py: every anchor must occur once in the file, then the patches
 are applied one after the other, and the file is replaced only if the result passes a check.
 */
module SafePatch {
  import opened Base

  datatype Patch = Patch(anchor: string, text: string)

  predicate At(text: string, anchor: string, i: int) {
    0 <= i && i + |anchor| <= |text| && text[i..i + |anchor|] == anchor
  }

  /** The leftmost occurrence at or after `from`. */
  function FirstFrom(text: string, anchor: string, from: nat): (r: Option<nat>)
    ensures r.Some? ==> r.value >= from && At(text, anchor, r.value) && forall i :: from <= i < r.value ==>
              !At(text, anchor, i)
    ensures r.None? ==> forall i :: from <= i ==> !At(text, anchor, i)
    decreases |text| - from
  {
    if from + |anchor| > |text| then None
    else if At(text, anchor, from) then Some(from)
    else FirstFrom(text, anchor, from + 1)
  }

  /** The number of occurrences that do not overlap, found from the left; the empty anchor occurs everywhere. */
  function Count(text: string, anchor: string, from: nat): nat
    decreases |text| - from
  {
    if anchor == "" then (if from <= |text| then |text| - from + 1 else 0)
    else
      var first := FirstFrom(text, anchor, from);
      if first.None? then 0 else 1 + Count(text, anchor, first.value + |anchor|)
  }

  /** What the guard asks for: an occurrence, and none after the end of the first one; overlapping ones do not count. */
  lemma CountsOnce(text: string, anchor: string)
    requires anchor != ""
    ensures Count(text, anchor, 0) == 1 <==>
              exists i :: At(text, anchor, i) && forall j :: j < i || i + |anchor| <= j ==> !At(text, anchor, j)
  {
    var first := FirstFrom(text, anchor, 0);
    if first.Some? {
      var next := FirstFrom(text, anchor, first.value + |anchor|);
      assert Count(text, anchor, 0) == 1 <==> next.None?;
      if i :| At(text, anchor, i) && forall j :: j < i || i + |anchor| <= j ==> !At(text, anchor, j) {
        assert i == first.value;
      }
      if next.None? { assert forall j :: j < first.value || first.value + |anchor| <= j ==> !At(text, anchor, j); }
    }
  }

  /** The leftmost occurrence replaced; without one, nothing changes. */
  function ReplaceFirst(text: string, p: Patch): string {
    var first := FirstFrom(text, p.anchor, 0);
    if first.None? then text else text[..first.value] + p.text + text[first.value + |p.anchor|..]
  }

  function ApplyAll(text: string, patches: seq<Patch>): string {
    if patches == [] then text else ReplaceFirst(ApplyAll(text, patches[..|patches| - 1]), patches[|patches| - 1])
  }

  predicate AllUnique(text: string, patches: seq<Patch>) {
    forall i :: 0 <= i < |patches| ==> Count(text, patches[i].anchor, 0) == 1
  }

  /** Some copy of the anchor has none before it and none behind its end; the empty one only in an empty text. */
  ghost predicate StandsAlone(text: string, anchor: string) {
    if anchor == "" then text == ""
    else exists i :: At(text, anchor, i) && forall j :: j < i || i + |anchor| <= j ==> !At(text, anchor, j)
  }

  /** The guard lets a list of patches through exactly when each anchor occurs once, as replacing counts. */
  lemma GuardExactly(text: string, patches: seq<Patch>)
    ensures AllUnique(text, patches) <==> forall p :: p in patches ==> StandsAlone(text, p.anchor)
  {
    forall p | p in patches ensures Count(text, p.anchor, 0) == 1 <==> StandsAlone(text, p.anchor) {
      if p.anchor != "" { CountsOnce(text, p.anchor); }
    }
    hide Count, StandsAlone;
  }

  class Target {
    var file: Option<string>
    var backup: Option<string>

    constructor (file: Option<string>)
      ensures this.file == file && backup == None
    {
      this.file := file;
      backup := None;
    }

    /**
     Code 2 without a file, 3 for an anchor that does not occur exactly once, 4 for a result that
     fails its check, and only with code 0 is the file touched.
     */
    method Apply(patches: seq<Patch>, check: Option<string -> bool>) returns (code: int)
      modifies this
      ensures code == 2 <==> old(file).None?
      ensures code == 3 <==> old(file).Some? && !AllUnique(old(file).value, patches)
      ensures code == 4 <==>
                && old(file).Some? && AllUnique(old(file).value, patches)
                && check.Some? && !check.value(ApplyAll(old(file).value, patches))
      ensures code in {0, 2, 3, 4} && (code != 0 ==> file == old(file))
      ensures code == 0 ==> file == Some(ApplyAll(old(file).value, patches)) && backup == old(file)
    {
      hide AllUnique, ApplyAll, Count, ReplaceFirst;
      if file.None? { return 2; }
      var text := file.value;
      var unique := CheckAnchors(text, patches);
      if !unique { return 3; }
      backup := Some(text);
      var patched := ApplyPatches(text, patches);
      if check.Some? && !check.value(patched) { return 4; }
      file := Some(patched);
      code := 0;
    }

    method CheckAnchors(text: string, patches: seq<Patch>) returns (unique: bool)
      ensures unique <==> AllUnique(text, patches)
    {
      hide Count;
      for i := 0 to |patches|
        invariant forall k :: 0 <= k < i ==> Count(text, patches[k].anchor, 0) == 1
      {
        if Count(text, patches[i].anchor, 0) != 1 { return false; }
      }
      unique := true;
    }

    method ApplyPatches(text: string, patches: seq<Patch>) returns (patched: string)
      ensures patched == ApplyAll(text, patches)
    {
      hide ReplaceFirst;
      patched := text;
      for i := 0 to |patches|
        invariant patched == ApplyAll(text, patches[..i])
      {
        assert patches[..i + 1][..i] == patches[..i];
        patched := ReplaceFirst(patched, patches[i]);
      }
      assert patches[..|patches|] == patches;
    }
  }

  // ---------------------------------------------------------------------------------------------
  // All patches at once
  // ---------------------------------------------------------------------------------------------

  /** Words set between gaps, from left to right. */
  function Weave(gaps: seq<string>, words: seq<string>): string
    requires |gaps| == |words| + 1
  {
    if words == [] then gaps[0] else gaps[0] + words[0] + Weave(gaps[1..], words[1..])
  }

  /** The words of a text in which the edits in `done` are made and every other anchor stands as it was. */
  function Standing(patches: seq<Patch>, done: set<nat>): seq<string> {
    seq(|patches|, i requires 0 <= i < |patches| => if i in done then patches[i].text else patches[i].anchor)
  }

  /** The text cut at the anchors of `patches`, from left to right, none overlapping another. */
  predicate CutsAt(text: string, gaps: seq<string>, patches: seq<Patch>) {
    |gaps| == |patches| + 1 && text == Weave(gaps, Standing(patches, {}))
  }

  function Image(gaps: seq<string>, patches: seq<Patch>, done: set<nat>): string
    requires |gaps| == |patches| + 1
  {
    Weave(gaps, Standing(patches, done))
  }

  /** The simultaneous substitution. */
  function Substituted(gaps: seq<string>, patches: seq<Patch>): string
    requires |gaps| == |patches| + 1
  {
    Weave(gaps, seq(|patches|, i requires 0 <= i < |patches| => patches[i].text))
  }

  function Left(gaps: seq<string>, words: seq<string>, k: nat): string
    requires |gaps| == |words| + 1 && k < |words|
  {
    Weave(gaps[..k + 1], words[..k])
  }

  function Right(gaps: seq<string>, words: seq<string>, k: nat): string
    requires |gaps| == |words| + 1 && k < |words|
  {
    Weave(gaps[k + 1..], words[k + 1..])
  }

  lemma {:induction false} WeaveSplits(gaps: seq<string>, words: seq<string>, k: nat)
    requires |gaps| == |words| + 1 && k < |words|
    ensures Weave(gaps, words) == Left(gaps, words, k) + words[k] + Right(gaps, words, k)
  {
    if k == 0 {
      assert gaps[..1] == [gaps[0]] && words[..0] == [];
    } else {
      WeaveSplits(gaps[1..], words[1..], k - 1);
      assert gaps[1..][k..] == gaps[k + 1..] && words[1..][k..] == words[k + 1..];
      assert gaps[1..][..k] == gaps[..k + 1][1..] && words[1..][..k - 1] == words[..k][1..];
      var l, r := Left(gaps[1..], words[1..], k - 1), Right(gaps, words, k);
      assert Left(gaps, words, k) == gaps[0] + words[0] + l;
      Regroup(gaps[0], words[0], l, words[k], r);
    }
  }

  lemma Regroup(a: string, b: string, c: string, d: string, e: string)
    ensures a + b + (c + d + e) == (a + b + c) + d + e
  {
  }

  // ---------------------------------------------------------------------------------------------
  // One after the other
  // ---------------------------------------------------------------------------------------------

  /** Once the edits in `done` are made, no copy of patch `k`'s anchor starts before its own place. */
  predicate Undisturbed(gaps: seq<string>, patches: seq<Patch>, done: set<nat>, k: nat)
    requires |gaps| == |patches| + 1 && k < |patches|
  {
    forall i :: 0 <= i < |Left(gaps, Standing(patches, done), k)| ==>
        !At(Image(gaps, patches, done), patches[k].anchor, i)
  }

  /** Exactly one occurrence, overlapping ones counted. */
  ghost predicate OccursOnce(text: string, anchor: string) {
    exists i :: At(text, anchor, i) && forall j :: At(text, anchor, j) ==> j == i
  }

  lemma OwnPlace(gaps: seq<string>, patches: seq<Patch>, done: set<nat>, k: nat)
    requires |gaps| == |patches| + 1 && k < |patches| && k !in done
    ensures At(Image(gaps, patches, done), patches[k].anchor, |Left(gaps, Standing(patches, done), k)|)
  {
    var words := Standing(patches, done);
    WeaveSplits(gaps, words, k);
    var l, r := Left(gaps, words, k), Right(gaps, words, k);
    hide Weave, Left, Right;
    assert (l + words[k] + r)[|l|..|l| + |words[k]|] == words[k];
  }

  /** The next replacement happens at the anchor's own place exactly when that anchor is undisturbed. */
  lemma ReplacesInPlaceExactly(gaps: seq<string>, patches: seq<Patch>, done: set<nat>, k: nat)
    requires |gaps| == |patches| + 1 && k < |patches| && k !in done
    ensures FirstFrom(Image(gaps, patches, done), patches[k].anchor, 0)
            == Some(|Left(gaps, Standing(patches, done), k)|)
       <==> Undisturbed(gaps, patches, done, k)
  {
    OwnPlace(gaps, patches, done, k);
  }

  /** An anchor that occurs once in an intermediate text is undisturbed there. */
  lemma OnceIsUndisturbed(gaps: seq<string>, patches: seq<Patch>, done: set<nat>, k: nat)
    requires |gaps| == |patches| + 1 && k < |patches| && k !in done
    requires OccursOnce(Image(gaps, patches, done), patches[k].anchor)
    ensures Undisturbed(gaps, patches, done, k)
  {
    OwnPlace(gaps, patches, done, k);
  }

  lemma ReplaceBetween(image: string, a: string, b: string, p: Patch)
    requires image == a + p.anchor + b && At(image, p.anchor, |a|) && forall i :: 0 <= i < |a| ==>
               !At(image, p.anchor, i)
    ensures ReplaceFirst(image, p) == a + p.text + b
  {
    assert FirstFrom(image, p.anchor, 0) == Some(|a|);
    hide At, FirstFrom;
    assert image[..|a|] == a && image[|a| + |p.anchor|..] == b;
  }

  lemma SameSides(gaps: seq<string>, words: seq<string>, k: nat, word: string)
    requires |gaps| == |words| + 1 && k < |words|
    ensures Left(gaps, words[k := word], k) == Left(gaps, words, k)
    ensures Right(gaps, words[k := word], k) == Right(gaps, words, k)
  {
    assert words[k := word][..k] == words[..k] && words[k := word][k + 1..] == words[k + 1..];
  }

  /** One undisturbed replacement makes exactly that edit. */
  lemma OneReplacement(gaps: seq<string>, patches: seq<Patch>, done: set<nat>, k: nat)
    requires |gaps| == |patches| + 1 && k < |patches| && k !in done && Undisturbed(gaps, patches, done, k)
    ensures ReplaceFirst(Image(gaps, patches, done), patches[k]) == Image(gaps, patches, done + {k})
  {
    var words, words' := Standing(patches, done), Standing(patches, done + {k});
    assert words' == words[k := patches[k].text];
    OwnPlace(gaps, patches, done, k);
    SameSides(gaps, words, k, patches[k].text);
    WeaveSplits(gaps, words, k);
    WeaveSplits(gaps, words', k);
    hide Weave, Left, Right, At;
    ReplaceBetween(Weave(gaps, words), Left(gaps, words, k), Right(gaps, words, k), patches[k]);
  }

  function Done(order: seq<nat>): set<nat> { set k | k in order }

  predicate InRange(order: seq<nat>, n: nat) { forall i :: 0 <= i < |order| ==> order[i] < n }

  /** `order` visits every patch once. */
  ghost predicate Visits(order: seq<nat>, n: nat) {
    NoDuplicates(order) && InRange(order, n) && forall k: nat :: k < n ==> k in order
  }

  function InOrder(patches: seq<Patch>, order: seq<nat>): seq<Patch>
    requires InRange(order, |patches|)
  {
    seq(|order|, i requires 0 <= i < |order| => patches[order[i]])
  }

  /** At every step of this order the next anchor is undisturbed. */
  ghost predicate NeverDisturbed(gaps: seq<string>, patches: seq<Patch>, order: seq<nat>)
    requires |gaps| == |patches| + 1 && InRange(order, |patches|)
  {
    forall i :: 0 <= i < |order| ==> Undisturbed(gaps, patches, Done(order[..i]), order[i])
  }

  lemma UndisturbedPrefix(gaps: seq<string>, patches: seq<Patch>, order: seq<nat>, i: nat)
    requires |gaps| == |patches| + 1 && InRange(order, |patches|) && i <= |order|
    requires NeverDisturbed(gaps, patches, order)
    ensures NeverDisturbed(gaps, patches, order[..i])
  {
    hide Undisturbed;
    forall j | 0 <= j < i ensures Undisturbed(gaps, patches, Done(order[..i][..j]), order[..i][j]) {
      assert order[..i][..j] == order[..j];
    }
  }

  lemma OneMorePatch(patches: seq<Patch>, order: seq<nat>)
    requires InRange(order, |patches|) && order != []
    ensures var init, k := order[..|order| - 1], order[|order| - 1];
            && InOrder(patches, order)[..|order| - 1] == InOrder(patches, init)
            && InOrder(patches, order)[|order| - 1] == patches[k] && Done(order) == Done(init) + {k}
            && (NoDuplicates(order) ==> k !in Done(init) && NoDuplicates(init))
  {
    var init, k := order[..|order| - 1], order[|order| - 1];
    assert order == init + [k];
  }

  lemma {:induction false} AppliedSoFar(text: string, gaps: seq<string>, patches: seq<Patch>, order: seq<nat>)
    requires CutsAt(text, gaps, patches) && InRange(order, |patches|) && NoDuplicates(order)
    requires NeverDisturbed(gaps, patches, order)
    ensures ApplyAll(text, InOrder(patches, order)) == Image(gaps, patches, Done(order))
  {
    if order == [] {
      assert Done(order) == {};
    } else {
      var init, k := order[..|order| - 1], order[|order| - 1];
      UndisturbedPrefix(gaps, patches, order, |order| - 1);
      OneMorePatch(patches, order);
      assert Undisturbed(gaps, patches, Done(init), k);
      hide Weave, Undisturbed, ReplaceFirst, CutsAt, NeverDisturbed, Image, Done, InOrder, NoDuplicates;
      AppliedSoFar(text, gaps, patches, init);
      OneReplacement(gaps, patches, Done(init), k);
      assert ApplyAll(text, InOrder(patches, order)) == Image(gaps, patches, Done(order));
    }
  }

  /** Every replacement of the run happens at its anchor's own place. */
  ghost predicate AllInPlace(text: string, gaps: seq<string>, patches: seq<Patch>, order: seq<nat>)
    requires |gaps| == |patches| + 1 && InRange(order, |patches|)
  {
    forall i :: 0 <= i < |order| ==> InPlaceAt(text, gaps, patches, order, i)
  }

  predicate InPlaceAt(text: string, gaps: seq<string>, patches: seq<Patch>, order: seq<nat>, i: nat)
    requires |gaps| == |patches| + 1 && InRange(order, |patches|) && i < |order|
  {
    FirstFrom(ApplyAll(text, InOrder(patches, order[..i])), patches[order[i]].anchor, 0)
      == Some(|Left(gaps, Standing(patches, Done(order[..i])), order[i])|)
  }

  lemma InPlaceOnce(text: string, gaps: seq<string>, patches: seq<Patch>, order: seq<nat>, i: nat)
    requires CutsAt(text, gaps, patches) && InRange(order, |patches|) && NoDuplicates(order) && i < |order|
    requires NeverDisturbed(gaps, patches, order[..i])
    ensures InPlaceAt(text, gaps, patches, order, i) <==> Undisturbed(gaps, patches, Done(order[..i]), order[i])
  {
    var init := order[..i];
    assert order[i] !in init;
    AppliedSoFar(text, gaps, patches, init);
    ReplacesInPlaceExactly(gaps, patches, Done(init), order[i]);
  }

  lemma UndisturbedMore(gaps: seq<string>, patches: seq<Patch>, order: seq<nat>, i: nat)
    requires |gaps| == |patches| + 1 && InRange(order, |patches|) && i < |order|
    requires NeverDisturbed(gaps, patches, order[..i]) && Undisturbed(gaps, patches, Done(order[..i]), order[i])
    ensures NeverDisturbed(gaps, patches, order[..i + 1])
  {
    hide Undisturbed;
    var init, all := order[..i], order[..i + 1];
    forall j | 0 <= j < i + 1 ensures Undisturbed(gaps, patches, Done(all[..j]), all[j]) {
      assert all[..j] == order[..j] && all[j] == order[j];
      if j < i { assert init[..j] == order[..j] && init[j] == order[j]; }
    }
  }

  lemma PrefixInPlace(text: string, gaps: seq<string>, patches: seq<Patch>, order: seq<nat>, i: nat)
    requires |gaps| == |patches| + 1 && InRange(order, |patches|) && i <= |order|
    requires AllInPlace(text, gaps, patches, order)
    ensures AllInPlace(text, gaps, patches, order[..i])
  {
    var init := order[..i];
    forall j | 0 <= j < i ensures InPlaceAt(text, gaps, patches, init, j) {
      assert init[..j] == order[..j] && InPlaceAt(text, gaps, patches, order, j);
    }
  }

  lemma {:induction false} InPlaceIsUndisturbed(text: string, gaps: seq<string>, patches: seq<Patch>, order: seq<nat>)
    requires CutsAt(text, gaps, patches) && InRange(order, |patches|) && NoDuplicates(order)
    requires AllInPlace(text, gaps, patches, order)
    ensures NeverDisturbed(gaps, patches, order)
  {
    if order != [] {
      var i := |order| - 1;
      assert InPlaceAt(text, gaps, patches, order, i);
      assert order[..i + 1] == order;
      hide Undisturbed, InPlaceAt, CutsAt, NeverDisturbed, AllInPlace;
      PrefixInPlace(text, gaps, patches, order, i);
      InPlaceIsUndisturbed(text, gaps, patches, order[..i]);
      InPlaceOnce(text, gaps, patches, order, i);
      UndisturbedMore(gaps, patches, order, i);
    }
  }

  /** Over a whole run: every replacement happens at its own place exactly when no anchor is ever disturbed. */
  lemma AllInPlaceExactly(text: string, gaps: seq<string>, patches: seq<Patch>, order: seq<nat>)
    requires CutsAt(text, gaps, patches) && InRange(order, |patches|) && NoDuplicates(order)
    ensures AllInPlace(text, gaps, patches, order) <==> NeverDisturbed(gaps, patches, order)
  {
    if AllInPlace(text, gaps, patches, order) { InPlaceIsUndisturbed(text, gaps, patches, order); }
    if NeverDisturbed(gaps, patches, order) {
      forall i | 0 <= i < |order| ensures InPlaceAt(text, gaps, patches, order, i) {
        UndisturbedPrefix(gaps, patches, order, i);
        InPlaceOnce(text, gaps, patches, order, i);
      }
    }
  }

  /**
   Applied one after the other, in any order in which no remaining anchor is ever disturbed, the
   patches do what they would do all at once; so any two such orders agree.
   */
  lemma OneByOneIsAllAtOnce(text: string, gaps: seq<string>, patches: seq<Patch>, order: seq<nat>)
    requires CutsAt(text, gaps, patches) && Visits(order, |patches|) && NeverDisturbed(gaps, patches, order)
    ensures ApplyAll(text, InOrder(patches, order)) == Substituted(gaps, patches)
  {
    AppliedSoFar(text, gaps, patches, order);
    assert Standing(patches, Done(order)) == seq(|patches|, i requires 0 <= i < |patches| => patches[i].text);
  }

  /** The same when every remaining anchor occurs exactly once in every intermediate text. */
  lemma OnceEverywhereIsAllAtOnce(text: string, gaps: seq<string>, patches: seq<Patch>, order: seq<nat>)
    requires CutsAt(text, gaps, patches) && Visits(order, |patches|)
    requires forall i :: 0 <= i < |order| ==>
               OccursOnce(Image(gaps, patches, Done(order[..i])), patches[order[i]].anchor)
    ensures ApplyAll(text, InOrder(patches, order)) == Substituted(gaps, patches)
  {
    forall i | 0 <= i < |order| ensures Undisturbed(gaps, patches, Done(order[..i]), order[i]) {
      assert order[i] !in order[..i];
      OnceIsUndisturbed(gaps, patches, Done(order[..i]), order[i]);
    }
    OneByOneIsAllAtOnce(text, gaps, patches, order);
  }

  /** Anchors standing at places that do not overlap, from left to right. */
  predicate Placed(text: string, patches: seq<Patch>, at: seq<nat>) {
    && |at| == |patches|
    && (forall k :: 0 <= k < |at| ==> At(text, patches[k].anchor, at[k]))
    && forall k :: 0 < k < |at| ==> at[k - 1] + |patches[k - 1].anchor| <= at[k]
  }

  /** Such places always cut the text. */
  lemma {:induction false} PlacesCut(text: string, patches: seq<Patch>, at: seq<nat>,
                                     from: nat)
    returns (gaps: seq<string>)
    requires Placed(text, patches, at) && from <= |text| && (at != [] ==> from <= at[0])
    ensures CutsAt(text[from..], gaps, patches)
  {
    if patches == [] {
      gaps := [text[from..]];
    } else {
      var p, rest := patches[0], patches[1..];
      assert At(text, p.anchor, at[0]);
      var end := at[0] + |p.anchor|;
      RestPlaced(text, patches, at);
      var more := PlacesCut(text, rest, at[1..], end);
      gaps := [text[from..at[0]]] + more;
      assert Standing(patches, {})[1..] == Standing(rest, {}) && gaps[1..] == more;
      hide Weave;
      CutTwice(text, from, at[0], end);
      assert Weave(gaps, Standing(patches, {})) == text[from..at[0]] + p.anchor + text[end..] by {
        WeaveFirst(gaps, Standing(patches, {}));
      }
    }
  }

  /** A cut says where its anchors stand. */
  lemma CutPlaces(text: string, gaps: seq<string>, patches: seq<Patch>) returns (at: seq<nat>)
    requires CutsAt(text, gaps, patches)
    ensures Placed(text, patches, at)
  {
    var words := Standing(patches, {});
    at := seq(|patches|, i requires 0 <= i < |patches| => |Left(gaps, words, i)|);
    hide Weave, Left;
    forall k | 0 <= k < |at| ensures At(text, patches[k].anchor, at[k]) { OwnPlace(gaps, patches, {}, k); }
    forall k | 0 < k < |at| ensures at[k - 1] + |patches[k - 1].anchor| <= at[k] { LeftGrows(gaps, words, k); }
  }

  lemma {:induction false} LeftGrows(gaps: seq<string>, words: seq<string>, k: nat)
    requires |gaps| == |words| + 1 && 0 < k < |words|
    ensures Left(gaps, words, k) == Left(gaps, words, k - 1) + words[k - 1] + gaps[k]
  {
    WeaveSplits(gaps[..k + 1], words[..k], k - 1);
    assert gaps[..k + 1][..k] == gaps[..k] && words[..k][..k - 1] == words[..k - 1];
    assert gaps[..k + 1][k..] == [gaps[k]] && words[..k][k..] == [];
  }

  /** A text can be cut at the anchors, in this order, exactly when they stand at places that do not overlap. */
  lemma CutsExactlyWhenPlaced(text: string, patches: seq<Patch>)
    ensures (exists gaps :: CutsAt(text, gaps, patches)) <==> (exists at :: Placed(text, patches, at))
  {
    if gaps :| CutsAt(text, gaps, patches) { var at := CutPlaces(text, gaps, patches); }
    if at :| Placed(text, patches, at) {
      if at != [] { assert At(text, patches[0].anchor, at[0]); }
      var gaps := PlacesCut(text, patches, at, 0);
      assert text[0..] == text;
    }
  }

  lemma WeaveFirst(gaps: seq<string>, words: seq<string>)
    requires |gaps| == |words| + 1 > 1
    ensures Weave(gaps, words) == gaps[0] + words[0] + Weave(gaps[1..], words[1..])
  {
  }

  lemma RestPlaced(text: string, patches: seq<Patch>, at: seq<nat>)
    requires Placed(text, patches, at) && at != []
    ensures Placed(text, patches[1..], at[1..]) && (|at| > 1 ==> at[0] + |patches[0].anchor| <= at[1])
  {
    var rest, at' := patches[1..], at[1..];
    forall k | 0 <= k < |at'| ensures At(text, rest[k].anchor, at'[k]) {
      assert At(text, patches[k + 1].anchor, at[k + 1]);
    }
    forall k | 0 < k < |at'| ensures at'[k - 1] + |rest[k - 1].anchor| <= at'[k] {
      assert at[k] + |patches[k].anchor| <= at[k + 1];
    }
  }

  lemma CutTwice(text: string, a: nat, b: nat, c: nat)
    requires a <= b <= c <= |text|
    ensures text[a..] == text[a..b] + text[b..c] + text[c..]
  {
  }

  // ---------------------------------------------------------------------------------------------
  // The guard looks at the original text only
  // ---------------------------------------------------------------------------------------------

  /** Where the anchor's first character occurs only once, so does the anchor. */
  lemma OnlyAt(text: string, anchor: string, at: nat)
    requires anchor != "" && at + |anchor| <= |text| && text[at..at + |anchor|] == anchor
    requires forall i :: 0 <= i < |text| && i != at ==> text[i] != anchor[0]
    ensures forall i :: At(text, anchor, i) <==> i == at
  {
    forall i | At(text, anchor, i) ensures i == at { assert text[i..i + |anchor|][0] == text[i]; }
  }

  lemma Nowhere(text: string, anchor: string)
    requires anchor != "" && forall i :: 0 <= i < |text| ==> text[i] != anchor[0]
    ensures forall i :: !At(text, anchor, i)
  {
    forall i ensures !At(text, anchor, i) {
      if 0 <= i && i + |anchor| <= |text| { assert text[i..i + |anchor|][0] == text[i]; }
    }
  }

  lemma CountOne(text: string, anchor: string, i: nat)
    requires anchor != "" && At(text, anchor, i) && forall j :: 0 <= j && j != i ==> !At(text, anchor, j)
    ensures Count(text, anchor, 0) == 1
    ensures forall t :: ReplaceFirst(text, Patch(anchor, t)) == text[..i] + t + text[i + |anchor|..]
  {
    assert FirstFrom(text, anchor, 0) == Some(i);
    assert FirstFrom(text, anchor, i + |anchor|) == None;
    assert Count(text, anchor, i + |anchor|) == 0;
  }

  lemma TwoPatches(text: string, p: Patch, q: Patch)
    ensures ApplyAll(text, [p]) == ReplaceFirst(text, p)
    ensures ApplyAll(text, [p, q]) == ReplaceFirst(ReplaceFirst(text, p), q)
  {
    assert [p, q][..1] == [p] && [p][..0] == [];
    assert ApplyAll(text, []) == text;
  }

  lemma SwapPatches() returns (text: string, p: Patch, q: Patch)
    ensures text == "ab" && p == Patch("a", "b") && q == Patch("b", "c")
    ensures AllUnique(text, [p, q]) && ReplaceFirst(text, p) == "bb" && ReplaceFirst(text, q) == "ac"
  {
    text, p, q := "ab", Patch("a", "b"), Patch("b", "c");
    OnlyAt("ab", "a", 0);
    OnlyAt("ab", "b", 1);
    hide Count, At;
    CountOne("ab", "a", 0);
    CountOne("ab", "b", 1);
  }

  lemma SecondPatches()
    ensures ReplaceFirst("bb", Patch("b", "c")) == "cb" && ReplaceFirst("ac", Patch("a", "b")) == "bc"
  {
    OnlyAt("ac", "a", 0);
    assert "bb"[0..1] == "b" && At("bb", "b", 0);
    hide Count, At;
    CountOne("ac", "a", 0);
    assert FirstFrom("bb", "b", 0) == Some(0);
  }

  /** Both anchors occur once, yet one patch makes a second copy of the other's anchor: the order decides. */
  lemma GuardDoesNotFixTheOrder() returns (text: string, p: Patch, q: Patch)
    ensures AllUnique(text, [p, q]) && ApplyAll(text, [p, q]) != ApplyAll(text, [q, p])
  {
    hide ReplaceFirst, AllUnique, ApplyAll;
    text, p, q := SwapPatches();
    SecondPatches();
    TwoPatches(text, p, q);
    TwoPatches(text, q, p);
  }

  /** A patch does nothing exactly when its anchor does not occur or is its own replacement. */
  lemma DoesNothingExactly(text: string, p: Patch)
    ensures ReplaceFirst(text, p) == text <==> p.text == p.anchor || forall i :: !At(text, p.anchor, i)
  {
    var first := FirstFrom(text, p.anchor, 0);
    if first.Some? {
      var i, end := first.value, first.value + |p.anchor|;
      assert text == text[..i] + p.anchor + text[end..];
      var done := text[..i] + p.text + text[end..];
      if done == text {
        assert |p.text| == |p.anchor|;
        assert done[i..end] == p.text;
      }
    } else {
      forall i ensures !At(text, p.anchor, i) {}
    }
  }

  /**
   Two anchors that occur once each: the text can be cut at them, in one order or the other,
   exactly when they do not overlap; and behind the first patch the second is dropped exactly when
   its anchor is no longer there, or is its own replacement.
   */
  lemma SecondPatchExactly(text: string, p: Patch, q: Patch, i: nat, k: nat)
    requires At(text, p.anchor, i) && (forall j :: At(text, p.anchor, j) ==> j == i)
    requires At(text, q.anchor, k) && (forall j :: At(text, q.anchor, j) ==> j == k)
    ensures (exists gaps :: CutsAt(text, gaps, [p, q])) || (exists gaps :: CutsAt(text, gaps, [q, p]))
       <==> i + |p.anchor| <= k || k + |q.anchor| <= i
    ensures ApplyAll(text, [p, q]) == ApplyAll(text, [p])
       <==> q.text == q.anchor || forall j :: !At(ApplyAll(text, [p]), q.anchor, j)
  {
    CutsExactlyWhenPlaced(text, [p, q]);
    CutsExactlyWhenPlaced(text, [q, p]);
    TwoPlaces(text, p, q, i, k);
    TwoPlaces(text, q, p, k, i);
    TwoPatches(text, p, q);
    DoesNothingExactly(ReplaceFirst(text, p), q);
  }

  lemma TwoPlaces(text: string, p: Patch, q: Patch, i: nat, k: nat)
    requires At(text, p.anchor, i) && (forall j :: At(text, p.anchor, j) ==> j == i)
    requires At(text, q.anchor, k) && (forall j :: At(text, q.anchor, j) ==> j == k)
    ensures (exists at :: Placed(text, [p, q], at)) <==> i + |p.anchor| <= k
  {
    if at :| Placed(text, [p, q], at) {
      assert At(text, [p, q][0].anchor, at[0]) && At(text, [p, q][1].anchor, at[1]);
      assert at[1 - 1] + |[p, q][1 - 1].anchor| <= at[1];
    }
    if i + |p.anchor| <= k { assert Placed(text, [p, q], [i, k]); }
  }

  /** Anchors that overlap: the guard lets them through, and the second patch is dropped without a word. */
  lemma OverlappingPatchIsDropped()
    ensures var text, p, q := "abc", Patch("ab", "x"), Patch("bc", "y");
            AllUnique(text, [p, q]) && ApplyAll(text, [p, q]) == "xc" == ApplyAll(text, [p])
  {
    var text, p, q := "abc", Patch("ab", "x"), Patch("bc", "y");
    OnlyAt("abc", "ab", 0);
    OnlyAt("abc", "bc", 1);
    Nowhere("xc", "bc");
    TwoPatches(text, p, q);
    hide Count, ApplyAll, At;
    CountOne("abc", "ab", 0);
    CountOne("abc", "bc", 1);
    assert ReplaceFirst(text, p) == "xc";
    assert FirstFrom("xc", "bc", 0) == None;
  }
}
