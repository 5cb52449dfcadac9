/**
  `check_duplicates`: one pass over the mods with a dictionary from each name
  to the 0-based index where it was first seen. A name already in the
  dictionary is reported with its first index and the current one; a new name
  is recorded. A mod without `name` counts as the name `''`.
 */
module Duplicates {
  import opened JsonValues
  import opened Diagnostics

  /** `mod.get('name', '')`. */
  function NameOf(mod: Object): Json
  {
    if "name" in mod then mod["name"] else JStr("")
  }

  /** Every name can be a dictionary key; a list or object as a name makes the script raise. */
  predicate HashableNames(mods: seq<Object>)
  {
    forall j :: 0 <= j < |mods| ==> Hashable(NameOf(mods[j]))
  }

  /** The dictionary key the name of a mod stands for. */
  function Key(mod: Object): Json
    requires Hashable(NameOf(mod))
  {
    KeyOf(NameOf(mod))
  }

  /** The index of the first mod whose name is the key `k`, or `|mods|` when there is none. */
  function FirstOccurrence(mods: seq<Object>, k: Json): (j: nat)
    requires HashableNames(mods)
    ensures j <= |mods|
    ensures j < |mods| ==> Key(mods[j]) == k
  {
    if mods == [] then 0
    else if Key(mods[0]) == k then 0
    else 1 + FirstOccurrence(mods[1..], k)
  }

  /** The keys of the names of the mods. */
  function KeySet(mods: seq<Object>): set<Json>
    requires HashableNames(mods)
  {
    set j | 0 <= j < |mods| :: Key(mods[j])
  }

  /** The errors `check_duplicates(mods)` returns: one per mod whose name was seen before it. */
  function DuplicateErrors(mods: seq<Object>): seq<Diagnostic>
    requires HashableNames(mods)
  {
    if mods == [] then []
    else
      var n := |mods| - 1;
      var first := FirstOccurrence(mods[..n], Key(mods[n]));
      DuplicateErrors(mods[..n]) + (if first < n then [DuplicateName(NameOf(mods[n]), first, n)] else [])
  }

  // ---------------------------------------------------------------------------
  // The script's procedure

  /**
    A prefix and its extension agree on the first occurrence `f` of a key when
    it is found at `f` in the extension.
   */
  lemma SameFirstOccurrence(pre: seq<Object>, ext: seq<Object>, k: Json, f: nat)
    requires HashableNames(pre) && HashableNames(ext)
    requires |pre| <= |ext| && forall j :: 0 <= j < |pre| ==> ext[j] == pre[j]
    requires f == FirstOccurrence(pre, k) && f < |ext| && Key(ext[f]) == k
    ensures FirstOccurrence(ext, k) == f
  {
    FirstOccurrenceBefore(ext, k, f);
    var g := FirstOccurrence(ext, k);
    if g < f {
      FirstOccurrenceBefore(pre, k, g);
    }
  }

  /** A key that occurs at `j` first occurs at or before `j`. */
  lemma {:induction false} FirstOccurrenceBefore(mods: seq<Object>, k: Json, j: nat)
    requires HashableNames(mods) && j < |mods| && Key(mods[j]) == k
    ensures FirstOccurrence(mods, k) <= j
  {
    if j > 0 && Key(mods[0]) != k {
      FirstOccurrenceBefore(mods[1..], k, j - 1);
    }
  }

  /** A key is among the keys of the mods exactly when it has a first occurrence. */
  lemma InKeySet(mods: seq<Object>, k: Json)
    requires HashableNames(mods)
    ensures k in KeySet(mods) <==> FirstOccurrence(mods, k) < |mods|
  {
    if k in KeySet(mods) {
      var j :| 0 <= j < |mods| && Key(mods[j]) == k;
      FirstOccurrenceBefore(mods, k, j);
    }
  }

  /** One more mod adds its key to the keys. */
  lemma KeySetExtend(mods: seq<Object>, i: nat)
    requires HashableNames(mods) && i < |mods|
    ensures KeySet(mods[..i + 1]) == KeySet(mods[..i]) + {Key(mods[i])}
  {
    var pre, ext := mods[..i], mods[..i + 1];
    assert forall j :: 0 <= j < i ==> ext[j] == pre[j];
    assert ext[i] == mods[i];
  }

  /** One more mod leaves the first occurrences of the keys already seen, and a new key first occurs at it. */
  lemma FirstOccurrenceExtend(mods: seq<Object>, i: nat)
    requires HashableNames(mods) && i < |mods|
    ensures forall k :: k in KeySet(mods[..i]) ==> FirstOccurrence(mods[..i + 1], k) == FirstOccurrence(mods[..i], k)
    ensures Key(mods[i]) !in KeySet(mods[..i]) ==> FirstOccurrence(mods[..i + 1], Key(mods[i])) == i
  {
    var pre, ext := mods[..i], mods[..i + 1];
    assert forall j :: 0 <= j < i ==> ext[j] == pre[j];
    assert ext[i] == mods[i];
    forall k | k in KeySet(pre)
      ensures FirstOccurrence(ext, k) == FirstOccurrence(pre, k)
    {
      InKeySet(pre, k);
      SameFirstOccurrence(pre, ext, k, FirstOccurrence(pre, k));
    }
    if Key(mods[i]) !in KeySet(pre) {
      InKeySet(pre, Key(mods[i]));
      SameFirstOccurrence(pre, ext, Key(mods[i]), i);
    }
  }

  lemma DuplicateErrorsStep(mods: seq<Object>, i: nat)
    requires HashableNames(mods) && i < |mods|
    ensures var first := FirstOccurrence(mods[..i], Key(mods[i]));
            DuplicateErrors(mods[..i + 1]) ==
              DuplicateErrors(mods[..i]) + if first < i then [DuplicateName(NameOf(mods[i]), first, i)] else []
  {
    assert mods[..i + 1][..i] == mods[..i];
  }

  /** One step of the loop keeps its invariant, whether the name was seen before or not. */
  lemma CheckDuplicatesStep(mods: seq<Object>, i: nat, names: map<Json, nat>)
    requires HashableNames(mods) && i < |mods|
    requires names.Keys == KeySet(mods[..i])
    requires forall k :: k in names ==> names[k] == FirstOccurrence(mods[..i], k)
    ensures var key := Key(mods[i]);
            key in names ==>
              DuplicateErrors(mods[..i + 1]) == DuplicateErrors(mods[..i]) + [DuplicateName(NameOf(mods[i]), names[key], i)] &&
              names.Keys == KeySet(mods[..i + 1]) &&
              forall k :: k in names ==> names[k] == FirstOccurrence(mods[..i + 1], k)
    ensures var key := Key(mods[i]);
            var added := names[key := i];
            key !in names ==>
              DuplicateErrors(mods[..i + 1]) == DuplicateErrors(mods[..i]) &&
              added.Keys == KeySet(mods[..i + 1]) &&
              forall k :: k in added ==> added[k] == FirstOccurrence(mods[..i + 1], k)
  {
    DuplicateErrorsStep(mods, i);
    KeySetExtend(mods, i);
    FirstOccurrenceExtend(mods, i);
    InKeySet(mods[..i], Key(mods[i]));
  }

  method CheckDuplicates(mods: seq<Object>) returns (errors: seq<Diagnostic>)
    requires HashableNames(mods)
    ensures errors == DuplicateErrors(mods)
  {
    errors := [];
    var names: map<Json, nat> := map[];
    for i := 0 to |mods|
      invariant errors == DuplicateErrors(mods[..i])
      invariant names.Keys == KeySet(mods[..i])
      invariant forall k :: k in names ==> names[k] == FirstOccurrence(mods[..i], k)
    {
      var name := NameOf(mods[i]);
      var key := KeyOf(name);
      CheckDuplicatesStep(mods, i, names);
      if key in names {
        errors := errors + [DuplicateName(name, names[key], i)];
      } else {
        names := names[key := i];
      }
    }
    assert mods[..|mods|] == mods;
  }

  // ---------------------------------------------------------------------------
  // What the errors say

  /**
    Every error names the mod at its current index, which is a later mod
    with the same key as the first-seen index it cites.
   */
  lemma {:induction false} DuplicateErrorsCite(mods: seq<Object>)
    requires HashableNames(mods)
    ensures forall e :: e in DuplicateErrors(mods) ==>
              e.DuplicateName? && e.first < e.current < |mods| &&
              e.name == NameOf(mods[e.current]) &&
              e.first == FirstOccurrence(mods, Key(mods[e.current]))
  {
    if mods != [] {
      var n := |mods| - 1;
      var init := mods[..n];
      DuplicateErrorsCite(init);
      forall e | e in DuplicateErrors(init)
        ensures e.current < |mods| && e.name == NameOf(mods[e.current])
        ensures e.first == FirstOccurrence(mods, Key(mods[e.current]))
      {
        assert init[e.current] == mods[e.current];
        SameFirstOccurrence(init, mods, Key(mods[e.current]), e.first);
      }
      var first := FirstOccurrence(init, Key(mods[n]));
      if first < n {
        SameFirstOccurrence(init, mods, Key(mods[n]), first);
      }
    }
  }

  /** A mod whose key first occurs at an earlier index is reported against that index. */
  lemma {:induction false} SeenBeforeIsReported(mods: seq<Object>, c: nat)
    requires HashableNames(mods) && c < |mods|
    requires FirstOccurrence(mods, Key(mods[c])) < c
    ensures DuplicateName(NameOf(mods[c]), FirstOccurrence(mods, Key(mods[c])), c) in DuplicateErrors(mods)
  {
    var n := |mods| - 1;
    var init := mods[..n];
    var k := Key(mods[c]);
    var first := FirstOccurrence(mods, k);
    assert init[first] == mods[first];
    FirstOccurrenceBefore(init, k, first);
    SameFirstOccurrence(init, mods, k, FirstOccurrence(init, k));
    if c < n {
      assert init[c] == mods[c];
      SeenBeforeIsReported(init, c);
    }
  }

  /**
    A mod is reported exactly when its name was seen at an earlier index; in
    particular the first occurrence of a name is never reported.
   */
  lemma ReportedIffSeenBefore(mods: seq<Object>, c: nat)
    requires HashableNames(mods) && c < |mods|
    ensures var first := FirstOccurrence(mods, Key(mods[c]));
            (exists e :: e in DuplicateErrors(mods) && e.DuplicateName? && e.current == c) <==> first < c
    ensures var first := FirstOccurrence(mods, Key(mods[c]));
            first < c ==> DuplicateName(NameOf(mods[c]), first, c) in DuplicateErrors(mods)
  {
    DuplicateErrorsCite(mods);
    if FirstOccurrence(mods, Key(mods[c])) < c {
      SeenBeforeIsReported(mods, c);
    }
  }

  /** There are as many errors as mods, less the number of distinct names. */
  lemma {:induction false} DuplicateErrorsCount(mods: seq<Object>)
    requires HashableNames(mods)
    ensures |DuplicateErrors(mods)| == |mods| - |KeySet(mods)|
  {
    if mods == [] {
      assert KeySet(mods) == {};
    } else {
      var n := |mods| - 1;
      DuplicateErrorsCount(mods[..n]);
      KeySetBound(mods[..n]);
      KeySetGrows(mods);
    }
  }

  /** The last mod adds a key exactly when it is not reported. */
  lemma KeySetGrows(mods: seq<Object>)
    requires HashableNames(mods) && mods != []
    ensures var n := |mods| - 1;
            var seen := FirstOccurrence(mods[..n], Key(mods[n])) < n;
            |KeySet(mods)| == |KeySet(mods[..n])| + (if seen then 0 else 1) &&
            |DuplicateErrors(mods)| == |DuplicateErrors(mods[..n])| + (if seen then 1 else 0)
  {
    var n := |mods| - 1;
    var init, k := mods[..n], Key(mods[n]);
    KeySetExtend(mods, n);
    InKeySet(init, k);
    assert mods[..n + 1] == mods;
    if FirstOccurrence(init, k) < n {
      assert KeySet(mods) == KeySet(init);
    } else {
      assert k !in KeySet(init);
      assert |KeySet(init) + {k}| == |KeySet(init)| + 1;
    }
  }

  /** There are no more distinct names than mods. */
  lemma {:induction false} KeySetBound(mods: seq<Object>)
    requires HashableNames(mods)
    ensures |KeySet(mods)| <= |mods|
  {
    if mods != [] {
      var n := |mods| - 1;
      KeySetBound(mods[..n]);
      KeySetExtend(mods, n);
      assert mods[..n + 1] == mods;
    }
  }

  // The example lemmas take their inputs as parameters fixed by `requires`:
  // given a literal argument, the verifier would unfold the recursive definitions eagerly.
  /** `["A", "B", "A"]`: the third mod is reported against the first. */
  lemma RepeatedNameExample(mods: seq<Object>)
    requires mods == [map["name" := JStr("A")], map["name" := JStr("B")], map["name" := JStr("A")]]
    ensures HashableNames(mods)
    ensures DuplicateErrors(mods) == [DuplicateName(JStr("A"), 0, 2)]
  {
    var ab := mods[..2];
    assert ab == [mods[0], mods[1]] && ab[..1] == [mods[0]] && ab[..1][..0] == [];
    assert FirstOccurrence(ab[..1], Key(mods[1])) == 1;
    assert FirstOccurrence(ab, Key(mods[2])) == 0;
    assert DuplicateErrors(ab[..1]) == [];
    assert DuplicateErrors(ab) == [];
  }

  /** A mod without a name and a mod named `''` collide, and so do `true` and `1`. */
  lemma MissingNameIsEmptyExample(mods: seq<Object>, bools: seq<Object>)
    requires mods == [map[], map["name" := JStr("")]]
    requires bools == [map["name" := JBool(true)], map["name" := JNum(1)]]
    ensures HashableNames(mods) && HashableNames(bools)
    ensures DuplicateErrors(mods) == [DuplicateName(JStr(""), 0, 1)]
    ensures DuplicateErrors(bools) == [DuplicateName(JNum(1), 0, 1)]
  {
    assert mods[..1] == [mods[0]] && mods[..1][..0] == [];
    assert FirstOccurrence(mods[..1], Key(mods[1])) == 0;
    assert DuplicateErrors(mods[..1]) == [];
    assert bools[..1] == [bools[0]] && bools[..1][..0] == [];
    assert FirstOccurrence(bools[..1], Key(bools[1])) == 0;
    assert DuplicateErrors(bools[..1]) == [];
  }
}
