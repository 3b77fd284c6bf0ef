/** The camera and image lists of the window: removing the selected row and
    keeping the selection (and the previewed image) inside the list. */
module Selection {
  import opened Wrappers
  import opened Configs

  /** The engine's integer clamp: the lower bound is tested first, so when the
      bounds cross (`lo > hi`, an empty list) a value below `lo` gives `lo`
      and any other value gives `hi`. */
  function Clamp(v: int, lo: int, hi: int): (r: int)
    ensures lo <= hi ==> lo <= r <= hi
    ensures lo <= v <= hi ==> r == v
    ensures v < lo ==> r == lo
    ensures lo <= v && hi < v ==> r == hi
  {
    if v < lo then lo else if v > hi then hi else v
  }

  /** The position of the first occurrence of `x` in `s`. */
  function FirstIndex<T(==)>(s: seq<T>, x: T): (k: nat)
    requires x in s
    ensures k < |s| && s[k] == x
    ensures forall j :: 0 <= j < k ==> s[j] != x
  {
    if s[0] == x then 0 else 1 + FirstIndex(s[1..], x)
  }

  /** The list's `Remove`: find the first element equal to `x` (for
      objects, the same reference) and remove it at that position, if there is
      one. The elements before it stay where they were; those after it move
      down by one. */
  function RemoveFirst<T(==)>(s: seq<T>, x: T): (r: seq<T>)
    ensures x !in s ==> r == s
    ensures x in s ==> |r| == |s| - 1
    ensures x in s ==> forall j :: 0 <= j < |r| ==>
      r[j] == (if j < FirstIndex(s, x) then s[j] else s[j + 1])
  {
    if x !in s then s
    else
      var k := FirstIndex(s, x);
      s[..k] + s[k + 1..]
  }

  /** Removing a present element removes exactly one copy of it: the length
      drops by one and every other element stays, in the same order. */
  lemma {:induction false} RemoveFirstCounts<T>(s: seq<T>, x: T)
    requires x in s
    ensures |RemoveFirst(s, x)| == |s| - 1
    ensures multiset(RemoveFirst(s, x)) + multiset{x} == multiset(s)
  {
    var k := FirstIndex(s, x);
    assert s == s[..k] + [s[k]] + s[k + 1..];
    assert multiset(s) == multiset(s[..k]) + multiset{x} + multiset(s[k + 1..]);
  }

  /** The list a `ReorderableList` draws, with its selected row. The list is
      the one the window's settings hold; the remove callback edits it in place. */
  class ReorderableList<T(==)> {
    var items: seq<T>
    var index: int

    /** A new list view has no row selected. */
    constructor (items: seq<T>)
      ensures this.items == items && index == -1
    {
      this.items := items;
      index := -1;
    }

    /** The remove callback shared by the camera list and the image list:
        clamp the selection into the list, remove (the first occurrence of) the
        selected element, and clamp the selection again. */
    method RemoveSelected()
      modifies this
      ensures |old(items)| == 0 ==> items == old(items)
      ensures |old(items)| > 0 ==>
        items == RemoveFirst(old(items), old(items)[Clamp(old(index), 0, |old(items)| - 1)])
      ensures index == Clamp(Clamp(old(index), 0, |old(items)| - 1), 0, |items| - 1)
    {
      index := Clamp(index, 0, |items| - 1);
      if |items| > 0 {
        var selected := items[index];
        items := RemoveFirst(items, selected);
      }
      index := Clamp(index, 0, |items| - 1);
    }
  }

  /** What one removal does to a non-empty list: exactly one element goes
      (the first occurrence of the selected one, which may sit before the
      selected row when the list holds the same object twice), the others keep
      their order, and the new selection is a row of the shorter list, or -1
      once the list is empty. */
  lemma RemoveSelectedEffect<T>(s: seq<T>, index: int)
    requires |s| > 0
    ensures
      var sel := Clamp(index, 0, |s| - 1);
      var r := RemoveFirst(s, s[sel]);
      var k := FirstIndex(s, s[sel]);
      && k <= sel
      && r == s[..k] + s[k + 1..]
      && |r| == |s| - 1
      && multiset(r) + multiset{s[sel]} == multiset(s)
      && (|r| > 0 ==> 0 <= Clamp(sel, 0, |r| - 1) < |r|)
      && (|r| == 0 ==> Clamp(sel, 0, |r| - 1) == -1)
  {
    var sel := Clamp(index, 0, |s| - 1);
    FirstOccurrenceNotAfter(s, sel);
    RemoveFirstCounts(s, s[sel]);
  }

  /** The first occurrence of an element is at or before any of its positions. */
  lemma FirstOccurrenceNotAfter<T>(s: seq<T>, i: int)
    requires 0 <= i < |s|
    ensures FirstIndex(s, s[i]) <= i
  {
  }

  /** On an empty list nothing is removed, and the two clamps with crossed
      bounds leave the selection at -1 when it was negative and at 0
      otherwise. */
  lemma RemoveFromEmptySelection(index: int)
    ensures Clamp(Clamp(index, 0, -1), 0, -1) == if index < 0 then -1 else 0
  {
  }

  /** The window's previewed image: an index into the image list. */
  class Preview {
    var previewIdx: int

    constructor ()
      ensures previewIdx == 0
    {
      previewIdx := 0;
    }

    /** Refreshing the preview does nothing for an empty list; otherwise it
        clamps the index into the list and shows that image. Rendering the
        preview itself is not part of this model. */
    method RefreshPreview(configs: seq<ImageConfig>) returns (shown: Option<ImageConfig>)
      modifies this
      ensures |configs| == 0 ==> shown == None && previewIdx == old(previewIdx)
      ensures |configs| > 0 ==>
        && previewIdx == Clamp(old(previewIdx), 0, |configs| - 1)
        && 0 <= previewIdx < |configs|
        && shown == Some(configs[previewIdx])
    {
      if |configs| < 1 {
        return None;
      }
      previewIdx := Clamp(previewIdx, 0, |configs| - 1);
      shown := Some(configs[previewIdx]);
    }

    /** The previous/next buttons under the preview, drawn only while the image
        list is not empty: step the index by one, clamp it, refresh. */
    method Step(configs: seq<ImageConfig>, forward: bool) returns (shown: Option<ImageConfig>)
      modifies this
      ensures |configs| == 0 ==> shown == None && previewIdx == old(previewIdx)
      ensures |configs| > 0 ==>
        && previewIdx == Clamp(old(previewIdx) + (if forward then 1 else -1), 0, |configs| - 1)
        && 0 <= previewIdx < |configs|
        && shown == Some(configs[previewIdx])
    {
      shown := None;
      if |configs| > 0 {
        previewIdx := previewIdx + (if forward then 1 else -1);
        previewIdx := Clamp(previewIdx, 0, |configs| - 1);
        shown := RefreshPreview(configs);
      }
    }

    /** The image list's remove callback, which also moves the preview to the
        new selection. */
    method RemoveSelectedConfig(list: ReorderableList<ImageConfig>)
      modifies this, list
      ensures |old(list.items)| == 0 ==> list.items == old(list.items)
      ensures |old(list.items)| > 0 ==>
        list.items == RemoveFirst(old(list.items), old(list.items)[Clamp(old(list.index), 0, |old(list.items)| - 1)])
      ensures list.index == Clamp(Clamp(old(list.index), 0, |old(list.items)| - 1), 0, |list.items| - 1)
      ensures previewIdx == list.index
    {
      list.RemoveSelected();
      previewIdx := list.index;
    }
  }
}
