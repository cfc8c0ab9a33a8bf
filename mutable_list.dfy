/** Kotlin's `MutableList` as an object, so that everyone holding the same list sees the others'
    changes, together with the pure meaning of the bounds-checked edits the adapters make. */
module MutableLists {

  /** A list changed in place and shared by reference. */
  class MutableList<T> {
    var elems: seq<T>

    constructor(init: seq<T>)
      ensures elems == init
    {
      elems := init;
    }

    /** `add(x)`: appends at the end. */
    method Add(x: T)
      modifies this
      ensures elems == old(elems) + [x]
    {
      elems := elems + [x];
    }

    /** `add(0, x)`: inserts at the front. */
    method AddFirst(x: T)
      modifies this
      ensures elems == InsertedAt(old(elems), 0, x)
    {
      elems := [x] + elems;
    }

    /** `addAll(xs)`: appends `xs` in order. */
    method AddAll(xs: seq<T>)
      modifies this
      ensures elems == old(elems) + xs
    {
      elems := elems + xs;
    }

    /** `clear()`. */
    method Clear()
      modifies this
      ensures elems == []
    {
      elems := [];
    }

    /** `removeAt(i)`; Kotlin throws outside the list. */
    method RemoveAt(i: int)
      requires 0 <= i < |elems|
      modifies this
      ensures elems == RemovedAt(old(elems), i)
    {
      elems := elems[..i] + elems[i + 1..];
    }

    /** `this[i] = x`; Kotlin throws outside the list. */
    method Set(i: int, x: T)
      requires 0 <= i < |elems|
      modifies this
      ensures elems == old(elems)[i := x]
    {
      elems := elems[i := x];
    }
  }

  /** The list without its element at `i`: the elements before it stay, the ones after it move up. */
  function RemovedAt<T>(s: seq<T>, i: int): (r: seq<T>)
    requires 0 <= i < |s|
    ensures |r| == |s| - 1
    ensures forall k :: 0 <= k < i ==> r[k] == s[k]
    ensures forall k :: i <= k < |r| ==> r[k] == s[k + 1]
  {
    s[..i] + s[i + 1..]
  }

  /** The list with `x` inserted so that it ends up at index `i`. */
  function InsertedAt<T>(s: seq<T>, i: int, x: T): (r: seq<T>)
    requires 0 <= i <= |s|
    ensures |r| == |s| + 1 && r[i] == x
    ensures forall k :: 0 <= k < i ==> r[k] == s[k]
    ensures forall k :: i < k < |r| ==> r[k] == s[k - 1]
  {
    s[..i] + [x] + s[i..]
  }

  /** Removal loses exactly the removed element: putting it back where it was restores the list. */
  lemma InsertRemovedAt<T>(s: seq<T>, i: int)
    requires 0 <= i < |s|
    ensures InsertedAt(RemovedAt(s, i), i, s[i]) == s
    ensures multiset(RemovedAt(s, i)) + multiset{s[i]} == multiset(s)
  {
    assert s == s[..i] + [s[i]] + s[i + 1..];
  }

  /** `if (p in 0 until size) removeAt(p)`: the element at `p` goes when `p` is an index, and
      nothing happens otherwise. */
  function RemoveInRange<T>(s: seq<T>, p: int): (r: seq<T>)
    ensures !(0 <= p < |s|) ==> r == s
    ensures 0 <= p < |s| ==> |r| == |s| - 1 && InsertedAt(r, p, s[p]) == s
    ensures 0 <= p < |s| ==> multiset(r) + multiset{s[p]} == multiset(s)
  {
    if 0 <= p < |s| then
      InsertRemovedAt(s, p);
      RemovedAt(s, p)
    else s
  }

  /** `if (p in 0 until size) this[p] = x`: only index `p` changes, and only when it is an index. */
  function ReplaceInRange<T>(s: seq<T>, p: int, x: T): (r: seq<T>)
    ensures |r| == |s|
    ensures forall k :: 0 <= k < |s| && k != p ==> r[k] == s[k]
    ensures 0 <= p < |s| ==> r[p] == x
  {
    if 0 <= p < |s| then s[p := x] else s
  }

  /** Writing the old element back undoes a replacement. */
  lemma ReplaceInRangeUndo<T>(s: seq<T>, p: int, x: T)
    ensures 0 <= p < |s| ==> ReplaceInRange(ReplaceInRange(s, p, x), p, s[p]) == s
  {
    if 0 <= p < |s| {
      assert ReplaceInRange(ReplaceInRange(s, p, x), p, s[p]) == s[p := x][p := s[p]];
    }
  }
}
