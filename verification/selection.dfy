/**
 * Multi-select lists as the wizard keeps them: a Python list where pressing
 * an item's button removes its first occurrence if present and appends it
 * otherwise.
 */
module Selection {

  /** No item is listed twice. */
  predicate NoDup<T(==)>(xs: seq<T>)
  {
    forall i, j :: 0 <= i < j < |xs| ==> xs[i] != xs[j]
  }

  /** `list.index(x)`: the position of the first occurrence of `x`. */
  function FirstIndex<T(==)>(xs: seq<T>, x: T): (i: nat)
    requires x in xs
    ensures i < |xs| && xs[i] == x && x !in xs[..i]
    decreases |xs|
  {
    if xs[0] == x then 0
    else
      var j := FirstIndex(xs[1..], x);
      assert xs[..j + 1] == [xs[0]] + xs[1..][..j];
      j + 1
  }

  /** `list.remove(x)`: drop the first occurrence of `x`, keeping the order
      of everything else. */
  function RemoveFirst<T(==)>(xs: seq<T>, x: T): (r: seq<T>)
    requires x in xs
    ensures |r| == |xs| - 1
    ensures multiset(r) == multiset(xs) - multiset{x}
    ensures r[..FirstIndex(xs, x)] == xs[..FirstIndex(xs, x)]
    ensures forall k :: FirstIndex(xs, x) <= k < |r| ==> r[k] == xs[k + 1]
  {
    var i := FirstIndex(xs, x);
    SplitAt(xs, i);
    xs[..i] + xs[i + 1..]
  }

  /** One button press on item `x`. */
  function Toggle<T(==)>(xs: seq<T>, x: T): (r: seq<T>)
  {
    if x in xs then RemoveFirst(xs, x) else xs + [x]
  }

  /** A list is its prefix, one item and its suffix. */
  lemma SplitAt<T>(xs: seq<T>, i: int)
    requires 0 <= i < |xs|
    ensures xs == xs[..i] + [xs[i]] + xs[i + 1..]
    ensures multiset(xs) == multiset(xs[..i] + xs[i + 1..] + [xs[i]])
  {
    assert xs == xs[..i] + [xs[i]] + xs[i + 1..];
  }

  /** Cutting index `i` out of a duplicate-free list removes exactly the
      item stored there. */
  lemma CutAt<T>(xs: seq<T>, i: int)
    requires NoDup(xs) && 0 <= i < |xs|
    ensures NoDup(xs[..i] + xs[i + 1..])
    ensures forall y :: y in xs[..i] + xs[i + 1..] <==> y in xs && y != xs[i]
  {
    var r := xs[..i] + xs[i + 1..];
    assert forall k :: 0 <= k < |r| ==> r[k] == xs[if k < i then k else k + 1];
    forall y | y in xs && y != xs[i] ensures y in r {
      var k :| 0 <= k < |xs| && xs[k] == y;
      assert r[if k < i then k else k - 1] == y;
    }
  }

  /** On a duplicate-free list a press flips exactly the membership of `x`
      and keeps the list duplicate-free. */
  lemma ToggleMembership<T>(xs: seq<T>, x: T)
    requires NoDup(xs)
    ensures NoDup(Toggle(xs, x))
    ensures forall y :: y in Toggle(xs, x) <==> (if y == x then x !in xs else y in xs)
  {
    if x in xs {
      CutAt(xs, FirstIndex(xs, x));
    }
  }

  /** Pressing an absent item twice restores the list exactly. */
  lemma ToggleTwiceAbsent<T>(xs: seq<T>, x: T)
    requires x !in xs
    ensures Toggle(Toggle(xs, x), x) == xs
  {
    var once := xs + [x];
    var i := FirstIndex(once, x);
    assert i == |xs| by {
      assert once[|xs|] == x;
    }
    assert once[..i] == xs;
  }

  /** Pressing any item twice on a duplicate-free list restores the same
      items: an absent item leaves no trace, a present one comes back at the
      end, so the list is restored exactly when the item was absent or
      already last. */
  lemma ToggleTwice<T>(xs: seq<T>, x: T)
    requires NoDup(xs)
    ensures multiset(Toggle(Toggle(xs, x), x)) == multiset(xs)
    ensures x !in xs ==> Toggle(Toggle(xs, x), x) == xs
    ensures x in xs ==> Toggle(Toggle(xs, x), x) == RemoveFirst(xs, x) + [x]
    ensures Toggle(Toggle(xs, x), x) == xs <==> x !in xs || xs[|xs| - 1] == x
  {
    if x !in xs {
      ToggleTwiceAbsent(xs, x);
    } else {
      var once := Toggle(xs, x);
      var i := FirstIndex(xs, x);
      assert x !in once by {
        CutAt(xs, i);
      }
      assert Toggle(once, x) == once + [x];
      SplitAt(xs, i);
      if xs[|xs| - 1] == x {
        assert i == |xs| - 1;
        assert once == xs[..|xs| - 1];
        assert once + [x] == xs;
      } else {
        assert (once + [x])[|xs| - 1] == x;
      }
    }
  }
}
