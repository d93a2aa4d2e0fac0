/** `Array.prototype.sort(compare)` as the front-end uses it: an in-place sort
    driven by a comparator that follows the JavaScript convention (a positive
    result means the first argument must come after the second). */
module Sorting {

  /** A comparator that never asks for both `x` after `y` and `y` after `x`. */
  ghost predicate SignAntisymmetric<T(!new)>(cmp: (T, T) -> int) {
    forall x, y :: cmp(x, y) > 0 ==> cmp(y, x) <= 0
  }

  /** "May stay before" is transitive. */
  ghost predicate Transitive<T(!new)>(cmp: (T, T) -> int) {
    forall x, y, z :: cmp(x, y) <= 0 && cmp(y, z) <= 0 ==> cmp(x, z) <= 0
  }

  /** Every neighbouring pair is in an order the comparator accepts. */
  ghost predicate AdjacentSorted<T>(s: seq<T>, cmp: (T, T) -> int) {
    forall k :: 0 < k < |s| ==> cmp(s[k - 1], s[k]) <= 0
  }

  /** Every pair, not only neighbours, is in an order the comparator accepts. */
  ghost predicate Sorted<T>(s: seq<T>, cmp: (T, T) -> int) {
    forall i, j :: 0 <= i < j < |s| ==> cmp(s[i], s[j]) <= 0
  }

  /** With a transitive comparator, neighbour order gives the order of every pair. */
  lemma {:induction false} AdjacentSortedIsSorted<T(!new)>(s: seq<T>, cmp: (T, T) -> int)
    requires Transitive(cmp)
    requires AdjacentSorted(s, cmp)
    ensures Sorted(s, cmp)
    decreases |s|
  {
    if |s| > 1 {
      var t := s[..|s| - 1];
      assert AdjacentSorted(t, cmp);
      AdjacentSortedIsSorted(t, cmp);
      forall i | 0 <= i < |s| - 1 ensures cmp(s[i], s[|s| - 1]) <= 0 {
        if i < |s| - 2 {
          assert cmp(t[i], t[|s| - 2]) <= 0;
        }
      }
    }
  }

  /** Exchanges the elements at `i - 1` and `i`. */
  method SwapDown<T>(a: array<T>, i: int)
    requires 0 < i < a.Length
    modifies a
    ensures a[i - 1] == old(a[i]) && a[i] == old(a[i - 1])
    ensures forall k :: 0 <= k < a.Length && k != i - 1 && k != i ==> a[k] == old(a[k])
    ensures multiset(a[..]) == multiset(old(a[..]))
  {
    a[i - 1], a[i] := a[i], a[i - 1];
  }

  /** Neighbours are in order over the index range `(lo, hi)`. */
  ghost predicate OrderedRun<T>(s: seq<T>, cmp: (T, T) -> int, lo: int, hi: int)
    requires 0 <= lo && hi <= |s|
  {
    forall k :: lo < k < hi ==> cmp(s[k - 1], s[k]) <= 0
  }

  /** The state of `InsertDown` while the inserted element sits at `j`:
      the sorted prefix `s[..i]` with that element moved from `i` to `j`. */
  ghost predicate Inserting<T>(s: seq<T>, cmp: (T, T) -> int, i: int, j: int)
    requires 0 <= j <= i < |s|
  {
    && OrderedRun(s, cmp, 0, j)
    && OrderedRun(s, cmp, j + 1, i + 1)
    && (j < i ==> cmp(s[j], s[j + 1]) <= 0)
    && (0 < j < i ==> cmp(s[j - 1], s[j + 1]) <= 0)
  }

  /** One step of `InsertDown` keeps its state. */
  lemma SwapKeepsInserting<T(!new)>(s: seq<T>, cmp: (T, T) -> int, i: int, j: int)
    requires SignAntisymmetric(cmp)
    requires 0 < j <= i < |s|
    requires Inserting(s, cmp, i, j) && cmp(s[j - 1], s[j]) > 0
    ensures Inserting(s[j - 1 := s[j]][j := s[j - 1]], cmp, i, j - 1)
  {
    var t := s[j - 1 := s[j]][j := s[j - 1]];
    assert cmp(s[j], s[j - 1]) <= 0;
    assert OrderedRun(t, cmp, 0, j - 1) by {
      forall k | 0 < k < j - 1 ensures cmp(t[k - 1], t[k]) <= 0 {
        assert t[k - 1] == s[k - 1] && t[k] == s[k];
      }
    }
    assert OrderedRun(t, cmp, j, i + 1) by {
      forall k | j < k < i + 1 ensures cmp(t[k - 1], t[k]) <= 0 {
        if k > j + 1 {
          assert t[k - 1] == s[k - 1] && t[k] == s[k];
        }
      }
    }
  }

  /** Moves `a[i]` down into the sorted prefix `a[..i]`, leaving `a[..i + 1]` sorted. */
  method InsertDown<T(!new)>(a: array<T>, i: int, cmp: (T, T) -> int)
    requires SignAntisymmetric(cmp)
    requires 0 <= i < a.Length
    requires OrderedRun(a[..], cmp, 0, i)
    modifies a
    ensures OrderedRun(a[..], cmp, 0, i + 1)
    ensures multiset(a[..]) == multiset(old(a[..]))
  {
    var j := i;
    assert Inserting(a[..], cmp, i, j);
    while j > 0 && cmp(a[j - 1], a[j]) > 0
      invariant 0 <= j <= i
      invariant Inserting(a[..], cmp, i, j)
      invariant multiset(a[..]) == multiset(old(a[..]))
    {
      SwapKeepsInserting(a[..], cmp, i, j);
      ghost var next := a[..][j - 1 := a[j]][j := a[j - 1]];
      SwapDown(a, j);
      assert a[..] == next;
      j := j - 1;
    }
    assert OrderedRun(a[..], cmp, 0, i + 1) by {
      forall k | 0 < k < i + 1 ensures cmp(a[..][k - 1], a[..][k]) <= 0 {
        if k < j {
          assert OrderedRun(a[..], cmp, 0, j);
        } else if k > j + 1 {
          assert OrderedRun(a[..], cmp, j + 1, i + 1);
        }
      }
    }
  }

  /** Insertion sort in place: the result is a permutation of the input and
      every neighbouring pair satisfies the comparator. */
  method SortInPlace<T(!new)>(a: array<T>, cmp: (T, T) -> int)
    requires SignAntisymmetric(cmp)
    modifies a
    ensures AdjacentSorted(a[..], cmp)
    ensures multiset(a[..]) == multiset(old(a[..]))
  {
    var i := 0;
    while i < a.Length
      invariant 0 <= i <= a.Length
      invariant OrderedRun(a[..], cmp, 0, i)
      invariant multiset(a[..]) == multiset(old(a[..]))
    {
      InsertDown(a, i, cmp);
      i := i + 1;
    }
  }
}
