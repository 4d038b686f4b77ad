/**
 * `Array.prototype.sort` with a comparator, as both source files use it.
 * The language standard requires the sort to be stable (section 22.1.3.27 of
 * ECMA-262, 2019 edition), so it is modelled as a stable insertion sort: the
 * comparator `cmp` returns a negative, zero or positive number, and an element
 * moves in front of another only when the comparator says it is strictly
 * smaller.
 */
module StableSort {

  /** `cmp` is a consistent comparator: "cmp(a, b) <= 0" is a total preorder. */
  ghost predicate Collation<T(!new)>(cmp: (T, T) -> int)
  {
    && (forall a, b :: cmp(a, b) <= 0 || cmp(b, a) <= 0)
    && (forall a, b, c :: cmp(a, b) <= 0 && cmp(b, c) <= 0 ==> cmp(a, c) <= 0)
  }

  /** Every element is ordered no later than every element after it. */
  ghost predicate Sorted<T>(cmp: (T, T) -> int, s: seq<T>)
  {
    forall i, j :: 0 <= i < j < |s| ==> cmp(s[i], s[j]) <= 0
  }

  /** `a` and `b` compare equal, so a stable sort keeps them in input order. */
  predicate Tied<T>(cmp: (T, T) -> int, a: T, b: T)
  {
    cmp(a, b) <= 0 && cmp(b, a) <= 0
  }

  /** The elements of `s` that tie with `pivot`, in their order in `s`. */
  function Ties<T>(cmp: (T, T) -> int, s: seq<T>, pivot: T): (r: seq<T>)
    ensures |r| <= |s|
  {
    if s == [] then []
    else Ties(cmp, s[..|s| - 1], pivot) + (if Tied(cmp, s[|s| - 1], pivot) then [s[|s| - 1]] else [])
  }

  /**
   * Inserts `x` behind the last element of `s` that is not strictly greater
   * than it: one step of insertion sort, scanning from the right.
   */
  function InsertRight<T>(cmp: (T, T) -> int, s: seq<T>, x: T): (r: seq<T>)
    ensures |r| == |s| + 1
  {
    if s == [] then [x]
    else if cmp(s[|s| - 1], x) > 0 then
      InsertRight(cmp, s[..|s| - 1], x) + [s[|s| - 1]]
    else s + [x]
  }

  /** The stable sort of `s` under `cmp`. */
  function Sort<T>(cmp: (T, T) -> int, s: seq<T>): (r: seq<T>)
    ensures |r| == |s|
  {
    if s == [] then []
    else InsertRight(cmp, Sort(cmp, s[..|s| - 1]), s[|s| - 1])
  }

  /**
   * Where `InsertRight` puts `x`: behind the last element that is not
   * strictly greater than it, or at the front when there is none.
   */
  function InsertPos<T>(cmp: (T, T) -> int, s: seq<T>, x: T): (k: nat)
    ensures k <= |s|
    ensures k > 0 ==> cmp(s[k - 1], x) <= 0
  {
    if s == [] then 0
    else if cmp(s[|s| - 1], x) > 0 then InsertPos(cmp, s[..|s| - 1], x)
    else |s|
  }

  /** Everything behind the insertion point is strictly greater than `x`. */
  lemma {:induction false} InsertPosPassesGreater<T>(cmp: (T, T) -> int, s: seq<T>, x: T)
    ensures forall i :: InsertPos(cmp, s, x) <= i < |s| ==> cmp(s[i], x) > 0
  {
    if s != [] && cmp(s[|s| - 1], x) > 0 {
      InsertPosPassesGreater(cmp, s[..|s| - 1], x);
    }
  }

  /** Inserting adds exactly the one element. */
  lemma {:induction false} InsertRightPermutes<T>(cmp: (T, T) -> int, s: seq<T>, x: T)
    ensures multiset(InsertRight(cmp, s, x)) == multiset(s) + multiset{x}
  {
    if s != [] {
      var init, last := s[..|s| - 1], s[|s| - 1];
      assert s == init + [last];
      if cmp(last, x) > 0 {
        InsertRightPermutes(cmp, init, x);
      }
    }
  }

  /** Sorting only reorders: the result is a permutation of the input. */
  lemma {:induction false} SortPermutes<T>(cmp: (T, T) -> int, s: seq<T>)
    ensures multiset(Sort(cmp, s)) == multiset(s)
  {
    if s != [] {
      var init, last := s[..|s| - 1], s[|s| - 1];
      SortPermutes(cmp, init);
      InsertRightPermutes(cmp, Sort(cmp, init), last);
      assert s == init + [last];
    }
  }

  lemma InsertRightSorted<T(!new)>(cmp: (T, T) -> int, s: seq<T>, x: T)
    requires Collation(cmp)
    requires Sorted(cmp, s)
    ensures Sorted(cmp, InsertRight(cmp, s, x))
  {
    var k := InsertPos(cmp, s, x);
    InsertPosPassesGreater(cmp, s, x);
    InsertRightSplit(cmp, s, x, k);
    var r := InsertRight(cmp, s, x);
    forall i, j | 0 <= i < j < |r| ensures cmp(r[i], r[j]) <= 0 {
      InsertedPairOrdered(cmp, s, x, k, r, i, j);
    }
  }

  lemma InsertedPairOrdered<T(!new)>(cmp: (T, T) -> int, s: seq<T>, x: T, k: nat, r: seq<T>, i: nat, j: nat)
    requires Collation(cmp)
    requires Sorted(cmp, s)
    requires k <= |s| && r == s[..k] + [x] + s[k..]
    requires k > 0 ==> cmp(s[k - 1], x) <= 0
    requires forall m :: k <= m < |s| ==> cmp(s[m], x) > 0
    requires i < j < |r|
    ensures cmp(r[i], r[j]) <= 0
  {
    if j < k {
      assert r[i] == s[i] && r[j] == s[j];
    } else if j == k {
      assert r[i] == s[i] && r[j] == x;
      if i < k - 1 {
        assert cmp(s[i], s[k - 1]) <= 0;
      }
    } else if i == k {
      assert r[i] == x && r[j] == s[j - 1];
      assert cmp(s[j - 1], x) > 0;
    } else if i < k {
      assert r[i] == s[i] && r[j] == s[j - 1];
    } else {
      assert r[i] == s[i - 1] && r[j] == s[j - 1];
    }
  }

  /** Sorting yields an ordered sequence. */
  lemma {:induction false} SortSorted<T(!new)>(cmp: (T, T) -> int, s: seq<T>)
    requires Collation(cmp)
    ensures Sorted(cmp, Sort(cmp, s))
  {
    if s != [] {
      SortSorted(cmp, s[..|s| - 1]);
      InsertRightSorted(cmp, Sort(cmp, s[..|s| - 1]), s[|s| - 1]);
    }
  }

  lemma TiesAppend<T>(cmp: (T, T) -> int, s: seq<T>, y: T, pivot: T)
    ensures Ties(cmp, s + [y], pivot) == Ties(cmp, s, pivot) + (if Tied(cmp, y, pivot) then [y] else [])
  {
    assert (s + [y])[..|s|] == s;
  }

  lemma {:induction false} InsertRightTies<T(!new)>(cmp: (T, T) -> int, s: seq<T>, x: T, pivot: T)
    requires Collation(cmp)
    ensures Ties(cmp, InsertRight(cmp, s, x), pivot)
         == Ties(cmp, s, pivot) + (if Tied(cmp, x, pivot) then [x] else [])
  {
    if s == [] {
      TiesAppend(cmp, [], x, pivot);
      assert [] + [x] == [x];
    } else if cmp(s[|s| - 1], x) > 0 {
      var init, last := s[..|s| - 1], s[|s| - 1];
      assert s == init + [last];
      InsertRightTies(cmp, init, x, pivot);
      TiesAppend(cmp, InsertRight(cmp, init, x), last, pivot);
      TiesAppend(cmp, init, last, pivot);
      // `x` and `last` cannot both tie with the pivot: that would order `last` before `x`
      assert !(Tied(cmp, x, pivot) && Tied(cmp, last, pivot));
    } else {
      TiesAppend(cmp, s, x, pivot);
    }
  }

  /** Stability: elements that compare equal keep their relative input order. */
  lemma {:induction false} SortStable<T(!new)>(cmp: (T, T) -> int, s: seq<T>, pivot: T)
    requires Collation(cmp)
    ensures Ties(cmp, Sort(cmp, s), pivot) == Ties(cmp, s, pivot)
  {
    if s != [] {
      var init, last := s[..|s| - 1], s[|s| - 1];
      SortStable(cmp, init, pivot);
      InsertRightTies(cmp, Sort(cmp, init), last, pivot);
      TiesAppend(cmp, init, last, pivot);
      assert s == init + [last];
    }
  }

  /** An input that is already in order is left as it is. */
  lemma {:induction false} SortOfSorted<T>(cmp: (T, T) -> int, s: seq<T>)
    requires Sorted(cmp, s)
    ensures Sort(cmp, s) == s
  {
    if s != [] {
      var init := s[..|s| - 1];
      assert Sorted(cmp, init);
      SortOfSorted(cmp, init);
      assert s == init + [s[|s| - 1]];
    }
  }

  /** A comparator that answers 0 throughout leaves every order unchanged. */
  lemma AllTiedKeepsOrder<T>(cmp: (T, T) -> int, s: seq<T>)
    requires forall a, b :: cmp(a, b) == 0
    ensures Sort(cmp, s) == s
  {
    SortOfSorted(cmp, s);
  }

  /** Sorting twice is sorting once. */
  lemma SortIdempotent<T(!new)>(cmp: (T, T) -> int, s: seq<T>)
    requires Collation(cmp)
    ensures Sort(cmp, Sort(cmp, s)) == Sort(cmp, s)
  {
    SortSorted(cmp, s);
    SortOfSorted(cmp, Sort(cmp, s));
  }

  /**
   * The in-place sort `a.sort(cmp)`: insertion sort by adjacent swaps, which
   * moves an element left only past strictly greater ones.
   */
  method SortInPlace<T>(a: array<T>, cmp: (T, T) -> int)
    modifies a
    ensures a[..] == Sort(cmp, old(a[..]))
  {
    ghost var s := a[..];
    for i := 0 to a.Length
      invariant a[..] == Sort(cmp, s[..i]) + s[i..]
    {
      assert s[..i + 1][..i] == s[..i];
      SinkLast(a, i, cmp);
    }
    assert s[..a.Length] == s;
  }

  /**
   * `x` goes right behind the position `j` when everything behind `j` is
   * strictly greater than `x` and the element in front of `j` is not.
   */
  lemma {:induction false} InsertRightSplit<T>(cmp: (T, T) -> int, s: seq<T>, x: T, j: nat)
    requires j <= |s|
    requires forall m :: j <= m < |s| ==> cmp(s[m], x) > 0
    requires j > 0 ==> cmp(s[j - 1], x) <= 0
    ensures InsertRight(cmp, s, x) == s[..j] + [x] + s[j..]
  {
    if j < |s| {
      var init := s[..|s| - 1];
      InsertRightSplit(cmp, init, x, j);
      assert init[..j] == s[..j];
      assert init[j..] + [s[|s| - 1]] == s[j..];
    } else if s != [] {
      assert s[..j] == s;
    }
  }

  /** Moves `a[i]` left into the ordered prefix `a[..i]`. */
  method SinkLast<T>(a: array<T>, i: nat, cmp: (T, T) -> int)
    requires i < a.Length
    modifies a
    ensures a[..] == InsertRight(cmp, old(a[..i]), old(a[i])) + old(a[i + 1..])
  {
    ghost var sorted, rest := a[..i], a[i + 1..];
    var x := a[i];
    var j := i;
    while j > 0 && cmp(a[j - 1], x) > 0
      invariant 0 <= j <= i
      invariant forall m :: 0 <= m < j ==> a[m] == sorted[m]
      invariant a[j] == x
      invariant forall m :: j < m <= i ==> a[m] == sorted[m - 1]
      invariant forall m :: j <= m < i ==> cmp(sorted[m], x) > 0
      invariant a[i + 1..] == rest
    {
      a[j - 1], a[j] := a[j], a[j - 1];
      j := j - 1;
    }
    InsertRightSplit(cmp, sorted, x, j);
    SpliceAt(a[..], sorted, x, rest, i, j);
  }

  lemma SpliceAt<T>(r: seq<T>, sorted: seq<T>, x: T, rest: seq<T>, i: nat, j: nat)
    requires j <= i == |sorted| && |r| == i + 1 + |rest|
    requires forall m :: 0 <= m < j ==> r[m] == sorted[m]
    requires r[j] == x
    requires forall m :: j < m <= i ==> r[m] == sorted[m - 1]
    requires r[i + 1..] == rest
    ensures r == sorted[..j] + [x] + sorted[j..] + rest
  {
    var t := sorted[..j] + [x] + sorted[j..] + rest;
    forall m | 0 <= m < |r| ensures r[m] == t[m] {
      if m > i {
        assert r[m] == r[i + 1..][m - i - 1];
      }
    }
  }
}
