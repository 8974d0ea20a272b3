/**
  The median reducer: partial sorting of a vector in place (the contract of
  std::nth_element) and selection of the element at index n/2, 0 for an empty
  vector. The specification is the element at index n/2 of the sorted vector;
  its meaning is stated independently by ranks: fewer than or exactly n/2
  elements lie strictly below it and more than n/2 lie at or below it.
*/
module Median {

  /** e lies below x, strictly or inclusively. */
  predicate Below(e: real, x: real, inclusive: bool) {
    if inclusive then e <= x else e < x
  }

  /** The number of elements of s below x. */
  function Count(s: seq<real>, x: real, inclusive: bool): (c: nat)
    ensures c <= |s|
  {
    if s == [] then 0 else (if Below(s[0], x, inclusive) then 1 else 0) + Count(s[1..], x, inclusive)
  }

  predicate Sorted(s: seq<real>) {
    forall i, j :: 0 <= i < j < |s| ==> s[i] <= s[j]
  }

  /** Element k separates s: nothing before it is larger, nothing after it smaller. */
  predicate Partitioned(s: seq<real>, k: nat) {
    k < |s|
    && (forall i :: 0 <= i < k ==> s[i] <= s[k])
    && (forall i :: k < i < |s| ==> s[k] <= s[i])
  }

  /** x inserted before the first element of s not below it. */
  function Insert(x: real, s: seq<real>): (r: seq<real>)
    ensures |r| == |s| + 1
  {
    if s == [] || x <= s[0] then [x] + s else [s[0]] + Insert(x, s[1..])
  }

  /** The vector in ascending order (insertion sort). */
  function Sort(s: seq<real>): (r: seq<real>)
    ensures |r| == |s|
  {
    if s == [] then [] else Insert(s[0], Sort(s[1..]))
  }

  /** Inserting adds exactly x. */
  lemma {:induction false} InsertPermutes(x: real, s: seq<real>)
    ensures multiset(Insert(x, s)) == multiset(s) + multiset{x}
  {
    if s != [] && x > s[0] {
      InsertPermutes(x, s[1..]);
      assert s == [s[0]] + s[1..];
    }
  }

  /** A bound below x and below every element of s bounds the result. */
  lemma {:induction false} InsertLowerBound(x: real, s: seq<real>, lo: real)
    requires lo <= x && forall i :: 0 <= i < |s| ==> lo <= s[i]
    ensures forall i :: 0 <= i < |Insert(x, s)| ==> lo <= Insert(x, s)[i]
  {
    if s != [] && x > s[0] {
      InsertLowerBound(x, s[1..], lo);
    }
  }

  /** Inserting into a sorted sequence keeps it sorted. */
  lemma {:induction false} InsertSorted(x: real, s: seq<real>)
    requires Sorted(s)
    ensures Sorted(Insert(x, s))
  {
    if s != [] && x > s[0] {
      var rest := Insert(x, s[1..]);
      InsertSorted(x, s[1..]);
      InsertLowerBound(x, s[1..], s[0]);
      var r := Insert(x, s);
      assert r == [s[0]] + rest;
      forall i, j | 0 <= i < j < |r|
        ensures r[i] <= r[j]
      {
        assert r[j] == rest[j - 1];
        if i > 0 {
          assert r[i] == rest[i - 1];
        }
      }
    }
  }

  /** Sort yields a sorted permutation of its input. */
  lemma {:induction false} SortSorts(s: seq<real>)
    ensures Sorted(Sort(s))
    ensures multiset(Sort(s)) == multiset(s)
  {
    if s != [] {
      SortSorts(s[1..]);
      InsertSorted(s[0], Sort(s[1..]));
      InsertPermutes(s[0], Sort(s[1..]));
      assert s == [s[0]] + s[1..];
    }
  }

  /** The value _getMedian yields: 0 for an empty vector, otherwise the element
      at index n/2 of the sorted vector (the upper of the two middle elements
      when n is even). */
  function MedianOf(s: seq<real>): (med: real) {
    if |s| == 0 then 0.0 else Sort(s)[|s| / 2]
  }

  lemma {:induction false} CountAppend(a: seq<real>, b: seq<real>, x: real, inclusive: bool)
    ensures Count(a + b, x, inclusive) == Count(a, x, inclusive) + Count(b, x, inclusive)
  {
    if a == [] {
      assert a + b == b;
    } else {
      assert (a + b)[1..] == a[1..] + b;
      CountAppend(a[1..], b, x, inclusive);
    }
  }

  /** Taking element j out of t takes it out of the multiset and the count. */
  lemma RemoveAt(t: seq<real>, j: nat, x: real, inclusive: bool)
    requires j < |t|
    ensures multiset(t) == multiset(t[..j] + t[j + 1..]) + multiset{t[j]}
    ensures Count(t, x, inclusive) == Count(t[..j] + t[j + 1..], x, inclusive) + Count([t[j]], x, inclusive)
  {
    assert t == t[..j] + ([t[j]] + t[j + 1..]);
    CountAppend(t[..j], [t[j]] + t[j + 1..], x, inclusive);
    CountAppend([t[j]], t[j + 1..], x, inclusive);
    CountAppend(t[..j], t[j + 1..], x, inclusive);
  }

  /** Counts depend only on the multiset of elements. */
  lemma {:induction false} CountPermutation(s: seq<real>, t: seq<real>, x: real, inclusive: bool)
    requires multiset(s) == multiset(t)
    ensures Count(s, x, inclusive) == Count(t, x, inclusive)
    decreases |s|
  {
    if s == [] {
      assert |t| == |multiset(t)| == 0;
    } else {
      var h := s[0];
      assert s == [h] + s[1..];
      assert h in multiset(t) by { assert h in multiset(s); }
      var j :| 0 <= j < |t| && t[j] == h;
      var rest := t[..j] + t[j + 1..];
      RemoveAt(t, j, x, inclusive);
      assert multiset(s) == multiset(s[1..]) + multiset{h};
      assert multiset(s[1..]) == multiset(s) - multiset{h};
      assert multiset(rest) == multiset(t) - multiset{h};
      CountPermutation(s[1..], rest, x, inclusive);
      CountAppend([h], s[1..], x, inclusive);
    }
  }

  lemma {:induction false} CountNoneBelow(s: seq<real>, x: real)
    requires forall i :: 0 <= i < |s| ==> x <= s[i]
    ensures Count(s, x, false) == 0
  {
    if s != [] {
      CountNoneBelow(s[1..], x);
    }
  }

  lemma {:induction false} CountAllBelow(s: seq<real>, x: real)
    requires forall i :: 0 <= i < |s| ==> s[i] <= x
    ensures Count(s, x, true) == |s|
  {
    if s != [] {
      CountAllBelow(s[1..], x);
    }
  }

  /** Raising the threshold never lowers the count. */
  lemma {:induction false} CountMonotone(s: seq<real>, x: real, y: real)
    requires x < y
    ensures Count(s, x, true) <= Count(s, y, false)
  {
    if s != [] {
      CountMonotone(s[1..], x, y);
    }
  }

  /** The separating element of a partitioned sequence has rank k. */
  lemma PartitionRank(s: seq<real>, k: nat)
    requires Partitioned(s, k)
    ensures Count(s, s[k], false) <= k < Count(s, s[k], true)
  {
    var x := s[k];
    assert s == s[..k] + ([x] + s[k + 1..]);
    CountAppend(s[..k], [x] + s[k + 1..], x, false);
    CountAppend(s[..k], [x] + s[k + 1..], x, true);
    CountAppend([x], s[k + 1..], x, false);
    CountAppend([x], s[k + 1..], x, true);
    CountNoneBelow(s[k + 1..], x);
    CountAllBelow(s[..k], x);
    assert Count([x], x, false) == 0;
    assert Count([x], x, true) == 1;
  }

  /** At most one value has rank k in a given sequence. */
  lemma RankUnique(s: seq<real>, k: nat, x: real, y: real)
    requires Count(s, x, false) <= k < Count(s, x, true)
    requires Count(s, y, false) <= k < Count(s, y, true)
    ensures x == y
  {
    if x < y {
      CountMonotone(s, x, y);
    } else if y < x {
      CountMonotone(s, y, x);
    }
  }

  /** Whatever permutation of s is partitioned at k holds at k the element at
      index k of the sorted s. */
  lemma SelectedIsSortedAt(p: seq<real>, s: seq<real>, k: nat)
    requires Partitioned(p, k)
    requires multiset(p) == multiset(s) && |p| == |s|
    ensures p[k] == Sort(s)[k]
  {
    var t := Sort(s);
    SortSorts(s);
    assert Partitioned(t, k);
    PartitionRank(p, k);
    PartitionRank(t, k);
    CountPermutation(p, t, p[k], false);
    CountPermutation(p, t, p[k], true);
    RankUnique(t, k, p[k], t[k]);
  }

  /** The median of a non-empty vector is one of its elements and has rank
      n/2: at most n/2 elements are smaller, more than n/2 are smaller or equal. */
  lemma MedianRank(s: seq<real>)
    requires |s| > 0
    ensures MedianOf(s) in s
    ensures Count(s, MedianOf(s), false) <= |s| / 2 < Count(s, MedianOf(s), true)
  {
    var t := Sort(s);
    var k := |s| / 2;
    SortSorts(s);
    assert Partitioned(t, k);
    PartitionRank(t, k);
    CountPermutation(t, s, t[k], false);
    CountPermutation(t, s, t[k], true);
    assert t[k] in multiset(t);
  }

  /** For sorted [1, 2, 3, 4] the selected index is 2, so the median is 3. */
  lemma MedianOfFourIsUpperMiddle()
    ensures MedianOf([1.0, 2.0, 3.0, 4.0]) == 3.0
  {
    var s := [1.0, 2.0, 3.0, 4.0];
    assert Partitioned(s, 2);
    SelectedIsSortedAt(s, s, 2);
  }

  /** The index of a least element of a[lo..]. */
  method MinIndex(a: array<real>, lo: nat) returns (m: nat)
    requires lo < a.Length
    ensures lo <= m < a.Length
    ensures forall j :: lo <= j < a.Length ==> a[m] <= a[j]
  {
    m := lo;
    var j := lo + 1;
    while j < a.Length
      invariant lo <= m < a.Length
      invariant lo < j <= a.Length
      invariant forall i :: lo <= i < j ==> a[m] <= a[i]
    {
      if a[j] < a[m] {
        m := j;
      }
      j := j + 1;
    }
  }

  /** Exchanges a[i] and a[j], leaving every other element in place. */
  method Swap(a: array<real>, i: nat, j: nat)
    requires i < a.Length && j < a.Length
    modifies a
    ensures a[i] == old(a[j]) && a[j] == old(a[i])
    ensures forall m :: 0 <= m < a.Length && m != i && m != j ==> a[m] == old(a[m])
    ensures multiset(a[..]) == multiset(old(a[..]))
  {
    a[i], a[j] := a[j], a[i];
  }

  /** Rearranges a so that a[k] is the element that would be there if a were
      sorted, with no larger element before it and no smaller one after it
      (the postcondition of std::nth_element). Selection of the k+1 least
      elements into the front, one at a time. */
  method NthElement(a: array<real>, k: nat)
    requires k < a.Length
    modifies a
    ensures multiset(a[..]) == multiset(old(a[..]))
    ensures Partitioned(a[..], k)
    ensures a[k] == Sort(old(a[..]))[k]
  {
    var i := 0;
    while i <= k
      invariant 0 <= i <= k + 1
      invariant multiset(a[..]) == multiset(old(a[..]))
      invariant forall p, q :: 0 <= p < q < i ==> a[p] <= a[q]
      invariant forall p, q :: 0 <= p < i <= q < a.Length ==> a[p] <= a[q]
    {
      var m := MinIndex(a, i);
      Swap(a, i, m);
      i := i + 1;
    }
    assert Partitioned(a[..], k);
    SelectedIsSortedAt(a[..], old(a[..]), k);
  }

  /** _getMedian: 0 for an empty vector; otherwise partially sorts the vector
      in place and yields its element at index n/2. */
  method GetMedian(v: array<real>) returns (med: real)
    modifies v
    ensures multiset(v[..]) == multiset(old(v[..]))
    ensures med == MedianOf(old(v[..]))
    ensures v.Length > 0 ==> Partitioned(v[..], v.Length / 2) && med == v[v.Length / 2]
  {
    med := 0.0;
    if v.Length > 0 {
      NthElement(v, v.Length / 2);
      med := v[v.Length / 2];
    }
  }

  /** The median of a vector held as a value: copies it into a fresh array and
      runs GetMedian on the copy. */
  method MedianOfVector(s: seq<real>) returns (med: real)
    ensures med == MedianOf(s)
    ensures |s| > 0 ==> med in s && Count(s, med, false) <= |s| / 2 < Count(s, med, true)
  {
    var v := new real[|s|](i requires 0 <= i < |s| => s[i]);
    assert v[..] == s;
    med := GetMedian(v);
    if |s| > 0 {
      MedianRank(s);
    }
  }
}
