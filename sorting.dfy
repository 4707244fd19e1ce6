/**
  numpy's `np.sort(a)[::-1]`, used by the corner heuristic to find the
  largest tile and the two "podium" values, specified by its meaning: a
  rearrangement of the input that is largest first. Duplicates are kept, so
  the element at position k is the (k+1)-th largest counting repetitions.
 */
module Sorting {

  /** Largest first. */
  predicate Descending(s: seq<int>) {
    forall i, j :: 0 <= i < j < |s| ==> s[i] >= s[j]
  }

  /** Insert `x` into a largest-first sequence. */
  function Insert(x: int, r: seq<int>): (u: seq<int>)
    ensures |u| == |r| + 1
    ensures multiset(u) == multiset(r) + multiset{x}
  {
    if r == [] || x >= r[0] then [x] + r
    else
      assert r == [r[0]] + r[1..];
      [r[0]] + Insert(x, r[1..])
  }

  lemma {:induction false} InsertDescending(x: int, r: seq<int>)
    requires Descending(r)
    ensures Descending(Insert(x, r))
  {
    if r != [] && x < r[0] {
      InsertDescending(x, r[1..]);
      var tail := Insert(x, r[1..]);
      forall k | 0 <= k < |tail| ensures tail[k] <= r[0] {
        assert tail[k] in multiset(tail);
        if tail[k] != x {
          assert tail[k] in multiset(r[1..]);
          var m :| 0 <= m < |r[1..]| && r[1..][m] == tail[k];
          assert r[m + 1] == tail[k];
        }
      }
      ConsDescending(r[0], tail);
    }
  }

  lemma ConsDescending(h: int, t: seq<int>)
    requires Descending(t)
    requires forall k :: 0 <= k < |t| ==> t[k] <= h
    ensures Descending([h] + t)
  {
    var u := [h] + t;
    forall i, j | 0 <= i < j < |u| ensures u[i] >= u[j] {
      assert u[j] == t[j - 1];
      if i > 0 {
        assert u[i] == t[i - 1];
      }
    }
  }

  /** `np.sort(s)[::-1]`: the elements of `s`, largest first. */
  function SortDescending(s: seq<int>): (r: seq<int>)
    ensures |r| == |s|
    ensures multiset(r) == multiset(s)
    ensures Descending(r)
  {
    if s == [] then []
    else
      assert s == [s[0]] + s[1..];
      InsertDescending(s[0], SortDescending(s[1..]));
      Insert(s[0], SortDescending(s[1..]))
  }

  /** The number of elements of `s` greater than `v`. */
  function CountAbove(s: seq<int>, v: int): nat {
    if s == [] then 0 else (if s[0] > v then 1 else 0) + CountAbove(s[1..], v)
  }

  /** The number of elements of `s` at least `v`. */
  function CountAtLeast(s: seq<int>, v: int): nat {
    if s == [] then 0 else (if s[0] >= v then 1 else 0) + CountAtLeast(s[1..], v)
  }

  lemma {:induction false} InsertCounts(x: int, r: seq<int>, v: int)
    ensures CountAbove(Insert(x, r), v) == CountAbove(r, v) + (if x > v then 1 else 0)
    ensures CountAtLeast(Insert(x, r), v) == CountAtLeast(r, v) + (if x >= v then 1 else 0)
  {
    if r == [] || x >= r[0] {
      assert ([x] + r)[1..] == r;
    } else {
      InsertCounts(x, r[1..], v);
      assert ([r[0]] + Insert(x, r[1..]))[1..] == Insert(x, r[1..]);
    }
  }

  lemma {:induction false} SortDescendingCounts(s: seq<int>, v: int)
    ensures CountAbove(SortDescending(s), v) == CountAbove(s, v)
    ensures CountAtLeast(SortDescending(s), v) == CountAtLeast(s, v)
  {
    if s != [] {
      SortDescendingCounts(s[1..], v);
      InsertCounts(s[0], SortDescending(s[1..]), v);
    }
  }

  lemma {:induction false} DescendingRank(r: seq<int>, k: nat)
    requires Descending(r) && k < |r|
    ensures CountAbove(r, r[k]) <= k
    ensures k < CountAtLeast(r, r[k])
  {
    if k == 0 {
      NoneAbove(r[1..], r[0]);
    } else {
      assert Descending(r[1..]);
      DescendingRank(r[1..], k - 1);
      assert r[1..][k - 1] == r[k];
    }
  }

  lemma {:induction false} NoneAbove(s: seq<int>, v: int)
    requires forall i :: 0 <= i < |s| ==> s[i] <= v
    ensures CountAbove(s, v) == 0
  {
    if s != [] {
      NoneAbove(s[1..], v);
    }
  }

  /**
    The element at position k of the sorted sequence is the (k+1)-th largest
    element of `s` counting duplicates: at most k elements of `s` are larger
    than it and more than k are at least as large.
   */
  lemma SortDescendingRank(s: seq<int>, k: nat)
    requires k < |s|
    ensures CountAbove(s, SortDescending(s)[k]) <= k < CountAtLeast(s, SortDescending(s)[k])
  {
    var r := SortDescending(s);
    DescendingRank(r, k);
    SortDescendingCounts(s, r[k]);
  }

  /** The head of the sorted sequence is the maximum of `s`. */
  lemma SortDescendingHead(s: seq<int>)
    requires |s| > 0
    ensures SortDescending(s)[0] in s
    ensures forall x :: x in s ==> x <= SortDescending(s)[0]
  {
    var r := SortDescending(s);
    assert r[0] in multiset(r);
    forall x | x in s ensures x <= r[0] {
      assert x in multiset(s);
      var i :| 0 <= i < |r| && r[i] == x;
    }
  }

  /** Every element at least `w` is above any `v` below `w`. */
  lemma {:induction false} CountAtLeastBelowAbove(s: seq<int>, v: int, w: int)
    requires v < w
    ensures CountAtLeast(s, w) <= CountAbove(s, v)
  {
    if s != [] {
      CountAtLeastBelowAbove(s[1..], v, w);
    }
  }

  lemma {:induction false} CountAtLeastTwo(s: seq<int>, v: int, p: nat, q: nat)
    requires p < |s| && q < |s| && p != q
    requires s[p] >= v && s[q] >= v
    ensures CountAtLeast(s, v) >= 2
  {
    if p == 0 || q == 0 {
      var other := if p == 0 then q else p;
      CountAtLeastOne(s[1..], v, other - 1);
    } else {
      CountAtLeastTwo(s[1..], v, p - 1, q - 1);
    }
  }

  lemma {:induction false} CountAtLeastOne(s: seq<int>, v: int, p: nat)
    requires p < |s| && s[p] >= v
    ensures CountAtLeast(s, v) >= 1
  {
    if p > 0 {
      CountAtLeastOne(s[1..], v, p - 1);
    }
  }

  /**
    When the largest element occurs twice, the second position of the sorted
    sequence repeats it: duplicates are not skipped.
   */
  lemma SortDescendingKeepsDuplicates(s: seq<int>, p: nat, q: nat)
    requires p < |s| && q < |s| && p != q
    requires s[p] == s[q] == SortDescending(s)[0]
    ensures SortDescending(s)[1] == SortDescending(s)[0]
  {
    var r := SortDescending(s);
    CountAtLeastTwo(s, r[0], p, q);
    SortDescendingRank(s, 1);
    if r[1] < r[0] {
      CountAtLeastBelowAbove(s, r[1], r[0]);
      assert false;
    }
  }
}
