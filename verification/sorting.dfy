/** A stable insertion sort by a real-valued key. It stands for pandas `sort_values` and
    numpy `argsort`; those sorts are not stable, so nothing in the model relies on the
    order this sort gives to elements with equal keys. */
module Sorting {
  import opened Seqs

  /** Keys are non-decreasing along `s`. */
  predicate SortedBy<T>(s: seq<T>, key: T -> real)
  {
    forall i, j :: 0 <= i < j < |s| ==> key(s[i]) <= key(s[j])
  }

  /** The identity key, for sorting plain reals. */
  function Identity(x: real): real
  {
    x
  }

  /** Inserts `x` into a sorted sequence ahead of every element whose key is not smaller. */
  function InsertBy<T>(x: T, s: seq<T>, key: T -> real): (r: seq<T>)
    requires SortedBy(s, key)
    ensures |r| == |s| + 1
    ensures multiset(r) == multiset(s) + multiset{x}
    ensures SortedBy(r, key)
  {
    if |s| == 0 then [x]
    else if key(x) <= key(s[0]) then [x] + s
    else
      var rest := InsertBy(x, s[1..], key);
      assert s == [s[0]] + s[1..];
      LowerBoundKept(s[0], x, s[1..], rest, key);
      [s[0]] + rest
  }

  /** A lower bound of `x` and of the keys of `s` bounds every element of a rearrangement
      of `s` plus `x`. */
  lemma LowerBoundKept<T>(h: T, x: T, s: seq<T>, r: seq<T>, key: T -> real)
    requires multiset(r) == multiset(s) + multiset{x}
    requires key(h) <= key(x)
    requires forall i :: 0 <= i < |s| ==> key(h) <= key(s[i])
    ensures forall i :: 0 <= i < |r| ==> key(h) <= key(r[i])
  {
    forall i | 0 <= i < |r|
      ensures key(h) <= key(r[i])
    {
      assert r[i] in multiset(r);
      if r[i] != x {
        assert r[i] in multiset(s);
        var k :| 0 <= k < |s| && s[k] == r[i];
      }
    }
  }

  /** `s` rearranged so that keys are non-decreasing. */
  function SortBy<T>(s: seq<T>, key: T -> real): (r: seq<T>)
    ensures |r| == |s|
    ensures multiset(r) == multiset(s)
    ensures SortedBy(r, key)
  {
    if |s| == 0 then []
    else
      assert s == [s[0]] + s[1..];
      InsertBy(s[0], SortBy(s[1..], key), key)
  }

  /** Sorting a sequence that is already sorted changes nothing. */
  lemma {:induction false} SortSortedIsIdentity<T>(s: seq<T>, key: T -> real)
    requires SortedBy(s, key)
    ensures SortBy(s, key) == s
  {
    if |s| > 0 {
      assert SortedBy(s[1..], key);
      SortSortedIsIdentity(s[1..], key);
      assert s == [s[0]] + s[1..];
    }
  }

  /** Every element of the sorted sequence comes from the input, and conversely. */
  lemma SortByMembers<T>(s: seq<T>, key: T -> real)
    ensures forall x :: x in SortBy(s, key) <==> x in s
  {
    var r := SortBy(s, key);
    assert forall x :: x in r <==> x in multiset(r);
    assert forall x :: x in s <==> x in multiset(s);
  }

  /** Read backwards, a sorted suffix has non-increasing keys. */
  lemma SortedSuffixReversed<T>(s: seq<T>, m: nat, key: T -> real)
    requires SortedBy(s, key) && m <= |s|
    ensures forall a, b :: 0 <= a < b < |s| - m ==> key(Reverse(s[m..])[a]) >= key(Reverse(s[m..])[b])
  {
    var t := s[m..];
    var r := Reverse(t);
    forall a, b | 0 <= a < b < |t|
      ensures key(r[a]) >= key(r[b])
    {
      assert r[a] == s[m + |t| - 1 - a] && r[b] == s[m + |t| - 1 - b];
    }
  }

  /** A lower bound on every key survives any mask. */
  lemma {:induction false} FilterAbove<T>(s: seq<T>, p: T -> bool, key: T -> real, b: real)
    requires forall i :: 0 <= i < |s| ==> b <= key(s[i])
    ensures forall i :: 0 <= i < |Filter(s, p)| ==> b <= key(Filter(s, p)[i])
  {
    if |s| > 0 {
      assert forall i :: 0 <= i < |s| - 1 ==> s[1..][i] == s[i + 1];
      FilterAbove(s[1..], p, key, b);
    }
  }

  /** Putting an element no larger than any other in front keeps a sequence sorted. */
  lemma ConsSorted<T>(x: T, rest: seq<T>, key: T -> real)
    requires SortedBy(rest, key)
    requires forall i :: 0 <= i < |rest| ==> key(x) <= key(rest[i])
    ensures SortedBy([x] + rest, key)
  {
    var r := [x] + rest;
    forall i, j | 0 <= i < j < |r|
      ensures key(r[i]) <= key(r[j])
    {
      if i > 0 {
        assert key(rest[i - 1]) <= key(rest[j - 1]);
      }
    }
  }

  /** Dropping elements keeps a sorted sequence sorted. */
  lemma {:induction false} FilterKeepsSorted<T>(s: seq<T>, p: T -> bool, key: T -> real)
    requires SortedBy(s, key)
    ensures SortedBy(Filter(s, p), key)
  {
    if |s| > 0 {
      var tail := s[1..];
      assert forall i :: 0 <= i < |tail| ==> tail[i] == s[i + 1];
      FilterKeepsSorted(tail, p, key);
      if p(s[0]) {
        assert forall i :: 0 <= i < |tail| ==> key(s[0]) <= key(tail[i]);
        FilterAbove(tail, p, key, key(s[0]));
        ConsSorted(s[0], Filter(tail, p), key);
        assert Filter(s, p) == [s[0]] + Filter(tail, p);
      }
    }
  }

  /** A prefix of a sorted sequence is sorted and takes nothing the sequence lacks. */
  lemma SortedPrefix<T>(s: seq<T>, m: nat, key: T -> real)
    requires SortedBy(s, key) && m <= |s|
    ensures SortedBy(s[..m], key)
    ensures multiset(s[..m]) <= multiset(s)
  {
    assert s == s[..m] + s[m..];
  }
}
