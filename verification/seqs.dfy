/** Sequence utilities shared by the whole model: order-preserving filtering, sums,
    counting and Python/pandas slice semantics. */
module Seqs {

  /** `r` can be obtained from `s` by deleting elements: the relative order is kept. */
  predicate IsSubsequence<T(==)>(r: seq<T>, s: seq<T>)
    decreases |s|
  {
    if |r| == 0 then true
    else if |s| == 0 then false
    else (r[0] == s[0] && IsSubsequence(r[1..], s[1..])) || IsSubsequence(r, s[1..])
  }

  lemma {:induction false} SubsequenceRefl<T>(s: seq<T>)
    ensures IsSubsequence(s, s)
  {
    if |s| > 0 {
      SubsequenceRefl(s[1..]);
    }
  }

  /** The elements of `s` that satisfy `p`, in their original order (a boolean mask). */
  function Filter<T>(s: seq<T>, p: T -> bool): (r: seq<T>)
    ensures |r| <= |s|
    ensures forall x :: x in r ==> x in s && p(x)
    ensures forall x :: x in s && p(x) ==> x in r
    ensures multiset(r) <= multiset(s)
  {
    if |s| == 0 then []
    else
      var rest := Filter(s[1..], p);
      assert s == [s[0]] + s[1..];
      if p(s[0]) then [s[0]] + rest else rest
  }

  /** Number of elements of `s` that satisfy `p`. */
  function Count<T>(s: seq<T>, p: T -> bool): nat
  {
    if |s| == 0 then 0 else (if p(s[0]) then 1 else 0) + Count(s[1..], p)
  }

  /** The negation of a predicate. */
  function Not<T>(p: T -> bool): T -> bool
  {
    x => !p(x)
  }

  /** Filtering keeps the relative order of the survivors. */
  lemma {:induction false} FilterIsSubsequence<T>(s: seq<T>, p: T -> bool)
    ensures IsSubsequence(Filter(s, p), s)
  {
    if |s| > 0 {
      FilterIsSubsequence(s[1..], p);
      var r := Filter(s, p);
      if p(s[0]) {
        assert r[0] == s[0] && r[1..] == Filter(s[1..], p);
      } else {
        assert r == Filter(s[1..], p);
      }
    }
  }

  /** Filtering distributes over concatenation: survivors of an earlier part come first. */
  lemma {:induction false} FilterConcat<T>(a: seq<T>, b: seq<T>, p: T -> bool)
    ensures Filter(a + b, p) == Filter(a, p) + Filter(b, p)
  {
    if |a| > 0 {
      assert (a + b)[0] == a[0];
      assert (a + b)[1..] == a[1..] + b;
      FilterConcat(a[1..], b, p);
    } else {
      assert a + b == b;
    }
  }

  /** Survivors and rejects together account for every element. */
  lemma {:induction false} FilterPartition<T>(s: seq<T>, p: T -> bool)
    ensures |Filter(s, p)| == Count(s, p)
    ensures |Filter(s, p)| + |Filter(s, Not(p))| == |s|
  {
    if |s| > 0 {
      FilterPartition(s[1..], p);
      assert Not(p)(s[0]) == !p(s[0]);
    }
  }

  /** A predicate that every element satisfies removes nothing. */
  lemma {:induction false} FilterKeepsAll<T>(s: seq<T>, p: T -> bool)
    requires forall i :: 0 <= i < |s| ==> p(s[i])
    ensures Filter(s, p) == s
  {
    if |s| > 0 {
      FilterKeepsAll(s[1..], p);
    }
  }

  /** Two successive masks equal one mask with the conjunction. */
  lemma {:induction false} FilterFusion<T>(s: seq<T>, p: T -> bool, q: T -> bool, pq: T -> bool)
    requires forall x :: pq(x) == (p(x) && q(x))
    ensures Filter(Filter(s, p), q) == Filter(s, pq)
  {
    if |s| > 0 {
      FilterFusion(s[1..], p, q, pq);
      if p(s[0]) {
        assert Filter(s, p) == [s[0]] + Filter(s[1..], p);
        assert Filter(s, p)[1..] == Filter(s[1..], p);
      }
    }
  }

  /** Filtering with the same mask twice is the same as once. */
  lemma {:induction false} FilterIdempotent<T>(s: seq<T>, p: T -> bool)
    ensures Filter(Filter(s, p), p) == Filter(s, p)
  {
    var r := Filter(s, p);
    assert forall i :: 0 <= i < |r| ==> r[i] in r;
    FilterKeepsAll(r, p);
  }

  /** Every element that survives the mask satisfies it. */
  lemma {:induction false} FilterSatisfies<T>(s: seq<T>, p: T -> bool)
    ensures forall i :: 0 <= i < |Filter(s, p)| ==> p(Filter(s, p)[i])
  {
    if |s| > 0 {
      FilterSatisfies(s[1..], p);
    }
  }

  /** A mask that rejects every element leaves nothing. */
  lemma {:induction false} NothingPasses<T>(s: seq<T>, p: T -> bool)
    requires forall i :: 0 <= i < |s| ==> !p(s[i])
    ensures Filter(s, p) == []
  {
    if |s| > 0 {
      NothingPasses(s[1..], p);
    }
  }

  /** Delete-then-insert: dropping the elements `drop` selects and appending `added`,
      all of which it selects, leaves the other elements as they were and makes `added`
      exactly the selected ones; doing it twice is doing it once. */
  lemma {:induction false} ReplaceSelected<T>(s: seq<T>, added: seq<T>, keep: T -> bool, drop: T -> bool)
    requires forall x :: drop(x) == !keep(x)
    requires forall i :: 0 <= i < |added| ==> drop(added[i])
    ensures Filter(Filter(s, keep) + added, keep) == Filter(s, keep)
    ensures Filter(Filter(s, keep) + added, drop) == added
    ensures Filter(Filter(s, keep) + added, keep) + added == Filter(s, keep) + added
  {
    var kept := Filter(s, keep);
    FilterConcat(kept, added, keep);
    FilterConcat(kept, added, drop);
    FilterIdempotent(s, keep);
    ComplementRejects(added, drop, keep);
    FilterSatisfies(s, keep);
    ComplementRejects(kept, keep, drop);
    FilterKeepsAll(added, drop);
    assert Filter(added, keep) == [] && Filter(kept, drop) == [] && Filter(added, drop) == added;
  }

  /** Elements that all satisfy `p` are all rejected by its complement `q`. */
  lemma ComplementRejects<T>(s: seq<T>, p: T -> bool, q: T -> bool)
    requires forall x :: q(x) == !p(x)
    requires forall i :: 0 <= i < |s| ==> p(s[i])
    ensures Filter(s, q) == []
  {
    NothingPasses(s, q);
  }

  /** Sum of a sequence of reals. */
  function Sum(s: seq<real>): real
  {
    if |s| == 0 then 0.0 else s[0] + Sum(s[1..])
  }

  /** Arithmetic mean; pandas returns NaN for an empty series. */
  function Mean(s: seq<real>): real
    requires |s| > 0
  {
    Sum(s) / (|s| as real)
  }

  lemma {:induction false} SumConcat(a: seq<real>, b: seq<real>)
    ensures Sum(a + b) == Sum(a) + Sum(b)
  {
    if |a| > 0 {
      assert (a + b)[1..] == a[1..] + b;
      SumConcat(a[1..], b);
    } else {
      assert a + b == b;
    }
  }

  /** Python's normalisation of a slice bound `i` against a length: negative bounds count
      from the end, and the result is clamped to [0, len]. */
  function SliceBound(len: nat, i: int): (b: nat)
    ensures b <= len
    ensures 0 <= i <= len ==> b == i
    ensures i > len ==> b == len
    ensures -(len as int) <= i < 0 ==> b == len + i
    ensures i < -(len as int) ==> b == 0
  {
    if i < 0 then (if len + i < 0 then 0 else len + i)
    else if i > len then len else i
  }

  /** Python `s[start:]`. */
  function SliceFrom<T>(s: seq<T>, start: int): seq<T>
  {
    s[SliceBound(|s|, start)..]
  }

  /** Python `s[:stop]`; also pandas `head(stop)`. */
  function SliceTo<T>(s: seq<T>, stop: int): seq<T>
  {
    s[..SliceBound(|s|, stop)]
  }

  /** Python `s[::-1]`. */
  function Reverse<T>(s: seq<T>): (r: seq<T>)
    ensures |r| == |s|
    ensures forall i :: 0 <= i < |s| ==> r[i] == s[|s| - 1 - i]
  {
    if |s| == 0 then [] else Reverse(s[1..]) + [s[0]]
  }

  lemma ReverseMultiset<T>(s: seq<T>)
    ensures multiset(Reverse(s)) == multiset(s)
  {
    if |s| > 0 {
      ReverseMultiset(s[1..]);
      assert s == [s[0]] + s[1..];
    }
  }

  /** Smaller of two integers. */
  function Min(a: int, b: int): int
  {
    if a <= b then a else b
  }
}
