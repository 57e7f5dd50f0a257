/** Gap filling along a series: nearest present neighbours, pandas' default forward linear
    interpolation, and back-/forward-fill. */
module Interpolation {
  import opened Types
  import opened Stats

  /** The nearest present position strictly before `i`. */
  function PrevKnown(c: seq<Option<real>>, i: nat): (r: Option<nat>)
    requires i <= |c|
    ensures r.Some? ==> r.value < i && c[r.value].Some? && forall k :: r.value < k < i ==> c[k].None?
    ensures r.None? ==> forall k :: 0 <= k < i ==> c[k].None?
    decreases i
  {
    if i == 0 then None
    else if c[i - 1].Some? then Some(i - 1)
    else PrevKnown(c, i - 1)
  }

  /** The nearest present position strictly after `i`. */
  function NextKnown(c: seq<Option<real>>, i: nat): (r: Option<nat>)
    requires i < |c|
    ensures r.Some? ==> i < r.value < |c| && c[r.value].Some? && forall k :: i < k < r.value ==> c[k].None?
    ensures r.None? ==> forall k :: i < k < |c| ==> c[k].None?
    decreases |c| - i
  {
    if i + 1 == |c| then None
    else if c[i + 1].Some? then Some(i + 1)
    else NextKnown(c, i + 1)
  }

  /** The value at position `i` on the straight line through (a, va) and (b, vb). */
  function Linear(a: nat, va: real, b: nat, vb: real, i: nat): real
    requires a < b
  {
    Lerp(va, vb, (i - a) as real / (b - a) as real)
  }

  /** One position of `Series.interpolate(method='linear')`: a present cell is kept, a gap
      between two present cells lies on the line joining them, a gap after the last present
      cell repeats it, and a gap before the first present cell stays missing. */
  function InterpolateAt(c: seq<Option<real>>, i: nat): Option<real>
    requires i < |c|
  {
    if c[i].Some? then c[i]
    else match PrevKnown(c, i)
      case None => None
      case Some(a) =>
        match NextKnown(c, i)
        case Some(b) => Some(Linear(a, c[a].value, b, c[b].value, i))
        case None => c[a]
  }

  /** Linear interpolation of a whole series, positions treated as equally spaced. */
  function Interpolate(c: seq<Option<real>>): (r: seq<Option<real>>)
    ensures |r| == |c|
  {
    seq(|c|, i requires 0 <= i < |c| => InterpolateAt(c, i))
  }

  /** Present values are never changed. */
  lemma InterpolateKeepsKnown(c: seq<Option<real>>)
    ensures forall i :: 0 <= i < |c| && c[i].Some? ==> Interpolate(c)[i] == c[i]
  {
  }

  /** A gap whose nearest present neighbours are `a` and `b` lies on the line between them,
      and so between their values. */
  lemma InterpolateInteriorGap(c: seq<Option<real>>, a: nat, i: nat, b: nat)
    requires a < i < b < |c|
    requires c[a].Some? && c[b].Some?
    requires forall k :: a < k < b ==> c[k].None?
    ensures Interpolate(c)[i] == Some(Linear(a, c[a].value, b, c[b].value, i))
    ensures c[a].value <= c[b].value ==> c[a].value <= Interpolate(c)[i].value <= c[b].value
    ensures c[b].value <= c[a].value ==> c[b].value <= Interpolate(c)[i].value <= c[a].value
  {
    assert PrevKnown(c, i) == Some(a);
    assert NextKnown(c, i) == Some(b);
    var t := (i - a) as real / (b - a) as real;
    assert 0.0 <= t <= 1.0;
    LerpBetween(c[a].value, c[b].value, t);
  }

  /** A gap after the last present cell `a` takes the value at `a`. */
  lemma InterpolateTrailingGap(c: seq<Option<real>>, a: nat, i: nat)
    requires a < i < |c|
    requires c[a].Some?
    requires forall k :: a < k < |c| ==> c[k].None?
    ensures Interpolate(c)[i] == c[a]
  {
    assert PrevKnown(c, i) == Some(a);
  }

  /** A gap with no present cell before it stays missing. */
  lemma InterpolateLeadingGap(c: seq<Option<real>>, i: nat)
    requires i < |c|
    requires forall k :: 0 <= k <= i ==> c[k].None?
    ensures Interpolate(c)[i].None?
  {
  }

  /** From the first present cell onwards nothing is missing any more. */
  lemma InterpolateFillsFromFirstKnown(c: seq<Option<real>>, k: nat, i: nat)
    requires k <= i < |c| && c[k].Some?
    ensures Interpolate(c)[i].Some?
  {
    if c[i].None? {
      assert PrevKnown(c, i).Some?;
    }
  }

  /** Interpolating an interpolated series changes nothing. */
  lemma InterpolateIdempotent(c: seq<Option<real>>)
    ensures Interpolate(Interpolate(c)) == Interpolate(c)
  {
    var r := Interpolate(c);
    forall i | 0 <= i < |c|
      ensures Interpolate(r)[i] == r[i]
    {
      if r[i].None? {
        forall k | 0 <= k < i
          ensures r[k].None?
        {
          if r[k].Some? {
            assert c[k].Some? || PrevKnown(c, k).Some?;
            var f :| 0 <= f <= k && c[f].Some?;
            InterpolateFillsFromFirstKnown(c, f, i);
          }
        }
        assert PrevKnown(r, i).None?;
      }
    }
  }

  /** The scenario [20, _, _, 26] becomes [20, 22, 24, 26]. */
  lemma InterpolateExample()
    ensures Interpolate([Some(20.0), None, None, Some(26.0)])
         == [Some(20.0), Some(22.0), Some(24.0), Some(26.0)]
  {
    var c: seq<Option<real>> := [Some(20.0), None, None, Some(26.0)];
    InterpolateInteriorGap(c, 0, 1, 3);
    InterpolateInteriorGap(c, 0, 2, 3);
  }

  /** pandas `fillna(method='bfill')`: a gap takes the next present value after it. */
  function BackFill(c: seq<Option<real>>): (r: seq<Option<real>>)
    ensures |r| == |c|
  {
    seq(|c|, i requires 0 <= i < |c| =>
      if c[i].Some? then c[i]
      else match NextKnown(c, i)
        case Some(b) => c[b]
        case None => None)
  }

  /** pandas `fillna(method='ffill')`: a gap takes the last present value before it. */
  function ForwardFill(c: seq<Option<real>>): (r: seq<Option<real>>)
    ensures |r| == |c|
  {
    seq(|c|, i requires 0 <= i < |c| =>
      if c[i].Some? then c[i]
      else match PrevKnown(c, i)
        case Some(a) => c[a]
        case None => None)
  }

  /** Back-fill then forward-fill leaves no gap in a series with at least one present
      value, and keeps the present values. */
  lemma BackThenForwardFillsAll(c: seq<Option<real>>, k: nat)
    requires k < |c| && c[k].Some?
    ensures forall i :: 0 <= i < |c| ==> ForwardFill(BackFill(c))[i].Some?
    ensures forall i :: 0 <= i < |c| && c[i].Some? ==> ForwardFill(BackFill(c))[i] == c[i]
  {
    var b := BackFill(c);
    assert b[k] == c[k];
    forall i | 0 <= i < |c|
      ensures ForwardFill(b)[i].Some?
    {
      if i <= k && c[i].None? {
        assert NextKnown(c, i).Some?;
      } else if k < i && b[i].None? {
        assert PrevKnown(b, i).Some?;
      }
    }
  }

  /** When the present values of a series form one block `f..l`, back-fill then
      forward-fill keeps the block and extends its end values outwards. */
  lemma FillAroundBlock(c: seq<Option<real>>, f: nat, l: nat)
    requires f <= l < |c|
    requires forall i :: 0 <= i < |c| ==> (c[i].Some? <==> f <= i <= l)
    ensures forall i :: f <= i <= l ==> ForwardFill(BackFill(c))[i] == c[i]
    ensures forall i :: 0 <= i < f ==> ForwardFill(BackFill(c))[i] == c[f]
    ensures forall i :: l < i < |c| ==> ForwardFill(BackFill(c))[i] == c[l]
  {
    var b := BackFill(c);
    forall i | 0 <= i < f
      ensures b[i] == c[f]
    {
      var r := NextKnown(c, i);
      assert c[f].Some?;
      assert r.Some? && f <= r.value;
    }
    forall i | l < i < |c|
      ensures b[i].None?
    {
      assert NextKnown(c, i).None?;
    }
    forall i | l < i < |c|
      ensures ForwardFill(b)[i] == c[l]
    {
      assert b[l] == c[l];
      assert PrevKnown(b, i) == Some(l);
    }
  }
}
