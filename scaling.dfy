/**
  `normalize`: an in-place min-max rescaling of a list of numbers to [0, 1].
  searchai.py defines it but nothing in the search calls it.
 */
module Scaling {
  import opened Extrema

  /** What `normalize` leaves in the list: rescaled, or as it was when all values are equal. */
  function Rescaled(s: seq<real>): (r: seq<real>)
    requires |s| > 0
    ensures |r| == |s|
  {
    var xmin, xmax := SeqMin(s), SeqMax(s);
    if xmax - xmin == 0.0 then s
    else seq(|s|, i requires 0 <= i < |s| => Scale(s[i], xmin, xmax))
  }

  /** The image of `x` when `lo` is sent to 0 and `hi` to 1. */
  function Scale(x: real, lo: real, hi: real): real
    requires hi - lo != 0.0
  {
    (x - lo) / (hi - lo)
  }

  /** `normalize`: compute the minimum and maximum once, then rewrite each element in place. */
  method Normalize(data: array<real>)
    requires data.Length > 0
    modifies data
    ensures data[..] == Rescaled(old(data[..]))
  {
    var xmin := SeqMin(data[..]);
    var xmax := SeqMax(data[..]);
    if xmax - xmin == 0.0 {
      return;
    }
    for i := 0 to data.Length
      invariant forall k :: 0 <= k < i ==> data[k] == Scale(old(data[k]), xmin, xmax)
      invariant forall k :: i <= k < data.Length ==> data[k] == old(data[k])
    {
      data[i] := Scale(data[i], xmin, xmax);
    }
  }

  /** One rescaled element. */
  lemma RescaledAt(s: seq<real>, i: nat)
    requires i < |s| && SeqMin(s) != SeqMax(s)
    ensures SeqMax(s) - SeqMin(s) > 0.0
    ensures Rescaled(s)[i] == Scale(s[i], SeqMin(s), SeqMax(s))
  {
  }

  /**
    Unless all values are equal, the rescaled values lie in [0, 1], the
    smallest becomes 0 and the largest 1, and their order is kept.
   */
  lemma RescaledRange(s: seq<real>)
    requires |s| > 0 && SeqMin(s) != SeqMax(s)
    ensures forall i :: 0 <= i < |s| ==> 0.0 <= Rescaled(s)[i] <= 1.0
    ensures SeqMin(Rescaled(s)) == 0.0 && SeqMax(Rescaled(s)) == 1.0
    ensures forall i, j :: 0 <= i < |s| && 0 <= j < |s| ==> (s[i] <= s[j] <==> Rescaled(s)[i] <= Rescaled(s)[j])
  {
    var r := Rescaled(s);
    var lo, hi := SeqMin(s), SeqMax(s);
    forall i | 0 <= i < |s| ensures 0.0 <= r[i] <= 1.0 {
      RescaledAt(s, i);
      ScaleUnit(s[i], lo, hi);
    }
    forall i, j | 0 <= i < |s| && 0 <= j < |s| ensures s[i] <= s[j] <==> r[i] <= r[j] {
      RescaledAt(s, i);
      RescaledAt(s, j);
      ScaleMonotone(s[i], s[j], lo, hi);
    }
    var p := IndexOf(s, lo);
    var q := IndexOf(s, hi);
    RescaledAt(s, p);
    RescaledAt(s, q);
    ScaleEnds(lo, hi);
    SeqExtremaUnique(r, p, q);
  }

  /** Rescaling twice is rescaling once. */
  lemma RescaledIdempotent(s: seq<real>)
    requires |s| > 0
    ensures Rescaled(Rescaled(s)) == Rescaled(s)
  {
    if SeqMin(s) != SeqMax(s) {
      RescaledRange(s);
      var r := Rescaled(s);
      forall i | 0 <= i < |r| ensures Rescaled(r)[i] == r[i] {
        RescaledAt(r, i);
        ScaleUnitRange(r[i]);
      }
    }
  }

  lemma ScaleEnds(lo: real, hi: real)
    requires lo < hi
    ensures Scale(lo, lo, hi) == 0.0 && Scale(hi, lo, hi) == 1.0
  {
    var w := hi - lo;
    assert Scale(hi, lo, hi) == w / w;
    DivSelf(w);
  }

  lemma DivSelf(w: real)
    requires w > 0.0
    ensures w / w == 1.0
  {
    var t := w / w;
    assert t * w == w;
  }

  lemma ScaleUnitRange(x: real)
    ensures Scale(x, 0.0, 1.0) == x
  {
  }

  lemma ScaleUnit(x: real, lo: real, hi: real)
    requires lo <= x <= hi && lo < hi
    ensures 0.0 <= Scale(x, lo, hi) <= 1.0
  {
    QuotientNonNegative(x - lo, hi - lo);
    QuotientNonNegative(hi - x, hi - lo);
    QuotientAdd(x - lo, hi - x, hi - lo);
    DivSelf(hi - lo);
  }

  lemma QuotientAdd(a: real, b: real, w: real)
    requires w > 0.0
    ensures a / w + b / w == (a + b) / w
  {
  }

  lemma QuotientNonNegative(a: real, w: real)
    requires a >= 0.0 && w > 0.0
    ensures a / w >= 0.0
  {
  }

  lemma ScaleMonotone(x: real, y: real, lo: real, hi: real)
    requires lo < hi
    ensures x <= y <==> Scale(x, lo, hi) <= Scale(y, lo, hi)
  {
    var w := hi - lo;
    assert Scale(x, lo, hi) * w == x - lo && Scale(y, lo, hi) * w == y - lo;
  }

  /** A sequence with a 0 and a 1 and every element in [0, 1] has minimum 0 and maximum 1. */
  lemma SeqExtremaUnique(r: seq<real>, lo: nat, hi: nat)
    requires lo < |r| && hi < |r| && r[lo] == 0.0 && r[hi] == 1.0
    requires forall i :: 0 <= i < |r| ==> 0.0 <= r[i] <= 1.0
    ensures SeqMin(r) == 0.0 && SeqMax(r) == 1.0
  {
  }
}
