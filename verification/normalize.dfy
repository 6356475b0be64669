/**
 * normalize(arr, t_min, t_max) of multi_hub_rep.py: the min-max rescaling of a
 * batch of distances onto [t_min, t_max] that same_diff thresholds, together with
 * the Python min() and max() it is built on. Distances are exact reals.
 */
module Normalizing {
  import opened Outcomes

  /** Python's min() of a non-empty list: an element no larger than any other. */
  function Min(s: seq<real>): (m: real)
    requires s != []
    ensures m in s && forall k :: 0 <= k < |s| ==> m <= s[k]
    decreases |s|
  {
    if |s| == 1 then s[0]
    else
      var rest := Min(s[1..]);
      if rest < s[0] then rest else s[0]
  }

  /** Python's max() of a non-empty list: an element no smaller than any other. */
  function Max(s: seq<real>): (m: real)
    requires s != []
    ensures m in s && forall k :: 0 <= k < |s| ==> s[k] <= m
    decreases |s|
  {
    if |s| == 1 then s[0]
    else
      var rest := Max(s[1..]);
      if rest > s[0] then rest else s[0]
  }

  lemma MinAtMostMax(s: seq<real>)
    requires s != []
    ensures Min(s) <= Max(s)
  {
    var k :| 0 <= k < |s| && s[k] == Min(s);
  }

  /** The affine map taking lo to tMin and hi to tMax, written as normalize computes it. */
  function Rescale(x: real, lo: real, hi: real, tMin: real, tMax: real): real
    requires lo < hi
  {
    ((x - lo) * (tMax - tMin)) / (hi - lo) + tMin
  }

  /** The list normalize returns when the batch has two different distances. */
  function Normalized(arr: seq<real>, tMin: real, tMax: real): (r: seq<real>)
    requires arr != [] && Min(arr) < Max(arr)
    ensures |r| == |arr|
  {
    seq(|arr|, k requires 0 <= k < |arr| => Rescale(arr[k], Min(arr), Max(arr), tMin, tMax))
  }

  /**
   * What normalize does with every input: max([]) raises ValueError on an empty
   * batch, and dividing by max - min raises ZeroDivisionError when every distance
   * is the same.
   */
  function NormalizeOutcome(arr: seq<real>, tMin: real, tMax: real): (r: Result<seq<real>>)
    ensures r.Success? ==> |r.value| == |arr|
    ensures arr == [] ==> r == Failure(EmptySequence)
    ensures arr != [] ==> (r.Failure? <==> Min(arr) == Max(arr))
    ensures arr != [] && Min(arr) == Max(arr) ==> r == Failure(ZeroDivision)
  {
    if arr == [] then Failure(EmptySequence)
    else if Min(arr) == Max(arr) then Failure(ZeroDivision)
    else MinAtMostMax(arr); Success(Normalized(arr, tMin, tMax))
  }

  /** normalize, appending one rescaled distance per input in a loop. */
  method Normalize(arr: seq<real>, tMin: real, tMax: real) returns (r: Result<seq<real>>)
    ensures r == NormalizeOutcome(arr, tMin, tMax)
  {
    if arr == [] {
      return Failure(EmptySequence);
    }
    var lo, hi := Min(arr), Max(arr);
    MinAtMostMax(arr);
    var diffArr := hi - lo;
    if diffArr == 0.0 {
      // the first division of the loop below raises ZeroDivisionError
      return Failure(ZeroDivision);
    }
    var normArr: seq<real> := [];
    for i := 0 to |arr|
      invariant |normArr| == i
      invariant forall k :: 0 <= k < i ==> normArr[k] == Rescale(arr[k], lo, hi, tMin, tMax)
    {
      var temp := Rescale(arr[i], lo, hi, tMin, tMax);
      normArr := normArr + [temp];
    }
    assert normArr == Normalized(arr, tMin, tMax);
    return Success(normArr);
  }

  lemma ScaleMonotone(a: real, b: real, d: real, w: real)
    requires a <= b && 0.0 <= d && 0.0 < w
    ensures (a * d) / w <= (b * d) / w
  {
    assert a * d <= b * d;
  }

  lemma ScaleStrictlyMonotone(a: real, b: real, d: real, w: real)
    requires a < b && 0.0 < d && 0.0 < w
    ensures (a * d) / w < (b * d) / w
  {
    assert a * d < b * d;
  }

  lemma RescaleMonotone(x: real, y: real, lo: real, hi: real, tMin: real, tMax: real)
    requires lo < hi && tMin <= tMax && x <= y
    ensures Rescale(x, lo, hi, tMin, tMax) <= Rescale(y, lo, hi, tMin, tMax)
  {
    ScaleMonotone(x - lo, y - lo, tMax - tMin, hi - lo);
  }

  lemma RescaleStrictlyMonotone(x: real, y: real, lo: real, hi: real, tMin: real, tMax: real)
    requires lo < hi && tMin < tMax && x < y
    ensures Rescale(x, lo, hi, tMin, tMax) < Rescale(y, lo, hi, tMin, tMax)
  {
    ScaleStrictlyMonotone(x - lo, y - lo, tMax - tMin, hi - lo);
  }

  lemma RescaleEnds(lo: real, hi: real, tMin: real, tMax: real)
    requires lo < hi
    ensures Rescale(lo, lo, hi, tMin, tMax) == tMin
    ensures Rescale(hi, lo, hi, tMin, tMax) == tMax
  {
    var d, w := tMax - tMin, hi - lo;
    assert (w * d) / w == d;
  }

  lemma RescaleMidpoint(lo: real, hi: real)
    requires lo < hi
    ensures Rescale((lo + hi) / 2.0, lo, hi, 0.0, 1.0) == 0.5
  {
    var w := hi - lo;
    assert ((lo + hi) / 2.0 - lo) * 1.0 == w / 2.0;
    assert (w / 2.0) / w == 0.5;
  }

  /** The output is as long as the input; the smallest input becomes tMin and the largest tMax. */
  lemma NormalizedEndpoints(arr: seq<real>, tMin: real, tMax: real, k: nat)
    requires arr != [] && Min(arr) < Max(arr) && k < |arr|
    ensures |Normalized(arr, tMin, tMax)| == |arr|
    ensures arr[k] == Min(arr) ==> Normalized(arr, tMin, tMax)[k] == tMin
    ensures arr[k] == Max(arr) ==> Normalized(arr, tMin, tMax)[k] == tMax
  {
    RescaleEnds(Min(arr), Max(arr), tMin, tMax);
  }

  /** With tMin < tMax, normalize keeps the order of every two distances, in both directions. */
  lemma NormalizedOrder(arr: seq<real>, tMin: real, tMax: real, i: nat, j: nat)
    requires arr != [] && Min(arr) < Max(arr) && i < |arr| && j < |arr|
    requires tMin < tMax
    ensures Normalized(arr, tMin, tMax)[i] <= Normalized(arr, tMin, tMax)[j] <==> arr[i] <= arr[j]
  {
    if arr[i] <= arr[j] {
      RescaleMonotone(arr[i], arr[j], Min(arr), Max(arr), tMin, tMax);
    } else {
      RescaleStrictlyMonotone(arr[j], arr[i], Min(arr), Max(arr), tMin, tMax);
    }
  }

  /** With tMin <= tMax every output lies in [tMin, tMax]; same_diff's call with (0, 1) gives scores in [0, 1]. */
  lemma NormalizedRange(arr: seq<real>, tMin: real, tMax: real, k: nat)
    requires arr != [] && Min(arr) < Max(arr) && k < |arr|
    requires tMin <= tMax
    ensures tMin <= Normalized(arr, tMin, tMax)[k] <= tMax
  {
    var lo, hi := Min(arr), Max(arr);
    RescaleEnds(lo, hi, tMin, tMax);
    RescaleMonotone(lo, arr[k], lo, hi, tMin, tMax);
    RescaleMonotone(arr[k], hi, lo, hi, tMin, tMax);
  }

  lemma RescaleBelowHalf(x: real, lo: real, hi: real)
    requires lo < hi
    ensures Rescale(x, lo, hi, 0.0, 1.0) < 0.5 <==> x < (lo + hi) / 2.0
  {
    var mid := (lo + hi) / 2.0;
    RescaleMidpoint(lo, hi);
    if x < mid {
      RescaleStrictlyMonotone(x, mid, lo, hi, 0.0, 1.0);
    } else {
      RescaleMonotone(mid, x, lo, hi, 0.0, 1.0);
    }
  }

  /** On [0, 1] a distance falls below 0.5 exactly when it is below the midpoint of the batch's range. */
  lemma NormalizedBelowHalf(arr: seq<real>, k: nat)
    requires arr != [] && Min(arr) < Max(arr) && k < |arr|
    ensures Normalized(arr, 0.0, 1.0)[k] < 0.5 <==> arr[k] < (Min(arr) + Max(arr)) / 2.0
  {
    RescaleBelowHalf(arr[k], Min(arr), Max(arr));
  }

  /** The batch [0.1, 0.4, 0.9] normalises to [0.0, 0.375, 1.0]. */
  lemma NormalizedExample()
    ensures NormalizeOutcome([0.1, 0.4, 0.9], 0.0, 1.0) == Success([0.0, 0.375, 1.0])
  {
    var arr := [0.1, 0.4, 0.9];
    assert Min(arr) == 0.1 by { assert Min(arr[1..]) == 0.4 by { assert arr[1..][1..] == [0.9]; } }
    assert Max(arr) == 0.9 by { assert Max(arr[1..]) == 0.9 by { assert arr[1..][1..] == [0.9]; } }
    assert Normalized(arr, 0.0, 1.0) == [0.0, 0.375, 1.0];
  }
}
