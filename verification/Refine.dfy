// Endpoint refinement by fixed-iteration bisection, over exact reals.
module Refine {
  import opened Options

  function Pow2(n: nat): (r: int)
    ensures r >= 1
  {
    if n == 0 then 1 else 2 * Pow2(n - 1)
  }

  // Ceiling of the base-2 logarithm of a ratio, 0 up to ratio 1.
  function CeilLog2(ratio: real): nat
    decreases ratio.Floor
  {
    if ratio <= 1.0 then 0 else CeilLog2(ratio / 2.0) + 1
  }

  function NBisectIters(stepS: real, tolS: real): nat
    requires tolS > 0.0
  {
    var width := if stepS >= tolS then stepS else tolS;
    Max(1, CeilLog2(width / tolS))
  }

  lemma {:induction false} CeilLog2Least(ratio: real, n: nat)
    ensures Pow2(n) as real >= ratio <==> n >= CeilLog2(ratio)
    decreases ratio.Floor
  {
    if ratio > 1.0 && n > 0 {
      CeilLog2Least(ratio / 2.0, n - 1);
    }
  }

  lemma HalvingsOf(width: real, tolS: real, n: nat)
    requires tolS > 0.0
    ensures n >= CeilLog2(width / tolS) <==> Pow2(n) as real * tolS >= width
  {
    var ratio := width / tolS;
    assert ratio * tolS == width;
    CeilLog2Least(ratio, n);
    Scale(Pow2(n) as real, ratio, tolS);
  }

  // The iteration count is the least positive one whose halvings bring the bracket below tol.
  lemma NBisectItersLeast(stepS: real, tolS: real, n: nat)
    requires tolS > 0.0 && n >= 1
    ensures n >= NBisectIters(stepS, tolS) <==> Pow2(n) as real * tolS >= stepS
  {
    if stepS >= tolS {
      HalvingsOf(stepS, tolS, n);
    } else {
      HalvingsOf(tolS, tolS, n);
      Scale(Pow2(n) as real, 1.0, tolS);
    }
  }

  lemma Scale(x: real, y: real, m: real)
    requires m > 0.0
    ensures x >= y <==> x * m >= y * m
  {
    if x >= y {
      assert (x - y) * m >= 0.0;
    } else {
      assert (y - x) * m > 0.0;
    }
  }

  // l and h bracket a threshold crossing of width (hi - lo) / 2^n inside [lo, hi].
  ghost predicate Brackets(elevAt: real -> real, minElev: real, lo: real, hi: real, n: nat, l: real, h: real) {
    && (elevAt(l) > minElev) != (elevAt(h) > minElev)
    && (h - l) * Pow2(n) as real == hi - lo
    && (lo <= hi ==> lo <= l <= h <= hi)
  }

  // Halving keeps the crossing: the half whose ends disagree is kept.
  lemma HalfBrackets(elevAt: real -> real, minElev: real, lo: real, hi: real, n: nat, l: real, h: real)
    requires Brackets(elevAt, minElev, lo, hi, n, l, h)
    ensures var mid := 0.5 * (l + h);
      if (elevAt(mid) > minElev) == (elevAt(l) > minElev) then Brackets(elevAt, minElev, lo, hi, n + 1, mid, h)
      else Brackets(elevAt, minElev, lo, hi, n + 1, l, mid)
  {
    var mid, w, p := 0.5 * (l + h), h - l, Pow2(n) as real;
    assert Pow2(n + 1) as real == 2.0 * p;
    assert mid - l == w / 2.0 && h - mid == w / 2.0;
    assert w / 2.0 * (2.0 * p) == w * p;
  }

  // After the fixed number of halvings the bracket is no wider than the tolerance.
  lemma FinalWidth(elevAt: real -> real, minElev: real, lo: real, hi: real, l: real, h: real, tolS: real)
    requires tolS > 0.0 && Brackets(elevAt, minElev, lo, hi, NBisectIters(hi - lo, tolS), l, h)
    ensures h - l <= tolS
  {
    var n := NBisectIters(hi - lo, tolS);
    NBisectItersLeast(hi - lo, tolS, n);
    Scale(tolS, h - l, Pow2(n) as real);
  }

  method RefineCrossing(elevAt: real -> real, loS: real, hiS: real, minElev: real, tolS: real)
    returns (r: Result<real>, ghost l: real, ghost h: real)
    requires tolS > 0.0
    ensures r.Err? <==> (elevAt(loS) > minElev) == (elevAt(hiS) > minElev)
    ensures r.Ok? ==> Brackets(elevAt, minElev, loS, hiS, NBisectIters(hiS - loS, tolS), l, h)
    ensures r.Ok? ==> r.value == 0.5 * (l + h) && h - l <= tolS
  {
    l, h := loS, hiS;
    var lo, hi := loS, hiS;
    var fLo, fHi := elevAt(lo) - minElev, elevAt(hi) - minElev;
    if (fLo > 0.0) == (fHi > 0.0) {
      return Err("no elevation-threshold sign change in the bracket"), l, h;
    }
    var n := NBisectIters(hiS - loS, tolS);
    for i := 0 to n
      invariant Brackets(elevAt, minElev, loS, hiS, i, lo, hi) && fLo == elevAt(lo) - minElev
    {
      HalfBrackets(elevAt, minElev, loS, hiS, i, lo, hi);
      var mid := 0.5 * (lo + hi);
      var fMid := elevAt(mid) - minElev;
      if (fMid > 0.0) == (fLo > 0.0) {
        lo, fLo := mid, fMid;
      } else {
        hi := mid;
      }
    }
    FinalWidth(elevAt, minElev, loS, hiS, lo, hi, tolS);
    l, h := lo, hi;
    r := Ok(0.5 * (lo + hi));
  }

  // If the threshold is crossed once, at x, the refined instant is within half the tolerance.
  lemma RefinedNearCrossing(elevAt: real -> real, minElev: real, lo: real, hi: real, n: nat,
                            l: real, h: real, tolS: real, x: real, rising: bool)
    requires lo <= hi && Brackets(elevAt, minElev, lo, hi, n, l, h) && h - l <= tolS
    requires forall t :: lo <= t <= hi ==> (t < x ==> (elevAt(t) > minElev) == !rising)
    requires forall t :: lo <= t <= hi ==> (t > x ==> (elevAt(t) > minElev) == rising)
    ensures -tolS / 2.0 <= 0.5 * (l + h) - x <= tolS / 2.0
  {
  }
}
