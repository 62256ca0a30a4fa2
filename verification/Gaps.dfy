// The longest uncovered stretch of the window.
module Gaps {
  import opened Options
  import opened Visibility

  // Sample t is lit when some satellite is in view.
  function Lit(g: Grid): seq<bool> {
    seq(|g.rows|, t => exists s :: 0 <= s < g.nSat && InView(g, t, s))
  }

  // Samples [lo, hi) are all uncovered.
  ghost predicate Dark(c: seq<bool>, lo: int, hi: int) {
    0 <= lo <= hi <= |c| && forall t :: lo <= t < hi ==> !c[t]
  }

  // Length of the uncovered stretch ending with the last sample.
  function TrailingDark(c: seq<bool>): nat {
    if c == [] || c[|c| - 1] then 0 else TrailingDark(c[..|c| - 1]) + 1
  }

  function LongestDark(c: seq<bool>): nat {
    if c == [] then 0 else Max(LongestDark(c[..|c| - 1]), TrailingDark(c))
  }

  lemma {:induction false} TrailingDarkExact(c: seq<bool>)
    ensures TrailingDark(c) <= |c| && Dark(c, |c| - TrailingDark(c), |c|)
    ensures forall lo :: Dark(c, lo, |c|) ==> |c| - lo <= TrailingDark(c)
    decreases |c|
  {
    if c != [] && !c[|c| - 1] {
      var init := c[..|c| - 1];
      TrailingDarkExact(init);
      forall lo | Dark(c, lo, |c|)
        ensures |c| - lo <= TrailingDark(c)
      {
        if lo < |c| {
          assert Dark(init, lo, |init|);
        }
      }
    }
  }

  // LongestDark is the length of some uncovered stretch and no stretch is longer.
  lemma {:induction false} LongestDarkExact(c: seq<bool>)
    ensures exists lo, hi :: Dark(c, lo, hi) && hi - lo == LongestDark(c)
    ensures forall lo, hi :: Dark(c, lo, hi) ==> hi - lo <= LongestDark(c)
    decreases |c|
  {
    if c == [] {
      assert Dark(c, 0, 0);
    } else {
      var init := c[..|c| - 1];
      LongestDarkExact(init);
      TrailingDarkExact(c);
      var l, h :| Dark(init, l, h) && h - l == LongestDark(init);
      assert Dark(c, l, h);
      assert Dark(c, |c| - TrailingDark(c), |c|);
      forall lo, hi | Dark(c, lo, hi)
        ensures hi - lo <= LongestDark(c)
      {
        if hi < |c| {
          assert Dark(init, lo, hi);
        }
      }
    }
  }

  lemma LitHasNoGap(c: seq<bool>)
    requires forall t :: 0 <= t < |c| ==> c[t]
    ensures LongestDark(c) == 0
  {
    LongestDarkExact(c);
    assert forall lo, hi :: Dark(c, lo, hi) && lo < hi ==> !c[lo];
  }

  predicate PaintedAt(ivs: seq<Interval>, k: nat, t: int) {
    exists i :: 0 <= i < k <= |ivs| && ivs[i].st <= t <= ivs[i].en
  }

  // Union of all intervals over the window, as a row of samples.
  function PaintedRow(ivs: seq<Interval>, n: nat): seq<bool> {
    seq(n, t => PaintedAt(ivs, |ivs|, t))
  }

  lemma IntervalsLightGrid(g: Grid)
    ensures PaintedRow(Intervals(g), |g.rows|) == Lit(g)
  {
    IntervalsExact(g);
    var ivs, row := Intervals(g), PaintedRow(Intervals(g), |g.rows|);
    forall t | 0 <= t < |g.rows|
      ensures row[t] == Lit(g)[t]
    {
      if i :| 0 <= i < |ivs| && ivs[i].st <= t <= ivs[i].en {
        assert ivs[i] in ivs;
        assert InView(g, t, ivs[i].sat);
      }
      if s :| 0 <= s < g.nSat && InView(g, t, s) {
        var iv := RunAt(g, t, s);
        assert iv in ivs;
      }
    }
  }

  method MergedWorstGapSteps(ivs: seq<Interval>, nTime: nat) returns (worst: nat)
    ensures worst == LongestDark(PaintedRow(ivs, nTime))
  {
    var covered := new bool[nTime](_ => false);
    for i := 0 to |ivs|
      invariant forall t :: 0 <= t < nTime ==> covered[t] == PaintedAt(ivs, i, t)
    {
      forall t | 0 <= t < nTime && ivs[i].st <= t <= ivs[i].en {
        covered[t] := true;
      }
    }
    ghost var row := PaintedRow(ivs, nTime);
    assert covered[..] == row;
    assert forall t :: 0 <= t < nTime ==> row[t] == covered[t];
    if forall t :: 0 <= t < nTime ==> covered[t] {
      LitHasNoGap(row);
      return 0;
    }
    worst := 0;
    var cur: nat := 0;
    for t := 0 to nTime
      invariant worst == LongestDark(row[..t]) && cur == TrailingDark(row[..t])
    {
      cur := if covered[t] then 0 else cur + 1;
      worst := Max(worst, cur);
      assert row[..t + 1][..t] == row[..t];
      assert covered[..][t] == row[t];
    }
    assert row[..nTime] == row;
  }
}
