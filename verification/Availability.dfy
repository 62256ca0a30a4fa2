// Satellites-in-view counts over time: the one-shot availability and its chunked accumulation.
module Availability {
  import opened Options
  import opened Visibility
  import opened Gaps
  import opened SatelliteSubset
  import opened ContinuityLaws
  import opened Sums

  // How many of the first m satellites are in view at sample t.
  function CountTo(g: Grid, t: int, m: nat): nat {
    if m == 0 then 0 else CountTo(g, t, m - 1) + if InView(g, t, m - 1) then 1 else 0
  }

  function InViewCount(g: Grid, t: int): nat {
    CountTo(g, t, g.nSat)
  }

  // Samples in [a, b) with at least k satellites in view.
  function Served(g: Grid, k: int, a: nat, b: nat): nat {
    if b <= a then 0 else Served(g, k, a, b - 1) + if InViewCount(g, b - 1) >= k then 1 else 0
  }

  // Satellites in view, summed over the samples in [a, b).
  function SatSum(g: Grid, a: nat, b: nat): nat {
    if b <= a then 0 else SatSum(g, a, b - 1) + InViewCount(g, b - 1)
  }

  // The one-shot reference: fraction of the samples of a row with at least k in view.
  function AtLeast(counts: seq<nat>, k: int): nat {
    if counts == [] then 0 else AtLeast(counts[..|counts| - 1], k) + if counts[|counts| - 1] >= k then 1 else 0
  }

  function OneShot(counts: seq<nat>, k: int): real
    requires counts != []
  {
    AtLeast(counts, k) as real / |counts| as real
  }

  function InViewCounts(g: Grid): seq<nat> {
    seq(|g.rows|, t => InViewCount(g, t))
  }

  // ---------- what is counted ----------

  // The satellites in view at sample t.
  ghost function Viewers(g: Grid, t: int): set<int> {
    set s | 0 <= s < g.nSat && InView(g, t, s)
  }

  // The samples in [a, b) with at least k satellites in view.
  ghost function ServedSamples(g: Grid, k: int, a: nat, b: nat): set<int> {
    set t | a <= t < b && |Viewers(g, t)| >= k
  }

  // Every satellite in view at every sample in [a, b).
  ghost function Sightings(g: Grid, a: nat, b: nat): set<(int, int)> {
    set t, s | a <= t < b && 0 <= s < g.nSat && InView(g, t, s) :: (t, s)
  }

  ghost function Sees(g: Grid, t: int): int -> bool {
    s => InView(g, t, s)
  }

  lemma {:induction false} CountToExact(g: Grid, t: int, m: nat)
    ensures CountTo(g, t, m) == |Selected(0, m, Sees(g, t))|
  {
    if m == 0 {
      assert Selected(0, 0, Sees(g, t)) == {};
    } else {
      CountToExact(g, t, m - 1);
      SelectedNext(0, m, Sees(g, t));
    }
  }

  // The count is the number of satellites in view.
  lemma InViewCountExact(g: Grid, t: int)
    ensures InViewCount(g, t) == |Viewers(g, t)|
  {
    CountToExact(g, t, g.nSat);
    assert Selected(0, g.nSat, Sees(g, t)) == Viewers(g, t);
  }

  ghost function Enough(g: Grid, k: int): int -> bool {
    t => |Viewers(g, t)| >= k
  }

  lemma ServedSamplesNext(g: Grid, k: int, a: nat, b: nat)
    requires a < b
    ensures |ServedSamples(g, k, a, b)|
         == |ServedSamples(g, k, a, b - 1)| + if Enough(g, k)(b - 1) then 1 else 0
  {
    assert ServedSamples(g, k, a, b) == Selected(a, b, Enough(g, k));
    assert ServedSamples(g, k, a, b - 1) == Selected(a, b - 1, Enough(g, k));
    SelectedNext(a, b, Enough(g, k));
  }

  // The served count is the number of samples with at least k satellites in view.
  lemma {:induction false} ServedExact(g: Grid, k: int, a: nat, b: nat)
    ensures Served(g, k, a, b) == |ServedSamples(g, k, a, b)|
    decreases b
  {
    if b <= a {
      assert ServedSamples(g, k, a, b) == {};
    } else {
      ServedExact(g, k, a, b - 1);
      InViewCountExact(g, b - 1);
      ServedSamplesNext(g, k, a, b);
    }
  }

  lemma SightingsNext(g: Grid, a: nat, b: nat)
    requires a < b
    ensures |Sightings(g, a, b)| == |Sightings(g, a, b - 1)| + |Viewers(g, b - 1)|
  {
    PairsCount(b - 1, Viewers(g, b - 1));
    assert Sightings(g, a, b) == Sightings(g, a, b - 1) + PairsWith(b - 1, Viewers(g, b - 1));
  }

  // The satellite sum is the number of sightings.
  lemma {:induction false} SatSumExact(g: Grid, a: nat, b: nat)
    ensures SatSum(g, a, b) == |Sightings(g, a, b)|
    decreases b
  {
    if b <= a {
      assert Sightings(g, a, b) == {};
    } else {
      SatSumExact(g, a, b - 1);
      InViewCountExact(g, b - 1);
      SightingsNext(g, a, b);
    }
  }

  // ---------- chunk bounds ----------

  function ChunkSteps(chunkSteps: Option<nat>, nTime: nat): nat {
    if chunkSteps.Some? && chunkSteps.value != 0 then chunkSteps.value else nTime
  }

  function Bounds(nTime: nat, chunk: nat, i: nat): seq<(nat, nat)>
    requires chunk > 0
    decreases nTime - i
  {
    if i >= nTime then [] else [(i, if i + chunk <= nTime then i + chunk else nTime)] + Bounds(nTime, chunk, i + chunk)
  }

  // Consecutive non-empty intervals from a to b.
  ghost predicate Tiles(bounds: seq<(nat, nat)>, a: nat, b: nat) {
    if bounds == [] then a == b
    else bounds[0].0 == a < bounds[0].1 <= b && Tiles(bounds[1..], bounds[0].1, b)
  }

  lemma {:induction false} BoundsTile(nTime: nat, chunk: nat, i: nat)
    requires chunk > 0 && i <= nTime
    ensures Tiles(Bounds(nTime, chunk, i), i, nTime)
    decreases nTime - i
  {
    if i < nTime {
      if i + chunk <= nTime {
        BoundsTile(nTime, chunk, i + chunk);
      }
      assert Bounds(nTime, chunk, i)[1..] == Bounds(nTime, chunk, i + chunk);
    }
  }

  // ---------- laws ----------

  lemma {:induction false} ServedSplits(g: Grid, k: int, a: nat, b: nat, c: nat)
    requires a <= b <= c
    ensures Served(g, k, a, c) == Served(g, k, a, b) + Served(g, k, b, c)
    ensures SatSum(g, a, c) == SatSum(g, a, b) + SatSum(g, b, c)
    decreases c
  {
    if b < c {
      ServedSplits(g, k, a, b, c - 1);
    }
  }

  lemma {:induction false} OneShotServed(g: Grid, k: int, n: nat)
    requires n <= |g.rows|
    ensures AtLeast(InViewCounts(g)[..n], k) == Served(g, k, 0, n)
  {
    if n > 0 {
      OneShotServed(g, k, n - 1);
      assert InViewCounts(g)[..n][..n - 1] == InViewCounts(g)[..n - 1];
    }
  }

  // Accumulated counts divided by the window length are the one-shot availability.
  lemma ChunkedIsOneShot(g: Grid, k: int)
    requires |g.rows| > 0
    ensures OneShot(InViewCounts(g), k) == Served(g, k, 0, |g.rows|) as real / |g.rows| as real
  {
    OneShotServed(g, k, |g.rows|);
    assert InViewCounts(g)[..|g.rows|] == InViewCounts(g);
  }

  // Sum over k = 1..m of the served counts.
  function ServedUpTo(g: Grid, m: nat, a: nat, b: nat): nat {
    if m == 0 then 0 else ServedUpTo(g, m - 1, a, b) + Served(g, m, a, b)
  }

  lemma {:induction false} ServedUpToStep(g: Grid, m: nat, a: nat, b: nat)
    requires a < b
    ensures ServedUpTo(g, m, a, b) == ServedUpTo(g, m, a, b - 1) + Min(InViewCount(g, b - 1), m)
  {
    if m > 0 {
      ServedUpToStep(g, m - 1, a, b);
    }
  }

  lemma {:induction false} ServedUpToEmpty(g: Grid, m: nat, a: nat)
    ensures ServedUpTo(g, m, a, a) == 0
  {
    if m > 0 {
      ServedUpToEmpty(g, m - 1, a);
    }
  }

  lemma {:induction false} CountToBound(g: Grid, t: int, m: nat)
    ensures CountTo(g, t, m) <= m
  {
    if m > 0 {
      CountToBound(g, t, m - 1);
    }
  }

  // The two accumulators agree: the satellite sum is the sum of the served counts over all k.
  lemma {:induction false} SatSumIsSumOfServed(g: Grid, a: nat, b: nat)
    requires a <= b
    ensures SatSum(g, a, b) == ServedUpTo(g, g.nSat, a, b)
    decreases b
  {
    if a < b {
      SatSumIsSumOfServed(g, a, b - 1);
      ServedUpToStep(g, g.nSat, a, b);
      CountToBound(g, b - 1, g.nSat);
    } else {
      ServedUpToEmpty(g, g.nSat, a);
    }
  }

  // k satellites at each served sample: the satellite sum is at least k times the served count.
  lemma {:induction false} ServedWithinSatSum(g: Grid, k: int, a: nat, b: nat)
    requires a <= b
    ensures k * Served(g, k, a, b) <= SatSum(g, a, b)
    decreases b
  {
    if a < b {
      ServedWithinSatSum(g, k, a, b - 1);
      TimesNext(k, Served(g, k, a, b - 1));
    }
  }

  lemma TimesNext(k: int, n: int)
    ensures k * (n + 1) == k * n + k
  {
  }

  lemma {:induction false} ServedAntitone(g: Grid, k: int, k': int, a: nat, b: nat)
    requires k <= k'
    ensures Served(g, k', a, b) <= Served(g, k, a, b)
    decreases b
  {
    if a < b {
      ServedAntitone(g, k, k', a, b - 1);
    }
  }

  // ---------- dropping unseen satellites, adding visibility ----------

  lemma {:induction false} CountKept(g: Grid, keep: seq<nat>, t: int, m: nat, i: nat)
    requires KeepsSeen(g, keep) && KeptBelow(keep, m, i) && m <= g.nSat
    ensures CountTo(Columns(g, keep), t, i) == CountTo(g, t, m)
    decreases m
  {
    if m == 0 {
      assert |keep| > 0 ==> keep[0] >= 0;
    } else {
      KeptBelowStep(keep, m, i);
      if i > 0 && keep[i - 1] == m - 1 {
        CountKept(g, keep, t, m - 1, i - 1);
        assert InView(Columns(g, keep), t, i - 1) == InView(g, t, m - 1);
      } else {
        CountKept(g, keep, t, m - 1, i);
      }
    }
  }

  lemma {:induction false} ServedKept(g: Grid, keep: seq<nat>, k: int, a: nat, b: nat)
    requires KeepsSeen(g, keep)
    ensures Served(Columns(g, keep), k, a, b) == Served(g, k, a, b)
    ensures SatSum(Columns(g, keep), a, b) == SatSum(g, a, b)
    decreases b
  {
    if a < b {
      ServedKept(g, keep, k, a, b - 1);
      CountKept(g, keep, b - 1, g.nSat, |keep|);
    }
  }

  lemma {:induction false} CountMonotone(g: Grid, g': Grid, t: int, m: nat)
    requires SeesMore(g, g', s => s)
    ensures CountTo(g, t, m) <= CountTo(g', t, m)
  {
    if m > 0 {
      CountMonotone(g, g', t, m - 1);
    }
  }

  lemma {:induction false} ServedMonotone(g: Grid, g': Grid, k: int, a: nat, b: nat)
    requires SeesMore(g, g', s => s) && g.nSat == g'.nSat
    ensures Served(g, k, a, b) <= Served(g', k, a, b)
    ensures SatSum(g, a, b) <= SatSum(g', a, b)
    decreases b
  {
    if a < b {
      ServedMonotone(g, g', k, a, b - 1);
      CountMonotone(g, g', b - 1, g.nSat);
    }
  }

  // Nobody in view ever: nothing is served at any k >= 1, everything at k <= 0.
  lemma {:induction false} ServedUnseen(g: Grid, k: int, a: nat, b: nat)
    requires a <= b && forall t, s :: !InView(g, t, s)
    ensures Served(g, k, a, b) == (if k >= 1 then 0 else b - a) && SatSum(g, a, b) == 0
    decreases b
  {
    if a < b {
      ServedUnseen(g, k, a, b - 1);
      CountUnseen(g, b - 1, g.nSat);
    }
  }

  lemma {:induction false} CountUnseen(g: Grid, t: int, m: nat)
    requires forall s :: !InView(g, t, s)
    ensures CountTo(g, t, m) == 0
  {
    if m > 0 {
      CountUnseen(g, t, m - 1);
    }
  }

  // A sample with anybody in view is served at k = 1.
  lemma {:induction false} CountSeen(g: Grid, t: int, s: nat, m: nat)
    requires InView(g, t, s) && s < m
    ensures CountTo(g, t, m) >= 1
  {
    if s < m - 1 {
      CountSeen(g, t, s, m - 1);
    }
  }

  lemma {:induction false} ServedAlways(g: Grid, n: nat)
    requires n <= |g.rows|
    requires forall t :: 0 <= t < n ==> Lit(g)[t]
    ensures Served(g, 1, 0, n) == n
  {
    if n > 0 {
      ServedAlways(g, n - 1);
      assert Lit(g)[n - 1];
      var s :| 0 <= s < g.nSat && InView(g, n - 1, s);
      CountSeen(g, n - 1, s, g.nSat);
    }
  }
}
