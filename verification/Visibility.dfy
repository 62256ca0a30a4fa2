// One cell's in-view matrix and its maximal visibility runs.
module Visibility {

  // rows are time samples, columns are satellites
  datatype Table = Table(rows: seq<seq<bool>>, nSat: nat)

  type Grid = g: Table | forall t :: 0 <= t < |g.rows| ==> |g.rows[t]| == g.nSat
    witness Table([], 0)

  // (satellite, first sample, last sample), both ends inclusive
  datatype Interval = Interval(sat: int, st: int, en: int)

  // Total over all integers: nothing is in view outside the matrix.
  predicate InView(g: Grid, t: int, s: int) {
    0 <= t < |g.rows| && 0 <= s < g.nSat && g.rows[t][s]
  }

  ghost predicate Steady(g: Grid, s: int, lo: int, hi: int) {
    forall u :: lo <= u <= hi ==> InView(g, u, s)
  }

  ghost predicate MaximalRun(g: Grid, iv: Interval) {
    && iv.st <= iv.en
    && Steady(g, iv.sat, iv.st, iv.en)
    && !InView(g, iv.st - 1, iv.sat)
    && !InView(g, iv.en + 1, iv.sat)
  }

  predicate Covers(iv: Interval, t: int, s: int) {
    iv.sat == s && iv.st <= t <= iv.en
  }

  // ---------- specification of the extraction ----------

  // The runs of satellite s in the first n samples, in time order.
  function RunsTo(g: Grid, s: nat, n: nat): (r: seq<Interval>)
    requires n <= |g.rows|
    ensures InView(g, n - 1, s) ==> r != [] && r[|r| - 1].en == n - 1
  {
    if n == 0 then [] else
      var prev := RunsTo(g, s, n - 1);
      if !InView(g, n - 1, s) then prev
      else if InView(g, n - 2, s) then
        prev[..|prev| - 1] + [Interval(s, prev[|prev| - 1].st, n - 1)]
      else prev + [Interval(s, n - 1, n - 1)]
  }

  function IntervalsTo(g: Grid, m: nat): seq<Interval> {
    if m == 0 then [] else IntervalsTo(g, m - 1) + RunsTo(g, m - 1, |g.rows|)
  }

  function Intervals(g: Grid): seq<Interval> {
    IntervalsTo(g, g.nSat)
  }

  // ---------- the extraction itself ----------

  ghost function Opening(g: Grid, s: nat): seq<int> {
    if InView(g, 0, s) then [0] else []
  }

  // One start per run, one end per run that is already over.
  ghost predicate Matched(runs: seq<Interval>, s: int, starts: seq<int>, ends: seq<int>, running: bool) {
    && |starts| == |runs|
    && |ends| == |runs| - (if running then 1 else 0)
    && (forall k :: 0 <= k < |runs| ==> runs[k].sat == s && runs[k].st == starts[k])
    && (forall k :: 0 <= k < |ends| ==> runs[k].en == ends[k])
  }

  // Edges seen in the first n samples; a run open at sample 0 has no rising edge.
  ghost predicate Edges(g: Grid, s: nat, n: nat, starts: seq<int>, ends: seq<int>)
    requires n <= |g.rows|
  {
    Matched(RunsTo(g, s, n), s, Opening(g, s) + starts, ends, InView(g, n - 1, s))
  }

  lemma EdgesStep(g: Grid, s: nat, n: nat, starts: seq<int>, ends: seq<int>,
                  starts': seq<int>, ends': seq<int>)
    requires 0 < n < |g.rows| && Edges(g, s, n, starts, ends)
    requires starts' == if !InView(g, n - 1, s) && InView(g, n, s) then starts + [n] else starts
    requires ends' == if InView(g, n - 1, s) && !InView(g, n, s) then ends + [n - 1] else ends
    ensures Edges(g, s, n + 1, starts', ends')
  {
    var runs := RunsTo(g, s, n);
    RunsNext(g, s, n);
    if !InView(g, n - 1, s) && InView(g, n, s) {
      assert Opening(g, s) + starts' == Opening(g, s) + starts + [n];
    }
    MatchedStep(runs, s, Opening(g, s) + starts, ends, InView(g, n - 1, s), InView(g, n, s), n);
  }

  // The runs after one more sample: unchanged, the last one longer, or a new one.
  function NextRuns(runs: seq<Interval>, s: int, was: bool, isNow: bool, n: int): seq<Interval>
    requires was ==> runs != []
  {
    if !isNow then runs
    else if was then runs[..|runs| - 1] + [Interval(s, runs[|runs| - 1].st, n)]
    else runs + [Interval(s, n, n)]
  }

  lemma RunsNext(g: Grid, s: nat, n: nat)
    requires n < |g.rows|
    ensures InView(g, n - 1, s) ==> RunsTo(g, s, n) != [] && RunsTo(g, s, n)[|RunsTo(g, s, n)| - 1].en == n - 1
    ensures RunsTo(g, s, n + 1) == NextRuns(RunsTo(g, s, n), s, InView(g, n - 1, s), InView(g, n, s), n)
  {
  }

  lemma MatchedStep(runs: seq<Interval>, s: int, starts: seq<int>, ends: seq<int>, was: bool, isNow: bool, n: int)
    requires Matched(runs, s, starts, ends, was)
    requires was ==> runs != [] && runs[|runs| - 1].en == n - 1
    ensures Matched(NextRuns(runs, s, was, isNow, n), s,
                    if !was && isNow then starts + [n] else starts,
                    if was && !isNow then ends + [n - 1] else ends, isNow)
  {
  }

  lemma EdgesFirst(g: Grid, s: nat)
    requires 0 < |g.rows|
    ensures Edges(g, s, 1, [], [])
  {
    assert RunsTo(g, s, 0) == [];
  }

  // The edge scan: rising edges give starts, falling edges give ends.
  method EdgeScan(g: Grid, s: nat) returns (starts: seq<int>, ends: seq<int>)
    requires 0 < |g.rows|
    ensures Edges(g, s, |g.rows|, starts, ends)
  {
    starts, ends := [], [];
    EdgesFirst(g, s);
    for t := 1 to |g.rows|
      invariant Edges(g, s, t, starts, ends)
    {
      ghost var starts0, ends0 := starts, ends;
      if !InView(g, t - 1, s) && InView(g, t, s) {
        starts := starts + [t];
      }
      if InView(g, t - 1, s) && !InView(g, t, s) {
        ends := ends + [t - 1];
      }
      EdgesStep(g, s, t, starts0, ends0, starts, ends);
    }
  }

  // A run open at either border of the window gets its border sample.
  method EdgeLists(g: Grid, s: nat) returns (starts: seq<int>, ends: seq<int>)
    requires 0 < |g.rows|
    ensures |starts| == |ends| == |RunsTo(g, s, |g.rows|)|
    ensures forall k :: 0 <= k < |starts| ==>
      RunsTo(g, s, |g.rows|)[k] == Interval(s, starts[k], ends[k])
  {
    starts, ends := EdgeScan(g, s);
    ghost var all := Opening(g, s) + starts;
    if InView(g, 0, s) {
      starts := [0] + starts;
    }
    assert starts == all;
    RunsNext(g, s, |g.rows| - 1);
    if InView(g, |g.rows| - 1, s) {
      ends := ends + [|g.rows| - 1];
    }
  }

  // Starts and ends are zipped: the k-th start belongs to the k-th end.
  method ColumnRuns(g: Grid, s: nat) returns (runs: seq<Interval>)
    ensures runs == RunsTo(g, s, |g.rows|)
  {
    if !exists t :: 0 <= t < |g.rows| && InView(g, t, s) {
      NeverInView(g, s, |g.rows|);
      return [];
    }
    var starts, ends := EdgeLists(g, s);
    runs := [];
    for k := 0 to |starts|
      invariant |runs| == k
      invariant forall i :: 0 <= i < k ==> runs[i] == RunsTo(g, s, |g.rows|)[i]
    {
      runs := runs + [Interval(s, starts[k], ends[k])];
    }
  }

  method IntervalsFromInview(g: Grid) returns (ivs: seq<Interval>)
    ensures ivs == Intervals(g)
  {
    ivs := [];
    for s := 0 to g.nSat
      invariant ivs == IntervalsTo(g, s)
    {
      var runs := ColumnRuns(g, s);
      ivs := ivs + runs;
    }
  }

  // ---------- what the extraction means ----------

  lemma {:induction false} NeverInView(g: Grid, s: nat, n: nat)
    requires n <= |g.rows|
    requires forall t :: 0 <= t < n ==> !InView(g, t, s)
    ensures RunsTo(g, s, n) == []
  {
    if n > 0 {
      NeverInView(g, s, n - 1);
    }
  }

  // Run of the first n samples: maximal on the left, and on the right as far as n samples show.
  ghost predicate RunSoFar(g: Grid, s: nat, n: nat, iv: Interval) {
    && iv.sat == s && iv.st <= iv.en < n
    && Steady(g, s, iv.st, iv.en)
    && !InView(g, iv.st - 1, s)
    && (iv.en + 1 < n ==> !InView(g, iv.en + 1, s))
  }

  // Runs of the first n samples, in order and separated by a gap.
  ghost predicate Separated(runs: seq<Interval>) {
    forall k, l :: 0 <= k < l < |runs| ==> runs[k].en + 1 < runs[l].st
  }

  lemma {:induction false} RunsToSound(g: Grid, s: nat, n: nat)
    requires n <= |g.rows|
    ensures forall k :: 0 <= k < |RunsTo(g, s, n)| ==> RunSoFar(g, s, n, RunsTo(g, s, n)[k])
    ensures Separated(RunsTo(g, s, n))
  {
    if n > 0 {
      RunsToSound(g, s, n - 1);
      RunsNext(g, s, n - 1);
      SoundNext(g, s, n, RunsTo(g, s, n - 1));
    }
  }

  lemma SoundNext(g: Grid, s: nat, n: nat, prev: seq<Interval>)
    requires 0 < n <= |g.rows| && Separated(prev)
    requires forall k :: 0 <= k < |prev| ==> RunSoFar(g, s, n - 1, prev[k])
    requires InView(g, n - 2, s) ==> prev != [] && prev[|prev| - 1].en == n - 2
    ensures var now := NextRuns(prev, s, InView(g, n - 2, s), InView(g, n - 1, s), n - 1);
      Separated(now) && forall k :: 0 <= k < |now| ==> RunSoFar(g, s, n, now[k])
  {
    var now := NextRuns(prev, s, InView(g, n - 2, s), InView(g, n - 1, s), n - 1);
    forall k | 0 <= k < |now|
      ensures RunSoFar(g, s, n, now[k])
    {
      if k < |prev| {
        RunOneMore(g, s, n, prev, k);
      }
    }
    forall k, l | 0 <= k < l < |now|
      ensures now[k].en + 1 < now[l].st
    {
      if l < |prev| {
        assert prev[k].en + 1 < prev[l].st;
      } else {
        assert RunSoFar(g, s, n - 1, prev[k]);
      }
    }
  }

  // An earlier run is still maximal after one more sample, the last one possibly longer.
  lemma RunOneMore(g: Grid, s: nat, n: nat, prev: seq<Interval>, k: nat)
    requires 0 < n <= |g.rows| && k < |prev| && Separated(prev) && RunSoFar(g, s, n - 1, prev[k])
    requires RunSoFar(g, s, n - 1, prev[|prev| - 1])
    requires InView(g, n - 2, s) ==> prev[|prev| - 1].en == n - 2
    ensures RunSoFar(g, s, n, NextRuns(prev, s, InView(g, n - 2, s), InView(g, n - 1, s), n - 1)[k])
  {
    if k < |prev| - 1 {
      assert prev[k].en + 1 < prev[|prev| - 1].st;
    }
  }

  lemma {:induction false} RunsToComplete(g: Grid, s: nat, n: nat, t: nat) returns (k: nat)
    requires t < n <= |g.rows| && InView(g, t, s)
    ensures k < |RunsTo(g, s, n)| && Covers(RunsTo(g, s, n)[k], t, s)
  {
    RunsToSound(g, s, n);
    if t == n - 1 {
      k := |RunsTo(g, s, n)| - 1;
    } else {
      k := RunsToComplete(g, s, n - 1, t);
      RunsToSound(g, s, n - 1);
    }
  }

  // Two maximal runs of one satellite that touch or meet are the same run.
  lemma RunsOfOneSatDisjoint(g: Grid, x: Interval, y: Interval)
    requires MaximalRun(g, x) && MaximalRun(g, y) && x.sat == y.sat
    requires x.st <= y.en + 1 && y.st <= x.en + 1
    ensures x == y
  {
    assert !(x.st <= y.st - 1 <= x.en) && !(y.st <= x.st - 1 <= y.en);
    assert !(x.st <= y.en + 1 <= x.en) && !(y.st <= x.en + 1 <= y.en);
  }

  lemma {:induction false} IntervalsToMembers(g: Grid, m: nat, iv: Interval)
    requires m <= g.nSat
    ensures iv in IntervalsTo(g, m) <==> 0 <= iv.sat < m && MaximalRun(g, iv)
  {
    if m > 0 {
      IntervalsToMembers(g, m - 1, iv);
      var runs, n := RunsTo(g, m - 1, |g.rows|), |g.rows|;
      RunsToSound(g, m - 1, n);
      if iv.sat == m - 1 && MaximalRun(g, iv) {
        assert InView(g, iv.st, iv.sat);
        var k := RunsToComplete(g, m - 1, n, iv.st);
        assert RunSoFar(g, m - 1, n, runs[k]);
        RunsOfOneSatDisjoint(g, runs[k], iv);
      }
      if iv in runs {
        var k :| 0 <= k < |runs| && runs[k] == iv;
        assert RunSoFar(g, m - 1, n, runs[k]);
      }
    }
  }

  // The extracted list holds the maximal runs of the matrix and nothing else.
  lemma IntervalsExact(g: Grid)
    ensures forall iv :: iv in Intervals(g) <==> MaximalRun(g, iv)
  {
    forall iv
      ensures iv in Intervals(g) <==> MaximalRun(g, iv)
    {
      IntervalsToMembers(g, g.nSat, iv);
      if MaximalRun(g, iv) {
        assert InView(g, iv.st, iv.sat);
      }
    }
  }

  // Every in-view sample lies in one extracted run.
  lemma RunAt(g: Grid, t: nat, s: nat) returns (iv: Interval)
    requires InView(g, t, s)
    ensures MaximalRun(g, iv) && Covers(iv, t, s)
  {
    var k := RunsToComplete(g, s, |g.rows|, t);
    RunsToSound(g, s, |g.rows|);
    iv := RunsTo(g, s, |g.rows|)[k];
    assert RunSoFar(g, s, |g.rows|, iv);
  }

  // The matrix a list of intervals paints.
  ghost function Paint(ivs: seq<Interval>, nTime: nat, nSat: nat): Grid {
    Table(seq(nTime, t => seq(nSat, s => exists iv :: iv in ivs && Covers(iv, t, s))), nSat)
  }

  // Painting the extracted runs rebuilds the matrix, so extracting again gives the same list.
  lemma PaintRoundTrip(g: Grid)
    ensures Paint(Intervals(g), |g.rows|, g.nSat) == g
    ensures Intervals(Paint(Intervals(g), |g.rows|, g.nSat)) == Intervals(g)
  {
    IntervalsExact(g);
    var p := Paint(Intervals(g), |g.rows|, g.nSat);
    forall t, s | 0 <= t < |g.rows| && 0 <= s < g.nSat
      ensures p.rows[t][s] == g.rows[t][s]
    {
      if InView(g, t, s) {
        var iv := RunAt(g, t, s);
        assert iv in Intervals(g);
      }
    }
    forall t | 0 <= t < |g.rows|
      ensures p.rows[t] == g.rows[t]
    {
    }
    assert p.rows == g.rows;
  }
}
