// The sharded, chunked coverage kernel: one shard, the accumulators, the serial and parallel
// drivers, and their agreement with the monolithic result.
module Kernel {
  import opened Options
  import opened Visibility
  import opened ServingGraph
  import opened Gaps
  import opened Continuity
  import opened SatelliteSubset
  import opened Availability
  import opened Scenes
  import opened Shards

  // ---------- specification ----------

  // ks: the k levels; mbb: the handover requirement when continuity is analysed
  datatype Job = Job(ks: seq<int>, bounds: seq<(nat, nat)>, mbb: Option<Requirement>)

  // Everything accumulated for one cell; the last four mean nothing when continuity is off.
  datatype CellTotals = CellTotals(served: seq<int>, satSum: int,
                                   feasible: bool, worst: int, nhand: int, gap: int)

  // What the result arrays hold before any shard is applied.
  function Defaults(job: Job, nTime: nat): CellTotals {
    CellTotals(seq(|job.ks|, _ => 0), 0, false, -1, -1, nTime)
  }

  // One-shot totals of a cell from its full matrix, no shards and no chunks.
  function Totals(g: Grid, planes: seq<int>, job: Job): CellTotals {
    var served := seq(|job.ks|, x requires 0 <= x < |job.ks| => Served(g, job.ks[x], 0, |g.rows|));
    var base := Defaults(job, |g.rows|).(served := served, satSum := SatSum(g, 0, |g.rows|));
    if job.mbb.None? then base else
      var v := CellVerdict(g, planes, job.mbb.value);
      base.(feasible := v.feasible, worst := Sentinel(v.worst), nhand := Sentinel(v.handovers),
            gap := LongestDark(Lit(g)))
  }

  // Totals of a cell as its shard leaves them: computed from the satellites the shard keeps,
  // the defaults when it keeps none.
  function ShardTotals(sc: Scene, job: Job, sats: seq<nat>, c: nat): CellTotals
    requires sc.horizon.Some? ==> c < |sc.horizon.value| && sc.horizon.value[c] != []
    requires |sc.planes| == sc.nSat && forall i :: 0 <= i < |sats| ==> sats[i] < sc.nSat
  {
    if sats == [] then Defaults(job, sc.nTime)
    else Totals(Columns(sc.CellGrid(c), sats), PlanesKept(sc.planes, sats), job)
  }

  function Monolithic(sc: Scene, job: Job, c: nat): CellTotals
    requires sc.horizon.Some? ==> c < |sc.horizon.value| && sc.horizon.value[c] != []
  {
    Totals(sc.CellGrid(c), sc.planes, job)
  }

  // ---------- what the totals say of a cell ----------

  // The counts of a cell; a shard that keeps no satellite reports 0 for levels below 1 too.
  ghost predicate CountsMeasured(served: seq<int>, satSum: int, g: Grid, ks: seq<int>, empty: bool) {
    && |served| == |ks|
    && (forall x :: 0 <= x < |ks| ==>
          served[x] == if empty && ks[x] < 1 then 0 else |ServedSamples(g, ks[x], 0, |g.rows|)|)
    && satSum == |Sightings(g, 0, |g.rows|)|
  }

  // The four continuity values of a cell.
  ghost predicate ContinuityMeasured(t: CellTotals, g: Grid, planes: seq<int>, req: Requirement) {
    && VerdictMeasured(t.feasible, t.worst, t.nhand, g, planes, req.minOverlapSteps, req.diffPlane)
    && IsWorstGap(g, t.gap)
  }

  ghost predicate TotalsMeasured(t: CellTotals, g: Grid, planes: seq<int>, job: Job, empty: bool) {
    && CountsMeasured(t.served, t.satSum, g, job.ks, empty)
    && (job.mbb.Some? ==> ContinuityMeasured(t, g, planes, job.mbb.value))
  }

  lemma TotalsAreMeasured(g: Grid, planes: seq<int>, job: Job)
    ensures TotalsMeasured(Totals(g, planes, job), g, planes, job, false)
  {
    AllCountsExact([g], job.ks, |g.rows|);
    assert g == [g][0];
    if job.mbb.Some? {
      var t := Totals(g, planes, job);
      StoredIsMeasured(g, planes, job.mbb.value, t.feasible, t.worst, t.nhand);
      LongestDarkIsWorstGap(g);
    }
  }

  // Nothing in view: the defaults differ from the totals at most in the levels below 1.
  lemma DefaultsAreMeasured(g: Grid, planes: seq<int>, job: Job)
    requires forall t, s :: !InView(g, t, s)
    ensures TotalsMeasured(Defaults(job, |g.rows|), g, planes, job, true)
  {
    var t := Totals(g, planes, job);
    TotalsAreMeasured(g, planes, job);
    forall x | 0 <= x < |job.ks| && job.ks[x] >= 1
      ensures t.served[x] == 0
    {
      ServedUnseen(g, job.ks[x], 0, |g.rows|);
    }
    ServedUnseen(g, 1, 0, |g.rows|);
    if job.mbb.Some? {
      EmptyCell(g, planes, job.mbb.value);
    }
  }

  // Whatever the sharding, a shard's totals are measured on the cell's own full matrix.
  lemma ShardTotalsAreMeasured(sc: Scene, nCell: nat, job: Job, sharded: bool, cidx: seq<nat>, c: nat)
    requires sc.Valid(nCell) && sc.PrefilterSound(nCell) && c in cidx && c < nCell
    ensures TotalsMeasured(ShardTotals(sc, job, sc.ShardSats(sharded, cidx), c), sc.CellGrid(c), sc.planes, job,
                           sc.ShardSats(sharded, cidx) == [])
  {
    var g, sats := sc.CellGrid(c), sc.ShardSats(sharded, cidx);
    sc.ShardKeepsSeen(nCell, sharded, cidx, c);
    if sats != [] {
      KeptTotals(g, sc.planes, sats, job);
      TotalsAreMeasured(g, sc.planes, job);
    } else {
      assert forall t, s :: !InView(g, t, s);
      DefaultsAreMeasured(g, sc.planes, job);
    }
  }

  // ---------- sharded equals monolithic ----------

  lemma RunsAreSeen(g: Grid)
    requires Intervals(g) != []
    ensures exists t, s :: InView(g, t, s)
  {
    IntervalsExact(g);
    var iv := Intervals(g)[0];
    assert iv in Intervals(g);
    assert InView(g, iv.st, iv.sat);
  }

  lemma EmptyCell(g: Grid, planes: seq<int>, req: Requirement)
    requires forall t, s :: !InView(g, t, s)
    ensures CellVerdict(g, planes, req) == NO_PATH && LongestDark(Lit(g)) == |g.rows|
  {
    if Intervals(g) != [] {
      RunsAreSeen(g);
    }
    DarkIfNoRuns(g);
  }

  // For an arbitrary shard the per-cell outputs are exactly the monolithic ones, unless the shard
  // keeps no satellite and some requested level k is below 1: the default count 0 is then wrong.
  lemma ShardedEqualsMonolithic(sc: Scene, nCell: nat, job: Job, sharded: bool, cidx: seq<nat>, c: nat)
    requires sc.Valid(nCell) && sc.PrefilterSound(nCell) && sc.nTime > 0
    requires c in cidx && c < nCell
    ensures ShardTotals(sc, job, sc.ShardSats(sharded, cidx), c) == Monolithic(sc, job, c)
       <==> sc.ShardSats(sharded, cidx) != [] || forall k :: k in job.ks ==> k >= 1
  {
    var g, sats := sc.CellGrid(c), sc.ShardSats(sharded, cidx);
    sc.ShardKeepsSeen(nCell, sharded, cidx, c);
    if sats != [] {
      KeptTotals(g, sc.planes, sats, job);
    } else {
      assert forall t, s :: !InView(g, t, s);
      UnseenTotals(g, sc.planes, job);
    }
  }

  lemma KeptTotals(g: Grid, planes: seq<int>, sats: seq<nat>, job: Job)
    requires KeepsSeen(g, sats) && |planes| == g.nSat
    ensures Totals(Columns(g, sats), PlanesKept(planes, sats), job) == Totals(g, planes, job)
  {
    forall x | 0 <= x < |job.ks|
      ensures Served(Columns(g, sats), job.ks[x], 0, |g.rows|) == Served(g, job.ks[x], 0, |g.rows|)
    {
      ServedKept(g, sats, job.ks[x], 0, |g.rows|);
    }
    ServedKept(g, sats, 1, 0, |g.rows|);
    if job.mbb.Some? {
      UnseenSatellitesDroppable(g, planes, sats, job.mbb.value);
    }
  }

  lemma UnseenTotals(g: Grid, planes: seq<int>, job: Job)
    requires |g.rows| > 0 && forall t, s :: !InView(g, t, s)
    ensures Totals(g, planes, job) == Defaults(job, |g.rows|) <==> forall k :: k in job.ks ==> k >= 1
  {
    var n := |g.rows|;
    forall x | 0 <= x < |job.ks|
      ensures Served(g, job.ks[x], 0, n) == if job.ks[x] >= 1 then 0 else n
    {
      ServedUnseen(g, job.ks[x], 0, n);
    }
    ServedUnseen(g, 1, 0, n);
    if job.mbb.Some? {
      EmptyCell(g, planes, job.mbb.value);
    }
    var served, zeros := Totals(g, planes, job).served, Defaults(job, n).served;
    if k :| k in job.ks && k < 1 {
      var x :| 0 <= x < |job.ks| && job.ks[x] == k;
      assert served[x] != zeros[x];
    } else {
      assert forall x :: 0 <= x < |job.ks| ==> job.ks[x] in job.ks;
      assert served == zeros;
    }
  }

  // One satellite below the horizon of one cell and near none, over one sample.
  function NothingNear(): Scene {
    Scene(1, 1, [0], 25.0, (_, _, _) => -90.0, (_, _, _) => 0.0, None, (_, _, _) => false)
  }

  // A cell of an empty shard reports nothing served at k = 0, where the monolithic run reports all.
  lemma EmptyShardMiscounts()
    ensures var sc := NothingNear();
      sc.Valid(1) && sc.PrefilterSound(1) && sc.ShardSats(true, [0]) == []
    ensures var (sc, job) := (NothingNear(), Job([0], [(0, 1)], None));
      ShardTotals(sc, job, sc.ShardSats(true, [0]), 0).served == [0] && Monolithic(sc, job, 0).served == [1]
  {
    var sc := NothingNear();
    NothingInView();
    assert sc.RelevantTo([0], 0) == [];
    ServedUnseen(sc.CellGrid(0), 0, 0, 1);
  }

  lemma NothingInView()
    ensures NothingNear().Valid(1) && forall t, s :: !InView(NothingNear().CellGrid(0), t, s)
  {
    var sc := NothingNear();
    forall t: nat, s: nat
      ensures sc.elev(0, t, s) < sc.MinElevation(0, t, s)
    {
    }
    forall t, s
      ensures !InView(sc.CellGrid(0), t, s)
    {
    }
  }

  // ---------- one shard ----------

  // The accumulator slices of a shard; mbb rows only when continuity is analysed.
  datatype MbbRows = MbbRows(feasible: seq<bool>, worst: seq<int>, nhand: seq<int>, gap: seq<int>)

  datatype ShardOut = ShardOut(serviceable: seq<seq<int>>, satSum: seq<int>, mbb: Option<MbbRows>) {

    ghost predicate Shaped(nK: nat, n: nat) {
      && |serviceable| == nK && (forall x :: 0 <= x < nK ==> |serviceable[x]| == n)
      && |satSum| == n
      && (mbb.Some? ==> |mbb.value.feasible| == |mbb.value.worst| == |mbb.value.nhand| == |mbb.value.gap| == n)
    }
  }

  // Entry i of a shard result.
  function Row(r: ShardOut, i: nat): CellTotals
    requires i < |r.satSum| && r.Shaped(|r.serviceable|, |r.satSum|)
  {
    var served := seq(|r.serviceable|, x requires 0 <= x < |r.serviceable| => r.serviceable[x][i]);
    if r.mbb.None? then CellTotals(served, r.satSum[i], false, -1, -1, 0)
    else CellTotals(served, r.satSum[i], r.mbb.value.feasible[i], r.mbb.value.worst[i],
                    r.mbb.value.nhand[i], r.mbb.value.gap[i])
  }

  // Entry i of a shard result carries these totals.
  ghost predicate Carries(r: ShardOut, i: nat, totals: CellTotals) {
    && r.Shaped(|r.serviceable|, |r.satSum|) && i < |r.satSum|
    && var row := Row(r, i);
       row == if r.mbb.Some? then totals
              else totals.(feasible := row.feasible, worst := row.worst, nhand := row.nhand, gap := row.gap)
  }

  // The result of one shard, as a statement about its cells.
  ghost predicate ShardRight(sc: Scene, nCell: nat, job: Job, sharded: bool, cidx: seq<nat>, r: Option<ShardOut>)
    requires sc.Valid(nCell) && forall i :: 0 <= i < |cidx| ==> cidx[i] < nCell
  {
    var sats := sc.ShardSats(sharded, cidx);
    && (r.None? <==> sats == [])
    && (r.Some? ==>
          && r.value.Shaped(|job.ks|, |cidx|)
          && (r.value.mbb.Some? <==> job.mbb.Some?)
          && forall i :: 0 <= i < |cidx| ==> Carries(r.value, i, ShardTotals(sc, job, sats, cidx[i])))
  }

  // Each row of a shard result is measured on its cell's own full matrix.
  ghost predicate RowsMeasured(sc: Scene, nCell: nat, job: Job, cidx: seq<nat>, out: ShardOut)
    requires sc.Valid(nCell) && forall i :: 0 <= i < |cidx| ==> cidx[i] < nCell
  {
    && out.Shaped(|job.ks|, |cidx|) && (out.mbb.Some? <==> job.mbb.Some?)
    && forall i :: 0 <= i < |cidx| ==> TotalsMeasured(Row(out, i), sc.CellGrid(cidx[i]), sc.planes, job, false)
  }

  lemma CarriesMeasured(sc: Scene, nCell: nat, job: Job, sharded: bool, cidx: seq<nat>, out: ShardOut)
    requires sc.Valid(nCell) && sc.PrefilterSound(nCell) && forall i :: 0 <= i < |cidx| ==> cidx[i] < nCell
    requires ShardRight(sc, nCell, job, sharded, cidx, Some(out))
    ensures RowsMeasured(sc, nCell, job, cidx, out)
  {
    forall i | 0 <= i < |cidx|
      ensures TotalsMeasured(Row(out, i), sc.CellGrid(cidx[i]), sc.planes, job, false)
    {
      ShardTotalsAreMeasured(sc, nCell, job, sharded, cidx, cidx[i]);
      assert Carries(out, i, ShardTotals(sc, job, sc.ShardSats(sharded, cidx), cidx[i]));
    }
  }

  // The in-view rows of a shard's cells over the satellites it keeps.
  function ShardGrids(sc: Scene, nCell: nat, cidx: seq<nat>, sats: seq<nat>): (grids: seq<Grid>)
    requires sc.horizon.Some? ==> |sc.horizon.value| == nCell
    requires sc.horizon.Some? ==> forall c :: 0 <= c < nCell ==> sc.horizon.value[c] != []
    requires forall i :: 0 <= i < |cidx| ==> cidx[i] < nCell
    requires forall i :: 0 <= i < |sats| ==> sats[i] < sc.nSat
  {
    seq(|cidx|, i requires 0 <= i < |cidx| => Columns(sc.CellGrid(cidx[i]), sats))
  }

  // Accumulates chunk by chunk into per-shard counters, and copies each chunk of the in-view
  // cube into the retained time series.
  method AccumulateChunks(grids: seq<Grid>, nTime: nat, nSat: nat, job: Job)
    returns (served: array2<int>, sums: array<int>, inview: array3<bool>)
    requires Tiles(job.bounds, 0, nTime)
    requires forall i :: 0 <= i < |grids| ==> |grids[i].rows| == nTime && grids[i].nSat == nSat
    ensures served.Length0 == |job.ks| && served.Length1 == sums.Length == |grids|
    ensures forall x, i :: 0 <= x < |job.ks| && 0 <= i < |grids| ==>
      served[x, i] == Served(grids[i], job.ks[x], 0, nTime)
    ensures forall i :: 0 <= i < |grids| ==> sums[i] == SatSum(grids[i], 0, nTime)
    ensures forall x, i :: 0 <= x < |job.ks| && 0 <= i < |grids| ==>
      served[x, i] == |ServedSamples(grids[i], job.ks[x], 0, nTime)|
    ensures forall i :: 0 <= i < |grids| ==> sums[i] == |Sightings(grids[i], 0, nTime)|
    ensures inview.Length0 == |grids| && inview.Length1 == nTime && inview.Length2 == nSat
    ensures forall i, t, s :: 0 <= i < |grids| && 0 <= t < nTime && 0 <= s < nSat ==>
      inview[i, t, s] == InView(grids[i], t, s)
  {
    served := new int[|job.ks|, |grids|]((_, _) => 0);
    sums := new int[|grids|](_ => 0);
    inview := new bool[|grids|, nTime, nSat]((_, _, _) => false);
    ghost var done: nat := 0;
    for n := 0 to |job.bounds|
      invariant done <= nTime && Tiles(job.bounds[n..], done, nTime)
      invariant forall x, i :: 0 <= x < |job.ks| && 0 <= i < |grids| ==>
        served[x, i] == Served(grids[i], job.ks[x], 0, done)
      invariant forall i :: 0 <= i < |grids| ==> sums[i] == SatSum(grids[i], 0, done)
      invariant forall i, t, s :: 0 <= i < |grids| && 0 <= t < done && 0 <= s < nSat ==>
        inview[i, t, s] == InView(grids[i], t, s)
    {
      var (a, b) := job.bounds[n];
      assert job.bounds[n..][0] == (a, b) && job.bounds[n..][1..] == job.bounds[n + 1..];
      TilesBound(job.bounds[n..], done, nTime);
      forall x, i | 0 <= x < |job.ks| && 0 <= i < |grids|
        ensures Served(grids[i], job.ks[x], 0, b) == served[x, i] + Served(grids[i], job.ks[x], a, b)
      {
        ServedSplits(grids[i], job.ks[x], 0, a, b);
      }
      forall i | 0 <= i < |grids|
        ensures SatSum(grids[i], 0, b) == sums[i] + SatSum(grids[i], a, b)
      {
        ServedSplits(grids[i], 1, 0, a, b);
      }
      forall x, i | 0 <= x < |job.ks| && 0 <= i < |grids| {
        served[x, i] := served[x, i] + Served(grids[i], job.ks[x], a, b);
      }
      forall i | 0 <= i < |grids| {
        sums[i] := sums[i] + SatSum(grids[i], a, b);
      }
      forall i, t, s | 0 <= i < |grids| && a <= t < b && 0 <= s < nSat {
        inview[i, t, s] := InView(grids[i], t, s);
      }
      done := b;
    }
    AllCountsExact(grids, job.ks, nTime);
  }

  lemma AllCountsExact(grids: seq<Grid>, ks: seq<int>, nTime: nat)
    ensures forall x, i :: 0 <= x < |ks| && 0 <= i < |grids| ==>
      Served(grids[i], ks[x], 0, nTime) == |ServedSamples(grids[i], ks[x], 0, nTime)|
    ensures forall i :: 0 <= i < |grids| ==> SatSum(grids[i], 0, nTime) == |Sightings(grids[i], 0, nTime)|
  {
    forall x, i | 0 <= x < |ks| && 0 <= i < |grids|
      ensures Served(grids[i], ks[x], 0, nTime) == |ServedSamples(grids[i], ks[x], 0, nTime)|
    {
      ServedExact(grids[i], ks[x], 0, nTime);
    }
    forall i | 0 <= i < |grids|
      ensures SatSum(grids[i], 0, nTime) == |Sightings(grids[i], 0, nTime)|
    {
      SatSumExact(grids[i], 0, nTime);
    }
  }

  lemma TilesBound(bounds: seq<(nat, nat)>, a: nat, b: nat)
    requires Tiles(bounds, a, b)
    ensures a <= b
  {
  }

  // The retained time series of cell i, read back as a matrix.
  function BufferGrid(inview: array3<bool>, i: nat): Grid
    requires i < inview.Length0
    reads inview
  {
    Table(seq(inview.Length1, t requires 0 <= t < inview.Length1 reads inview =>
                seq(inview.Length2, s requires 0 <= s < inview.Length2 reads inview => inview[i, t, s])),
          inview.Length2)
  }

  // The continuity rows of a shard, over its retained time series.
  method ContinuityRows(grids: seq<Grid>, planes: seq<int>, req: Requirement, nTime: nat, nSat: nat,
                        inview: array3<bool>)
    returns (rows: MbbRows)
    requires |planes| == nSat
    requires forall i :: 0 <= i < |grids| ==> |grids[i].rows| == nTime && grids[i].nSat == nSat
    requires inview.Length0 == |grids| && inview.Length1 == nTime && inview.Length2 == nSat
    requires forall i, t, s :: 0 <= i < |grids| && 0 <= t < nTime && 0 <= s < nSat ==>
      inview[i, t, s] == InView(grids[i], t, s)
    ensures |rows.feasible| == |rows.worst| == |rows.nhand| == |rows.gap| == |grids|
    ensures forall i :: 0 <= i < |grids| ==>
      && Stored(CellVerdict(grids[i], planes, req), rows.feasible[i], rows.worst[i], rows.nhand[i])
      && rows.gap[i] == LongestDark(Lit(grids[i]))
  {
    var cells: seq<Grid> := [];
    for i := 0 to |grids|
      invariant |cells| == i && forall x :: 0 <= x < i ==> cells[x] == grids[x]
    {
      var cell := BufferGrid(inview, i);
      SameView(cell, grids[i]);
      cells := cells + [cell];
    }
    assert cells == grids;
    var feasible, worst, nhand, gaps := ContinuityMap(cells, req.minOverlapSteps, req.diffSat, Some(planes), Some(req));
    rows := MbbRows(feasible[..], worst[..], nhand[..], gaps.value[..]);
  }

  lemma SameView(g: Grid, g': Grid)
    requires |g.rows| == |g'.rows| && g.nSat == g'.nSat
    requires forall t, s :: 0 <= t < |g.rows| && 0 <= s < g.nSat ==> InView(g, t, s) == InView(g', t, s)
    ensures g == g'
  {
    forall t | 0 <= t < |g.rows|
      ensures g.rows[t] == g'.rows[t]
    {
      forall s | 0 <= s < g.nSat
        ensures g.rows[t][s] == g'.rows[t][s]
      {
        assert InView(g, t, s) == InView(g', t, s);
      }
    }
  }

  // A result whose entries are the served counts, sums and verdicts of the grids carries their totals.
  lemma OutCarries(out: ShardOut, grids: seq<Grid>, planes: seq<int>, job: Job, nTime: nat)
    requires out.Shaped(|job.ks|, |grids|) && (out.mbb.Some? <==> job.mbb.Some?)
    requires forall i :: 0 <= i < |grids| ==> |grids[i].rows| == nTime
    requires forall x, i :: 0 <= x < |job.ks| && 0 <= i < |grids| ==>
      out.serviceable[x][i] == Served(grids[i], job.ks[x], 0, nTime)
    requires forall i :: 0 <= i < |grids| ==> out.satSum[i] == SatSum(grids[i], 0, nTime)
    requires job.mbb.Some? ==> forall i :: 0 <= i < |grids| ==>
      && Stored(CellVerdict(grids[i], planes, job.mbb.value), out.mbb.value.feasible[i],
                out.mbb.value.worst[i], out.mbb.value.nhand[i])
      && out.mbb.value.gap[i] == LongestDark(Lit(grids[i]))
    ensures forall i :: 0 <= i < |grids| ==> Carries(out, i, Totals(grids[i], planes, job))
  {
  }

  // The rows of a shard over the satellites it keeps.
  method ComputeRows(sc: Scene, nCell: nat, job: Job, cidx: seq<nat>, sats: seq<nat>) returns (out: ShardOut)
    requires sc.Valid(nCell) && Tiles(job.bounds, 0, sc.nTime)
    requires forall i :: 0 <= i < |cidx| ==> cidx[i] < nCell
    requires sats != [] && forall i :: 0 <= i < |sats| ==> sats[i] < sc.nSat
    ensures out.Shaped(|job.ks|, |cidx|) && (out.mbb.Some? <==> job.mbb.Some?)
    ensures forall i :: 0 <= i < |cidx| ==> Carries(out, i, ShardTotals(sc, job, sats, cidx[i]))
  {
    var grids, planes := ShardGrids(sc, nCell, cidx, sats), PlanesKept(sc.planes, sats);
    var served, sums, inview := AccumulateChunks(grids, sc.nTime, |sats|, job);
    var mbb := None;
    if job.mbb.Some? {
      var rows := ContinuityRows(grids, planes, job.mbb.value, sc.nTime, |sats|, inview);
      mbb := Some(rows);
    }
    out := ShardOut(Matrix(served), sums[..], mbb);
    OutCarries(out, grids, planes, job, sc.nTime);
    forall i | 0 <= i < |cidx|
      ensures Carries(out, i, ShardTotals(sc, job, sats, cidx[i]))
    {
      assert ShardTotals(sc, job, sats, cidx[i]) == Totals(grids[i], planes, job);
    }
  }

  // One shard of the kernel; None when the pre-filter leaves it no satellite.
  method ComputeShard(sc: Scene, nCell: nat, job: Job, sharded: bool, cidx: seq<nat>)
    returns (r: Option<ShardOut>)
    requires sc.Valid(nCell) && Tiles(job.bounds, 0, sc.nTime)
    requires forall i :: 0 <= i < |cidx| ==> cidx[i] < nCell
    ensures ShardRight(sc, nCell, job, sharded, cidx, r)
    ensures r.Some? && sc.PrefilterSound(nCell) ==> RowsMeasured(sc, nCell, job, cidx, r.value)
  {
    var sats := sc.ShardSats(sharded, cidx);
    if sats == [] {
      return None;
    }
    var out := ComputeRows(sc, nCell, job, cidx, sats);
    r := Some(out);
    if sc.PrefilterSound(nCell) {
      CarriesMeasured(sc, nCell, job, sharded, cidx, out);
    }
  }

  function Matrix(a: array2<int>): seq<seq<int>>
    reads a
  {
    seq(a.Length0, x requires 0 <= x < a.Length0 reads a =>
          seq(a.Length1, i requires 0 <= i < a.Length1 reads a => a[x, i]))
  }

  // ---------- the accumulators ----------

  // A shard's totals added into a cell: counts accumulate, continuity results are assigned.
  function Plus(cell: CellTotals, shard: CellTotals, doMbb: bool): CellTotals
    requires |cell.served| == |shard.served|
  {
    var served := seq(|cell.served|, x requires 0 <= x < |cell.served| => cell.served[x] + shard.served[x]);
    var sum := cell.(served := served, satSum := cell.satSum + shard.satSum);
    if doMbb then
      sum.(feasible := shard.feasible, worst := shard.worst, nhand := shard.nhand, gap := shard.gap)
    else sum
  }

  class Accumulators {
    const job: Job
    const nCell: nat
    const serviceable: array2<int>
    const satSum: array<int>
    const feasible: array<bool>
    const worst: array<int>
    const nhand: array<int>
    const gap: array<int>

    ghost function Repr(): set<object> {
      {serviceable, satSum, feasible, worst, nhand, gap}
    }

    ghost predicate Valid() {
      && serviceable.Length0 == |job.ks| && serviceable.Length1 == nCell
      && satSum.Length == feasible.Length == worst.Length == nhand.Length == gap.Length == nCell
      && satSum != worst && satSum != nhand && satSum != gap
      && worst != nhand && worst != gap && nhand != gap
    }

    constructor (job: Job, nCell: nat, nTime: nat)
      ensures Valid() && fresh(Repr()) && this.job == job && this.nCell == nCell
      ensures forall c: nat :: c < nCell ==> Cell(c) == Defaults(job, nTime)
    {
      this.job, this.nCell := job, nCell;
      serviceable := new int[|job.ks|, nCell]((_, _) => 0);
      satSum := new int[nCell](_ => 0);
      feasible := new bool[nCell](_ => false);
      worst := new int[nCell](_ => -1);
      nhand := new int[nCell](_ => -1);
      gap := new int[nCell](_ => nTime);
    }

    // What the arrays hold for cell c.
    function Cell(c: nat): CellTotals
      requires Valid() && c < nCell
      reads Repr()
    {
      CellTotals(seq(|job.ks|, x requires 0 <= x < |job.ks| reads Repr() => serviceable[x, c]),
                 satSum[c], feasible[c], worst[c], nhand[c], gap[c])
    }

    // serviceable[k][cidx] += ..., sat_sum[cidx] += ...
    method AddCounts(cidx: seq<nat>, counts: seq<seq<int>>, sums: seq<int>)
      requires Valid() && Distinct(cidx) && forall i :: 0 <= i < |cidx| ==> cidx[i] < nCell
      requires |counts| == |job.ks| && |sums| == |cidx| && forall x :: 0 <= x < |counts| ==> |counts[x]| == |cidx|
      modifies serviceable, satSum
      ensures forall x, i :: 0 <= x < |job.ks| && 0 <= i < |cidx| ==>
        serviceable[x, cidx[i]] == old(serviceable[x, cidx[i]]) + counts[x][i]
      ensures forall i :: 0 <= i < |cidx| ==> satSum[cidx[i]] == old(satSum[cidx[i]]) + sums[i]
      ensures forall x, c: nat :: 0 <= x < |job.ks| && c < nCell && c !in cidx ==>
        serviceable[x, c] == old(serviceable[x, c])
      ensures forall c: nat :: c < nCell && c !in cidx ==> satSum[c] == old(satSum[c])
    {
      forall x, i | 0 <= x < |job.ks| && 0 <= i < |cidx| {
        serviceable[x, cidx[i]] := serviceable[x, cidx[i]] + counts[x][i];
      }
      forall i | 0 <= i < |cidx| {
        satSum[cidx[i]] := satSum[cidx[i]] + sums[i];
      }
    }

    // a[cidx] = values
    static method Assign<T>(a: array<T>, cidx: seq<nat>, values: seq<T>)
      requires Distinct(cidx) && |values| == |cidx| && forall i :: 0 <= i < |cidx| ==> cidx[i] < a.Length
      modifies a
      ensures forall i :: 0 <= i < |cidx| ==> a[cidx[i]] == values[i]
      ensures forall c: nat :: c < a.Length && c !in cidx ==> a[c] == old(a[c])
    {
      forall i | 0 <= i < |cidx| {
        a[cidx[i]] := values[i];
      }
    }

    // The four continuity arrays take the shard's rows.
    method AssignRows(cidx: seq<nat>, rows: MbbRows)
      requires Valid() && Distinct(cidx) && forall i :: 0 <= i < |cidx| ==> cidx[i] < nCell
      requires |rows.feasible| == |rows.worst| == |rows.nhand| == |rows.gap| == |cidx|
      modifies feasible, worst, nhand, gap
      ensures forall i :: 0 <= i < |cidx| ==>
        && feasible[cidx[i]] == rows.feasible[i] && worst[cidx[i]] == rows.worst[i]
        && nhand[cidx[i]] == rows.nhand[i] && gap[cidx[i]] == rows.gap[i]
      ensures forall c: nat :: c < nCell && c !in cidx ==>
        && feasible[c] == old(feasible[c]) && worst[c] == old(worst[c])
        && nhand[c] == old(nhand[c]) && gap[c] == old(gap[c])
    {
      Assign(feasible, cidx, rows.feasible);
      Assign(worst, cidx, rows.worst);
      Assign(nhand, cidx, rows.nhand);
      Assign(gap, cidx, rows.gap);
    }

    // A shard without satellites changes nothing; otherwise its rows go to its own cells.
    method Apply(cidx: seq<nat>, r: Option<ShardOut>)
      requires Valid() && Distinct(cidx) && forall i :: 0 <= i < |cidx| ==> cidx[i] < nCell
      requires r.Some? ==> r.value.Shaped(|job.ks|, |cidx|) && (r.value.mbb.Some? <==> job.mbb.Some?)
      modifies Repr()
      ensures forall c: nat :: c < nCell && (r.None? || c !in cidx) ==> Cell(c) == old(Cell(c))
      ensures r.Some? ==> forall i :: 0 <= i < |cidx| ==>
        Cell(cidx[i]) == Plus(old(Cell(cidx[i])), Row(r.value, i), job.mbb.Some?)
    {
      if r.Some? {
        AddCounts(cidx, r.value.serviceable, r.value.satSum);
        if job.mbb.Some? {
          AssignRows(cidx, r.value.mbb.value);
        }
      }
    }
  }

  // ---------- the drivers ----------

  lemma ShardInRange(shards: seq<seq<nat>>, nCell: nat, x: nat)
    requires Partition(shards, nCell) && x < |shards|
    ensures forall i :: 0 <= i < |shards[x]| ==> shards[x][i] < nCell
  {
    forall i | 0 <= i < |shards[x]|
      ensures shards[x][i] < nCell
    {
      assert Owns(shards, x, shards[x][i]);
    }
  }

  // Cells of the shards in done hold their totals, the others still the defaults.
  ghost predicate Progress(acc: Accumulators, sc: Scene, sharded: bool, shards: seq<seq<nat>>, done: seq<nat>)
    requires acc.Valid() && sc.Valid(acc.nCell) && Partition(shards, acc.nCell)
    reads acc.Repr()
  {
    forall x: nat, c: nat :: Owns(shards, x, c) ==>
      acc.Cell(c) == if x in done then ShardTotals(sc, acc.job, sc.ShardSats(sharded, shards[x]), c)
                     else Defaults(acc.job, sc.nTime)
  }

  // Every cell holds the totals of its shard.
  ghost predicate Complete(acc: Accumulators, sc: Scene, sharded: bool, shards: seq<seq<nat>>)
    requires acc.Valid() && sc.Valid(acc.nCell) && Partition(shards, acc.nCell)
    reads acc.Repr()
  {
    forall x: nat, c: nat :: Owns(shards, x, c) ==>
      acc.Cell(c) == ShardTotals(sc, acc.job, sc.ShardSats(sharded, shards[x]), c)
  }

  lemma PlusDefaults(sc: Scene, nCell: nat, job: Job, sharded: bool, cidx: seq<nat>, r: Option<ShardOut>, i: nat)
    requires sc.Valid(nCell) && forall j :: 0 <= j < |cidx| ==> cidx[j] < nCell
    requires ShardRight(sc, nCell, job, sharded, cidx, r) && i < |cidx|
    ensures var total := ShardTotals(sc, job, sc.ShardSats(sharded, cidx), cidx[i]);
      if r.None? then total == Defaults(job, sc.nTime)
      else Plus(Defaults(job, sc.nTime), Row(r.value, i), job.mbb.Some?) == total
  {
    if r.Some? {
      assert Carries(r.value, i, ShardTotals(sc, job, sc.ShardSats(sharded, cidx), cidx[i]));
    }
  }

  // Applying one more shard, whichever it is.
  method ApplyShard(acc: Accumulators, sc: Scene, sharded: bool, shards: seq<seq<nat>>,
                    x: nat, r: Option<ShardOut>, ghost done: seq<nat>)
    requires acc.Valid() && sc.Valid(acc.nCell) && Partition(shards, acc.nCell)
    requires x < |shards| && x !in done && Progress(acc, sc, sharded, shards, done)
    requires forall i :: 0 <= i < |shards[x]| ==> shards[x][i] < acc.nCell
    requires ShardRight(sc, acc.nCell, acc.job, sharded, shards[x], r)
    modifies acc.Repr()
    ensures Progress(acc, sc, sharded, shards, done + [x])
  {
    var cidx := shards[x];
    acc.Apply(cidx, r);
    forall y: nat, c: nat | Owns(shards, y, c)
      ensures acc.Cell(c) == if y in done + [x] then ShardTotals(sc, acc.job, sc.ShardSats(sharded, shards[y]), c)
                             else Defaults(acc.job, sc.nTime)
    {
      if y == x {
        var i :| 0 <= i < |cidx| && cidx[i] == c;
        PlusDefaults(sc, acc.nCell, acc.job, sharded, cidx, r, i);
      } else {
        assert !Owns(shards, x, c);
      }
    }
  }

  // One turn of the serial driver: compute a shard, apply it.
  method ComputeAndApply(acc: Accumulators, sc: Scene, sharded: bool, shards: seq<seq<nat>>, x: nat,
                         ghost done: seq<nat>)
    requires acc.Valid() && sc.Valid(acc.nCell) && Partition(shards, acc.nCell) && Tiles(acc.job.bounds, 0, sc.nTime)
    requires x < |shards| && x !in done && Progress(acc, sc, sharded, shards, done)
    modifies acc.Repr()
    ensures Progress(acc, sc, sharded, shards, done + [x])
  {
    ShardInRange(shards, acc.nCell, x);
    var r := ComputeShard(sc, acc.nCell, acc.job, sharded, shards[x]);
    ApplyShard(acc, sc, sharded, shards, x, r, done);
  }

  // Shards computed and applied one after the other.
  method RunSerial(sc: Scene, nCell: nat, job: Job, sharded: bool, shards: seq<seq<nat>>)
    returns (acc: Accumulators)
    requires sc.Valid(nCell) && Partition(shards, nCell) && Tiles(job.bounds, 0, sc.nTime)
    ensures acc.Valid() && acc.nCell == nCell && acc.job == job && fresh(acc.Repr())
    ensures Complete(acc, sc, sharded, shards)
  {
    acc := new Accumulators(job, nCell, sc.nTime);
    for x := 0 to |shards|
      invariant acc.Valid() && acc.nCell == nCell && acc.job == job && fresh(acc.Repr())
      invariant Progress(acc, sc, sharded, shards, Range(x))
    {
      ComputeAndApply(acc, sc, sharded, shards, x, Range(x));
    }
  }

  ghost predicate Permutation(order: seq<nat>, n: nat) {
    Distinct(order) && forall x: nat :: x in order <==> x < n
  }

  // Worker results, arriving in any completion order.
  method ComputeAll(sc: Scene, nCell: nat, job: Job, sharded: bool, shards: seq<seq<nat>>, completion: seq<nat>)
    returns (results: map<nat, Option<ShardOut>>)
    requires sc.Valid(nCell) && Partition(shards, nCell) && Tiles(job.bounds, 0, sc.nTime)
    requires Permutation(completion, |shards|)
    ensures forall x: nat :: x < |shards| ==> x in results
    ensures forall x: nat :: x < |shards| ==>
      (forall i :: 0 <= i < |shards[x]| ==> shards[x][i] < nCell)
      && ShardRight(sc, nCell, job, sharded, shards[x], results[x])
  {
    forall x: nat | x < |shards|
      ensures forall i :: 0 <= i < |shards[x]| ==> shards[x][i] < nCell
    {
      ShardInRange(shards, nCell, x);
    }
    results := map[];
    for n := 0 to |completion|
      invariant forall x :: x in completion[..n] ==> x in results
      invariant forall x :: x in results ==> x < |shards|
      invariant forall x :: x in results ==> ShardRight(sc, nCell, job, sharded, shards[x], results[x])
    {
      var x := completion[n];
      assert x in completion;
      var r := ComputeShard(sc, nCell, job, sharded, shards[x]);
      results := results[x := r];
    }
    assert completion[..|completion|] == completion;
  }

  // Shards computed in any completion order, then applied in any order.
  method RunParallel(sc: Scene, nCell: nat, job: Job, sharded: bool, shards: seq<seq<nat>>,
                     completion: seq<nat>, order: seq<nat>)
    returns (acc: Accumulators)
    requires sc.Valid(nCell) && Partition(shards, nCell) && Tiles(job.bounds, 0, sc.nTime)
    requires Permutation(completion, |shards|) && Permutation(order, |shards|)
    ensures acc.Valid() && acc.nCell == nCell && acc.job == job && fresh(acc.Repr())
    ensures Complete(acc, sc, sharded, shards)
  {
    var results := ComputeAll(sc, nCell, job, sharded, shards, completion);
    acc := new Accumulators(job, nCell, sc.nTime);
    for n := 0 to |order|
      invariant acc.Valid() && acc.nCell == nCell && acc.job == job && fresh(acc.Repr())
      invariant Progress(acc, sc, sharded, shards, order[..n])
    {
      var x := order[n];
      assert x in order;
      ApplyShard(acc, sc, sharded, shards, x, results[x], order[..n]);
      assert order[..n] + [x] == order[..n + 1];
    }
    assert order[..|order|] == order;
  }
}
