// The coverage run as callers see it: threshold arithmetic, errors, drivers and per-cell report.
module Coverage {
  import opened Options
  import opened Sums
  import opened Visibility
  import opened ServingGraph
  import opened Schedules
  import opened Gaps
  import opened Continuity
  import opened ContinuityLaws
  import opened SatelliteSubset
  import opened Availability
  import opened Scenes
  import opened Shards
  import opened Kernel

  // ---------- overlap in seconds ----------

  function Ceil(x: real): int {
    -((-x).Floor)
  }

  predicate TooCoarse(overlapS: real, step: real) {
    overlapS > 0.0 && step > 0.5 * overlapS
  }

  function MinOverlapSteps(overlapS: real, step: real): int
    requires step > 0.0
  {
    if overlapS > 0.0 then Ceil(overlapS / step) + 1 else 1
  }

  lemma CeilLeast(x: real, m: int)
    ensures m >= Ceil(x) <==> m as real >= x
  {
  }

  // ov shared samples guarantee (ov - 1) * step seconds; the threshold is the least step count
  // whose guarantee reaches the requested overlap.
  lemma MinOverlapStepsLeast(overlapS: real, step: real, n: int)
    requires step > 0.0 && n >= 1
    ensures MinOverlapSteps(overlapS, step) >= 1
    ensures (n - 1) as real * step >= overlapS <==> n >= MinOverlapSteps(overlapS, step)
  {
    if overlapS > 0.0 {
      var q := overlapS / step;
      CeilLeast(q, n - 1);
      CeilLeast(q, -1);
      QuotientOrder((n - 1) as real, overlapS, step);
      QuotientOrder(0.0, overlapS, step);
    } else {
      ScaleOrder((n - 1) as real, 0.0, step);
    }
  }

  lemma QuotientOrder(m: real, x: real, step: real)
    requires step > 0.0
    ensures m >= x / step <==> m * step >= x
  {
    var q := x / step;
    assert q * step == x;
    ScaleOrder(m, q, step);
  }

  lemma ScaleOrder(x: real, y: real, step: real)
    requires step > 0.0
    ensures x >= y <==> x * step >= y * step
  {
    if x >= y {
      assert (x - y) * step >= 0.0;
    } else {
      assert (y - x) * step > 0.0;
    }
  }

  // ---------- the per-cell report ----------

  datatype MbbReport = MbbReport(feasible: bool, overlapWorstS: real, nHandovers: int, worstGapS: real)

  datatype CellReport = CellReport(availability: seq<real>, satsInViewMean: real, mbb: Option<MbbReport>)

  function OverlapSeconds(worstSteps: int, step: real): real {
    if worstSteps >= 1 then (worstSteps - 1) as real * step else -1.0
  }

  function Report(t: CellTotals, nTime: nat, step: real, doMbb: bool): CellReport
    requires nTime > 0
  {
    CellReport(seq(|t.served|, x requires 0 <= x < |t.served| => t.served[x] as real / nTime as real),
               t.satSum as real / nTime as real,
               if doMbb then Some(MbbReport(t.feasible, OverlapSeconds(t.worst, step), t.nhand, t.gap as real * step))
               else None)
  }

  function JobOf(ks: seq<int>, nTime: nat, chunkSteps: Option<nat>, overlapS: Option<real>, step: real,
                 diffSat: bool, diffPlane: bool): Job
    requires nTime > 0 && step > 0.0
  {
    Job(ks, Bounds(nTime, ChunkSteps(chunkSteps, nTime), 0),
        if overlapS.None? then None
        else Some(Requirement(MinOverlapSteps(overlapS.value, step), diffSat, diffPlane)))
  }

  // A report carries the totals of some matrix, or the untouched defaults.
  ghost predicate TotalsReport(report: CellReport, job: Job, nTime: nat, step: real, g: Grid, planes: seq<int>)
    requires nTime > 0
  {
    || (|g.rows| == nTime && report == Report(Totals(g, planes, job), nTime, step, job.mbb.Some?))
    || report == Report(Defaults(job, nTime), nTime, step, job.mbb.Some?)
  }

  // The report of some cell in a run of this job.
  ghost predicate RunReport(report: CellReport, job: Job, nTime: nat, step: real)
    requires nTime > 0
  {
    exists g, planes :: TotalsReport(report, job, nTime, step, g, planes)
  }

  // Every handover on the best path keeps both satellites in view for the requested seconds; the
  // reported overlap is -1 exactly when the cell is infeasible or needs no handover.
  ghost predicate OverlapPromised(m: MbbReport, overlapS: real) {
    && (m.nHandovers > 0 ==> m.overlapWorstS >= overlapS && m.overlapWorstS >= 0.0)
    && (m.overlapWorstS == -1.0 <==> !m.feasible || m.nHandovers == 0)
  }

  lemma OverlapSecondsGuaranteed(report: CellReport, job: Job, nTime: nat, step: real, overlapS: real)
    requires nTime > 0 && step > 0.0 && RunReport(report, job, nTime, step)
    requires job.mbb.Some? && job.mbb.value.minOverlapSteps == MinOverlapSteps(overlapS, step)
    ensures report.mbb.Some? && OverlapPromised(report.mbb.value, overlapS)
  {
    var g, planes :| TotalsReport(report, job, nTime, step, g, planes);
    var v := CellVerdict(g, planes, job.mbb.value);
    VerdictMeaning(g, planes, job.mbb.value);
    if v.worst.Some? {
      WorstSeconds(overlapS, step, v.worst.value);
    }
  }

  lemma WorstSeconds(overlapS: real, step: real, worst: int)
    requires step > 0.0 && worst >= Max(MinOverlapSteps(overlapS, step), 1)
    ensures OverlapSeconds(worst, step) >= overlapS && OverlapSeconds(worst, step) >= 0.0
  {
    MinOverlapStepsLeast(overlapS, step, worst);
    ScaleOrder((worst - 1) as real, 0.0, step);
  }

  // ---------- what a report says of a cell ----------

  // b is the best overlap of any schedule obeying the rules, attained with nHandovers.
  ghost predicate IsBest(g: Grid, planes: seq<int>, diffPlane: bool, b: int, nHandovers: nat) {
    ServableIn(g, planes, diffPlane, b, nHandovers) && !ServableForward(g, planes, diffPlane, b + 1)
  }

  // The continuity part, in seconds: b shared samples guarantee b - 1 steps.
  ghost predicate MbbMeasured(m: MbbReport, g: Grid, planes: seq<int>, overlapS: real, step: real, diffPlane: bool)
    requires step > 0.0
  {
    var least := MinOverlapSteps(overlapS, step);
    && (m.feasible <==> ServableForward(g, planes, diffPlane, least))
    && (!m.feasible ==> m.overlapWorstS == -1.0 && m.nHandovers == -1)
    && (m.feasible && (exists s :: AlwaysInView(g, s)) ==> m.overlapWorstS == -1.0 && m.nHandovers == 0)
    && (m.feasible && !(exists s :: AlwaysInView(g, s)) ==>
          m.nHandovers > 0 && exists b :: b >= least && IsBest(g, planes, diffPlane, b, m.nHandovers)
                                          && m.overlapWorstS == (b - 1) as real * step)
    && (exists gap :: IsWorstGap(g, gap) && m.worstGapS == gap as real * step)
  }

  // The shares of served samples and the mean satellites in view; a shard near no satellite reports
  // 0 for levels below 1.
  ghost predicate SharesMeasured(report: CellReport, g: Grid, ks: seq<int>, empty: bool) {
    && |report.availability| == |ks|
    && (forall x :: 0 <= x < |ks| ==>
          IsShare(report.availability[x],
                  if empty && ks[x] < 1 then 0 else |ServedSamples(g, ks[x], 0, |g.rows|)|, |g.rows|))
    && IsShare(report.satsInViewMean, |Sightings(g, 0, |g.rows|)|, |g.rows|)
  }

  ghost predicate ReportMeasured(report: CellReport, g: Grid, planes: seq<int>, ks: seq<int>, empty: bool,
                                 overlapS: Option<real>, step: real, diffPlane: bool)
    requires step > 0.0
  {
    && SharesMeasured(report, g, ks, empty)
    && (report.mbb.Some? <==> overlapS.Some?)
    && (overlapS.Some? ==> MbbMeasured(report.mbb.value, g, planes, overlapS.value, step, diffPlane))
  }

  lemma MbbIsMeasured(t: CellTotals, g: Grid, planes: seq<int>, req: Requirement, overlapS: real, step: real)
    requires step > 0.0 && ContinuityMeasured(t, g, planes, req)
    requires req.minOverlapSteps == MinOverlapSteps(overlapS, step)
    ensures MbbMeasured(MbbReport(t.feasible, OverlapSeconds(t.worst, step), t.nhand, t.gap as real * step),
                        g, planes, overlapS, step, req.diffPlane)
  {
    MinOverlapStepsLeast(overlapS, step, 1);
    assert t.feasible && !(exists s :: AlwaysInView(g, s)) ==> IsBest(g, planes, req.diffPlane, t.worst, t.nhand);
  }

  lemma SharesAreMeasured(t: CellTotals, g: Grid, ks: seq<int>, empty: bool, step: real, doMbb: bool)
    requires |g.rows| > 0 && CountsMeasured(t.served, t.satSum, g, ks, empty)
    ensures SharesMeasured(Report(t, |g.rows|, step, doMbb), g, ks, empty)
  {
    var report := Report(t, |g.rows|, step, doMbb);
    forall x | 0 <= x < |ks|
      ensures IsShare(report.availability[x], t.served[x], |g.rows|)
    {
      QuotientIsShare(t.served[x], |g.rows|);
    }
    QuotientIsShare(t.satSum, |g.rows|);
  }

  lemma ReportIsMeasured(t: CellTotals, g: Grid, planes: seq<int>, ks: seq<int>, empty: bool,
                         overlapS: Option<real>, step: real, diffSat: bool, diffPlane: bool)
    requires |g.rows| > 0 && step > 0.0 && CountsMeasured(t.served, t.satSum, g, ks, empty)
    requires overlapS.Some? ==>
      ContinuityMeasured(t, g, planes, Requirement(MinOverlapSteps(overlapS.value, step), diffSat, diffPlane))
    ensures ReportMeasured(Report(t, |g.rows|, step, overlapS.Some?), g, planes, ks, empty, overlapS, step, diffPlane)
  {
    SharesAreMeasured(t, g, ks, empty, step, overlapS.Some?);
    if overlapS.Some? {
      MbbIsMeasured(t, g, planes, Requirement(MinOverlapSteps(overlapS.value, step), diffSat, diffPlane),
                    overlapS.value, step);
    }
  }

  // ---------- the run ----------

  // No sharding: one shard holds every cell.
  function WholeShard(nCell: nat): (r: seq<seq<nat>>)
    ensures Partition(r, nCell)
  {
    assert forall c: nat :: c < nCell ==> Owned([Range(nCell)], c) by {
      forall c: nat | c < nCell
        ensures Owned([Range(nCell)], c)
      {
        assert Owns([Range(nCell)], 0, c);
      }
    }
    [Range(nCell)]
  }

  function Parents<Cell, Key>(cells: seq<Cell>, shardRes: int, parent: (Cell, int) -> Key): seq<Key> {
    seq(|cells|, i requires 0 <= i < |cells| => parent(cells[i], shardRes))
  }

  // The cells that share the shard of cell c: all of them, or those with the same parent.
  function OwnShard<Cell, Key(==)>(cells: seq<Cell>, shardRes: Option<int>, parent: (Cell, int) -> Key, c: nat)
    : (cidx: seq<nat>)
    requires c < |cells|
    ensures c in cidx
    ensures forall i: nat :: i in cidx <==>
      i < |cells| && (shardRes.None? || parent(cells[i], shardRes.value) == parent(cells[c], shardRes.value))
  {
    if shardRes.None? then Range(|cells|) else
      var parents := Parents(cells, shardRes.value, parent);
      Positions(parents, parents[c], |cells|)
  }

  // Every shard is the own shard of all its cells.
  ghost predicate OwnShards<Cell, Key>(cells: seq<Cell>, shardRes: Option<int>, parent: (Cell, int) -> Key,
                                       shards: seq<seq<nat>>) {
    forall x, c: nat :: Owns(shards, x, c) ==> c < |cells| && shards[x] == OwnShard(cells, shardRes, parent, c)
  }

  method ShardsFor<Cell, Key(==,!new)>(cells: seq<Cell>, shardRes: Option<int>,
                                      resolution: Cell -> int, parent: (Cell, int) -> Key)
    returns (r: Result<seq<seq<nat>>>)
    ensures r.Err? <==> shardRes.Some? && cells != [] && shardRes.value > resolution(cells[0])
    ensures r.Ok? ==> Partition(r.value, |cells|)
    ensures r.Ok? ==> OwnShards(cells, shardRes, parent, r.value)
  {
    if shardRes.None? {
      return Ok(WholeShard(|cells|));
    }
    var grouping :- AssignShards(cells, shardRes.value, resolution, parent);
    var (groups, shardOf) := grouping;
    GroupsPartition(groups, shardOf);
    assert shardOf == Parents(cells, shardRes.value, parent);
    r := Ok(ShardList(groups));
  }

  // Forks when more than one worker is asked for and useful.
  method Drive(sc: Scene, nCell: nat, job: Job, sharded: bool, shards: seq<seq<nat>>,
               workers: Option<nat>, forkOk: bool, completion: seq<nat>)
    returns (acc: Accumulators)
    requires sc.Valid(nCell) && Partition(shards, nCell) && Tiles(job.bounds, 0, sc.nTime)
    requires Permutation(completion, |shards|)
    ensures acc.Valid() && acc.nCell == nCell && acc.job == job
    ensures Complete(acc, sc, sharded, shards)
  {
    var nWorkers := Min(if workers.Some? && workers.value != 0 then workers.value else 1, |shards|);
    if nWorkers > 1 && forkOk {
      acc := RunParallel(sc, nCell, job, sharded, shards, completion, Range(|shards|));
    } else {
      acc := RunSerial(sc, nCell, job, sharded, shards);
    }
  }

  // The result arrays, turned into reports cell by cell.
  function Reports(acc: Accumulators, nTime: nat, step: real): seq<CellReport>
    requires acc.Valid() && nTime > 0
    reads acc.Repr()
  {
    seq(acc.nCell, c requires acc.Valid() && 0 <= c < acc.nCell reads acc.Repr() =>
          Report(acc.Cell(c), nTime, step, acc.job.mbb.Some?))
  }

  // The report of a cell analysed alone: every satellite, the whole window at once.
  function OneShotReport(sc: Scene, job: Job, step: real, c: nat): CellReport
    requires sc.horizon.Some? ==> c < |sc.horizon.value| && sc.horizon.value[c] != []
    requires sc.nTime > 0
  {
    Report(Monolithic(sc, job, c), sc.nTime, step, job.mbb.Some?)
  }

  // The report of a cell as the shard holding the cells cidx computes it.
  ghost function ShardReport(sc: Scene, nCell: nat, job: Job, sharded: bool, cidx: seq<nat>, step: real,
                             c: nat): CellReport
    requires sc.Valid(nCell) && c < nCell && sc.nTime > 0
  {
    Report(ShardTotals(sc, job, sc.ShardSats(sharded, cidx), c), sc.nTime, step, job.mbb.Some?)
  }

  // The part of the run after all argument checks.
  method RunJob(sc: Scene, nCell: nat, job: Job, sharded: bool, shards: seq<seq<nat>>, step: real,
                workers: Option<nat>, forkOk: bool, completion: seq<nat>)
    returns (reports: seq<CellReport>)
    requires sc.Valid(nCell) && sc.nTime > 0 && Partition(shards, nCell) && Tiles(job.bounds, 0, sc.nTime)
    requires Permutation(completion, |shards|)
    ensures |reports| == nCell
    ensures forall x, c: nat :: Owns(shards, x, c) ==>
      c < nCell && reports[c] == ShardReport(sc, nCell, job, sharded, shards[x], step, c)
  {
    var acc := Drive(sc, nCell, job, sharded, shards, workers, forkOk, completion);
    reports := Reports(acc, sc.nTime, step);
  }

  // The chunk bounds play no part in any report.
  lemma ChunksIrrelevant(sc: Scene, nCell: nat, job: Job, job': Job, sharded: bool, cidx: seq<nat>, step: real, c: nat)
    requires sc.Valid(nCell) && c < nCell && sc.nTime > 0 && job' == job.(bounds := job'.bounds)
    ensures ShardReport(sc, nCell, job', sharded, cidx, step, c) == ShardReport(sc, nCell, job, sharded, cidx, step, c)
  {
    var sats := sc.ShardSats(sharded, cidx);
    assert ShardTotals(sc, job', sats, c) == ShardTotals(sc, job, sats, c);
  }

  // What the run promises of every cell: the report of its own shard, the overlap in seconds, and
  // for levels of at least 1 the one-shot report.
  ghost predicate CellRight<Cell, Key>(cells: seq<Cell>, sc: Scene, job: Job, step: real, shardRes: Option<int>,
                                       parent: (Cell, int) -> Key, overlapS: Option<real>, c: nat, report: CellReport)
    requires sc.Valid(|cells|) && sc.nTime > 0 && c < |cells|
  {
    && report == ShardReport(sc, |cells|, job, shardRes.Some?, OwnShard(cells, shardRes, parent, c), step, c)
    && (overlapS.Some? ==> report.mbb.Some? && OverlapPromised(report.mbb.value, overlapS.value))
    && ((forall k :: k in job.ks ==> k >= 1) ==> report == OneShotReport(sc, job, step, c))
  }

  lemma ShardReportIsRight<Cell, Key>(cells: seq<Cell>, sc: Scene, job: Job, step: real, shardRes: Option<int>,
                                      parent: (Cell, int) -> Key, overlapS: Option<real>, c: nat)
    requires sc.Valid(|cells|) && sc.PrefilterSound(|cells|) && sc.nTime > 0 && step > 0.0 && c < |cells|
    requires overlapS.Some? ==>
      job.mbb.Some? && job.mbb.value.minOverlapSteps == MinOverlapSteps(overlapS.value, step)
    ensures CellRight(cells, sc, job, step, shardRes, parent, overlapS, c,
                      ShardReport(sc, |cells|, job, shardRes.Some?, OwnShard(cells, shardRes, parent, c), step, c))
  {
    var cidx := OwnShard(cells, shardRes, parent, c);
    var report := ShardReport(sc, |cells|, job, shardRes.Some?, cidx, step, c);
    ShardReportIsRunReport(sc, |cells|, job, shardRes.Some?, cidx, step, c);
    if overlapS.Some? {
      OverlapSecondsGuaranteed(report, job, sc.nTime, step, overlapS.value);
    }
    ShardedEqualsMonolithic(sc, |cells|, job, shardRes.Some?, cidx, c);
  }

  lemma ShardReportIsRunReport(sc: Scene, nCell: nat, job: Job, sharded: bool, cidx: seq<nat>, step: real, c: nat)
    requires sc.Valid(nCell) && c < nCell && sc.nTime > 0
    ensures RunReport(ShardReport(sc, nCell, job, sharded, cidx, step, c), job, sc.nTime, step)
  {
    var sats := sc.ShardSats(sharded, cidx);
    assert TotalsReport(ShardReport(sc, nCell, job, sharded, cidx, step, c), job, sc.nTime, step,
                        Columns(sc.CellGrid(c), sats), PlanesKept(sc.planes, sats));
  }

  lemma AllCellsRight<Cell, Key>(cells: seq<Cell>, sc: Scene, job: Job, whole: Job, step: real, shardRes: Option<int>,
                                 parent: (Cell, int) -> Key, overlapS: Option<real>,
                                 shards: seq<seq<nat>>, reports: seq<CellReport>)
    requires sc.Valid(|cells|) && sc.PrefilterSound(|cells|) && sc.nTime > 0 && step > 0.0
    requires overlapS.Some? ==>
      whole.mbb.Some? && whole.mbb.value.minOverlapSteps == MinOverlapSteps(overlapS.value, step)
    requires whole == job.(bounds := whole.bounds) && Partition(shards, |cells|) && |reports| == |cells|
    requires OwnShards(cells, shardRes, parent, shards)
    requires forall x, c: nat :: Owns(shards, x, c) ==>
      c < |cells| && reports[c] == ShardReport(sc, |cells|, job, shardRes.Some?, shards[x], step, c)
    ensures forall c: nat :: c < |cells| ==>
      CellRight(cells, sc, whole, step, shardRes, parent, overlapS, c, reports[c])
  {
    forall c: nat | c < |cells|
      ensures CellRight(cells, sc, whole, step, shardRes, parent, overlapS, c, reports[c])
    {
      assert Owned(shards, c);
      var x :| Owns(shards, x, c);
      ChunksIrrelevant(sc, |cells|, job, whole, shardRes.Some?, shards[x], step, c);
      ShardReportIsRight(cells, sc, whole, step, shardRes, parent, overlapS, c);
    }
  }

  // The run over its shards; the chunk bounds play no part in the reports.
  method RunShards<Cell, Key(==,!new)>(
      cells: seq<Cell>, sc: Scene, step: real, shardRes: Option<int>, ghost parent: (Cell, int) -> Key,
      shards: seq<seq<nat>>, chunkSteps: Option<nat>, workers: Option<nat>, forkOk: bool, completion: seq<nat>,
      ks: seq<int>, overlapS: Option<real>, diffSat: bool, diffPlane: bool)
    returns (reports: seq<CellReport>)
    requires sc.Valid(|cells|) && sc.PrefilterSound(|cells|) && sc.nTime > 0 && step > 0.0
    requires Partition(shards, |cells|) && OwnShards(cells, shardRes, parent, shards)
    requires Permutation(completion, |shards|)
    ensures |reports| == |cells|
    ensures forall c: nat :: c < |cells| ==>
      CellRight(cells, sc, JobOf(ks, sc.nTime, None, overlapS, step, diffSat, diffPlane), step, shardRes, parent,
                overlapS, c, reports[c])
  {
    var job := JobOf(ks, sc.nTime, chunkSteps, overlapS, step, diffSat, diffPlane);
    BoundsTile(sc.nTime, ChunkSteps(chunkSteps, sc.nTime), 0);
    reports := RunJob(sc, |cells|, job, shardRes.Some?, shards, step, workers, forkOk, completion);
    ghost var whole := JobOf(ks, sc.nTime, None, overlapS, step, diffSat, diffPlane);
    AllCellsRight(cells, sc, job, whole, step, shardRes, parent, overlapS, shards, reports);
  }

  // No satellite is near any cell of the shard at any time.
  ghost predicate NobodyNear(sc: Scene, cidx: seq<nat>) {
    forall i, t: nat, s: nat :: 0 <= i < |cidx| && t < sc.nTime && s < sc.nSat ==> !sc.near(cidx[i], t, s)
  }

  // The report measures the cell itself, whatever the sharding; only levels below 1 depend on it.
  ghost predicate CellMeasured<Cell, Key>(cells: seq<Cell>, sc: Scene, step: real, shardRes: Option<int>,
                                          parent: (Cell, int) -> Key, ks: seq<int>, overlapS: Option<real>,
                                          diffPlane: bool, c: nat, report: CellReport)
    requires sc.Valid(|cells|) && step > 0.0 && c < |cells|
  {
    ReportMeasured(report, sc.CellGrid(c), sc.planes, ks,
                   shardRes.Some? && NobodyNear(sc, OwnShard(cells, shardRes, parent, c)), overlapS, step, diffPlane)
  }

  lemma NoSatellitesKept(sc: Scene, sharded: bool, cidx: seq<nat>)
    requires sc.nSat > 0
    ensures sc.ShardSats(sharded, cidx) == [] <==> sharded && NobodyNear(sc, cidx)
  {
    var r := sc.ShardSats(sharded, cidx);
    if r != [] {
      assert r[0] in r;
    } else {
      forall i, t: nat, s: nat | 0 <= i < |cidx| && t < sc.nTime && s < sc.nSat
        ensures !sc.near(cidx[i], t, s)
      {
        assert s !in r;
      }
    }
  }

  lemma CellRightIsMeasured<Cell, Key>(cells: seq<Cell>, sc: Scene, step: real, shardRes: Option<int>,
                                       parent: (Cell, int) -> Key, ks: seq<int>, overlapS: Option<real>,
                                       diffSat: bool, diffPlane: bool, c: nat, report: CellReport)
    requires sc.Valid(|cells|) && sc.PrefilterSound(|cells|) && sc.nTime > 0 && sc.nSat > 0
    requires step > 0.0 && c < |cells|
    requires CellRight(cells, sc, JobOf(ks, sc.nTime, None, overlapS, step, diffSat, diffPlane), step, shardRes,
                       parent, overlapS, c, report)
    ensures CellMeasured(cells, sc, step, shardRes, parent, ks, overlapS, diffPlane, c, report)
  {
    var job := JobOf(ks, sc.nTime, None, overlapS, step, diffSat, diffPlane);
    var cidx := OwnShard(cells, shardRes, parent, c);
    var t := ShardTotals(sc, job, sc.ShardSats(shardRes.Some?, cidx), c);
    NoSatellitesKept(sc, shardRes.Some?, cidx);
    ShardTotalsAreMeasured(sc, |cells|, job, shardRes.Some?, cidx, c);
    ReportIsMeasured(t, sc.CellGrid(c), sc.planes, ks, shardRes.Some? && NobodyNear(sc, cidx), overlapS, step,
                     diffSat, diffPlane);
  }

  // The largest apoapsis of no satellites, a grid of no cells, too fine shards, too coarse a step
  // and the default level of no levels are errors.
  ghost predicate CoverageFails<Cell>(cells: seq<Cell>, nSat: nat, ks: seq<int>, shardRes: Option<int>,
                                resolution: Cell -> int, overlapS: Option<real>, step: real) {
    || nSat == 0 || cells == [] || ks == []
    || (shardRes.Some? && shardRes.value > resolution(cells[0]))
    || (overlapS.Some? && overlapS.value > 0.0 && step > 0.5 * overlapS.value)
  }

  // Whatever the chunking, worker count and order of completion, each cell reports the result of
  // its own shard; for levels of at least 1, whatever the sharding too.
  method RunCoverage<Cell, Key(==,!new)>(
      cells: seq<Cell>, sc: Scene, step: real, shardRes: Option<int>, resolution: Cell -> int,
      parent: (Cell, int) -> Key, chunkSteps: Option<nat>, workers: Option<nat>, forkOk: bool,
      completion: nat -> seq<nat>, ks: seq<int>, overlapS: Option<real>, diffSat: bool, diffPlane: bool)
    returns (r: Result<seq<CellReport>>)
    requires sc.Valid(|cells|) && sc.PrefilterSound(|cells|) && sc.nTime > 0 && step > 0.0
    requires forall n: nat :: Permutation(completion(n), n)
    ensures r.Err? <==> CoverageFails(cells, sc.nSat, ks, shardRes, resolution, overlapS, step)
    ensures r.Ok? ==> |r.value| == |cells|
    ensures r.Ok? ==> forall c: nat :: c < |cells| ==>
      CellRight(cells, sc, JobOf(ks, sc.nTime, None, overlapS, step, diffSat, diffPlane), step, shardRes, parent,
                overlapS, c, r.value[c])
    ensures r.Ok? ==> forall c: nat :: c < |cells| ==>
      CellMeasured(cells, sc, step, shardRes, parent, ks, overlapS, diffPlane, c, r.value[c])
  {
    if sc.nSat == 0 {
      return Err("zero-size array to reduction operation maximum which has no identity");
    }
    if cells == [] {
      return Err("AOR produced 0 H3 cells at this resolution");
    }
    var shards :- ShardsFor(cells, shardRes, resolution, parent);
    if overlapS.Some? && TooCoarse(overlapS.value, step) {
      return Err("step_s too coarse for the overlap gate");
    }
    var reports := RunShards(cells, sc, step, shardRes, parent, shards, chunkSteps, workers, forkOk,
                             completion(|shards|), ks, overlapS, diffSat, diffPlane);
    if ks == [] {
      return Err("list index out of range");
    }
    forall c: nat | c < |cells|
      ensures CellMeasured(cells, sc, step, shardRes, parent, ks, overlapS, diffPlane, c, reports[c])
    {
      CellRightIsMeasured(cells, sc, step, shardRes, parent, ks, overlapS, diffSat, diffPlane, c, reports[c]);
    }
    r := Ok(reports);
  }

  // ---------- terrain ----------

  // A terrain mask only raises the elevation threshold: it never raises a count, never adds a
  // satellite, and without a plane that can return never creates feasibility or widens a handover.
  lemma TerrainNeverHelps(sc: Scene, nCell: nat, c: nat, k: int, req: Requirement)
    requires sc.Valid(nCell) && c < nCell
    ensures var g, open := sc.CellGrid(c), sc.(horizon := None).CellGrid(c);
      && Served(g, k, 0, sc.nTime) <= Served(open, k, 0, sc.nTime)
      && SatSum(g, 0, sc.nTime) <= SatSum(open, 0, sc.nTime)
      && ((req.diffPlane ==> NoReturn(sc.planes)) ==>
            NoBetter(CellVerdict(g, sc.planes, req), CellVerdict(open, sc.planes, req)))
  {
    var g, open := sc.CellGrid(c), sc.(horizon := None).CellGrid(c);
    forall t, s | InView(g, t, s)
      ensures InView(open, t, s)
    {
      assert sc.elev(c, t, s) >= sc.MinElevation(c, t, s) >= sc.minElev;
    }
    ServedMonotone(g, open, k, 0, sc.nTime);
    if req.diffPlane ==> NoReturn(sc.planes) {
      VisibilityMonotone(g, open, s => s, sc.planes, sc.planes, req);
    }
  }

  // ---------- continuity against availability ----------

  // A feasible cell has a satellite in view at every sample: its k = 1 count is the whole window.
  lemma FeasibleIsAlwaysServed(g: Grid, planes: seq<int>, req: Requirement)
    requires CellVerdict(g, planes, req).feasible
    ensures Served(g, 1, 0, |g.rows|) == |g.rows| && LongestDark(Lit(g)) == 0
  {
    FeasibleIsLit(g, planes, req);
    ServedAlways(g, |g.rows|);
  }
}
