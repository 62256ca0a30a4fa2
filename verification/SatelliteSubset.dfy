// Dropping satellites that are never in view changes nothing in the verdict of a cell.
module SatelliteSubset {
  import opened Visibility
  import opened ServingGraph
  import opened RunOrder
  import opened Gaps
  import opened Continuity
  import opened ContinuityLaws

  ghost predicate Ascending(keep: seq<nat>) {
    forall i, j :: 0 <= i < j < |keep| ==> keep[i] < keep[j]
  }

  // keep lists satellites of g in ascending order, among them all that are ever in view.
  ghost predicate KeepsSeen(g: Grid, keep: seq<nat>) {
    && Ascending(keep)
    && (forall i :: 0 <= i < |keep| ==> keep[i] < g.nSat)
    && (forall t, s :: InView(g, t, s) ==> s in keep)
  }

  function Columns(g: Grid, keep: seq<nat>): Grid
    requires forall i :: 0 <= i < |keep| ==> keep[i] < g.nSat
  {
    Table(seq(|g.rows|, t requires 0 <= t < |g.rows| =>
                seq(|keep|, i requires 0 <= i < |keep| => g.rows[t][keep[i]])), |keep|)
  }

  function PlanesKept(planes: seq<int>, keep: seq<nat>): seq<int>
    requires forall i :: 0 <= i < |keep| ==> keep[i] < |planes|
  {
    seq(|keep|, i requires 0 <= i < |keep| => planes[keep[i]])
  }

  function Original(keep: seq<nat>, i: int): int {
    if 0 <= i < |keep| then keep[i] else i
  }

  function Renamed(ivs: seq<Interval>, keep: seq<nat>): seq<Interval> {
    seq(|ivs|, k requires 0 <= k < |ivs| => ivs[k].(sat := Original(keep, ivs[k].sat)))
  }

  lemma {:induction false} RunsRenamed(g: Grid, keep: seq<nat>, i: nat, n: nat)
    requires KeepsSeen(g, keep) && i < |keep| && n <= |g.rows|
    ensures RunsTo(g, keep[i], n) == Renamed(RunsTo(Columns(g, keep), i, n), keep)
  {
    if n > 0 {
      var g' := Columns(g, keep);
      RunsRenamed(g, keep, i, n - 1);
      RunsNext(g, keep[i], n - 1);
      RunsNext(g', i, n - 1);
      var was, isNow := InView(g', n - 2, i), InView(g', n - 1, i);
      assert InView(g, n - 1, keep[i]) == isNow && InView(g, n - 2, keep[i]) == was;
      NextRenamed(RunsTo(g', i, n - 1), keep, i, was, isNow, n - 1);
      calc {
        RunsTo(g, keep[i], n);
      ==
        NextRuns(RunsTo(g, keep[i], n - 1), keep[i], was, isNow, n - 1);
      ==
        Renamed(NextRuns(RunsTo(g', i, n - 1), i, was, isNow, n - 1), keep);
      ==
        Renamed(RunsTo(g', i, n), keep);
      }
    }
  }

  lemma NextRenamed(runs: seq<Interval>, keep: seq<nat>, i: nat, was: bool, isNow: bool, n: int)
    requires i < |keep| && (was ==> runs != [])
    ensures NextRuns(Renamed(runs, keep), keep[i], was, isNow, n) == Renamed(NextRuns(runs, i, was, isNow, n), keep)
  {
  }

  // keep[..i] are the kept satellites below m.
  ghost predicate KeptBelow(keep: seq<nat>, m: nat, i: nat) {
    i <= |keep| && forall k :: 0 <= k < |keep| ==> (k < i <==> keep[k] < m)
  }

  lemma KeptBelowStep(keep: seq<nat>, m: nat, i: nat)
    requires Ascending(keep) && m > 0 && KeptBelow(keep, m, i)
    ensures if i > 0 && keep[i - 1] == m - 1 then KeptBelow(keep, m - 1, i - 1)
            else KeptBelow(keep, m - 1, i) && m - 1 !in keep
  {
  }

  lemma RenamedConcat(x: seq<Interval>, y: seq<Interval>, keep: seq<nat>)
    ensures Renamed(x + y, keep) == Renamed(x, keep) + Renamed(y, keep)
  {
  }

  // Kept or not, satellite m - 1 adds its runs on both sides alike.
  lemma NextSatelliteRenamed(g: Grid, keep: seq<nat>, m: nat, i: nat, j: nat)
    requires KeepsSeen(g, keep) && 0 < m <= g.nSat && j <= i <= |keep|
    requires if i > 0 && keep[i - 1] == m - 1 then j == i - 1 else j == i && m - 1 !in keep
    requires IntervalsTo(g, m - 1) == Renamed(IntervalsTo(Columns(g, keep), j), keep)
    ensures IntervalsTo(g, m) == Renamed(IntervalsTo(Columns(g, keep), i), keep)
  {
    var n, g' := |g.rows|, Columns(g, keep);
    if j < i {
      RunsRenamed(g, keep, j, n);
      RenamedConcat(IntervalsTo(g', j), RunsTo(g', j, n), keep);
    } else {
      NeverInView(g, m - 1, n);
    }
  }

  // The first m satellites of g hold the runs of the first i kept ones.
  lemma {:induction false} IntervalsRenamed(g: Grid, keep: seq<nat>, m: nat, i: nat)
    requires KeepsSeen(g, keep) && m <= g.nSat && KeptBelow(keep, m, i)
    ensures IntervalsTo(g, m) == Renamed(IntervalsTo(Columns(g, keep), i), keep)
    decreases m
  {
    if m == 0 {
      assert |keep| > 0 ==> keep[0] >= 0;
    } else {
      KeptBelowStep(keep, m, i);
      var j := if i > 0 && keep[i - 1] == m - 1 then i - 1 else i;
      IntervalsRenamed(g, keep, m - 1, j);
      NextSatelliteRenamed(g, keep, m, i, j);
    }
  }

  lemma {:induction false} InsertRenamed(s: seq<Interval>, x: Interval, keep: seq<nat>)
    ensures Insert(Renamed(s, keep), x.(sat := Original(keep, x.sat))) == Renamed(Insert(s, x), keep)
    decreases |s|
  {
    if s != [] {
      InsertRenamed(s[..|s| - 1], x, keep);
      assert Renamed(s, keep)[..|s| - 1] == Renamed(s[..|s| - 1], keep);
    }
  }

  lemma {:induction false} SortRenamed(s: seq<Interval>, keep: seq<nat>)
    ensures StableSort(Renamed(s, keep)) == Renamed(StableSort(s), keep)
    decreases |s|
  {
    if s != [] {
      SortRenamed(s[..|s| - 1], keep);
      assert Renamed(s, keep)[..|s| - 1] == Renamed(s[..|s| - 1], keep);
      InsertRenamed(StableSort(s[..|s| - 1]), s[|s| - 1], keep);
    }
  }

  lemma GraphsAlike(g: Grid, planes: seq<int>, keep: seq<nat>, req: Requirement)
    requires KeepsSeen(g, keep) && |planes| == g.nSat
    ensures Alike(GraphOf(Columns(g, keep), PlanesKept(planes, keep), req), GraphOf(g, planes, req))
  {
    var g', planes' := Columns(g, keep), PlanesKept(planes, keep);
    var gr, gr' := GraphOf(g, planes, req), GraphOf(g', planes', req);
    IntervalsRenamed(g, keep, g.nSat, |keep|);
    SortRenamed(Intervals(g'), keep);
    GraphDescribes(g', planes', req);
    forall k | 0 <= k < |gr'.ivs|
      ensures 0 <= gr'.ivs[k].sat < |keep| && gr.ivs[k].sat == keep[gr'.ivs[k].sat]
    {
      assert gr'.ivs[k] in gr'.ivs;
      assert InView(g', gr'.ivs[k].st, gr'.ivs[k].sat);
    }
    assert forall i, j :: 0 <= i < |keep| && 0 <= j < |keep| ==> (keep[i] == keep[j] <==> i == j);
  }

  lemma LitKept(g: Grid, keep: seq<nat>)
    requires KeepsSeen(g, keep)
    ensures Lit(Columns(g, keep)) == Lit(g)
  {
    var g' := Columns(g, keep);
    forall t | 0 <= t < |g.rows|
      ensures Lit(g')[t] == Lit(g)[t]
    {
      if s :| 0 <= s < g.nSat && InView(g, t, s) {
        var i :| 0 <= i < |keep| && keep[i] == s;
        assert InView(g', t, i);
      }
      if i :| 0 <= i < g'.nSat && InView(g', t, i) {
        assert InView(g, t, keep[i]);
      }
    }
  }

  // Every output of the cell survives: feasibility, bottleneck, handover count, worst gap.
  lemma UnseenSatellitesDroppable(g: Grid, planes: seq<int>, keep: seq<nat>, req: Requirement)
    requires KeepsSeen(g, keep) && |planes| == g.nSat
    ensures CellVerdict(Columns(g, keep), PlanesKept(planes, keep), req) == CellVerdict(g, planes, req)
    ensures Lit(Columns(g, keep)) == Lit(g)
  {
    GraphsAlike(g, planes, keep, req);
    AlikeVerdict(GraphOf(Columns(g, keep), PlanesKept(planes, keep), req), GraphOf(g, planes, req), |g.rows|);
    LitKept(g, keep);
  }
}
