// The per-cell make-before-break verdict: the imperative engine and what its answers mean.
module Continuity {
  import opened Options
  import opened Visibility
  import opened ServingGraph
  import opened Schedules
  import opened RunOrder
  import opened Gaps

  datatype Verdict = Verdict(feasible: bool, worst: Option<nat>, handovers: Option<nat>)

  const NO_PATH := Verdict(false, None, None)

  // ---------- specification ----------

  function GraphOf(g: Grid, planes: seq<int>, req: Requirement): Graph {
    Graph(StableSort(Intervals(g)), |g.rows| + 1, planes, req)
  }

  function GraphVerdict(gr: Graph, nTime: nat): Verdict {
    var goal := gr.BestGoal(nTime, |gr.ivs|);
    if goal.None? then NO_PATH else
      var l := gr.Final()[goal.value];
      Verdict(true, if l.best.value >= gr.inf then None else l.best, Some(l.hops))
  }

  function CellVerdict(g: Grid, planes: seq<int>, req: Requirement): Verdict {
    GraphVerdict(GraphOf(g, planes, req), |g.rows|)
  }

  // ---------- the engine ----------

  ghost predicate Holds(gr: Graph, best: array<Option<nat>>, hops: array<nat>, labels: seq<Label>)
    reads best, hops
  {
    && best.Length == hops.Length == |gr.ivs| == |labels|
    && forall x :: 0 <= x < |labels| ==> Label(best[x], hops[x]) == labels[x]
  }

  // Relaxes, in place, every handover out of interval i.
  method RelaxInterval(gr: Graph, best: array<Option<nat>>, hops: array<nat>, i: nat, ghost labels: seq<Label>)
    requires i < |gr.ivs| && Holds(gr, best, hops, labels)
    modifies best, hops
    ensures Holds(gr, best, hops, gr.RelaxFrom(labels, i))
  {
    if best[i].None? {
      return;
    }
    for j := i + 1 to |gr.ivs|
      invariant forall x :: 0 <= x < |gr.ivs| ==>
        Label(best[x], hops[x]) == if x < j then gr.RelaxedLabel(labels, i, x) else labels[x]
    {
      var x, y := gr.ivs[i], gr.ivs[j];
      if y.en <= x.en {
        continue;
      }
      if gr.req.diffSat && y.sat == x.sat {
        continue;
      }
      if gr.req.diffPlane && !PlanesDiffer(gr.planes, x.sat, y.sat) {
        continue;
      }
      var ov := Min(x.en, y.en) - Max(x.st, y.st) + 1;
      if ov < Threshold(gr.req) {
        continue;
      }
      var cand: nat := if best[i].value < ov then best[i].value else ov;
      if best[j].None? || cand > best[j].value {
        best[j] := Some(cand);
        hops[j] := hops[i] + 1;
      }
    }
  }

  // Runs in view at the first sample are sources, all others still unreached.
  method InitialLabels(gr: Graph) returns (best: array<Option<nat>>, hops: array<nat>)
    ensures fresh(best) && fresh(hops) && Holds(gr, best, hops, gr.Sources())
  {
    best := new Option<nat>[|gr.ivs|](_ => None);
    hops := new nat[|gr.ivs|](_ => 0);
    for i := 0 to |gr.ivs|
      invariant forall x :: 0 <= x < |gr.ivs| ==>
        Label(best[x], hops[x]) == if x < i then gr.Sources()[x] else Label(None, 0)
    {
      if gr.ivs[i].st <= 0 {
        best[i] := Some(gr.inf);
      }
    }
  }

  // Labels every interval in one forward pass over the sorted list.
  method ForwardPass(gr: Graph) returns (best: array<Option<nat>>, hops: array<nat>)
    ensures Holds(gr, best, hops, gr.Final())
  {
    best, hops := InitialLabels(gr);
    for i := 0 to |gr.ivs|
      invariant fresh(best) && fresh(hops) && Holds(gr, best, hops, gr.Pass(i))
    {
      RelaxInterval(gr, best, hops, i, gr.Pass(i));
    }
  }

  method GoalVerdict(gr: Graph, nTime: nat, best: array<Option<nat>>, hops: array<nat>) returns (v: Verdict)
    requires Holds(gr, best, hops, gr.Final())
    ensures v == GraphVerdict(gr, nTime)
  {
    var gi: Option<nat> := None;
    for j := 0 to |gr.ivs|
      invariant gi == gr.BestGoal(nTime, j)
    {
      if best[j].Some? && gr.ivs[j].en >= nTime - 1 {
        if gi.None? || best[j].value > best[gi.value].value {
          gi := Some(j);
        }
      }
    }
    if gi.None? {
      return NO_PATH;
    }
    var b := best[gi.value].value;
    v := Verdict(true, if b >= gr.inf then None else Some(b), Some(hops[gi.value]));
  }

  method ServingPath(g: Grid, ivs: seq<Interval>, planes: seq<int>, req: Requirement) returns (v: Verdict)
    requires ivs == Intervals(g)
    ensures v == CellVerdict(g, planes, req)
  {
    var gr := Graph(StableSort(ivs), |g.rows| + 1, planes, req);
    var best, hops := ForwardPass(gr);
    v := GoalVerdict(gr, |g.rows|, best, hops);
  }

  // The plane-free engine, with its promise about serving schedules.
  method MbbContinuityCell(g: Grid, minOverlapSteps: int, diffSat: bool) returns (v: Verdict)
    ensures v == CellVerdict(g, [], Requirement(minOverlapSteps, diffSat, false))
    ensures v.feasible <==> Servable(g, Max(minOverlapSteps, 1))
    ensures v.worst.Some? ==> Servable(g, v.worst.value) && !Servable(g, v.worst.value + 1)
    ensures v.feasible && v.worst.None? <==> exists s :: AlwaysInView(g, s)
  {
    var req := Requirement(minOverlapSteps, diffSat, false);
    ServingTheorem(g, [], req);
    NoHandoverNeeded(g, [], req);
    var ivs := IntervalsFromInview(g);
    if ivs == [] {
      return NO_PATH;
    }
    v := ServingPath(g, ivs, [], req);
  }

  // Adds the plane rule and the worst gap; a feasible cell reports gap 0 without computing it,
  // and a cell without runs reports the whole window.
  method MbbContinuityCellReq(g: Grid, planes: seq<int>, req: Requirement) returns (v: Verdict, gap: nat)
    requires |planes| == g.nSat
    ensures v == CellVerdict(g, planes, req)
    ensures v.feasible <==> ServableForward(g, planes, req.diffPlane, Max(req.minOverlapSteps, 1))
    ensures v.worst.Some? ==>
      ServableIn(g, planes, req.diffPlane, v.worst.value, v.handovers.value)
      && !ServableForward(g, planes, req.diffPlane, v.worst.value + 1)
    ensures (req.diffPlane ==> NoReturn(planes)) ==> DecidesSchedules(g, planes, req)
    ensures gap == LongestDark(Lit(g)) && IsWorstGap(g, gap)
  {
    LongestDarkIsWorstGap(g);
    VerdictMeaning(g, planes, req);
    if req.diffPlane ==> NoReturn(planes) {
      CompleteWithoutReturn(g, planes, req);
    }
    var ivs := IntervalsFromInview(g);
    IntervalsLightGrid(g);
    if ivs == [] {
      LongestDarkExact(Lit(g));
      DarkIfNoRuns(g);
      return NO_PATH, |g.rows|;
    }
    gap := MergedWorstGapSteps(ivs, |g.rows|);
    v := ServingPath(g, ivs, planes, req);
    if v.feasible {
      FeasibleIsLit(g, planes, req);
      gap := 0;
    }
  }

  // An absent value is stored as -1 in the per-cell arrays.
  function Sentinel(o: Option<nat>): int {
    if o.Some? then o.value else -1
  }

  // The three array entries that hold a verdict.
  predicate Stored(v: Verdict, feasible: bool, worst: int, nhand: int) {
    feasible == v.feasible && worst == Sentinel(v.worst) && nhand == Sentinel(v.handovers)
  }

  function MapVerdict(g: Grid, minOverlapSteps: int, diffSat: bool,
                      planes: Option<seq<int>>, requirement: Option<Requirement>): Verdict
  {
    if planes.Some? && requirement.Some? then CellVerdict(g, planes.value, requirement.value)
    else CellVerdict(g, [], Requirement(minOverlapSteps, diffSat, false))
  }

  method MapCell(g: Grid, minOverlapSteps: int, diffSat: bool,
                 planes: Option<seq<int>>, requirement: Option<Requirement>)
    returns (v: Verdict, gap: Option<nat>)
    requires planes.Some? ==> |planes.value| == g.nSat
    ensures v == MapVerdict(g, minOverlapSteps, diffSat, planes, requirement)
    ensures gap == if planes.Some? && requirement.Some? then Some(LongestDark(Lit(g))) else None
  {
    if planes.Some? && requirement.Some? {
      var worst;
      v, worst := MbbContinuityCellReq(g, planes.value, requirement.value);
      gap := Some(worst);
    } else {
      v := MbbContinuityCell(g, minOverlapSteps, diffSat);
      gap := None;
    }
  }

  // Absent values leave the -1 the arrays were filled with.
  method StoreVerdict(v: Verdict, gap: Option<nat>, c: nat,
                      feasible: array<bool>, worst: array<int>, nhand: array<int>, gaps: array<int>)
    requires c < feasible.Length == worst.Length == nhand.Length == gaps.Length
    requires worst != nhand && nhand != gaps && gaps != worst
    requires worst[c] == -1 && nhand[c] == -1
    modifies feasible, worst, nhand, gaps
    ensures Stored(v, feasible[c], worst[c], nhand[c])
    ensures gap.Some? ==> gaps[c] == gap.value
    ensures forall x :: 0 <= x < worst.Length && x != c ==>
      feasible[x] == old(feasible[x]) && worst[x] == old(worst[x])
      && nhand[x] == old(nhand[x]) && gaps[x] == old(gaps[x])
  {
    feasible[c] := v.feasible;
    if v.worst.Some? {
      worst[c] := v.worst.value;
    }
    if v.handovers.Some? {
      nhand[c] := v.handovers.value;
    }
    if gap.Some? {
      gaps[c] := gap.value;
    }
  }

  // One verdict per cell. The worst gap is reported only on the full-requirement path, taken
  // when both the planes and the requirement are given.
  method ContinuityMap(cells: seq<Grid>, minOverlapSteps: int, diffSat: bool,
                       planes: Option<seq<int>>, requirement: Option<Requirement>)
    returns (feasible: array<bool>, worst: array<int>, nhand: array<int>, worstGap: Option<array<int>>)
    requires planes.Some? ==> forall c :: 0 <= c < |cells| ==> |planes.value| == cells[c].nSat
    ensures feasible.Length == worst.Length == nhand.Length == |cells|
    ensures worstGap.Some? <==> planes.Some? && requirement.Some?
    ensures forall c :: 0 <= c < |cells| ==>
      Stored(MapVerdict(cells[c], minOverlapSteps, diffSat, planes, requirement), feasible[c], worst[c], nhand[c])
    ensures worstGap.Some? ==> worstGap.value.Length == |cells|
    ensures worstGap.Some? ==> forall c :: 0 <= c < |cells| ==> worstGap.value[c] == LongestDark(Lit(cells[c]))
    ensures forall c :: 0 <= c < |cells| ==>
      MapMeasured(feasible[c], worst[c], nhand[c], cells[c], minOverlapSteps, planes, requirement)
    ensures worstGap.Some? ==> forall c :: 0 <= c < |cells| ==> IsWorstGap(cells[c], worstGap.value[c])
  {
    feasible := new bool[|cells|](_ => false);
    worst := new int[|cells|](_ => -1);
    nhand := new int[|cells|](_ => -1);
    var gaps := new int[|cells|](_ => -1);
    ghost var verdicts := seq(|cells|, c requires 0 <= c < |cells| =>
      MapVerdict(cells[c], minOverlapSteps, diffSat, planes, requirement));
    for c := 0 to |cells|
      invariant forall x :: 0 <= x < c ==> Stored(verdicts[x], feasible[x], worst[x], nhand[x])
      invariant forall x :: c <= x < |cells| ==> worst[x] == -1 && nhand[x] == -1
      invariant planes.Some? && requirement.Some? ==>
        forall x :: 0 <= x < c ==> gaps[x] == LongestDark(Lit(cells[x]))
    {
      var v, gap := MapCell(cells[c], minOverlapSteps, diffSat, planes, requirement);
      StoreVerdict(v, gap, c, feasible, worst, nhand, gaps);
    }
    worstGap := if planes.Some? && requirement.Some? then Some(gaps) else None;
    forall c | 0 <= c < |cells|
      ensures MapMeasured(feasible[c], worst[c], nhand[c], cells[c], minOverlapSteps, planes, requirement)
      ensures IsWorstGap(cells[c], LongestDark(Lit(cells[c])))
    {
      assert Stored(verdicts[c], feasible[c], worst[c], nhand[c]);
      MapIsMeasured(cells[c], minOverlapSteps, diffSat, planes, requirement, feasible[c], worst[c], nhand[c]);
      LongestDarkIsWorstGap(cells[c]);
    }
  }

  // ---------- what the verdict means ----------

  // Nobody is in view at the samples [lo, hi).
  ghost predicate Uncovered(g: Grid, lo: int, hi: int) {
    0 <= lo <= hi <= |g.rows| && forall t, s :: lo <= t < hi ==> !InView(g, t, s)
  }

  // gap is the length of the longest uncovered stretch.
  ghost predicate IsWorstGap(g: Grid, gap: int) {
    && (exists lo, hi :: Uncovered(g, lo, hi) && hi - lo == gap)
    && (forall lo, hi :: Uncovered(g, lo, hi) ==> hi - lo <= gap)
  }

  lemma DarkIsUncovered(g: Grid, lo: int, hi: int)
    ensures Dark(Lit(g), lo, hi) <==> Uncovered(g, lo, hi)
  {
    if Dark(Lit(g), lo, hi) {
      forall t, s | lo <= t < hi
        ensures !InView(g, t, s)
      {
        assert !Lit(g)[t];
      }
    }
  }

  lemma LongestDarkIsWorstGap(g: Grid)
    ensures IsWorstGap(g, LongestDark(Lit(g)))
  {
    LongestDarkExact(Lit(g));
    var lo, hi :| Dark(Lit(g), lo, hi) && hi - lo == LongestDark(Lit(g));
    DarkIsUncovered(g, lo, hi);
    forall l, h | Uncovered(g, l, h)
      ensures h - l <= LongestDark(Lit(g))
    {
      DarkIsUncovered(g, l, h);
    }
  }

  // The stored values of a verdict, in terms of the cell's passes alone: feasible iff a schedule
  // obeying the rules sustains the overlap; the worst overlap is the best any such schedule
  // sustains, with as many handovers, unless one satellite covers the window; -1 where absent.
  ghost predicate VerdictMeasured(feasible: bool, worst: int, nhand: int, g: Grid, planes: seq<int>,
                                  minOverlapSteps: int, diffPlane: bool)
  {
    && (feasible <==> ServableForward(g, planes, diffPlane, Max(minOverlapSteps, 1)))
    && (!feasible ==> worst == -1 && nhand == -1)
    && (feasible && (exists s :: AlwaysInView(g, s)) ==> worst == -1 && nhand == 0)
    && (feasible && !(exists s :: AlwaysInView(g, s)) ==>
          && worst >= Max(minOverlapSteps, 1) && nhand > 0
          && ServableIn(g, planes, diffPlane, worst, nhand)
          && !ServableForward(g, planes, diffPlane, worst + 1))
  }

  lemma StoredIsMeasured(g: Grid, planes: seq<int>, req: Requirement, feasible: bool, worst: int, nhand: int)
    requires Stored(CellVerdict(g, planes, req), feasible, worst, nhand)
    ensures VerdictMeasured(feasible, worst, nhand, g, planes, req.minOverlapSteps, req.diffPlane)
  {
    VerdictMeaning(g, planes, req);
    NoHandoverNeeded(g, planes, req);
  }

  // What the map stores for a cell: the given requirement on the full path, otherwise the given
  // threshold without the plane rule.
  ghost predicate MapMeasured(feasible: bool, worst: int, nhand: int, g: Grid, minOverlapSteps: int,
                              planes: Option<seq<int>>, requirement: Option<Requirement>)
  {
    if planes.Some? && requirement.Some? then
      VerdictMeasured(feasible, worst, nhand, g, planes.value,
                      requirement.value.minOverlapSteps, requirement.value.diffPlane)
    else
      && VerdictMeasured(feasible, worst, nhand, g, [], minOverlapSteps, false)
      && (feasible <==> Servable(g, Max(minOverlapSteps, 1)))
  }

  lemma MapIsMeasured(g: Grid, minOverlapSteps: int, diffSat: bool, planes: Option<seq<int>>,
                      requirement: Option<Requirement>, feasible: bool, worst: int, nhand: int)
    requires Stored(MapVerdict(g, minOverlapSteps, diffSat, planes, requirement), feasible, worst, nhand)
    ensures MapMeasured(feasible, worst, nhand, g, minOverlapSteps, planes, requirement)
  {
    if planes.Some? && requirement.Some? {
      StoredIsMeasured(g, planes.value, requirement.value, feasible, worst, nhand);
    } else {
      StoredIsMeasured(g, [], Requirement(minOverlapSteps, diffSat, false), feasible, worst, nhand);
      ServingTheorem(g, [], Requirement(minOverlapSteps, diffSat, false));
    }
  }

  lemma GraphDescribes(g: Grid, planes: seq<int>, req: Requirement)
    ensures Describes(GraphOf(g, planes, req), g)
  {
    IntervalsExact(g);
    StableSortSorts(Intervals(g));
  }

  // s is in view over the whole window.
  ghost predicate AlwaysInView(g: Grid, s: int) {
    |g.rows| > 0 && Steady(g, s, 0, |g.rows| - 1)
  }

  // The verdict of a graph in terms of its paths.
  lemma VerdictIsWidestPath(gr: Graph, g: Grid) returns (p: seq<nat>)
    requires Describes(gr, g)
    ensures var v := GraphVerdict(gr, |g.rows|);
      && (v.feasible <==> HasPath(gr, g, Threshold(gr.req)))
      && (v.handovers.Some? <==> v.feasible)
      && (v.worst.Some? ==> v.feasible && Threshold(gr.req) <= v.worst.value <= |g.rows|
                            && !HasPath(gr, g, v.worst.value + 1))
      && (v.feasible ==> gr.FullPath(|g.rows|, p) && |p| - 1 == v.handovers.value)
      && (v.feasible ==> if |p| == 1 then v.worst.None? else v.worst == Some(gr.Bottleneck(p)))
  {
    var n, v := |g.rows|, GraphVerdict(gr, |g.rows|);
    gr.BestGoalWidest(n);
    var goal := gr.BestGoal(n, |gr.ivs|);
    if p0 :| WidePath(gr, g, p0, Threshold(gr.req)) {
      assert gr.FullPath(n, p0);
    }
    p := [];
    if goal.Some? {
      var l := gr.Final()[goal.value];
      p :| gr.FullPath(n, p) && gr.Bottleneck(p) == l.best.value && |p| == l.hops + 1;
      PathAboveThreshold(gr, g, p);
      assert WidePath(gr, g, p, Threshold(gr.req));
      assert forall p0 :: WidePath(gr, g, p0, l.best.value + 1) ==> gr.FullPath(n, p0);
    }
  }

  // Some schedule obeying the rules has joint windows of at least b samples and h handovers.
  ghost predicate ServableIn(g: Grid, planes: seq<int>, diffPlane: bool, b: int, h: nat) {
    exists a :: ForwardSchedule(g, planes, diffPlane, a, b) && Handovers(a) == h
  }

  // The verdict is a statement about schedules alone, under any combination of the rules: it is
  // feasible iff some schedule meets the threshold with every switch extending service, the worst
  // overlap is the best any such schedule sustains, and the handovers are those of one of them.
  lemma VerdictMeaning(g: Grid, planes: seq<int>, req: Requirement)
    ensures var v := CellVerdict(g, planes, req);
      && (v.feasible <==> ServableForward(g, planes, req.diffPlane, Threshold(req)))
      && (v.handovers.Some? <==> v.feasible)
      && (v.worst.Some? ==> v.feasible && Threshold(req) <= v.worst.value <= |g.rows|)
    ensures var v := CellVerdict(g, planes, req);
      v.worst.Some? ==>
        && v.handovers.value > 0
        && ServableIn(g, planes, req.diffPlane, v.worst.value, v.handovers.value)
        && !ServableForward(g, planes, req.diffPlane, v.worst.value + 1)
    ensures var v := CellVerdict(g, planes, req);
      v.feasible && v.worst.None? ==> v.handovers == Some(0) && exists s :: AlwaysInView(g, s)
  {
    var gr, v := GraphOf(g, planes, req), CellVerdict(g, planes, req);
    GraphDescribes(g, planes, req);
    var p := VerdictIsWidestPath(gr, g);
    ForwardSchedulesArePaths(gr, g, Threshold(req));
    if v.worst.Some? {
      ForwardSchedulesArePaths(gr, g, v.worst.value + 1);
      var a := FullPathSchedule(gr, g, p, v.worst.value);
    } else if v.feasible {
      var a := FullPathSchedule(gr, g, p, 0);
      NoHandoverIsConstant(a);
      forall u | 0 <= u <= |g.rows| - 1
        ensures InView(g, u, a[0])
      {
        assert a[u] == a[0];
      }
      assert AlwaysInView(g, a[0]);
    }
  }

  // A schedule obeying the rules makes the cell feasible.
  lemma ScheduleIsFeasible(g: Grid, planes: seq<int>, req: Requirement, a: seq<int>)
    requires ForwardSchedule(g, planes, req.diffPlane, a, Threshold(req))
    ensures CellVerdict(g, planes, req).feasible
  {
    VerdictMeaning(g, planes, req);
  }

  lemma {:induction false} NoHandoverIsConstant(a: seq<int>)
    requires Handovers(a) == 0
    ensures forall t :: 0 <= t < |a| ==> a[t] == a[0]
    decreases |a|
  {
    if |a| >= 2 {
      NoHandoverIsConstant(a[..|a| - 1]);
    }
  }

  lemma AlwaysInViewSchedule(g: Grid, planes: seq<int>, diffPlane: bool, s: int, b: int)
    requires AlwaysInView(g, s)
    ensures ServableForward(g, planes, diffPlane, b)
  {
    assert ForwardSchedule(g, planes, diffPlane, seq(|g.rows|, _ => s), b);
  }

  // No handover is reported exactly when one satellite covers the window, whatever the rules.
  lemma NoHandoverNeeded(g: Grid, planes: seq<int>, req: Requirement)
    ensures var v := CellVerdict(g, planes, req);
      (v.feasible && v.worst.None?) <==> exists s :: AlwaysInView(g, s)
  {
    VerdictMeaning(g, planes, req);
    if s :| AlwaysInView(g, s) {
      AlwaysInViewSchedule(g, planes, req.diffPlane, s, Threshold(req));
      var v := CellVerdict(g, planes, req);
      if v.worst.Some? {
        AlwaysInViewSchedule(g, planes, req.diffPlane, s, v.worst.value + 1);
      }
    }
  }

  // When the plane rule is off, or planes never let a satellite return to them, requiring every
  // target to end later loses nothing.
  lemma AllSchedulesForward(g: Grid, planes: seq<int>, req: Requirement, b: nat)
    requires b >= Threshold(req) && (req.diffPlane ==> NoReturn(planes))
    ensures ServableObeying(g, planes, req.diffPlane, b) <==> ServableForward(g, planes, req.diffPlane, b)
  {
    var gr := GraphOf(g, planes, req);
    GraphDescribes(g, planes, req);
    ForwardSchedulesArePaths(gr, g, b);
    SchedulesArePaths(gr, g, b);
  }

  // The engine is complete on a cell: its verdict ranges over all make-before-break schedules that
  // obey the rules.
  ghost predicate DecidesSchedules(g: Grid, planes: seq<int>, req: Requirement) {
    var v := CellVerdict(g, planes, req);
    && (v.feasible <==> ServableObeying(g, planes, req.diffPlane, Threshold(req)))
    && (v.worst.Some? ==>
          && ServableObeying(g, planes, req.diffPlane, v.worst.value)
          && !ServableObeying(g, planes, req.diffPlane, v.worst.value + 1))
  }

  lemma CompleteWithoutReturn(g: Grid, planes: seq<int>, req: Requirement)
    requires req.diffPlane ==> NoReturn(planes)
    ensures DecidesSchedules(g, planes, req)
  {
    VerdictMeaning(g, planes, req);
    var v := CellVerdict(g, planes, req);
    AllSchedulesForward(g, planes, req, Threshold(req));
    if v.worst.Some? {
      AllSchedulesForward(g, planes, req, v.worst.value);
      AllSchedulesForward(g, planes, req, v.worst.value + 1);
    }
  }

  // The serving theorem: without the plane rule the verdict ranges over all make-before-break
  // schedules.
  lemma ServingTheorem(g: Grid, planes: seq<int>, req: Requirement)
    requires !req.diffPlane
    ensures var v := CellVerdict(g, planes, req);
      && (v.feasible <==> Servable(g, Threshold(req)))
      && (v.worst.Some? ==> Servable(g, v.worst.value) && !Servable(g, v.worst.value + 1))
  {
    CompleteWithoutReturn(g, planes, req);
    forall b: int
      ensures ServableObeying(g, planes, false, b) <==> Servable(g, b)
    {
      if a :| Schedule(g, a, b) {
      }
    }
  }

  // ---------- coverage of a feasible cell ----------

  lemma FeasibleIsLit(g: Grid, planes: seq<int>, req: Requirement)
    requires CellVerdict(g, planes, req).feasible
    ensures forall t :: 0 <= t < |g.rows| ==> Lit(g)[t]
    ensures LongestDark(Lit(g)) == 0
  {
    VerdictMeaning(g, planes, req);
    var a :| ForwardSchedule(g, planes, req.diffPlane, a, Threshold(req));
    forall t | 0 <= t < |g.rows|
      ensures Lit(g)[t]
    {
      assert InView(g, t, a[t]);
    }
    LitHasNoGap(Lit(g));
  }

  lemma DarkIfNoRuns(g: Grid)
    requires Intervals(g) == []
    ensures LongestDark(Lit(g)) == |g.rows|
  {
    IntervalsExact(g);
    forall t, s
      ensures !InView(g, t, s)
    {
      if InView(g, t, s) {
        var iv := RunAt(g, t, s);
        assert false;
      }
    }
    LongestDarkExact(Lit(g));
    assert Dark(Lit(g), 0, |g.rows|);
  }
}
