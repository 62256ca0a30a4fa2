// Laws of the per-cell verdict: threshold, visibility, the two handover rules.
module ContinuityLaws {
  import opened Visibility
  import opened ServingGraph
  import opened Schedules
  import opened Continuity

  // x is no better than y; a cell that needs no handover is best of all.
  predicate NoBetter(x: Verdict, y: Verdict) {
    x.feasible ==>
      y.feasible && (y.worst.Some? ==> x.worst.Some? && x.worst.value <= y.worst.value)
  }

  // ---------- threshold ----------

  lemma SustainsLess(g: Grid, a: seq<int>, b: int, b': int)
    requires Sustains(g, a, b) && b' <= b
    ensures Sustains(g, a, b')
  {
    forall t | SwitchAt(a, t)
      ensures SharedFor(g, a[t], a[t + 1], t, b')
    {
      var lo, hi :| lo <= t <= hi && hi - lo + 1 >= b && Steady(g, a[t], lo, hi) && Steady(g, a[t + 1], lo, hi);
    }
  }

  lemma ServableForwardLess(g: Grid, planes: seq<int>, diffPlane: bool, b: int, b': int)
    requires ServableForward(g, planes, diffPlane, b) && b' <= b
    ensures ServableForward(g, planes, diffPlane, b')
  {
    var a :| ForwardSchedule(g, planes, diffPlane, a, b);
    SustainsLess(g, a, b, b');
    assert ForwardSchedule(g, planes, diffPlane, a, b');
  }

  // One analysis at the lowest threshold decides every threshold, bottleneck included.
  lemma ThresholdDuality(g: Grid, planes: seq<int>, req: Requirement)
    ensures var v, base := CellVerdict(g, planes, req), CellVerdict(g, planes, req.(minOverlapSteps := 1));
      && (v.feasible <==> base.feasible && (base.worst.None? || base.worst.value >= Threshold(req)))
      && (v.feasible ==> v.worst == base.worst)
  {
    var req1 := req.(minOverlapSteps := 1);
    var v, base, d := CellVerdict(g, planes, req), CellVerdict(g, planes, req1), req.diffPlane;
    VerdictMeaning(g, planes, req);
    VerdictMeaning(g, planes, req1);
    NoHandoverNeeded(g, planes, req);
    NoHandoverNeeded(g, planes, req1);
    if v.feasible {
      ServableForwardLess(g, planes, d, Threshold(req), 1);
    }
    if v.worst.Some? && base.worst.Some? {
      if v.worst.value < base.worst.value {
        ServableForwardLess(g, planes, d, base.worst.value, v.worst.value + 1);
      }
      if base.worst.value < v.worst.value {
        ServableForwardLess(g, planes, d, v.worst.value, base.worst.value + 1);
      }
    }
    if base.worst.Some? && base.worst.value >= Threshold(req) {
      ServableForwardLess(g, planes, d, base.worst.value, Threshold(req));
    }
  }

  lemma StricterThresholdNoBetter(g: Grid, planes: seq<int>, req: Requirement, lower: int)
    requires lower <= req.minOverlapSteps
    ensures NoBetter(CellVerdict(g, planes, req), CellVerdict(g, planes, req.(minOverlapSteps := lower)))
  {
    ThresholdDuality(g, planes, req);
    ThresholdDuality(g, planes, req.(minOverlapSteps := lower));
  }

  // ---------- comparing two cells ----------

  // Whatever the first cell can serve under its rules the second can too: it is no worse.
  lemma ServabilityOrdersVerdicts(g: Grid, planes: seq<int>, req: Requirement,
                                  g': Grid, planes': seq<int>, req': Requirement)
    requires Threshold(req) == Threshold(req')
    requires forall b: nat :: b >= Threshold(req) && ServableForward(g, planes, req.diffPlane, b) ==>
      ServableForward(g', planes', req'.diffPlane, b)
    ensures NoBetter(CellVerdict(g, planes, req), CellVerdict(g', planes', req'))
  {
    VerdictMeaning(g, planes, req);
    VerdictMeaning(g', planes', req');
    var v, v' := CellVerdict(g, planes, req), CellVerdict(g', planes', req');
    if v.feasible && v'.worst.Some? {
      var w' := v'.worst.value;
      if v.worst.None? {
        var s :| AlwaysInView(g, s);
        AlwaysInViewSchedule(g, planes, req.diffPlane, s, w' + 1);
      } else if v.worst.value > w' {
        ServableForwardLess(g', planes', req'.diffPlane, v.worst.value, w' + 1);
      }
    }
  }

  // The plane rule can only cost feasibility and overlap.
  lemma PlaneRuleNoBetter(g: Grid, planes: seq<int>, req: Requirement)
    ensures NoBetter(CellVerdict(g, planes, req), CellVerdict(g, planes, req.(diffPlane := false)))
  {
    forall b: nat | ServableForward(g, planes, req.diffPlane, b)
      ensures ServableForward(g, planes, false, b)
    {
      var a :| ForwardSchedule(g, planes, req.diffPlane, a, b);
      assert ForwardSchedule(g, planes, false, a, b);
    }
    ServabilityOrdersVerdicts(g, planes, req, g, planes, req.(diffPlane := false));
  }

  // g' sees at least what g sees, satellite s of g being satellite into(s) of g'.
  ghost predicate SeesMore(g: Grid, g': Grid, into: int -> int) {
    |g.rows| == |g'.rows| && forall t, s :: InView(g, t, s) ==> InView(g', t, into(s))
  }

  lemma SteadySeenMore(g: Grid, g': Grid, into: int -> int, s: int, lo: int, hi: int)
    requires SeesMore(g, g', into) && Steady(g, s, lo, hi)
    ensures Steady(g', into(s), lo, hi)
  {
  }

  function Renumbered(a: seq<int>, into: int -> int): seq<int> {
    seq(|a|, t requires 0 <= t < |a| => into(a[t]))
  }

  lemma ScheduleSeenMore(g: Grid, g': Grid, into: int -> int, a: seq<int>, b: int)
    requires SeesMore(g, g', into) && Schedule(g, a, b)
    ensures Schedule(g', Renumbered(a, into), b)
  {
    var a' := Renumbered(a, into);
    forall t | SwitchAt(a', t)
      ensures SharedFor(g', a'[t], a'[t + 1], t, b)
    {
      assert SwitchAt(a, t);
      var lo, hi :| lo <= t <= hi && hi - lo + 1 >= b && Steady(g, a[t], lo, hi) && Steady(g, a[t + 1], lo, hi);
      SteadySeenMore(g, g', into, a[t], lo, hi);
      SteadySeenMore(g, g', into, a[t + 1], lo, hi);
    }
  }

  // Satellite s of the first cell has the plane of satellite into(s) of the second.
  ghost predicate KeepsPlanes(g: Grid, into: int -> int, planes: seq<int>, planes': seq<int>) {
    forall s :: 0 <= s < g.nSat ==> PlaneOf(planes, s) == PlaneOf(planes', into(s))
  }

  lemma RenumberedChangesPlane(g: Grid, into: int -> int, planes: seq<int>, planes': seq<int>, a: seq<int>)
    requires KeepsPlanes(g, into, planes, planes') && Serves(g, a) && ChangesPlane(planes, a)
    ensures ChangesPlane(planes', Renumbered(a, into))
  {
    var a' := Renumbered(a, into);
    forall t | SwitchAt(a', t)
      ensures PlanesDiffer(planes', a'[t], a'[t + 1])
    {
      assert SwitchAt(a, t) && InView(g, t, a[t]) && InView(g, t + 1, a[t + 1]);
    }
  }

  // More visibility never hurts, although runs merge and reorder, when the plane rule is off or no
  // plane can return.
  lemma VisibilityMonotone(g: Grid, g': Grid, into: int -> int,
                           planes: seq<int>, planes': seq<int>, req: Requirement)
    requires SeesMore(g, g', into)
    requires req.diffPlane ==> KeepsPlanes(g, into, planes, planes') && NoReturn(planes')
    ensures NoBetter(CellVerdict(g, planes, req), CellVerdict(g', planes', req))
  {
    forall b: nat | b >= Threshold(req) && ServableForward(g, planes, req.diffPlane, b)
      ensures ServableForward(g', planes', req.diffPlane, b)
    {
      var a :| ForwardSchedule(g, planes, req.diffPlane, a, b);
      ScheduleSeenMore(g, g', into, a, b);
      if req.diffPlane {
        RenumberedChangesPlane(g, into, planes, planes', a);
      }
      assert ServableObeying(g', planes', req.diffPlane, b);
      AllSchedulesForward(g', planes', req, b);
    }
    ServabilityOrdersVerdicts(g, planes, req, g', planes', req);
  }

  // Every satellite of g is in g', seen at the same samples.
  ghost predicate SeesSame(g: Grid, g': Grid, into: int -> int) {
    |g.rows| == |g'.rows| && forall t, s :: 0 <= s < g.nSat ==> InView(g, t, s) == InView(g', t, into(s))
  }

  lemma SteadySeenSame(g: Grid, g': Grid, into: int -> int, s: int, lo: int, hi: int)
    requires SeesSame(g, g', into) && 0 <= s < g.nSat
    ensures Steady(g, s, lo, hi) <==> Steady(g', into(s), lo, hi)
  {
  }

  lemma ForwardSeenSame(g: Grid, g': Grid, into: int -> int, a: seq<int>, b: int)
    requires SeesSame(g, g', into) && Schedule(g, a, b) && ExtendsService(g, a)
    ensures Schedule(g', Renumbered(a, into), b) && ExtendsService(g', Renumbered(a, into))
  {
    ScheduleSeenMore(g, g', into, a, b);
    var a' := Renumbered(a, into);
    forall t | SwitchAt(a', t)
      ensures Outlasts(g', a'[t], a'[t + 1], t)
    {
      assert SwitchAt(a, t) && InView(g, t, a[t]) && InView(g, t + 1, a[t + 1]);
      var u :| t <= u && Steady(g, a[t + 1], t, u) && !Steady(g, a[t], t, u);
      SteadySeenSame(g, g', into, a[t], t, u);
      SteadySeenSame(g, g', into, a[t + 1], t, u);
    }
  }

  // Adding satellites to a constellation whose passes and planes stay as they are never hurts,
  // whatever the rules.
  lemma AddedSatellitesNeverHurt(g: Grid, g': Grid, into: int -> int,
                                 planes: seq<int>, planes': seq<int>, req: Requirement)
    requires SeesSame(g, g', into) && (req.diffPlane ==> KeepsPlanes(g, into, planes, planes'))
    ensures NoBetter(CellVerdict(g, planes, req), CellVerdict(g', planes', req))
  {
    forall b: nat | b >= Threshold(req) && ServableForward(g, planes, req.diffPlane, b)
      ensures ServableForward(g', planes', req.diffPlane, b)
    {
      var a :| ForwardSchedule(g, planes, req.diffPlane, a, b);
      ForwardSeenSame(g, g', into, a, b);
      if req.diffPlane {
        RenumberedChangesPlane(g, into, planes, planes', a);
      }
      assert ForwardSchedule(g', planes', req.diffPlane, Renumbered(a, into), b);
    }
    ServabilityOrdersVerdicts(g, planes, req, g', planes', req);
  }

  // ---------- graphs that relax alike ----------

  ghost predicate Alike(gr: Graph, gr': Graph) {
    && |gr.ivs| == |gr'.ivs| && gr.inf == gr'.inf
    && (forall i :: 0 <= i < |gr.ivs| ==> gr.ivs[i].st == gr'.ivs[i].st && gr.ivs[i].en == gr'.ivs[i].en)
    && (forall i: nat, j: nat :: gr.Edge(i, j) <==> gr'.Edge(i, j))
  }

  lemma {:induction false} AlikePass(gr: Graph, gr': Graph, k: nat)
    requires Alike(gr, gr') && k <= |gr.ivs|
    ensures gr.Pass(k) == gr'.Pass(k)
  {
    if k > 0 {
      AlikePass(gr, gr', k - 1);
      forall j | 0 <= j < |gr.ivs|
        ensures gr.Pass(k)[j] == gr'.Pass(k)[j]
      {
        assert gr.Edge(k - 1, j) <==> gr'.Edge(k - 1, j);
      }
    }
  }

  ghost predicate SameLabels(gr: Graph, gr': Graph) {
    && |gr.ivs| == |gr'.ivs| && gr.Final() == gr'.Final()
    && forall i :: 0 <= i < |gr.ivs| ==> gr.ivs[i].en == gr'.ivs[i].en
  }

  lemma {:induction false} SameGoal(gr: Graph, gr': Graph, nTime: nat, k: nat)
    requires SameLabels(gr, gr') && k <= |gr.ivs|
    ensures gr.BestGoal(nTime, k) == gr'.BestGoal(nTime, k)
  {
    if k > 0 {
      SameGoal(gr, gr', nTime, k - 1);
    }
  }

  lemma AlikeVerdict(gr: Graph, gr': Graph, nTime: nat)
    requires Alike(gr, gr')
    ensures GraphVerdict(gr, nTime) == GraphVerdict(gr', nTime)
  {
    AlikePass(gr, gr', |gr.ivs|);
    SameGoal(gr, gr', nTime, |gr.ivs|);
  }

  // The different-satellite rule never changes any output: with at least one shared sample
  // demanded, two runs of one satellite are never joined anyway.
  lemma DifferentSatRuleIdle(g: Grid, planes: seq<int>, req: Requirement)
    ensures CellVerdict(g, planes, req.(diffSat := true)) == CellVerdict(g, planes, req.(diffSat := false))
  {
    var gr, gr' := GraphOf(g, planes, req.(diffSat := true)), GraphOf(g, planes, req.(diffSat := false));
    GraphDescribes(g, planes, req.(diffSat := false));
    forall i: nat, j: nat
      ensures gr.Edge(i, j) <==> gr'.Edge(i, j)
    {
      if gr'.Edge(i, j) {
        EdgeRuns(gr', g, i, j);
      }
    }
    AlikeVerdict(gr, gr', |g.rows|);
  }

  // Without the plane rule the two engines give the same verdict: planes are never looked at.
  lemma PlanesIdleWithoutRule(g: Grid, planes: seq<int>, req: Requirement)
    requires !req.diffPlane
    ensures CellVerdict(g, planes, req) == CellVerdict(g, [], req)
  {
    var gr, gr' := GraphOf(g, planes, req), GraphOf(g, [], req);
    assert forall i: nat, j: nat :: gr.Edge(i, j) <==> gr'.Edge(i, j);
    AlikeVerdict(gr, gr', |g.rows|);
  }

  // When every satellite has a known plane of its own the plane rule costs nothing.
  lemma PlaneRuleIdleOnDistinctPlanes(g: Grid, planes: seq<int>, req: Requirement)
    requires |planes| == g.nSat && forall s :: 0 <= s < |planes| ==> planes[s] >= 0
    requires forall s, s' :: 0 <= s < s' < |planes| ==> planes[s] != planes[s']
    ensures CellVerdict(g, planes, req.(diffPlane := true)) == CellVerdict(g, planes, req.(diffPlane := false))
  {
    var gr, gr' := GraphOf(g, planes, req.(diffPlane := true)), GraphOf(g, planes, req.(diffPlane := false));
    GraphDescribes(g, planes, req.(diffPlane := false));
    forall i: nat, j: nat
      ensures gr.Edge(i, j) <==> gr'.Edge(i, j)
    {
      if gr'.Edge(i, j) {
        EdgeRuns(gr', g, i, j);
        RunInWindow(g, gr.ivs[i]);
        RunInWindow(g, gr.ivs[j]);
      }
    }
    AlikeVerdict(gr, gr', |g.rows|);
  }
}
