// The different-plane rule: exactly which plane assignments leave the engine complete and monotone.
module PlaneRule {
  import opened Visibility
  import opened ServingGraph
  import opened Schedules
  import opened Continuity
  import opened ContinuityLaws

  // ---------- a cell that returns to a plane ----------

  // Satellites first and again share a plane, via is in another one.
  ghost predicate Returns(planes: seq<int>, first: nat, via: nat, again: nat) {
    && first < |planes| && via < |planes| && again < |planes|
    && first != again && planes[first] == planes[again] >= 0
    && planes[via] >= 0 && planes[via] != planes[first]
  }

  // Three passes over 2 * b + 2 samples: first until sample last, via over samples b to 2 * b and
  // again from sample b + 1 on. Nobody else is in view.
  predicate PassView(first: nat, via: nat, again: nat, b: nat, last: nat, t: int, s: int) {
    (s == first && t <= last) || (s == via && b <= t <= 2 * b) || (s == again && b + 1 <= t)
  }

  function Passes(nSat: nat, first: nat, via: nat, again: nat, b: nat, last: nat): Grid {
    Table(seq(2 * b + 2, t => seq(nSat, s => PassView(first, via, again, b, last, t, s))), nSat)
  }

  lemma PassesView(nSat: nat, first: nat, via: nat, again: nat, b: nat, last: nat)
    requires first < nSat && via < nSat && again < nSat
    ensures var g := Passes(nSat, first, via, again, b, last);
      |g.rows| == 2 * b + 2 && g.nSat == nSat
      && forall t, s :: InView(g, t, s) <==> 0 <= t < 2 * b + 2 && PassView(first, via, again, b, last, t, s)
  {
  }

  // Satellite first until sample b, via at sample b + 1, again from then on.
  function Detour(first: nat, via: nat, again: nat, b: nat): seq<int> {
    seq(2 * b + 2, t => if t <= b then first else if t == b + 1 then via else again)
  }

  lemma DetourSwitches(first: nat, via: nat, again: nat, b: nat, t: int)
    requires b >= 1 && SwitchAt(Detour(first, via, again, b), t)
    ensures t == b || t == b + 1
  {
  }

  lemma DetourInView(nSat: nat, first: nat, via: nat, again: nat, b: nat, last: nat)
    requires first < nSat && via < nSat && again < nSat && b >= 1 && b <= last
    ensures Serves(Passes(nSat, first, via, again, b, last), Detour(first, via, again, b))
  {
    PassesView(nSat, first, via, again, b, last);
  }

  // The detour obeys the plane rule and sustains b, also when first stays only to sample 2 * b - 1.
  lemma DetourServes(planes: seq<int>, first: nat, via: nat, again: nat, b: nat, last: nat)
    requires Returns(planes, first, via, again) && b >= 1 && 2 * b - 1 <= last <= 2 * b
    ensures Schedule(Passes(|planes|, first, via, again, b, last), Detour(first, via, again, b), b)
    ensures ChangesPlane(planes, Detour(first, via, again, b))
  {
    var g, a := Passes(|planes|, first, via, again, b, last), Detour(first, via, again, b);
    DetourInView(|planes|, first, via, again, b, last);
    PassesView(|planes|, first, via, again, b, last);
    forall t | SwitchAt(a, t)
      ensures SharedFor(g, a[t], a[t + 1], t, b)
    {
      DetourSwitches(first, via, again, b, t);
      if t == b {
        assert Steady(g, first, b, 2 * b - 1) && Steady(g, via, b, 2 * b - 1);
      } else {
        assert Steady(g, via, b + 1, 2 * b) && Steady(g, again, b + 1, 2 * b);
      }
    }
  }

  // With first gone before via, both switches of the detour extend service.
  lemma DetourForward(planes: seq<int>, first: nat, via: nat, again: nat, b: nat)
    requires Returns(planes, first, via, again) && b >= 1
    ensures ExtendsService(Passes(|planes|, first, via, again, b, 2 * b - 1), Detour(first, via, again, b))
  {
    var g, a := Passes(|planes|, first, via, again, b, 2 * b - 1), Detour(first, via, again, b);
    PassesView(|planes|, first, via, again, b, 2 * b - 1);
    forall t | SwitchAt(a, t)
      ensures Outlasts(g, a[t], a[t + 1], t)
    {
      DetourSwitches(first, via, again, b, t);
      if t == b {
        assert Steady(g, via, t, 2 * b) && !InView(g, 2 * b, first);
        assert !Steady(g, first, t, 2 * b);
      } else {
        assert Steady(g, again, t, 2 * b + 1) && !InView(g, 2 * b + 1, via);
        assert !Steady(g, via, t, 2 * b + 1);
      }
    }
  }

  // A switch is make-before-break: the new satellite is already in view while the old one serves.
  lemma SwitchMakesBeforeBreak(g: Grid, a: seq<int>, t: int)
    requires Sustains(g, a, 1) && SwitchAt(a, t)
    ensures InView(g, t, a[t + 1])
  {
    var lo, hi :| lo <= t <= hi && hi - lo + 1 >= 1 && Steady(g, a[t], lo, hi) && Steady(g, a[t + 1], lo, hi);
  }

  lemma NeverOutlasts(g: Grid, s: int, s': int, t: int, last: int)
    requires Steady(g, s, t, last) && !InView(g, last + 1, s') && t <= last
    ensures !Outlasts(g, s, s', t)
  {
  }

  // While first stays as long as via, a service-extending schedule that obeys the rule keeps it.
  lemma {:induction false} KeepsFirst(planes: seq<int>, first: nat, via: nat, again: nat, b: nat, a: seq<int>, t: nat)
    requires Returns(planes, first, via, again) && b >= 1 && t <= 2 * b
    requires var g := Passes(|planes|, first, via, again, b, 2 * b);
      Schedule(g, a, 1) && ExtendsService(g, a) && ChangesPlane(planes, a)
    ensures |a| == 2 * b + 2 && a[t] == first
    decreases t
  {
    var g := Passes(|planes|, first, via, again, b, 2 * b);
    PassesView(|planes|, first, via, again, b, 2 * b);
    assert InView(g, t, a[t]);
    if t > 0 {
      KeepsFirst(planes, first, via, again, b, a, t - 1);
      if a[t] != first {
        assert SwitchAt(a, t - 1);
        SwitchMakesBeforeBreak(g, a, t - 1);
        NeverOutlasts(g, first, via, t - 1, 2 * b);
      }
    }
  }

  lemma NoForwardDetour(planes: seq<int>, first: nat, via: nat, again: nat, b: nat, a: seq<int>)
    requires Returns(planes, first, via, again) && b >= 1
    requires var g := Passes(|planes|, first, via, again, b, 2 * b);
      Schedule(g, a, 1) && ExtendsService(g, a)
    ensures !ChangesPlane(planes, a)
  {
    var g := Passes(|planes|, first, via, again, b, 2 * b);
    PassesView(|planes|, first, via, again, b, 2 * b);
    if ChangesPlane(planes, a) {
      KeepsFirst(planes, first, via, again, b, a, 2 * b);
      assert InView(g, 2 * b + 1, a[2 * b + 1]);
      assert SwitchAt(a, 2 * b);
    }
  }

  // Whenever a plane can return there is a cell with a schedule obeying the rule that the engine
  // reports infeasible ...
  lemma PlaneRuleIncomplete(planes: seq<int>, first: nat, via: nat, again: nat, req: Requirement)
    requires Returns(planes, first, via, again) && req.diffPlane
    ensures var b := Threshold(req);
            var g := Passes(|planes|, first, via, again, b, 2 * b);
      && Schedule(g, Detour(first, via, again, b), b) && ChangesPlane(planes, Detour(first, via, again, b))
      && !CellVerdict(g, planes, req).feasible
  {
    var b := Threshold(req);
    var g := Passes(|planes|, first, via, again, b, 2 * b);
    DetourServes(planes, first, via, again, b, 2 * b);
    VerdictMeaning(g, planes, req);
    if a :| ForwardSchedule(g, planes, true, a, b) {
      SustainsLess(g, a, b, 1);
      NoForwardDetour(planes, first, via, again, b, a);
    }
  }

  // g' sees everything g sees.
  ghost predicate Wider(g: Grid, g': Grid) {
    |g.rows| == |g'.rows| && g.nSat == g'.nSat && forall t, s :: InView(g, t, s) ==> InView(g', t, s)
  }

  lemma LongerPassIsWider(nSat: nat, first: nat, via: nat, again: nat, b: nat, last: nat, last': nat)
    requires first < nSat && via < nSat && again < nSat && last <= last'
    ensures Wider(Passes(nSat, first, via, again, b, last), Passes(nSat, first, via, again, b, last'))
  {
    PassesView(nSat, first, via, again, b, last);
    PassesView(nSat, first, via, again, b, last');
  }

  lemma DetourFeasible(planes: seq<int>, first: nat, via: nat, again: nat, req: Requirement)
    requires Returns(planes, first, via, again) && req.diffPlane
    ensures var b := Threshold(req);
      CellVerdict(Passes(|planes|, first, via, again, b, 2 * b - 1), planes, req).feasible
  {
    var b := Threshold(req);
    DetourServes(planes, first, via, again, b, 2 * b - 1);
    DetourForward(planes, first, via, again, b);
    ScheduleIsFeasible(Passes(|planes|, first, via, again, b, 2 * b - 1), planes, req, Detour(first, via, again, b));
  }

  // ... and one that seeing satellite first one sample longer turns infeasible.
  lemma PlaneRuleNotMonotone(planes: seq<int>, first: nat, via: nat, again: nat, req: Requirement)
    requires Returns(planes, first, via, again) && req.diffPlane
    ensures var b := Threshold(req);
            var g := Passes(|planes|, first, via, again, b, 2 * b - 1);
            var g' := Passes(|planes|, first, via, again, b, 2 * b);
      && Wider(g, g') && g.nSat == |planes|
      && CellVerdict(g, planes, req).feasible && !CellVerdict(g', planes, req).feasible
  {
    var b := Threshold(req);
    LongerPassIsWider(|planes|, first, via, again, b, 2 * b - 1, 2 * b);
    DetourFeasible(planes, first, via, again, req);
    PlaneRuleIncomplete(planes, first, via, again, req);
  }

  // ---------- the exact conditions ----------

  ghost predicate AlwaysComplete(planes: seq<int>, req: Requirement) {
    forall g: Grid :: g.nSat == |planes| ==> DecidesSchedules(g, planes, req)
  }

  ghost predicate AlwaysMonotone(planes: seq<int>, req: Requirement) {
    forall g: Grid, g': Grid :: g.nSat == |planes| && Wider(g, g') ==>
      NoBetter(CellVerdict(g, planes, req), CellVerdict(g', planes, req))
  }

  lemma WhereItReturns(planes: seq<int>) returns (first: nat, via: nat, again: nat)
    requires !NoReturn(planes)
    ensures Returns(planes, first, via, again)
  {
    var s, s', m :| 0 <= s < s' < |planes| && 0 <= m < |planes|
      && planes[s] == planes[s'] && planes[s] >= 0 && planes[m] >= 0 && planes[m] != planes[s];
    first, via, again := s, m, s';
  }

  // The engine answers for all schedules obeying the plane rule exactly when no plane can return:
  // then on every cell, otherwise not on all.
  lemma CompleteIffNoReturn(planes: seq<int>, req: Requirement)
    requires req.diffPlane
    ensures AlwaysComplete(planes, req) <==> NoReturn(planes)
  {
    if NoReturn(planes) {
      forall g: Grid | g.nSat == |planes|
        ensures DecidesSchedules(g, planes, req)
      {
        CompleteWithoutReturn(g, planes, req);
      }
    } else {
      var first, via, again := WhereItReturns(planes);
      PlaneRuleIncomplete(planes, first, via, again, req);
      var b := Threshold(req);
      var g := Passes(|planes|, first, via, again, b, 2 * b);
      assert ServableObeying(g, planes, true, b);
      assert g.nSat == |planes| && !DecidesSchedules(g, planes, req);
    }
  }

  function Same(s: int): int {
    s
  }

  // More visibility never hurts under the plane rule exactly when no plane can return.
  lemma MonotoneIffNoReturn(planes: seq<int>, req: Requirement)
    requires req.diffPlane
    ensures AlwaysMonotone(planes, req) <==> NoReturn(planes)
  {
    if NoReturn(planes) {
      forall g: Grid, g': Grid | g.nSat == |planes| && Wider(g, g')
        ensures NoBetter(CellVerdict(g, planes, req), CellVerdict(g', planes, req))
      {
        VisibilityMonotone(g, g', Same, planes, planes, req);
      }
    } else {
      var first, via, again := WhereItReturns(planes);
      PlaneRuleNotMonotone(planes, first, via, again, req);
    }
  }

  // The smallest case: satellites 0 and 2 share a plane, satellite 1 has another one.
  lemma ThreeSatellites()
    ensures var (g, g') := (Passes(3, 0, 1, 2, 1, 1), Passes(3, 0, 1, 2, 1, 2));
            var (planes, req) := ([0, 1, 0], Requirement(1, true, true));
      && CellVerdict(g, planes, req).feasible && !CellVerdict(g', planes, req).feasible
      && Schedule(g', [0, 0, 1, 2], 1) && ChangesPlane(planes, [0, 0, 1, 2])
  {
    PlaneRuleNotMonotone([0, 1, 0], 0, 1, 2, Requirement(1, true, true));
    PlaneRuleIncomplete([0, 1, 0], 0, 1, 2, Requirement(1, true, true));
    assert Detour(0, 1, 2, 1) == [0, 0, 1, 2];
  }
}
