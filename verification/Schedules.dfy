// Step-by-step serving schedules, the independent meaning of make-before-break continuity, and
// their correspondence with handover paths over visibility runs.
module Schedules {
  import opened Options
  import opened Visibility
  import opened ServingGraph

  // ---------- schedules ----------

  // a[t] is the serving satellite at sample t; it is in view whenever it serves.
  ghost predicate Serves(g: Grid, a: seq<int>) {
    |a| <= |g.rows| && forall t :: 0 <= t < |a| ==> InView(g, t, a[t])
  }

  ghost predicate SwitchAt(a: seq<int>, t: int) {
    0 <= t < |a| - 1 && a[t] != a[t + 1]
  }

  // Around sample t both satellites are in view together for at least b consecutive samples.
  ghost predicate SharedFor(g: Grid, s: int, s': int, t: int, b: int) {
    exists lo, hi :: lo <= t <= hi && hi - lo + 1 >= b && Steady(g, s, lo, hi) && Steady(g, s', lo, hi)
  }

  // Every switch is make-before-break with a joint window of at least b samples.
  ghost predicate Sustains(g: Grid, a: seq<int>, b: int) {
    forall t :: SwitchAt(a, t) ==> SharedFor(g, a[t], a[t + 1], t, b)
  }

  // From sample t on, s' stays in view longer than s.
  ghost predicate Outlasts(g: Grid, s: int, s': int, t: int) {
    exists u :: t <= u && Steady(g, s', t, u) && !Steady(g, s, t, u)
  }

  // Every switch goes to a satellite that stays in view longer than the one it replaces.
  ghost predicate ExtendsService(g: Grid, a: seq<int>) {
    forall t :: SwitchAt(a, t) ==> Outlasts(g, a[t], a[t + 1], t)
  }

  ghost predicate ChangesPlane(planes: seq<int>, a: seq<int>) {
    forall t :: SwitchAt(a, t) ==> PlanesDiffer(planes, a[t], a[t + 1])
  }

  // Any two satellites of the schedule are in different known planes.
  ghost predicate AllPlanesDiffer(planes: seq<int>, a: seq<int>) {
    forall s, s' :: s in a && s' in a && s != s' ==> PlanesDiffer(planes, s, s')
  }

  // No known plane is shared by two satellites while a third one has another known plane.
  predicate NoReturn(planes: seq<int>) {
    forall s, s', m ::
      0 <= s < s' < |planes| && 0 <= m < |planes| && planes[s] == planes[s'] && planes[s] >= 0 && planes[m] >= 0 ==>
        planes[m] == planes[s]
  }

  function Handovers(a: seq<int>): nat {
    if |a| < 2 then 0
    else Handovers(a[..|a| - 1]) + if a[|a| - 2] != a[|a| - 1] then 1 else 0
  }

  // Handovers are the samples after which another satellite serves.
  lemma {:induction false} HandoversExact(a: seq<int>)
    ensures Handovers(a) == |set t | 0 <= t < |a| && SwitchAt(a, t)|
    decreases |a|
  {
    var switches := set t | 0 <= t < |a| && SwitchAt(a, t);
    if |a| < 2 {
      assert switches == {};
    } else {
      var init := a[..|a| - 1];
      HandoversExact(init);
      var before := set t | 0 <= t < |init| && SwitchAt(init, t);
      assert switches == if a[|a| - 2] != a[|a| - 1] then before + {|a| - 2} else before;
    }
  }

  // The graph holds exactly the runs of the matrix, sorted by end.
  ghost predicate Describes(gr: Graph, g: Grid) {
    && (forall iv :: iv in gr.ivs <==> MaximalRun(g, iv))
    && SortedByEnd(gr.ivs)
    && gr.inf == |g.rows| + 1
  }

  // ---------- joint windows are overlaps of runs ----------

  lemma SteadyInsideRun(g: Grid, x: Interval, t: int, lo: int, hi: int)
    requires MaximalRun(g, x) && Covers(x, t, x.sat)
    requires lo <= t <= hi && Steady(g, x.sat, lo, hi)
    ensures x.st <= lo && hi <= x.en
  {
    assert !(lo <= x.st - 1 <= hi) && !(lo <= x.en + 1 <= hi);
  }

  lemma SharedIsOverlap(g: Grid, x: Interval, y: Interval, t: int, b: int)
    requires MaximalRun(g, x) && Covers(x, t, x.sat)
    requires MaximalRun(g, y) && Covers(y, t, y.sat)
    ensures SharedFor(g, x.sat, y.sat, t, b) <==> Overlap(x, y) >= b
  {
    if SharedFor(g, x.sat, y.sat, t, b) {
      var lo, hi :| lo <= t <= hi && hi - lo + 1 >= b && Steady(g, x.sat, lo, hi) && Steady(g, y.sat, lo, hi);
      SteadyInsideRun(g, x, t, lo, hi);
      SteadyInsideRun(g, y, t, lo, hi);
    }
    if Overlap(x, y) >= b {
      var lo, hi := Max(x.st, y.st), Min(x.en, y.en);
      assert Steady(g, x.sat, lo, hi) && Steady(g, y.sat, lo, hi);
    }
  }

  lemma OutlastsIsLaterEnd(g: Grid, x: Interval, y: Interval, t: int)
    requires MaximalRun(g, x) && Covers(x, t, x.sat)
    requires MaximalRun(g, y) && Covers(y, t, y.sat)
    ensures Outlasts(g, x.sat, y.sat, t) <==> x.en < y.en
  {
    if Outlasts(g, x.sat, y.sat, t) {
      var u :| t <= u && Steady(g, y.sat, t, u) && !Steady(g, x.sat, t, u);
      SteadyInsideRun(g, y, t, t, u);
    }
    if x.en < y.en {
      assert Steady(g, y.sat, t, y.en);
      assert !InView(g, x.en + 1, x.sat);
      assert !Steady(g, x.sat, t, y.en);
    }
  }

  // ---------- from paths to schedules ----------

  lemma RunInWindow(g: Grid, x: Interval)
    requires MaximalRun(g, x)
    ensures 0 <= x.st <= x.en < |g.rows| && 0 <= x.sat < g.nSat
  {
    assert InView(g, x.st, x.sat) && InView(g, x.en, x.sat);
  }

  lemma EdgeRuns(gr: Graph, g: Grid, i: nat, j: nat)
    requires Describes(gr, g) && gr.Edge(i, j)
    ensures MaximalRun(g, gr.ivs[i]) && MaximalRun(g, gr.ivs[j])
    ensures gr.ivs[i].sat != gr.ivs[j].sat
    ensures gr.ivs[j].st <= gr.ivs[i].en < gr.ivs[j].en
    ensures Overlap(gr.ivs[i], gr.ivs[j]) < gr.inf
  {
    var x, y := gr.ivs[i], gr.ivs[j];
    assert x in gr.ivs && y in gr.ivs;
    RunInWindow(g, x);
    RunInWindow(g, y);
    if x.sat == y.sat {
      RunsOfOneSatDisjoint(g, x, y);
    }
  }

  lemma {:induction false} PathAboveThreshold(gr: Graph, g: Grid, p: seq<nat>)
    requires Describes(gr, g) && gr.Path(p)
    ensures if |p| == 1 then gr.Bottleneck(p) == gr.inf
            else Threshold(gr.req) <= gr.Bottleneck(p) < gr.inf
    decreases |p|
  {
    if |p| > 1 {
      PathAboveThreshold(gr, g, p[..|p| - 1]);
      EdgeRuns(gr, g, p[|p| - 2], p[|p| - 1]);
    }
  }

  // The schedule a continued by n samples of satellite s.
  ghost function Continued(a: seq<int>, s: int, n: nat): seq<int> {
    a + seq(n, _ => s)
  }

  lemma SwitchesOfContinued(a: seq<int>, s: int, n: nat, t: int)
    requires a != [] && n > 0 && SwitchAt(Continued(a, s, n), t)
    ensures var a' := Continued(a, s, n);
      if t == |a| - 1 then a'[t] == a[t] && a'[t + 1] == s
      else SwitchAt(a, t) && a'[t] == a[t] && a'[t + 1] == a[t + 1]
  {
  }

  lemma {:induction false} HandoversOfContinued(a: seq<int>, s: int, n: nat)
    requires a != [] && a[|a| - 1] != s && n > 0
    ensures Handovers(Continued(a, s, n)) == Handovers(a) + 1
    decreases n
  {
    var a' := Continued(a, s, n);
    if n == 1 {
      assert a'[..|a'| - 1] == a;
    } else {
      assert a'[..|a'| - 1] == Continued(a, s, n - 1);
      HandoversOfContinued(a, s, n - 1);
    }
  }

  lemma {:induction false} HandoversConstant(s: int, n: nat)
    ensures Handovers(seq(n, _ => s)) == 0
  {
    if n >= 2 {
      assert seq(n, _ => s)[..n - 1] == seq(n - 1, _ => s);
      HandoversConstant(s, n - 1);
    }
  }

  // Service by run x up to its end, then by an overlapping run y up to its end.
  lemma ExtendSchedule(g: Grid, a: seq<int>, x: Interval, y: Interval, b: int)
    requires MaximalRun(g, x) && MaximalRun(g, y) && 0 <= y.st <= x.en < y.en
    requires Overlap(x, y) >= b && |a| == x.en + 1 && a[x.en] == x.sat
    requires Serves(g, a) && Sustains(g, a, b) && ExtendsService(g, a)
    ensures var a' := Continued(a, y.sat, y.en - x.en);
      Serves(g, a') && Sustains(g, a', b) && ExtendsService(g, a')
  {
    RunInWindow(g, y);
    var a' := Continued(a, y.sat, y.en - x.en);
    forall t | SwitchAt(a', t)
      ensures SharedFor(g, a'[t], a'[t + 1], t, b) && Outlasts(g, a'[t], a'[t + 1], t)
    {
      SwitchesOfContinued(a, y.sat, y.en - x.en, t);
      if t == x.en {
        SharedIsOverlap(g, x, y, x.en, b);
        OutlastsIsLaterEnd(g, x, y, x.en);
      }
    }
  }

  lemma ExtendChangesPlane(planes: seq<int>, a: seq<int>, s: int, n: nat)
    requires a != [] && n > 0 && ChangesPlane(planes, a)
    requires PlanesDiffer(planes, a[|a| - 1], s)
    ensures ChangesPlane(planes, Continued(a, s, n))
  {
    forall t | SwitchAt(Continued(a, s, n), t)
      ensures PlanesDiffer(planes, Continued(a, s, n)[t], Continued(a, s, n)[t + 1])
    {
      SwitchesOfContinued(a, s, n, t);
    }
  }

  // a serves up to the end of the path's last run.
  ghost predicate EndsWith(a: seq<int>, x: Interval) {
    |a| == x.en + 1 && |a| > 0 && a[x.en] == x.sat
  }

  // Walking one edge: the schedule goes on with the next run up to its end.
  lemma WalkEdge(gr: Graph, g: Grid, i: nat, j: nat, a0: seq<int>, b: int) returns (a: seq<int>)
    requires Describes(gr, g) && gr.Edge(i, j) && b <= Overlap(gr.ivs[i], gr.ivs[j])
    requires Serves(g, a0) && Sustains(g, a0, b) && ExtendsService(g, a0) && EndsWith(a0, gr.ivs[i])
    requires gr.req.diffPlane ==> ChangesPlane(gr.planes, a0)
    ensures Serves(g, a) && Sustains(g, a, b) && ExtendsService(g, a) && EndsWith(a, gr.ivs[j])
    ensures gr.req.diffPlane ==> ChangesPlane(gr.planes, a)
    ensures Handovers(a) == Handovers(a0) + 1
  {
    var x, y := gr.ivs[i], gr.ivs[j];
    EdgeRuns(gr, g, i, j);
    RunInWindow(g, y);
    a := Continued(a0, y.sat, y.en - x.en);
    ExtendSchedule(g, a0, x, y, b);
    HandoversOfContinued(a0, y.sat, y.en - x.en);
    if gr.req.diffPlane {
      ExtendChangesPlane(gr.planes, a0, y.sat, y.en - x.en);
    }
  }

  // A path is walked by a schedule with one handover per edge, each at the end of the older run.
  lemma {:induction false} PathSchedule(gr: Graph, g: Grid, p: seq<nat>, b: int) returns (a: seq<int>)
    requires Describes(gr, g) && gr.Path(p)
    requires |p| == 1 || b <= gr.Bottleneck(p)
    ensures Serves(g, a) && Sustains(g, a, b) && ExtendsService(g, a)
    ensures EndsWith(a, gr.ivs[gr.Last(p)])
    ensures gr.req.diffPlane ==> ChangesPlane(gr.planes, a)
    ensures Handovers(a) == |p| - 1
    decreases |p|
  {
    var y := gr.ivs[gr.Last(p)];
    assert y in gr.ivs;
    RunInWindow(g, y);
    if |p| == 1 {
      a := seq(y.en + 1, _ => y.sat);
      HandoversConstant(y.sat, y.en + 1);
    } else {
      var a0 := PathSchedule(gr, g, p[..|p| - 1], b);
      a := WalkEdge(gr, g, gr.Last(p[..|p| - 1]), gr.Last(p), a0, b);
    }
  }

  // ---------- from schedules to paths ----------

  lemma SourcePath(gr: Graph, g: Grid, s: int) returns (p: seq<nat>)
    requires Describes(gr, g) && InView(g, 0, s)
    ensures gr.Path(p) && gr.Bottleneck(p) == gr.inf && Covers(gr.ivs[gr.Last(p)], 0, s)
  {
    var x := RunAt(g, 0, s);
    assert x in gr.ivs;
    var i :| 0 <= i < |gr.ivs| && gr.ivs[i] == x;
    p := [i];
  }

  lemma ExtendPath(gr: Graph, g: Grid, p: seq<nat>, z: Interval, b: nat) returns (p': seq<nat>)
    requires Describes(gr, g) && gr.Path(p) && MaximalRun(g, z)
    requires gr.Bottleneck(p) >= Min(b, gr.inf)
    requires Allowed(gr.ivs[gr.Last(p)], z, gr.planes, gr.req) && Overlap(gr.ivs[gr.Last(p)], z) >= b
    ensures gr.Path(p') && gr.ivs[gr.Last(p')] == z
    ensures gr.Bottleneck(p') >= Min(b, gr.inf)
  {
    assert z in gr.ivs;
    var j :| 0 <= j < |gr.ivs| && gr.ivs[j] == z;
    p' := p + [j];
    assert p'[..|p'| - 1] == p;
  }

  // The step common to both directions: old run x, new run z, joint at the switch sample.
  lemma SwitchRuns(g: Grid, a: seq<int>, b: nat) returns (x: Interval, z: Interval)
    requires Serves(g, a) && Sustains(g, a, b) && |a| >= 2
    ensures MaximalRun(g, x) && Covers(x, |a| - 2, a[|a| - 2])
    ensures MaximalRun(g, z) && Covers(z, |a| - 1, a[|a| - 1])
    ensures a[|a| - 2] == a[|a| - 1] ==> x == z
    ensures a[|a| - 2] != a[|a| - 1] ==> Covers(z, |a| - 2, z.sat) && Overlap(x, z) >= b
    ensures a[|a| - 2] != a[|a| - 1] && ExtendsService(g, a) ==> x.en < z.en
  {
    var t := |a| - 2;
    x := RunAt(g, t, a[t]);
    z := RunAt(g, t + 1, a[t + 1]);
    if a[t] == a[t + 1] {
      RunsOfOneSatDisjoint(g, x, z);
    } else {
      assert SwitchAt(a, t);
      var lo, hi :| lo <= t <= hi && hi - lo + 1 >= b && Steady(g, a[t], lo, hi) && Steady(g, a[t + 1], lo, hi);
      var z' := RunAt(g, t, a[t + 1]);
      RunsOfOneSatDisjoint(g, z, z');
      SharedIsOverlap(g, x, z, t, b);
      if ExtendsService(g, a) {
        OutlastsIsLaterEnd(g, x, z, t);
      }
    }
  }

  lemma PrefixSchedule(g: Grid, a: seq<int>, b: int)
    requires |a| >= 2 && Serves(g, a) && Sustains(g, a, b)
    ensures var a' := a[..|a| - 1];
      && Serves(g, a') && Sustains(g, a', b)
      && (ExtendsService(g, a) ==> ExtendsService(g, a'))
      && (forall planes: seq<int> :: ChangesPlane(planes, a) ==> ChangesPlane(planes, a'))
  {
    var a' := a[..|a| - 1];
    assert forall t :: SwitchAt(a', t) ==> SwitchAt(a, t);
  }

  // A schedule whose switches all extend service is followed run by run.
  lemma {:induction false} FollowForward(gr: Graph, g: Grid, a: seq<int>, b: nat) returns (p: seq<nat>)
    requires Describes(gr, g) && a != [] && b >= Threshold(gr.req)
    requires Serves(g, a) && Sustains(g, a, b) && ExtendsService(g, a)
    requires gr.req.diffPlane ==> ChangesPlane(gr.planes, a)
    ensures gr.Path(p) && gr.Bottleneck(p) >= Min(b, gr.inf)
    ensures Covers(gr.ivs[gr.Last(p)], |a| - 1, a[|a| - 1])
    decreases |a|
  {
    if |a| == 1 {
      p := SourcePath(gr, g, a[0]);
    } else {
      var t := |a| - 2;
      PrefixSchedule(g, a, b);
      p := FollowForward(gr, g, a[..t + 1], b);
      var x, z := SwitchRuns(g, a, b);
      assert gr.ivs[gr.Last(p)] in gr.ivs;
      RunsOfOneSatDisjoint(g, gr.ivs[gr.Last(p)], x);
      if a[t] != a[t + 1] {
        assert SwitchAt(a, t);
        p := ExtendPath(gr, g, p, z, b);
      }
    }
  }

  // A path's last run that ends no earlier than the serving run, and is either that run or long
  // enough to share b samples with whatever it can hand over to.
  ghost predicate Dominates(y: Interval, x: Interval, b: nat) {
    y == x || (x.en <= y.en && y.en - y.st + 1 >= b)
  }

  // The serving run x hands over to z, which outlasts the path's last run: so can the path.
  lemma ExchangeStep(gr: Graph, g: Grid, p: seq<nat>, x: Interval, z: Interval, b: nat) returns (p': seq<nat>)
    requires Describes(gr, g) && gr.Path(p) && gr.Bottleneck(p) >= Min(b, gr.inf) && b >= Threshold(gr.req)
    requires MaximalRun(g, x) && MaximalRun(g, z) && Overlap(x, z) >= b
    requires Dominates(gr.ivs[gr.Last(p)], x, b) && gr.ivs[gr.Last(p)].en < z.en
    requires gr.req.diffPlane ==>
      gr.ivs[gr.Last(p)].sat == z.sat || PlanesDiffer(gr.planes, gr.ivs[gr.Last(p)].sat, z.sat)
    ensures gr.Path(p') && gr.Bottleneck(p') >= Min(b, gr.inf) && gr.ivs[gr.Last(p')] == z
  {
    var y := gr.ivs[gr.Last(p)];
    assert y in gr.ivs;
    assert Overlap(y, z) >= b;
    if y.sat == z.sat {
      RunsOfOneSatDisjoint(g, y, z);
    }
    p' := ExtendPath(gr, g, p, z, b);
  }

  // A path dominates a schedule: it is as wide, uses only its satellites, and its last run dominates
  // the run x that serves last.
  ghost predicate Follows(gr: Graph, g: Grid, a: seq<int>, b: nat, p: seq<nat>, x: Interval) {
    && a != [] && gr.Path(p) && gr.Bottleneck(p) >= Min(b, gr.inf) && gr.ivs[gr.Last(p)].sat in a
    && MaximalRun(g, x) && Covers(x, |a| - 1, a[|a| - 1])
    && Dominates(gr.ivs[gr.Last(p)], x, b)
  }

  // One more sample of the schedule.
  lemma FollowNext(gr: Graph, g: Grid, a: seq<int>, b: nat, p0: seq<nat>, x0: Interval)
    returns (p: seq<nat>, x: Interval)
    requires Describes(gr, g) && |a| >= 2 && b >= Threshold(gr.req)
    requires Serves(g, a) && Sustains(g, a, b)
    requires gr.req.diffPlane ==> AllPlanesDiffer(gr.planes, a)
    requires Follows(gr, g, a[..|a| - 1], b, p0, x0)
    ensures Follows(gr, g, a, b, p, x)
  {
    PrefixMembers(a);
    var w, z := SwitchRuns(g, a, b);
    RunsOfOneSatDisjoint(g, w, x0);
    p, x := p0, z;
    if a[|a| - 2] != a[|a| - 1] && gr.ivs[gr.Last(p0)].en < z.en {
      p := ExchangeStep(gr, g, p0, x0, z, b);
    }
  }

  // Exchange: any schedule is dominated by a path of strictly later ends, as long as the plane rule
  // is off or tells all its satellites apart.
  lemma {:induction false} FollowAny(gr: Graph, g: Grid, a: seq<int>, b: nat)
    returns (p: seq<nat>, x: Interval)
    requires Describes(gr, g) && a != [] && b >= Threshold(gr.req)
    requires Serves(g, a) && Sustains(g, a, b)
    requires gr.req.diffPlane ==> AllPlanesDiffer(gr.planes, a)
    ensures Follows(gr, g, a, b, p, x)
    decreases |a|
  {
    if |a| == 1 {
      p := SourcePath(gr, g, a[0]);
      x := gr.ivs[gr.Last(p)];
      assert x in gr.ivs;
    } else {
      PrefixSchedule(g, a, b);
      PrefixMembers(a);
      p, x := FollowAny(gr, g, a[..|a| - 1], b);
      p, x := FollowNext(gr, g, a, b, p, x);
    }
  }

  lemma PrefixMembers(a: seq<int>)
    requires a != []
    ensures forall s :: s in a <==> s in a[..|a| - 1] || s == a[|a| - 1]
  {
    assert a == a[..|a| - 1] + [a[|a| - 1]];
  }

  // ---------- the serving theorem ----------

  // Full schedules obeying the requirement at overlap b.
  ghost predicate Schedule(g: Grid, a: seq<int>, b: int) {
    |a| == |g.rows| > 0 && Serves(g, a) && Sustains(g, a, b)
  }

  ghost predicate ForwardSchedule(g: Grid, planes: seq<int>, diffPlane: bool, a: seq<int>, b: int) {
    Schedule(g, a, b) && ExtendsService(g, a) && (diffPlane ==> ChangesPlane(planes, a))
  }

  ghost predicate WidePath(gr: Graph, g: Grid, p: seq<nat>, b: int) {
    gr.FullPath(|g.rows|, p) && gr.Bottleneck(p) >= Min(b, gr.inf)
  }

  lemma FullPathSchedule(gr: Graph, g: Grid, p: seq<nat>, b: int) returns (a: seq<int>)
    requires Describes(gr, g) && gr.FullPath(|g.rows|, p)
    requires |p| == 1 || b <= gr.Bottleneck(p)
    ensures ForwardSchedule(g, gr.planes, gr.req.diffPlane, a, b) && Handovers(a) == |p| - 1
  {
    a := PathSchedule(gr, g, p, b);
    assert gr.ivs[gr.Last(p)] in gr.ivs;
    RunInWindow(g, gr.ivs[gr.Last(p)]);
  }

  ghost predicate HasPath(gr: Graph, g: Grid, b: int) {
    exists p :: WidePath(gr, g, p, b)
  }

  // Some schedule serves the window with every joint window at least b samples long.
  ghost predicate Servable(g: Grid, b: int) {
    exists a :: Schedule(g, a, b)
  }

  // The same, every switch changing plane if asked.
  ghost predicate ServableObeying(g: Grid, planes: seq<int>, diffPlane: bool, b: int) {
    exists a :: Schedule(g, a, b) && (diffPlane ==> ChangesPlane(planes, a))
  }

  // The same, every switch also extending service.
  ghost predicate ServableForward(g: Grid, planes: seq<int>, diffPlane: bool, b: int) {
    exists a :: ForwardSchedule(g, planes, diffPlane, a, b)
  }

  // Under any rules: paths are exactly the schedules in which every switch extends service.
  lemma ForwardSchedulesArePaths(gr: Graph, g: Grid, b: nat)
    requires Describes(gr, g) && b >= Threshold(gr.req)
    ensures HasPath(gr, g, b) <==> ServableForward(g, gr.planes, gr.req.diffPlane, b)
  {
    if p :| WidePath(gr, g, p, b) {
      PathAboveThreshold(gr, g, p);
      var a := FullPathSchedule(gr, g, p, b);
    }
    if a :| ForwardSchedule(g, gr.planes, gr.req.diffPlane, a, b) {
      var p := FollowForward(gr, g, a, b);
      assert WidePath(gr, g, p, b);
    }
  }

  // ---------- when planes tell satellites apart ----------

  // Between two different satellites the first one is left ...
  lemma {:induction false} Leaves(a: seq<int>, t: int, t': int) returns (u: int)
    requires 0 <= t < t' < |a| && a[t] != a[t']
    ensures SwitchAt(a, u) && a[u] == a[t]
    decreases t' - t
  {
    u := t;
    if a[t + 1] == a[t] {
      u := Leaves(a, t + 1, t');
    }
  }

  // ... and the second one is entered.
  lemma {:induction false} Enters(a: seq<int>, t: int, t': int) returns (u: int)
    requires 0 <= t < t' < |a| && a[t] != a[t']
    ensures SwitchAt(a, u) && a[u + 1] == a[t']
    decreases t' - t
  {
    u := t' - 1;
    if a[t' - 1] == a[t'] {
      u := Enters(a, t, t' - 1);
    }
  }

  // A schedule that changes plane at every switch never comes back to a plane.
  lemma NoReturnSeparates(planes: seq<int>, a: seq<int>)
    requires NoReturn(planes) && ChangesPlane(planes, a)
    ensures AllPlanesDiffer(planes, a)
  {
    forall t: nat, t': nat | t < t' < |a| && a[t] != a[t']
      ensures PlanesDiffer(planes, a[t], a[t'])
    {
      var u := Leaves(a, t, t');
      var v := Enters(a, t, t');
      assert PlanesDiffer(planes, a[u], a[u + 1]) && PlanesDiffer(planes, a[v], a[v + 1]);
    }
  }

  // The later-end filter loses nothing when the plane rule is off or never lets a plane return:
  // paths are exactly the schedules.
  lemma SchedulesArePaths(gr: Graph, g: Grid, b: nat)
    requires Describes(gr, g) && b >= Threshold(gr.req)
    requires gr.req.diffPlane ==> NoReturn(gr.planes)
    ensures HasPath(gr, g, b) <==> ServableObeying(g, gr.planes, gr.req.diffPlane, b)
  {
    if p :| WidePath(gr, g, p, b) {
      PathAboveThreshold(gr, g, p);
      var a := FullPathSchedule(gr, g, p, b);
      assert Schedule(g, a, b);
    }
    if a :| Schedule(g, a, b) && (gr.req.diffPlane ==> ChangesPlane(gr.planes, a)) {
      if gr.req.diffPlane {
        NoReturnSeparates(gr.planes, a);
      }
      var p, x := FollowAny(gr, g, a, b);
      assert WidePath(gr, g, p, b);
    }
  }
}
