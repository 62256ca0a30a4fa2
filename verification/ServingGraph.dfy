// The handover graph over visibility runs and the widest-path labels of the single forward pass.
module ServingGraph {
  import opened Options
  import opened Visibility

  datatype Requirement = Requirement(minOverlapSteps: int, diffSat: bool, diffPlane: bool)

  // The overlap threshold is floored at one shared sample.
  function Threshold(req: Requirement): nat {
    Max(req.minOverlapSteps, 1)
  }

  function Overlap(x: Interval, y: Interval): int {
    Min(x.en, y.en) - Max(x.st, y.st) + 1
  }

  // -1 (any negative number) stands for an unknown plane.
  function PlaneOf(planes: seq<int>, s: int): int {
    if 0 <= s < |planes| then planes[s] else -1
  }

  predicate PlanesDiffer(planes: seq<int>, s: int, s': int) {
    PlaneOf(planes, s) >= 0 && PlaneOf(planes, s') >= 0 && PlaneOf(planes, s) != PlaneOf(planes, s')
  }

  // A handover from run x to run y, under the rules in force.
  predicate Allowed(x: Interval, y: Interval, planes: seq<int>, req: Requirement) {
    && x.en < y.en
    && (req.diffSat ==> x.sat != y.sat)
    && (req.diffPlane ==> PlanesDiffer(planes, x.sat, y.sat))
    && Overlap(x, y) >= Threshold(req)
  }

  predicate SortedByEnd(ivs: seq<Interval>) {
    forall i, j :: 0 <= i < j < |ivs| ==> ivs[i].en <= ivs[j].en
  }

  // hops is meaningful only once best is known
  datatype Label = Label(best: Option<nat>, hops: nat)

  // Relaxing one edge: a strictly wider bottleneck replaces the label.
  function Relax(from: Label, to: Label, overlap: nat): Label {
    if from.best.None? then to else
      var cand := if from.best.value < overlap then from.best.value else overlap;
      if to.best.None? || cand > to.best.value then Label(Some(cand), from.hops + 1) else to
  }

  // a is no wider than b; an unreached label is below every reached one.
  predicate NoWider(a: Option<nat>, b: Option<nat>) {
    a.Some? ==> b.Some? && a.value <= b.value
  }

  // inf is the bottleneck of a path without handover
  datatype Graph = Graph(ivs: seq<Interval>, inf: nat, planes: seq<int>, req: Requirement) {

    predicate Edge(i: nat, j: nat) {
      i < |ivs| && j < |ivs| && Allowed(ivs[i], ivs[j], planes, req)
    }

    function Sources(): seq<Label> {
      seq(|ivs|, i requires 0 <= i < |ivs| =>
        if ivs[i].st <= 0 then Label(Some(inf), 0) else Label(None, 0))
    }

    // Relaxes every edge leaving interval i towards a later list position.
    function RelaxedLabel(labels: seq<Label>, i: nat, j: nat): Label
      requires i < |labels| == |ivs| && j < |ivs|
    {
      if i < j && Edge(i, j) then Relax(labels[i], labels[j], Overlap(ivs[i], ivs[j])) else labels[j]
    }

    function RelaxFrom(labels: seq<Label>, i: nat): seq<Label>
      requires i < |labels| == |ivs|
    {
      seq(|ivs|, j requires 0 <= j < |ivs| => RelaxedLabel(labels, i, j))
    }

    // Labels once the edges of the first k intervals have been relaxed.
    function Pass(k: nat): (labels: seq<Label>)
      requires k <= |ivs|
      ensures |labels| == |ivs|
    {
      if k == 0 then Sources() else RelaxFrom(Pass(k - 1), k - 1)
    }

    function Final(): (labels: seq<Label>)
      ensures |labels| == |ivs|
    {
      Pass(|ivs|)
    }

    // ---------- paths, independently of the pass ----------

    // A handover path: list positions, from a run in view at the first sample along edges.
    predicate Path(p: seq<nat>) {
      && p != []
      && p[|p| - 1] < |ivs|
      && if |p| == 1 then ivs[p[0]].st <= 0
         else Path(p[..|p| - 1]) && Edge(p[|p| - 2], p[|p| - 1])
    }

    function Last(p: seq<nat>): nat
      requires p != []
    {
      p[|p| - 1]
    }

    // The smallest overlap on the path, inf when it has no handover.
    function Bottleneck(p: seq<nat>): (w: nat)
      requires Path(p)
      ensures w <= inf
    {
      if |p| == 1 then inf
      else Min(Bottleneck(p[..|p| - 1]), Overlap(ivs[p[|p| - 2]], ivs[Last(p)]))
    }

    // ---------- the forward pass is optimal ----------

    lemma EdgesGoForward(i: nat, j: nat)
      requires SortedByEnd(ivs) && Edge(i, j)
      ensures i < j
    {
    }

    // A label stops changing once its own turn has come.
    lemma {:induction false} Frozen(k: nat, i: nat)
      requires i <= k <= |ivs| && i < |ivs|
      ensures Pass(k)[i] == Pass(i)[i]
    {
      if i < k {
        Frozen(k - 1, i);
      }
    }

    lemma {:induction false} LabelsGrow(k: nat, l: nat, j: nat)
      requires k <= l <= |ivs| && j < |ivs|
      ensures NoWider(Pass(k)[j].best, Pass(l)[j].best)
    {
      if k < l {
        LabelsGrow(k, l - 1, j);
      }
    }

    // Soundness: every label belongs to a path with that bottleneck and that many handovers.
    lemma {:induction false} LabelHasPath(k: nat, j: nat) returns (p: seq<nat>)
      requires k <= |ivs| && j < |ivs| && Pass(k)[j].best.Some?
      ensures Path(p) && Last(p) == j
      ensures Bottleneck(p) == Pass(k)[j].best.value
      ensures |p| == Pass(k)[j].hops + 1
      decreases k
    {
      if k == 0 {
        p := [j];
      } else if Pass(k)[j] == Pass(k - 1)[j] {
        p := LabelHasPath(k - 1, j);
      } else {
        var q := LabelHasPath(k - 1, k - 1);
        p := q + [j];
        assert p[..|p| - 1] == q;
      }
    }

    // Completeness: no path is wider than the label of its last interval.
    lemma {:induction false} LabelBoundsPath(p: seq<nat>)
      requires SortedByEnd(ivs) && Path(p)
      ensures NoWider(Some(Bottleneck(p)), Final()[Last(p)].best)
      decreases |p|
    {
      var j, m := Last(p), |ivs|;
      if |p| == 1 {
        LabelsGrow(0, m, j);
      } else {
        var q := p[..|p| - 1];
        var i := Last(q);
        LabelBoundsPath(q);
        EdgesGoForward(i, j);
        Frozen(m, i);
        LabelsGrow(i + 1, m, j);
      }
    }

    // The single pass finds, for every interval, the widest path ending there.
    lemma ForwardPassOptimal(j: nat)
      requires SortedByEnd(ivs) && j < |ivs|
      ensures Final()[j].best.Some? <==> exists p :: Path(p) && Last(p) == j
      ensures Final()[j].best.Some? ==>
        exists p :: Path(p) && Last(p) == j && Bottleneck(p) == Final()[j].best.value
                    && |p| == Final()[j].hops + 1
      ensures forall p :: Path(p) && Last(p) == j ==>
        NoWider(Some(Bottleneck(p)), Final()[j].best)
    {
      if Final()[j].best.Some? {
        var p := LabelHasPath(|ivs|, j);
      }
      forall p | Path(p) && Last(p) == j
        ensures NoWider(Some(Bottleneck(p)), Final()[j].best)
      {
        LabelBoundsPath(p);
      }
    }

    // ---------- which of several widest paths is counted ----------

    // A handover from run i to run j once run i has its final label.
    predicate Offers(i: nat, j: nat) {
      Edge(i, j) && Final()[i].best.Some?
    }

    // The bottleneck run i offers to run j.
    function Offer(i: nat, j: nat): int
      requires Offers(i, j)
    {
      Min(Final()[i].best.value, Overlap(ivs[i], ivs[j]))
    }

    // Among the first k runs, i is the first to offer the widest bottleneck to j.
    ghost predicate FirstWidest(k: nat, i: nat, j: nat) {
      && i < k && Offers(i, j)
      && (forall i': nat :: i' < i && Offers(i', j) ==> Offer(i', j) < Offer(i, j))
      && (forall i': nat :: i' < k && Offers(i', j) ==> Offer(i', j) <= Offer(i, j))
    }

    // A run in view at the first sample keeps its own label; any other follows the first widest offer.
    ghost predicate FollowsFirst(k: nat, mark: Label, j: nat)
      requires j < |ivs|
    {
      if ivs[j].st <= 0 then mark == Label(Some(inf), 0)
      else if mark.best.None? then forall i: nat :: i < k ==> !Offers(i, j)
      else exists i: nat :: FirstWidest(k, i, j) && mark == Label(Some(Offer(i, j)), Final()[i].hops + 1)
    }

    lemma {:induction false} LabelsBounded(k: nat, j: nat)
      requires k <= |ivs| && j < |ivs| && Pass(k)[j].best.Some?
      ensures Pass(k)[j].best.value <= inf
    {
      var p := LabelHasPath(k, j);
    }

    // Relaxing the edges of run k, seen from run j.
    lemma NextLabel(k: nat, j: nat)
      requires SortedByEnd(ivs) && k < |ivs| && j < |ivs|
      ensures Pass(k + 1)[j] ==
        if Offers(k, j) && (Pass(k)[j].best.None? || Offer(k, j) > Pass(k)[j].best.value)
        then Label(Some(Offer(k, j)), Final()[k].hops + 1) else Pass(k)[j]
      ensures Offers(k, j) ==> 0 <= Offer(k, j) <= inf
    {
      Frozen(|ivs|, k);
      if Offers(k, j) {
        EdgesGoForward(k, j);
        LabelsBounded(k, k);
      }
    }

    lemma FollowsFirstStep(k: nat, j: nat)
      requires SortedByEnd(ivs) && k < |ivs| && j < |ivs| && FollowsFirst(k, Pass(k)[j], j)
      ensures FollowsFirst(k + 1, Pass(k + 1)[j], j)
    {
      NextLabel(k, j);
      MoreOffers(k, Pass(k)[j], Pass(k + 1)[j], j);
    }

    // One more run to choose from.
    lemma MoreOffers(k: nat, was: Label, now: Label, j: nat)
      requires j < |ivs| && FollowsFirst(k, was, j)
      requires Offers(k, j) ==> 0 <= Offer(k, j) <= inf
      requires now == if Offers(k, j) && (was.best.None? || Offer(k, j) > was.best.value)
                      then Label(Some(Offer(k, j)), Final()[k].hops + 1) else was
      ensures FollowsFirst(k + 1, now, j)
    {
      if ivs[j].st > 0 && was.best.Some? {
        var i: nat :| FirstWidest(k, i, j) && was == Label(Some(Offer(i, j)), Final()[i].hops + 1);
        assert FirstWidest(k + 1, if now == was then i else k, j);
      } else if ivs[j].st > 0 && Offers(k, j) {
        assert FirstWidest(k + 1, k, j);
      }
    }

    lemma {:induction false} LabelFollowsFirst(k: nat, j: nat)
      requires SortedByEnd(ivs) && k <= |ivs| && j < |ivs|
      ensures FollowsFirst(k, Pass(k)[j], j)
    {
      if k > 0 {
        LabelFollowsFirst(k - 1, j);
        FollowsFirstStep(k - 1, j);
      }
    }

    // ---------- picking the goal ----------

    predicate Goal(nTime: nat, j: nat)
      requires j < |ivs|
    {
      Final()[j].best.Some? && ivs[j].en >= nTime - 1
    }

    // The first goal of widest mark among the first k intervals.
    function BestGoal(nTime: nat, k: nat): (r: Option<nat>)
      requires k <= |ivs|
      ensures r.Some? ==> r.value < k && Goal(nTime, r.value)
      ensures forall j: nat :: j < k && Goal(nTime, j) ==>
        r.Some? && Final()[j].best.value <= Final()[r.value].best.value
      ensures r.Some? ==> forall j: nat :: j < r.value && Goal(nTime, j) ==>
        Final()[j].best.value < Final()[r.value].best.value
    {
      if k == 0 then None else
        var prev := BestGoal(nTime, k - 1);
        if !Goal(nTime, k - 1) then prev
        else if prev.None? || Final()[k - 1].best.value > Final()[prev.value].best.value then Some(k - 1)
        else prev
    }

    // A path that serves the whole window.
    predicate FullPath(nTime: nat, p: seq<nat>) {
      Path(p) && ivs[Last(p)].en >= nTime - 1
    }

    lemma BestGoalWidest(nTime: nat)
      requires SortedByEnd(ivs)
      ensures var r := BestGoal(nTime, |ivs|);
        && (r.None? ==> forall p :: !FullPath(nTime, p))
        && (r.Some? ==> forall p :: FullPath(nTime, p) ==> Bottleneck(p) <= Final()[r.value].best.value)
        && (r.Some? ==> exists p :: FullPath(nTime, p) && Bottleneck(p) == Final()[r.value].best.value
                                    && |p| == Final()[r.value].hops + 1)
    {
      var r := BestGoal(nTime, |ivs|);
      forall p | FullPath(nTime, p)
        ensures r.Some? && Bottleneck(p) <= Final()[r.value].best.value
      {
        LabelBoundsPath(p);
        assert Goal(nTime, Last(p));
      }
      if r.Some? {
        var p := LabelHasPath(|ivs|, r.value);
        assert FullPath(nTime, p);
      }
    }
  }
}
