// Constellation-size sweeps over the coverage run: pass fractions, minimum sizes and the winner.
module Sweep {
  import opened Options
  import opened Sums
  import opened Visibility
  import opened Availability
  import opened Scenes
  import opened Shards
  import opened Kernel
  import opened Coverage

  // ---------- pass fractions ----------

  // Cells among the first n whose availability at level index x reaches the target.
  function CountReaching(reports: seq<CellReport>, x: nat, target: real, n: nat): nat
    requires n <= |reports| && forall c :: 0 <= c < |reports| ==> x < |reports[c].availability|
  {
    if n == 0 then 0
    else CountReaching(reports, x, target, n - 1) + if reports[n - 1].availability[x] >= target then 1 else 0
  }

  function CountFeasible(reports: seq<CellReport>, n: nat): nat
    requires n <= |reports| && forall c :: 0 <= c < |reports| ==> reports[c].mbb.Some?
  {
    if n == 0 then 0 else CountFeasible(reports, n - 1) + if reports[n - 1].mbb.value.feasible then 1 else 0
  }

  // Fraction of cells reaching the target.
  function Pct(reports: seq<CellReport>, x: nat, target: real): real
    requires reports != [] && forall c :: 0 <= c < |reports| ==> x < |reports[c].availability|
  {
    CountReaching(reports, x, target, |reports|) as real / |reports| as real
  }

  function PctMbb(reports: seq<CellReport>): real
    requires reports != [] && forall c :: 0 <= c < |reports| ==> reports[c].mbb.Some?
  {
    CountFeasible(reports, |reports|) as real / |reports| as real
  }

  function Total(values: seq<real>): real {
    if values == [] then 0.0 else Total(values[..|values| - 1]) + values[|values| - 1]
  }

  function Mean(values: seq<real>): real
    requires values != []
  {
    Total(values) / |values| as real
  }

  // f times x is at most y.
  ghost predicate Within(f: real, x: real, y: real) {
    f * x <= y
  }

  // The availability of every cell at level index x.
  function Column(reports: seq<CellReport>, x: nat): seq<real>
    requires forall c :: 0 <= c < |reports| ==> x < |reports[c].availability|
  {
    seq(|reports|, c requires 0 <= c < |reports| => reports[c].availability[x])
  }

  function SatsColumn(reports: seq<CellReport>): seq<real> {
    seq(|reports|, c requires 0 <= c < |reports| => reports[c].satsInViewMean)
  }

  function Pcts(reports: seq<CellReport>, nK: nat, target: real): (pct: seq<real>)
    requires reports != [] && forall c :: 0 <= c < |reports| ==> |reports[c].availability| == nK
    ensures |pct| == nK
  {
    seq(nK, x requires 0 <= x < nK => Pct(reports, x, target))
  }

  function MeanAvails(reports: seq<CellReport>, nK: nat): (means: seq<real>)
    requires reports != [] && forall c :: 0 <= c < |reports| ==> |reports[c].availability| == nK
    ensures |means| == nK
  {
    seq(nK, x requires 0 <= x < nK => Mean(Column(reports, x)))
  }

  // One line of the sweep; pct and meanAvail are parallel to the k levels.
  datatype Row = Row(n: int, meanSats: real, pct: seq<real>, meanAvail: seq<real>, pctMbb: Option<real>)

  function RowOf(n: int, reports: seq<CellReport>, nK: nat, target: real, doMbb: bool): Row
    requires reports != []
    requires forall c :: 0 <= c < |reports| ==> |reports[c].availability| == nK
    requires doMbb ==> forall c :: 0 <= c < |reports| ==> reports[c].mbb.Some?
  {
    Row(n,
        Mean(SatsColumn(reports)),
        Pcts(reports, nK, target),
        MeanAvails(reports, nK),
        if doMbb then Some(PctMbb(reports)) else None)
  }

  // ---------- what a row says of its reports ----------

  // The cells that reach the target at level index x, and the feasible ones.
  ghost function Reaching(reports: seq<CellReport>, x: nat, target: real, n: nat): set<int>
    requires n <= |reports| && forall c :: 0 <= c < |reports| ==> x < |reports[c].availability|
  {
    set c | 0 <= c < n && reports[c].availability[x] >= target
  }

  ghost function Feasible(reports: seq<CellReport>, n: nat): set<int>
    requires n <= |reports| && forall c :: 0 <= c < |reports| ==> reports[c].mbb.Some?
  {
    set c | 0 <= c < n && reports[c].mbb.value.feasible
  }

  ghost function ValueAt(values: seq<real>): int -> real {
    c => if 0 <= c < |values| then values[c] else 0.0
  }

  // value is the mean of the values.
  ghost predicate IsMean(value: real, values: seq<real>) {
    value * |values| as real == SumOver(Indices(|values|), ValueAt(values))
  }

  // Pass fractions are shares of cells, means are sums over all cells divided by their number.
  ghost predicate RowOver(row: Row, reports: seq<CellReport>, nK: nat, target: real)
    requires forall c :: 0 <= c < |reports| ==> |reports[c].availability| == nK
    requires row.pctMbb.Some? ==> forall c :: 0 <= c < |reports| ==> reports[c].mbb.Some?
  {
    && |row.pct| == |row.meanAvail| == nK
    && (forall x :: 0 <= x < nK ==> IsShare(row.pct[x], |Reaching(reports, x, target, |reports|)|, |reports|))
    && (forall x :: 0 <= x < nK ==>
          IsMean(row.meanAvail[x], seq(|reports|, c requires 0 <= c < |reports| => reports[c].availability[x])))
    && IsMean(row.meanSats, seq(|reports|, c requires 0 <= c < |reports| => reports[c].satsInViewMean))
    && (row.pctMbb.Some? ==> IsShare(row.pctMbb.value, |Feasible(reports, |reports|)|, |reports|))
  }

  lemma {:induction false} CountReachingExact(reports: seq<CellReport>, x: nat, target: real, n: nat)
    requires n <= |reports| && forall c :: 0 <= c < |reports| ==> x < |reports[c].availability|
    ensures CountReaching(reports, x, target, n) == |Reaching(reports, x, target, n)|
  {
    if n == 0 {
      assert Reaching(reports, x, target, 0) == {};
    } else {
      CountReachingExact(reports, x, target, n - 1);
      var before := Reaching(reports, x, target, n - 1);
      assert Reaching(reports, x, target, n)
          == if reports[n - 1].availability[x] >= target then before + {n - 1} else before;
    }
  }

  lemma {:induction false} CountFeasibleExact(reports: seq<CellReport>, n: nat)
    requires n <= |reports| && forall c :: 0 <= c < |reports| ==> reports[c].mbb.Some?
    ensures CountFeasible(reports, n) == |Feasible(reports, n)|
  {
    if n == 0 {
      assert Feasible(reports, 0) == {};
    } else {
      CountFeasibleExact(reports, n - 1);
      var before := Feasible(reports, n - 1);
      assert Feasible(reports, n) == if reports[n - 1].mbb.value.feasible then before + {n - 1} else before;
    }
  }

  lemma {:induction false} TotalExact(values: seq<real>)
    ensures Total(values) == SumOver(Indices(|values|), ValueAt(values))
    decreases |values|
  {
    if values == [] {
      assert Indices(0) == {};
    } else {
      var init, last := values[..|values| - 1], |values| - 1;
      TotalExact(init);
      SumAdd(Indices(last), last, ValueAt(values));
      assert Indices(|values|) == Indices(last) + {last};
      SumSame(Indices(last), ValueAt(init), ValueAt(values));
    }
  }

  lemma MeanExact(values: seq<real>)
    requires values != []
    ensures IsMean(Mean(values), values)
  {
    TotalExact(values);
    TimesQuotient(Total(values), |values| as real);
  }

  lemma TimesQuotient(x: real, m: real)
    requires m > 0.0
    ensures x / m * m == x
  {
  }

  lemma RowOfExact(n: int, reports: seq<CellReport>, nK: nat, target: real, doMbb: bool)
    requires reports != [] && forall c :: 0 <= c < |reports| ==> |reports[c].availability| == nK
    requires doMbb ==> forall c :: 0 <= c < |reports| ==> reports[c].mbb.Some?
    ensures RowOver(RowOf(n, reports, nK, target, doMbb), reports, nK, target)
  {
    forall x | 0 <= x < nK
      ensures IsShare(Pct(reports, x, target), |Reaching(reports, x, target, |reports|)|, |reports|)
      ensures IsMean(Mean(Column(reports, x)), Column(reports, x))
    {
      CountReachingExact(reports, x, target, |reports|);
      QuotientIsShare(CountReaching(reports, x, target, |reports|), |reports|);
      MeanExact(Column(reports, x));
    }
    MeanExact(SatsColumn(reports));
    assert SatsColumn(reports) == seq(|reports|, c requires 0 <= c < |reports| => reports[c].satsInViewMean);
    assert forall x :: 0 <= x < nK ==>
      Column(reports, x) == seq(|reports|, c requires 0 <= c < |reports| => reports[c].availability[x]);
    if doMbb {
      CountFeasibleExact(reports, |reports|);
      QuotientIsShare(CountFeasible(reports, |reports|), |reports|);
    }
  }

  // Reports come from a coverage run of this job.
  ghost predicate RunReports(reports: seq<CellReport>, job: Job, nTime: nat, step: real)
    requires nTime > 0
  {
    forall c :: 0 <= c < |reports| ==> RunReport(reports[c], job, nTime, step)
  }

  lemma FractionOrder(a: nat, b: nat, n: nat)
    requires a <= b && n > 0
    ensures a as real / n as real <= b as real / n as real
  {
    assert b as real / n as real - a as real / n as real == (b - a) as real / n as real;
  }

  // A feasible cell has availability exactly 1 at k = 1.
  lemma FeasibleReaches(report: CellReport, job: Job, nTime: nat, step: real, x: nat)
    requires nTime > 0 && RunReport(report, job, nTime, step) && job.mbb.Some?
    requires x < |job.ks| && job.ks[x] == 1
    ensures |report.availability| == |job.ks| && report.mbb.Some?
    ensures report.mbb.value.feasible ==> report.availability[x] == 1.0
  {
    var g, planes :| TotalsReport(report, job, nTime, step, g, planes);
    if report.mbb.value.feasible {
      var served := Served(g, 1, 0, nTime);
      assert served == nTime by {
        FeasibleIsAlwaysServed(g, planes, job.mbb.value);
      }
      SelfRatio(served);
    }
  }

  lemma SelfRatio(n: nat)
    requires n > 0
    ensures n as real / n as real == 1.0
  {
  }

  // Requiring more satellites never raises availability.
  lemma AvailabilityAntitone(report: CellReport, job: Job, nTime: nat, step: real, x: nat, y: nat)
    requires nTime > 0 && RunReport(report, job, nTime, step)
    requires x < |job.ks| && y < |job.ks| && job.ks[x] <= job.ks[y]
    ensures |report.availability| == |job.ks| && report.availability[y] <= report.availability[x]
  {
    var g, planes :| TotalsReport(report, job, nTime, step, g, planes);
    if report != Report(Defaults(job, nTime), nTime, step, job.mbb.Some?) {
      ServedAntitone(g, job.ks[x], job.ks[y], 0, nTime);
      FractionOrder(Served(g, job.ks[y], 0, nTime), Served(g, job.ks[x], 0, nTime), nTime);
    }
  }

  lemma ServedQuotients(g: Grid, k: int, nTime: nat)
    requires nTime > 0
    ensures Served(g, k, 0, nTime) as real / nTime as real >= 0.0
    ensures Within(k as real, Served(g, k, 0, nTime) as real / nTime as real,
                   SatSum(g, 0, nTime) as real / nTime as real)
  {
    ServedWithinSatSum(g, k, 0, nTime);
    CountQuotients(k, Served(g, k, 0, nTime), SatSum(g, 0, nTime), nTime);
  }

  lemma CountQuotients(k: int, x: nat, y: nat, n: nat)
    requires n > 0 && k * x <= y
    ensures x as real / n as real >= 0.0
    ensures Within(k as real, x as real / n as real, y as real / n as real)
  {
    assert k as real * x as real == (k * x) as real;
    ScaledQuotient(k as real, x as real, y as real, n as real);
  }

  // Availabilities are not negative, and k satellites are in view at every served sample.
  lemma AvailabilityWithinSats(report: CellReport, job: Job, nTime: nat, step: real, x: nat)
    requires nTime > 0 && RunReport(report, job, nTime, step) && x < |job.ks|
    ensures |report.availability| == |job.ks| && report.availability[x] >= 0.0
    ensures Within(job.ks[x] as real, report.availability[x], report.satsInViewMean)
  {
    var g, planes :| TotalsReport(report, job, nTime, step, g, planes);
    if report != Report(Defaults(job, nTime), nTime, step, job.mbb.Some?) {
      ServedQuotients(g, job.ks[x], nTime);
      assert report.availability[x] == Served(g, job.ks[x], 0, nTime) as real / nTime as real;
      assert report.satsInViewMean == SatSum(g, 0, nTime) as real / nTime as real;
    } else {
      assert report.availability[x] == 0.0 && report.satsInViewMean == 0.0;
    }
  }

  lemma ScaledQuotient(f: real, x: real, y: real, m: real)
    requires m > 0.0 && Within(f, x, y)
    ensures Within(f, x / m, y / m)
  {
    var p, q := x / m, y / m;
    assert p * m == x && q * m == y;
    assert (q - f * p) * m >= 0.0 by {
      assert f * p * m == f * x by {
        assert f * p * m == f * (p * m);
      }
    }
  }

  lemma {:induction false} TotalScaled(f: real, a: seq<real>, b: seq<real>)
    requires |a| == |b| && forall i :: 0 <= i < |a| ==> Within(f, a[i], b[i])
    ensures f * Total(a) <= Total(b)
    decreases |a|
  {
    if a != [] {
      var a0, b0 := a[..|a| - 1], b[..|b| - 1];
      TotalScaled(f, a0, b0);
      ScaleSum(f, Total(a0), a[|a| - 1]);
    }
  }

  lemma ScaleSum(f: real, x: real, y: real)
    ensures f * (x + y) == f * x + f * y
  {
  }

  lemma MeanScaled(f: real, a: seq<real>, b: seq<real>)
    requires |a| == |b| > 0 && forall i :: 0 <= i < |a| ==> Within(f, a[i], b[i])
    ensures Within(f, Mean(a), Mean(b))
  {
    TotalScaled(f, a, b);
    ScaledQuotient(f, Total(a), Total(b), |a| as real);
  }

  // Cells reaching the target carry at least the target each.
  lemma {:induction false} ReachingWithinTotal(reports: seq<CellReport>, x: nat, target: real, n: nat)
    requires n <= |reports|
    requires forall c :: 0 <= c < |reports| ==> x < |reports[c].availability| && reports[c].availability[x] >= 0.0
    ensures target * CountReaching(reports, x, target, n) as real <= Total(Column(reports, x)[..n])
  {
    if n > 0 {
      ReachingWithinTotal(reports, x, target, n - 1);
      var column := Column(reports, x);
      assert column[..n][..n - 1] == column[..n - 1];
      ScaleSum(target, CountReaching(reports, x, target, n - 1) as real, 1.0);
    }
  }

  lemma {:induction false} FeasibleCount(reports: seq<CellReport>, x: nat, target: real, n: nat)
    requires n <= |reports|
    requires forall c :: 0 <= c < |reports| ==> x < |reports[c].availability| && reports[c].mbb.Some?
    requires forall c :: 0 <= c < |reports| && reports[c].mbb.value.feasible ==> reports[c].availability[x] >= target
    ensures CountFeasible(reports, n) <= CountReaching(reports, x, target, n)
  {
    if n > 0 {
      FeasibleCount(reports, x, target, n - 1);
    }
  }

  // Requiring more satellites never covers more cells.
  lemma {:induction false} ReachingAntitone(reports: seq<CellReport>, x: nat, y: nat, target: real, n: nat)
    requires n <= |reports|
    requires forall c :: 0 <= c < |reports| ==> x < |reports[c].availability| && y < |reports[c].availability|
    requires forall c :: 0 <= c < |reports| ==> reports[c].availability[y] <= reports[c].availability[x]
    ensures CountReaching(reports, y, target, n) <= CountReaching(reports, x, target, n)
  {
    if n > 0 {
      ReachingAntitone(reports, x, y, target, n - 1);
    }
  }

  // Parallel to the levels, and falling with them.
  ghost predicate Falls(values: seq<real>, ks: seq<int>) {
    && |values| == |ks|
    && forall x, y :: 0 <= x < |ks| && 0 <= y < |ks| && ks[x] <= ks[y] ==> values[y] <= values[x]
  }

  // The mean availability is at least the target's share, and at most the mean satellites over k.
  ghost predicate Bounded(pct: seq<real>, meanAvail: seq<real>, meanSats: real, ks: seq<int>, target: real)
    requires |pct| == |meanAvail| == |ks|
  {
    forall x :: 0 <= x < |ks| ==>
      Within(target, pct[x], meanAvail[x]) && Within(ks[x] as real, meanAvail[x], meanSats)
  }

  // The orderings every row obeys.
  ghost predicate RowOrdered(row: Row, ks: seq<int>, target: real) {
    && Falls(row.pct, ks) && Falls(row.meanAvail, ks)
    && Bounded(row.pct, row.meanAvail, row.meanSats, ks, target)
    && (row.pctMbb.Some? && target <= 1.0 ==>
          forall x :: 0 <= x < |ks| && ks[x] == 1 ==> row.pctMbb.value <= row.pct[x])
  }

  ghost predicate Shaped(reports: seq<CellReport>, job: Job) {
    && (forall c :: 0 <= c < |reports| ==> |reports[c].availability| == |job.ks|)
    && (job.mbb.Some? ==> forall c :: 0 <= c < |reports| ==> reports[c].mbb.Some?)
  }

  lemma RowsAntitone(reports: seq<CellReport>, job: Job, nTime: nat, step: real, target: real, x: nat, y: nat)
    requires nTime > 0 && RunReports(reports, job, nTime, step) && reports != [] && Shaped(reports, job)
    requires x < |job.ks| && y < |job.ks| && job.ks[x] <= job.ks[y]
    ensures Pct(reports, y, target) <= Pct(reports, x, target)
    ensures Mean(Column(reports, y)) <= Mean(Column(reports, x))
  {
    var m := |reports|;
    forall c | 0 <= c < m
      ensures reports[c].availability[y] <= reports[c].availability[x]
    {
      AvailabilityAntitone(reports[c], job, nTime, step, x, y);
    }
    ReachingAntitone(reports, x, y, target, m);
    FractionOrder(CountReaching(reports, y, target, m), CountReaching(reports, x, target, m), m);
    MeanScaled(1.0, Column(reports, y), Column(reports, x));
  }

  lemma ReachingWithinMean(reports: seq<CellReport>, x: nat, target: real)
    requires reports != []
    requires forall c :: 0 <= c < |reports| ==> x < |reports[c].availability| && reports[c].availability[x] >= 0.0
    ensures Within(target, Pct(reports, x, target), Mean(Column(reports, x)))
  {
    var m := |reports|;
    ReachingWithinTotal(reports, x, target, m);
    assert Column(reports, x)[..m] == Column(reports, x);
    ScaledQuotient(target, CountReaching(reports, x, target, m) as real, Total(Column(reports, x)), m as real);
  }

  lemma RowsBounded(reports: seq<CellReport>, job: Job, nTime: nat, step: real, target: real, x: nat)
    requires nTime > 0 && RunReports(reports, job, nTime, step) && reports != [] && Shaped(reports, job)
    requires x < |job.ks|
    ensures Within(target, Pct(reports, x, target), Mean(Column(reports, x)))
    ensures Within(job.ks[x] as real, Mean(Column(reports, x)), Mean(SatsColumn(reports)))
  {
    forall c | 0 <= c < |reports|
      ensures reports[c].availability[x] >= 0.0
      ensures Within(job.ks[x] as real, Column(reports, x)[c], SatsColumn(reports)[c])
    {
      AvailabilityWithinSats(reports[c], job, nTime, step, x);
    }
    ReachingWithinMean(reports, x, target);
    MeanScaled(job.ks[x] as real, Column(reports, x), SatsColumn(reports));
  }

  lemma FeasibleWithinReaching(reports: seq<CellReport>, job: Job, nTime: nat, step: real, target: real, x: nat)
    requires nTime > 0 && RunReports(reports, job, nTime, step) && reports != [] && Shaped(reports, job)
    requires job.mbb.Some? && target <= 1.0 && x < |job.ks| && job.ks[x] == 1
    ensures PctMbb(reports) <= Pct(reports, x, target)
  {
    var m := |reports|;
    forall c | 0 <= c < m && reports[c].mbb.value.feasible
      ensures reports[c].availability[x] >= target
    {
      FeasibleReaches(reports[c], job, nTime, step, x);
    }
    FeasibleCount(reports, x, target, m);
    FractionOrder(CountFeasible(reports, m), CountReaching(reports, x, target, m), m);
  }

  lemma FractionsFall(reports: seq<CellReport>, job: Job, nTime: nat, step: real, target: real)
    requires nTime > 0 && RunReports(reports, job, nTime, step) && reports != [] && Shaped(reports, job)
    ensures Falls(Pcts(reports, |job.ks|, target), job.ks) && Falls(MeanAvails(reports, |job.ks|), job.ks)
  {
    var ks, pct, means := job.ks, Pcts(reports, |job.ks|, target), MeanAvails(reports, |job.ks|);
    forall x, y | 0 <= x < |ks| && 0 <= y < |ks| && ks[x] <= ks[y]
      ensures pct[y] <= pct[x] && means[y] <= means[x]
    {
      RowsAntitone(reports, job, nTime, step, target, x, y);
    }
  }

  lemma MeansBounded(reports: seq<CellReport>, job: Job, nTime: nat, step: real, target: real)
    requires nTime > 0 && RunReports(reports, job, nTime, step) && reports != [] && Shaped(reports, job)
    ensures Bounded(Pcts(reports, |job.ks|, target), MeanAvails(reports, |job.ks|), Mean(SatsColumn(reports)),
                    job.ks, target)
  {
    var pct, means := Pcts(reports, |job.ks|, target), MeanAvails(reports, |job.ks|);
    forall x | 0 <= x < |job.ks|
      ensures Within(target, pct[x], means[x]) && Within(job.ks[x] as real, means[x], Mean(SatsColumn(reports)))
    {
      RowsBounded(reports, job, nTime, step, target, x);
    }
  }

  lemma RowsOrdered(n: int, reports: seq<CellReport>, job: Job, nTime: nat, step: real, target: real)
    requires nTime > 0 && RunReports(reports, job, nTime, step) && reports != [] && Shaped(reports, job)
    ensures RowOrdered(RowOf(n, reports, |job.ks|, target, job.mbb.Some?), job.ks, target)
  {
    var ks := job.ks;
    FractionsFall(reports, job, nTime, step, target);
    MeansBounded(reports, job, nTime, step, target);
    if job.mbb.Some? && target <= 1.0 {
      forall x | 0 <= x < |ks| && ks[x] == 1
        ensures PctMbb(reports) <= Pct(reports, x, target)
      {
        FeasibleWithinReaching(reports, job, nTime, step, target, x);
      }
    }
  }

  // ---------- minimum sizes ----------

  // best is the smallest element of sizes, None when there is none.
  ghost predicate IsMinimum(sizes: seq<int>, best: Option<int>) {
    if best.None? then sizes == []
    else best.value in sizes && forall n :: n in sizes ==> best.value <= n
  }

  method MinimumOf(sizes: seq<int>) returns (best: Option<int>)
    ensures IsMinimum(sizes, best)
  {
    if sizes == [] {
      return None;
    }
    var least := sizes[0];
    for i := 1 to |sizes|
      invariant least in sizes && forall j :: 0 <= j < i ==> least <= sizes[j]
    {
      if sizes[i] < least {
        least := sizes[i];
      }
    }
    best := Some(least);
  }

  // Sizes of the rows whose pass fraction at level x meets the grade.
  function MeetingK(rows: seq<Row>, x: nat, grade: real): (sizes: seq<int>)
    requires forall r :: 0 <= r < |rows| ==> x < |rows[r].pct|
    ensures forall n :: n in sizes <==> exists r :: 0 <= r < |rows| && rows[r].n == n && rows[r].pct[x] >= grade
  {
    if rows == [] then [] else
      var init, last := rows[..|rows| - 1], rows[|rows| - 1];
      assert rows == init + [last];
      MeetingK(init, x, grade) + if last.pct[x] >= grade then [last.n] else []
  }

  function MeetingMbb(rows: seq<Row>, grade: real): (sizes: seq<int>)
    requires forall r :: 0 <= r < |rows| ==> rows[r].pctMbb.Some?
    ensures forall n :: n in sizes <==> exists r :: 0 <= r < |rows| && rows[r].n == n && rows[r].pctMbb.value >= grade
  {
    if rows == [] then [] else
      var init, last := rows[..|rows| - 1], rows[|rows| - 1];
      assert rows == init + [last];
      MeetingMbb(init, grade) + if last.pctMbb.value >= grade then [last.n] else []
  }

  // None stands for "no size in the range", above every size.
  predicate NoLarger(a: Option<int>, b: Option<int>) {
    b.Some? ==> a.Some? && a.value <= b.value
  }

  lemma MinimumOfMore(few: seq<int>, many: seq<int>, a: Option<int>, b: Option<int>)
    requires IsMinimum(few, b) && IsMinimum(many, a) && forall n :: n in few ==> n in many
    ensures NoLarger(a, b)
  {
  }

  datatype SweepResult = SweepResult(rows: seq<Row>, minNByK: seq<Option<int>>, minNMbb: Option<int>)

  // The minimum sizes are those of the rows.
  ghost predicate Minimal(r: SweepResult, nK: nat, grade: real, doMbb: bool) {
    && (forall i :: 0 <= i < |r.rows| ==> |r.rows[i].pct| == nK && (r.rows[i].pctMbb.Some? <==> doMbb))
    && |r.minNByK| == nK
    && (forall x :: 0 <= x < nK ==> IsMinimum(MeetingK(r.rows, x, grade), r.minNByK[x]))
    && (if doMbb then IsMinimum(MeetingMbb(r.rows, grade), r.minNMbb) else r.minNMbb.None?)
  }

  // Minimum sizes are ordered like the requirements: by k, and the gate above k = 1.
  lemma MinimumSizesOrdered(r: SweepResult, ks: seq<int>, target: real, grade: real, doMbb: bool)
    requires Minimal(r, |ks|, grade, doMbb)
    requires forall i :: 0 <= i < |r.rows| ==> RowOrdered(r.rows[i], ks, target)
    ensures forall x, y :: 0 <= x < |ks| && 0 <= y < |ks| && ks[x] <= ks[y] ==> NoLarger(r.minNByK[x], r.minNByK[y])
    ensures doMbb && target <= 1.0 ==>
      forall x :: 0 <= x < |ks| && ks[x] == 1 ==> NoLarger(r.minNByK[x], r.minNMbb)
  {
    forall x, y | 0 <= x < |ks| && 0 <= y < |ks| && ks[x] <= ks[y]
      ensures NoLarger(r.minNByK[x], r.minNByK[y])
    {
      MinimumOfMore(MeetingK(r.rows, y, grade), MeetingK(r.rows, x, grade), r.minNByK[x], r.minNByK[y]);
    }
    if doMbb && target <= 1.0 {
      forall x | 0 <= x < |ks| && ks[x] == 1
        ensures NoLarger(r.minNByK[x], r.minNMbb)
      {
        MinimumOfMore(MeetingMbb(r.rows, grade), MeetingK(r.rows, x, grade), r.minNByK[x], r.minNMbb);
      }
    }
  }

  // ---------- the sweep ----------

  // What every candidate run shares.
  datatype Setting<!Cell, !Key> = Setting(
    cells: seq<Cell>, resolution: Cell -> int, parent: (Cell, int) -> Key,
    sharded: bool, step: real, ks: seq<int>, target: real, overlapS: Option<real>)

  ghost predicate Runnable<Cell, Key>(st: Setting<Cell, Key>, sc: Scene) {
    sc.Valid(|st.cells|) && sc.PrefilterSound(|st.cells|) && sc.nTime > 0 && st.step > 0.0
  }

  function ShardRes<Cell, Key>(st: Setting<Cell, Key>): Option<int> {
    if st.sharded then Some(1) else None
  }

  ghost predicate RunFails<Cell, Key>(st: Setting<Cell, Key>, sc: Scene) {
    CoverageFails(st.cells, sc.nSat, st.ks, if st.sharded then Some(1) else None, st.resolution, st.overlapS, st.step)
  }

  function RunJobOf<Cell, Key>(st: Setting<Cell, Key>, sc: Scene): Job
    requires sc.nTime > 0 && st.step > 0.0
  {
    JobOf(st.ks, sc.nTime, None, st.overlapS, st.step, true, false)
  }

  // The reports of a candidate, each cell by its own shard.
  ghost function ShardReports<Cell, Key>(st: Setting<Cell, Key>, sc: Scene): (reports: seq<CellReport>)
    requires Runnable(st, sc)
    ensures |reports| == |st.cells| && Shaped(reports, RunJobOf(st, sc))
  {
    seq(|st.cells|, c requires 0 <= c < |st.cells| && sc.Valid(|st.cells|) && sc.nTime > 0 && st.step > 0.0 =>
          ShardReport(sc, |st.cells|, RunJobOf(st, sc), st.sharded, OwnShard(st.cells, ShardRes(st), st.parent, c),
                      st.step, c))
  }

  // The reports of a candidate, each cell analysed alone and at once.
  ghost function OneShotReports<Cell, Key>(st: Setting<Cell, Key>, sc: Scene): (reports: seq<CellReport>)
    requires Runnable(st, sc)
    ensures |reports| == |st.cells| && Shaped(reports, RunJobOf(st, sc))
  {
    seq(|st.cells|, c requires 0 <= c < |st.cells| && sc.Valid(|st.cells|) && sc.nTime > 0 && st.step > 0.0 =>
          OneShotReport(sc, RunJobOf(st, sc), st.step, c))
  }

  // The reports measure the cells of the candidate, sharded at resolution 1, without the plane rule.
  ghost predicate ReportsMeasured<Cell, Key>(st: Setting<Cell, Key>, sc: Scene, reports: seq<CellReport>)
    requires Runnable(st, sc)
  {
    && |reports| == |st.cells|
    && forall c: nat :: c < |st.cells| ==>
         CellMeasured(st.cells, sc, st.step, if st.sharded then Some(1) else None, st.parent, st.ks, st.overlapS,
                      false, c, reports[c])
  }

  // The row is measured on the candidate's own reports, the one-shot ones for levels of at least 1.
  ghost predicate RowMeasured<Cell, Key>(st: Setting<Cell, Key>, sc: Scene, n: int, row: Row)
    requires Runnable(st, sc)
  {
    && !RunFails(st, sc) && RowOrdered(row, st.ks, st.target) && (row.pctMbb.Some? <==> st.overlapS.Some?)
    && row == RowOf(n, ShardReports(st, sc), |st.ks|, st.target, st.overlapS.Some?)
    && row.n == n && RowOver(row, ShardReports(st, sc), |st.ks|, st.target)
    && ReportsMeasured(st, sc, ShardReports(st, sc))
    && ((forall k :: k in st.ks ==> k >= 1) ==>
          row == RowOf(n, OneShotReports(st, sc), |st.ks|, st.target, st.overlapS.Some?))
  }

  lemma ShardReportsOfRun<Cell, Key>(st: Setting<Cell, Key>, sc: Scene)
    requires Runnable(st, sc)
    ensures RunReports(ShardReports(st, sc), RunJobOf(st, sc), sc.nTime, st.step)
  {
    forall c: nat | c < |st.cells|
      ensures RunReport(ShardReports(st, sc)[c], RunJobOf(st, sc), sc.nTime, st.step)
    {
      ShardReportIsRunReport(sc, |st.cells|, RunJobOf(st, sc), st.sharded,
                             OwnShard(st.cells, ShardRes(st), st.parent, c), st.step, c);
    }
  }

  // The reports of the run are those of the shards, and for levels of at least 1 the one-shot ones.
  lemma ReportsOfRun<Cell, Key>(st: Setting<Cell, Key>, sc: Scene, reports: seq<CellReport>)
    requires Runnable(st, sc) && |reports| == |st.cells|
    requires forall c: nat :: c < |st.cells| ==>
      CellRight(st.cells, sc, RunJobOf(st, sc), st.step, ShardRes(st), st.parent, st.overlapS, c, reports[c])
    ensures reports == ShardReports(st, sc)
    ensures (forall k :: k in st.ks ==> k >= 1) ==> reports == OneShotReports(st, sc)
  {
  }

  // One candidate: a serial run, sharded at resolution 1, in chunks of ten steps.
  method Measure<Cell, Key(==,!new)>(st: Setting<Cell, Key>, sc: Scene, n: int) returns (r: Result<Row>)
    requires Runnable(st, sc)
    ensures r.Err? <==> RunFails(st, sc)
    ensures r.Ok? ==> RowMeasured(st, sc, n, r.value)
  {
    var reports :- RunCoverage(st.cells, sc, st.step, ShardRes(st), st.resolution, st.parent,
                               Some(10), None, true, n => Range(n), st.ks, st.overlapS, true, false);
    ReportsOfRun(st, sc, reports);
    ShardReportsOfRun(st, sc);
    RowsOrdered(n, reports, RunJobOf(st, sc), sc.nTime, st.step, st.target);
    RowOfExact(n, reports, |st.ks|, st.target, st.overlapS.Some?);
    r := Ok(RowOf(n, reports, |st.ks|, st.target, st.overlapS.Some?));
  }

  ghost predicate SizeFails<Cell, Key>(st: Setting<Cell, Key>, sceneOf: int -> Scene, spp: int) {
    RunFails(st, sceneOf(spp))
  }

  ghost predicate SomeSizeFails<Cell, Key>(st: Setting<Cell, Key>, sceneOf: int -> Scene, spps: seq<int>) {
    exists i :: 0 <= i < |spps| && SizeFails(st, sceneOf, spps[i])
  }

  // The row of the shell of planes x spp satellites.
  ghost predicate SizeMeasured<Cell, Key>(st: Setting<Cell, Key>, sceneOf: int -> Scene, planes: int, spp: int,
                                          row: Row) {
    Runnable(st, sceneOf(spp)) && row.n == planes * spp && RowMeasured(st, sceneOf(spp), row.n, row)
  }

  ghost function SizeRelation<Cell, Key>(st: Setting<Cell, Key>, sceneOf: int -> Scene, planes: int)
    : (int, Row) -> bool
  {
    (spp, row) => SizeMeasured(st, sceneOf, planes, spp, row)
  }

  ghost predicate SizesMeasured<Cell, Key>(st: Setting<Cell, Key>, sceneOf: int -> Scene, planes: int,
                                                       spps: seq<int>, rows: seq<Row>)
  {
    |rows| <= |spps| && forall i :: 0 <= i < |rows| ==> SizeMeasured(st, sceneOf, planes, spps[i], rows[i])
  }

  // rel holds of every row measured on its size.
  ghost predicate Accepts<Cell, Key>(rel: (int, Row) -> bool, st: Setting<Cell, Key>, sceneOf: int -> Scene,
                                                 planes: int)
  {
    forall spp, row :: SizeMeasured(st, sceneOf, planes, spp, row) ==> rel(spp, row)
  }

  method MeasureSize<Cell, Key(==,!new)>(st: Setting<Cell, Key>, planes: int, spps: seq<int>, i: nat,
                                               sceneOf: int -> Scene, ghost rel: (int, Row) -> bool)
    returns (r: Result<Row>)
    requires i < |spps| && Runnable(st, sceneOf(spps[i])) && Accepts(rel, st, sceneOf, planes)
    ensures r.Err? ==> SomeSizeFails(st, sceneOf, spps)
    ensures r.Ok? ==> rel(spps[i], r.value)
  {
    r := Measure(st, sceneOf(spps[i]), planes * spps[i]);
    assert r.Err? ==> SizeFails(st, sceneOf, spps[i]);
    assert r.Ok? ==> SizeMeasured(st, sceneOf, planes, spps[i], r.value);
  }

  // The sizes one after the other; rel is whatever the caller wants to know of a measured row.
  method MeasureSizes<Cell, Key(==,!new)>(st: Setting<Cell, Key>, planes: int, spps: seq<int>,
                                                sceneOf: int -> Scene, ghost rel: (int, Row) -> bool)
    returns (r: Result<seq<Row>>)
    requires forall i :: 0 <= i < |spps| ==> Runnable(st, sceneOf(spps[i]))
    requires Accepts(rel, st, sceneOf, planes)
    ensures r.Err? ==> SomeSizeFails(st, sceneOf, spps)
    ensures r.Ok? ==> |r.value| == |spps| && Related(rel, spps, r.value)
  {
    var rows: seq<Row> := [];
    for i := 0 to |spps|
      invariant |rows| == i && Related(rel, spps, rows)
    {
      var row :- MeasureSize(st, planes, spps, i, sceneOf, rel);
      OneMoreRelated(rel, spps, rows, row);
      rows := rows + [row];
    }
    r := Ok(rows);
  }

  lemma RelatedMeasured<Cell, Key>(st: Setting<Cell, Key>, sceneOf: int -> Scene, planes: int,
                                               spps: seq<int>, rows: seq<Row>)
    requires Related(SizeRelation(st, sceneOf, planes), spps, rows) && |rows| == |spps|
    ensures SizesMeasured(st, sceneOf, planes, spps, rows) && !SomeSizeFails(st, sceneOf, spps)
  {
    forall i | 0 <= i < |spps|
      ensures SizeMeasured(st, sceneOf, planes, spps[i], rows[i]) && !SizeFails(st, sceneOf, spps[i])
    {
      assert SizeRelation(st, sceneOf, planes)(spps[i], rows[i]);
    }
  }

  lemma MeasuredOrdered<Cell, Key>(st: Setting<Cell, Key>, sceneOf: int -> Scene, planes: int, spps: seq<int>,
                                   rows: seq<Row>)
    requires SizesMeasured(st, sceneOf, planes, spps, rows)
    ensures forall i :: 0 <= i < |rows| ==>
      RowOrdered(rows[i], st.ks, st.target) && (rows[i].pctMbb.Some? <==> st.overlapS.Some?)
  {
    forall i | 0 <= i < |rows|
      ensures RowOrdered(rows[i], st.ks, st.target) && (rows[i].pctMbb.Some? <==> st.overlapS.Some?)
    {
      assert SizeMeasured(st, sceneOf, planes, spps[i], rows[i]);
    }
  }

  // Row i is measured on the shell of planes x spps[i] satellites.
  method MeasureRows<Cell, Key(==,!new)>(st: Setting<Cell, Key>, planes: int, spps: seq<int>, sceneOf: int -> Scene)
    returns (r: Result<seq<Row>>)
    requires forall i :: 0 <= i < |spps| ==> Runnable(st, sceneOf(spps[i]))
    ensures r.Err? <==> SomeSizeFails(st, sceneOf, spps)
    ensures r.Ok? ==> |r.value| == |spps| && SizesMeasured(st, sceneOf, planes, spps, r.value)
  {
    var rows :- MeasureSizes(st, planes, spps, sceneOf, SizeRelation(st, sceneOf, planes));
    RelatedMeasured(st, sceneOf, planes, spps, rows);
    r := Ok(rows);
  }

  // A shell of planes x spp satellites for each value of spp.
  method MinSatSweep<Cell, Key(==,!new)>(st: Setting<Cell, Key>, planes: int, spps: seq<int>,
                                        sceneOf: int -> Scene, grade: real)
    returns (r: Result<SweepResult>)
    requires forall i :: 0 <= i < |spps| ==> Runnable(st, sceneOf(spps[i]))
    ensures r.Err? <==> SomeSizeFails(st, sceneOf, spps)
    ensures r.Ok? ==> |r.value.rows| == |spps| && SizesMeasured(st, sceneOf, planes, spps, r.value.rows)
    ensures r.Ok? ==> Minimal(r.value, |st.ks|, grade, st.overlapS.Some?)
    ensures r.Ok? ==> forall x, y :: 0 <= x < |st.ks| && 0 <= y < |st.ks| && st.ks[x] <= st.ks[y] ==>
      NoLarger(r.value.minNByK[x], r.value.minNByK[y])
    ensures r.Ok? && st.overlapS.Some? && st.target <= 1.0 ==>
      forall x :: 0 <= x < |st.ks| && st.ks[x] == 1 ==> NoLarger(r.value.minNByK[x], r.value.minNMbb)
  {
    var rows :- MeasureRows(st, planes, spps, sceneOf);
    MeasuredOrdered(st, sceneOf, planes, spps, rows);
    var result := Summarize(rows, |st.ks|, grade, st.overlapS.Some?);
    MinimumSizesOrdered(result, st.ks, st.target, grade, st.overlapS.Some?);
    r := Ok(result);
  }

  method Summarize(rows: seq<Row>, nK: nat, grade: real, doMbb: bool) returns (r: SweepResult)
    requires forall i :: 0 <= i < |rows| ==> |rows[i].pct| == nK && (rows[i].pctMbb.Some? <==> doMbb)
    ensures r.rows == rows && Minimal(r, nK, grade, doMbb)
  {
    var minNByK: seq<Option<int>> := [];
    for x := 0 to nK
      invariant |minNByK| == x
      invariant forall y :: 0 <= y < x ==> IsMinimum(MeetingK(rows, y, grade), minNByK[y])
    {
      var best := MinimumOf(MeetingK(rows, x, grade));
      minNByK := minNByK + [best];
    }
    var minNMbb := None;
    if doMbb {
      minNMbb := MinimumOf(MeetingMbb(rows, grade));
    }
    r := SweepResult(rows, minNByK, minNMbb);
  }
}
