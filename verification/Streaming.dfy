// The per-bucket merge of the oracle's and the engine's coverage, in bounded memory, against the
// one-shot aggregation.
module Streaming {
  import opened Options
  import opened Oracle
  import opened Sums

  function Joined(buckets: seq<seq<Segment>>): seq<Segment> {
    if buckets == [] then [] else Joined(buckets[..|buckets| - 1]) + buckets[|buckets| - 1]
  }

  // No two buckets share a sample time.
  ghost predicate DisjointGrids(buckets: seq<seq<Segment>>) {
    forall i, j :: 0 <= i < j < |buckets| ==> Times(buckets[i]) !! Times(buckets[j])
  }

  // ---------- joining aggregations over disjoint grids ----------

  lemma SeesHasTime(segs: seq<Segment>, satOf: string -> string, p: Point, t: real, s: string)
    requires Sees(segs, satOf, p, t, s)
    ensures t in Times(segs) && p in Points(segs)
  {
  }

  lemma JoinSees(a: seq<Segment>, b: seq<Segment>, satOf: string -> string, p: Point, t: real, s: string)
    ensures Sees(a + b, satOf, p, t, s) <==> Sees(a, satOf, p, t, s) || Sees(b, satOf, p, t, s)
  {
    if Sees(a, satOf, p, t, s) {
      var x, i: nat :| x in a && SampledAt(x, i, t) && Accessible(x, i)
        && x.id.value.0 == p && satOf(x.id.value.1) == s;
      assert x in a + b;
    }
    if Sees(b, satOf, p, t, s) {
      var x, i: nat :| x in b && SampledAt(x, i, t) && Accessible(x, i)
        && x.id.value.0 == p && satOf(x.id.value.1) == s;
      assert x in a + b;
    }
  }

  lemma JoinTimes(a: seq<Segment>, b: seq<Segment>)
    ensures Times(a + b) == Times(a) + Times(b) && Points(a + b) == Points(a) + Points(b)
  {
  }

  lemma JoinGrids(a: seq<Segment>, b: seq<Segment>)
    requires Times(a) !! Times(b)
    ensures |Times(a + b)| == |Times(a)| + |Times(b)|
  {
    JoinTimes(a, b);
    var ta, tb := Times(a), Times(b);
    assert Times(a + b) == ta + tb;
  }

  // At a sample time of a alone, b adds no satellite.
  lemma JoinAccess(a: seq<Segment>, b: seq<Segment>, satOf: string -> string, p: Point, t: real)
    requires t !in Times(b)
    ensures Access(a + b, satOf, p, t) == Access(a, satOf, p, t)
    ensures Access(b + a, satOf, p, t) == Access(a, satOf, p, t)
  {
    forall s
      ensures s in Access(a + b, satOf, p, t) <==> s in Access(a, satOf, p, t)
      ensures s in Access(b + a, satOf, p, t) <==> s in Access(a, satOf, p, t)
    {
      AccessIsSees(a + b, satOf, p, t, s);
      AccessIsSees(b + a, satOf, p, t, s);
      AccessIsSees(a, satOf, p, t, s);
      JoinSees(a, b, satOf, p, t, s);
      JoinSees(b, a, satOf, p, t, s);
      if Sees(b, satOf, p, t, s) {
        SeesHasTime(b, satOf, p, t, s);
      }
    }
  }

  // Served samples add up over disjoint grids, and so do the grids.
  lemma JoinServed(a: seq<Segment>, b: seq<Segment>, satOf: string -> string, p: Point, k: int)
    requires Times(a) !! Times(b)
    ensures |ServedTimes(a + b, satOf, p, k)| == |ServedTimes(a, satOf, p, k)| + |ServedTimes(b, satOf, p, k)|
  {
    JoinTimes(a, b);
    var sa, sb := ServedTimes(a, satOf, p, k), ServedTimes(b, satOf, p, k);
    forall t
      ensures t in ServedTimes(a + b, satOf, p, k) <==> t in sa + sb
    {
      if t in Times(a) {
        JoinAccess(a, b, satOf, p, t);
      } else if t in Times(b) {
        JoinAccess(b, a, satOf, p, t);
      }
    }
    assert ServedTimes(a + b, satOf, p, k) == sa + sb;
  }

  lemma {:induction false} JoinedDisjoint(buckets: seq<seq<Segment>>, more: seq<Segment>)
    requires forall i :: 0 <= i < |buckets| ==> Times(buckets[i]) !! Times(more)
    ensures Times(Joined(buckets)) !! Times(more)
    decreases |buckets|
  {
    if buckets != [] {
      var init, last := buckets[..|buckets| - 1], buckets[|buckets| - 1];
      JoinedDisjoint(init, more);
      JoinTimes(Joined(init), last);
    }
  }

  lemma AbsentServesNothing(segs: seq<Segment>, satOf: string -> string, p: Point, k: int)
    requires p !in Points(segs) && k >= 1
    ensures ServedTimes(segs, satOf, p, k) == {}
  {
    forall t
      ensures Access(segs, satOf, p, t) == {}
    {
      UnseenPoint(segs, satOf, p, t);
    }
  }

  // ---------- the engine at the oracle's points and times ----------

  // Sample times at which the engine has at least k satellites above the minimum elevation of p.
  ghost function EngineTimes(times: set<real>, inView: (Point, real) -> nat, p: Point, k: int): set<real> {
    set t | t in times && inView(p, t) >= k
  }

  method CountAbove(times: set<real>, inView: (Point, real) -> nat, p: Point, k: int) returns (n: nat)
    ensures n == |set t | t in times && inView(p, t) >= k|
  {
    n := 0;
    var rest := times;
    while rest != {}
      invariant rest <= times
      invariant n == |set t | t in times - rest && inView(p, t) >= k|
      decreases rest
    {
      HasMember(rest);
      var t :| t in rest;
      ghost var counted := set u | u in times - rest && inView(p, u) >= k;
      rest := rest - {t};
      if inView(p, t) >= k {
        n := n + 1;
        assert (set u | u in times - rest && inView(p, u) >= k) == counted + {t};
      } else {
        assert (set u | u in times - rest && inView(p, u) >= k) == counted;
      }
    }
    assert times - rest == times;
  }

  // Per point, the share of the sample times at which the engine has at least k satellites in view.
  ghost predicate EngineRight(eng: seq<real>, r: OracleResult, inView: (Point, real) -> nat, k: int) {
    && |eng| == |r.latlon|
    && forall i :: 0 <= i < |eng| ==>
         IsShare(eng[i], |set t | t in r.times && inView(r.latlon[i], t) >= k|, |r.times|)
  }

  method EngineCoverage(r: OracleResult, inView: (Point, real) -> nat, k: int) returns (eng: seq<real>)
    requires r.times != {}
    ensures EngineRight(eng, r, inView, k)
  {
    eng := [];
    for i := 0 to |r.latlon|
      invariant |eng| == i
      invariant forall j :: 0 <= j < i ==>
        IsShare(eng[j], |set t | t in r.times && inView(r.latlon[j], t) >= k|, |r.times|)
    {
      var n := CountAbove(r.times, inView, r.latlon[i], k);
      QuotientIsShare(n, |r.times|);
      eng := eng + [n as real / |r.times| as real];
    }
  }

  // ---------- counts of a point over a bucket ----------

  // Served samples of a point over some segments, as the oracle and as the engine see them.
  ghost function OracleCount(satOf: string -> string, k: int): (seq<Segment>, Point) -> real {
    (segs, p) => |ServedTimes(segs, satOf, p, k)| as real
  }

  ghost function EngineCount(inView: (Point, real) -> nat, k: int): (seq<Segment>, Point) -> real {
    (segs, p) => |EngineTimes(Times(segs), inView, p, k)| as real
  }

  // A count that adds up over disjoint sample grids.
  ghost predicate Tallying(count: (seq<Segment>, Point) -> real) {
    && (forall p :: count([], p) == 0.0)
    && (forall segs, p :: count(segs, p) >= 0.0)
    && (forall a, b, p :: Times(a) !! Times(b) ==> count(a + b, p) == count(a, p) + count(b, p))
  }

  lemma OracleTallies(satOf: string -> string, k: int)
    ensures Tallying(OracleCount(satOf, k))
  {
    var count := OracleCount(satOf, k);
    forall p
      ensures count([], p) == 0.0
    {
      assert Times([]) == {} && ServedTimes([], satOf, p, k) == {};
    }
    forall a, b, p | Times(a) !! Times(b)
      ensures count(a + b, p) == count(a, p) + count(b, p)
    {
      JoinServed(a, b, satOf, p, k);
    }
  }

  lemma EngineTallies(inView: (Point, real) -> nat, k: int)
    ensures Tallying(EngineCount(inView, k))
  {
    var count := EngineCount(inView, k);
    forall p
      ensures count([], p) == 0.0
    {
      assert Times([]) == {} && EngineTimes({}, inView, p, k) == {};
    }
    forall a, b, p | Times(a) !! Times(b)
      ensures count(a + b, p) == count(a, p) + count(b, p)
    {
      JoinTimes(a, b);
      var ea, eb := EngineTimes(Times(a), inView, p, k), EngineTimes(Times(b), inView, p, k);
      assert EngineTimes(Times(a + b), inView, p, k) == ea + eb;
    }
  }

  // ---------- counts of a cell ----------

  // The points that fall into cell c.
  ghost function CellPoints<Cell>(ps: set<Point>, cellOf: Point -> Cell, c: Cell): set<Point> {
    set p | p in ps && cellOf(p) == c
  }

  ghost function Over(count: (seq<Segment>, Point) -> real, segs: seq<Segment>): Point -> real {
    p => count(segs, p)
  }

  // The points of one bucket in a cell, each with its count over that bucket.
  ghost function CellCount<Cell>(bucket: seq<Segment>, count: (seq<Segment>, Point) -> real,
                                 cellOf: Point -> Cell, c: Cell): real
  {
    SumOver(CellPoints(Points(bucket), cellOf, c), Over(count, bucket))
  }

  // The same added up over the buckets.
  ghost function MergedCount<Cell>(buckets: seq<seq<Segment>>, count: (seq<Segment>, Point) -> real,
                                   cellOf: Point -> Cell, c: Cell): real
  {
    if buckets == [] then 0.0 else
      MergedCount(buckets[..|buckets| - 1], count, cellOf, c) + CellCount(buckets[|buckets| - 1], count, cellOf, c)
  }

  // Sample times of all buckets, a shared one counted in each.
  ghost function Samples(buckets: seq<seq<Segment>>): nat {
    if buckets == [] then 0 else Samples(buckets[..|buckets| - 1]) + |Times(buckets[|buckets| - 1])|
  }

  // ---------- the merge ----------

  // Weighted availabilities of a cell: the oracle's and the engine's.
  datatype Tally = Tally(oracle: real, engine: real) {

    function Plus(more: Tally): Tally {
      Tally(oracle + more.oracle, engine + more.engine)
    }
  }

  function Entry<Cell(==)>(acc: map<Cell, Tally>, c: Cell): Tally {
    if c in acc then acc[c] else Tally(0.0, 0.0)
  }

  // One level per point, and an engine value beside each.
  ghost predicate OneLevel(r: OracleResult, eng: seq<real>) {
    |r.latlon| == |r.availability| == |eng| && forall i :: 0 <= i < |r.availability| ==> |r.availability[i]| == 1
  }

  function Weighted(availability: real, n: nat): real {
    availability * n as real
  }

  // Availability times samples, point by point.
  function Gains(r: OracleResult, eng: seq<real>): (gains: seq<Tally>)
    requires OneLevel(r, eng)
    ensures |gains| == |r.latlon|
  {
    seq(|r.latlon|, i requires 0 <= i < |r.latlon| && OneLevel(r, eng) =>
      Tally(Weighted(r.availability[i][0], r.nSamples), Weighted(eng[i], r.nSamples)))
  }

  // The accumulator once the first n points of a bucket have been added.
  function AddPoints<Cell(==)>(acc: map<Cell, Tally>, points: seq<Point>, gains: seq<Tally>, cellOf: Point -> Cell,
                               n: nat)
    : map<Cell, Tally>
    requires n <= |points| == |gains|
  {
    if n == 0 then acc else
      var prev, c := AddPoints(acc, points, gains, cellOf, n - 1), cellOf(points[n - 1]);
      prev[c := Entry(prev, c).Plus(gains[n - 1])]
  }

  method AddBucket<Cell(==)>(acc: map<Cell, Tally>, r: OracleResult, eng: seq<real>, cellOf: Point -> Cell)
    returns (acc': map<Cell, Tally>)
    requires OneLevel(r, eng)
    ensures acc' == AddPoints(acc, r.latlon, Gains(r, eng), cellOf, |r.latlon|)
  {
    acc' := acc;
    for i := 0 to |r.latlon|
      invariant acc' == AddPoints(acc, r.latlon, Gains(r, eng), cellOf, i)
    {
      var c := cellOf(r.latlon[i]);
      var gain := Tally(Weighted(r.availability[i][0], r.nSamples), Weighted(eng[i], r.nSamples));
      assert gain == Gains(r, eng)[i];
      acc' := acc'[c := Entry(acc', c).Plus(gain)];
    }
  }

  ghost function FirstPoints(points: seq<Point>, n: nat): set<Point>
    requires n <= |points|
  {
    set i | 0 <= i < n :: points[i]
  }

  ghost predicate AllDifferent(points: seq<Point>) {
    forall i, j :: 0 <= i < j < |points| ==> points[i] != points[j]
  }

  // Each point of the bucket contributes f to the oracle's column and g to the engine's.
  ghost predicate Contributes(points: seq<Point>, gains: seq<Tally>, f: Point -> real, g: Point -> real) {
    && |gains| == |points| && AllDifferent(points)
    && forall i :: 0 <= i < |points| ==> gains[i] == Tally(f(points[i]), g(points[i]))
  }

  // What the points ps contribute together.
  ghost function Contributions(ps: set<Point>, f: Point -> real, g: Point -> real): Tally {
    Tally(SumOver(ps, f), SumOver(ps, g))
  }

  // A cell gains a tally, from some points.
  ghost predicate Gained<Cell>(acc: map<Cell, Tally>, now: map<Cell, Tally>, c: Cell, ps: set<Point>, gain: Tally) {
    && (c in now <==> c in acc || ps != {})
    && Entry(now, c).oracle == Entry(acc, c).oracle + gain.oracle
    && Entry(now, c).engine == Entry(acc, c).engine + gain.engine
  }

  lemma AddPointsNext<Cell>(acc: map<Cell, Tally>, points: seq<Point>, gains: seq<Tally>, cellOf: Point -> Cell,
                            n: nat, c: Cell)
    requires 0 < n <= |points| == |gains|
    ensures var (prev, now) := (AddPoints(acc, points, gains, cellOf, n - 1), AddPoints(acc, points, gains, cellOf, n));
      if cellOf(points[n - 1]) == c then c in now && Entry(now, c) == Entry(prev, c).Plus(gains[n - 1])
      else (c in now <==> c in prev) && Entry(now, c) == Entry(prev, c)
  {
  }

  lemma ContributionsAdd(ps: set<Point>, p: Point, f: Point -> real, g: Point -> real)
    requires p !in ps
    ensures Contributions(ps + {p}, f, g) == Contributions(ps, f, g).Plus(Tally(f(p), g(p)))
  {
    SumAdd(ps, p, f);
    SumAdd(ps, p, g);
  }

  lemma CellPointsNext<Cell>(points: seq<Point>, cellOf: Point -> Cell, n: nat, c: Cell)
    requires 0 < n <= |points| && AllDifferent(points)
    ensures var (before, p) := (CellPoints(FirstPoints(points, n - 1), cellOf, c), points[n - 1]);
      && p !in before
      && CellPoints(FirstPoints(points, n), cellOf, c) == if cellOf(p) == c then before + {p} else before
  {
    assert FirstPoints(points, n) == FirstPoints(points, n - 1) + {points[n - 1]};
  }

  // The contributions of the first n points in a cell.
  ghost function CellContributions<Cell>(points: seq<Point>, cellOf: Point -> Cell, f: Point -> real, g: Point -> real,
                                         n: nat, c: Cell): Tally
    requires n <= |points|
  {
    Contributions(CellPoints(FirstPoints(points, n), cellOf, c), f, g)
  }

  lemma CellContributionsNext<Cell>(points: seq<Point>, cellOf: Point -> Cell, f: Point -> real, g: Point -> real,
                                    n: nat, c: Cell)
    requires 0 < n <= |points| && AllDifferent(points)
    ensures CellContributions(points, cellOf, f, g, n, c)
         == if cellOf(points[n - 1]) == c
            then CellContributions(points, cellOf, f, g, n - 1, c).Plus(Tally(f(points[n - 1]), g(points[n - 1])))
            else CellContributions(points, cellOf, f, g, n - 1, c)
    ensures CellPoints(FirstPoints(points, n), cellOf, c) != {}
       <==> CellPoints(FirstPoints(points, n - 1), cellOf, c) != {} || cellOf(points[n - 1]) == c
  {
    CellPointsNext(points, cellOf, n, c);
    if cellOf(points[n - 1]) == c {
      ContributionsAdd(CellPoints(FirstPoints(points, n - 1), cellOf, c), points[n - 1], f, g);
    }
  }

  lemma GainedNext<Cell>(acc: map<Cell, Tally>, prev: map<Cell, Tally>, now: map<Cell, Tally>, c: Cell,
                         inCell: bool, before: set<Point>, after: set<Point>, gain: Tally, more: Tally)
    requires Gained(acc, prev, c, before, gain) && (after != {} <==> before != {} || inCell)
    requires if inCell then c in now && Entry(now, c) == Entry(prev, c).Plus(more)
             else (c in now <==> c in prev) && Entry(now, c) == Entry(prev, c)
    ensures Gained(acc, now, c, after, if inCell then gain.Plus(more) else gain)
  {
  }

  // Adding a bucket gives each cell the contributions of all its points, and nothing to other cells.
  lemma {:induction false} AddPointsAt<Cell>(acc: map<Cell, Tally>, points: seq<Point>, gains: seq<Tally>,
                                            cellOf: Point -> Cell, f: Point -> real, g: Point -> real, n: nat, c: Cell)
    requires Contributes(points, gains, f, g) && n <= |points|
    ensures Gained(acc, AddPoints(acc, points, gains, cellOf, n), c, CellPoints(FirstPoints(points, n), cellOf, c),
                   CellContributions(points, cellOf, f, g, n, c))
  {
    if n == 0 {
      assert FirstPoints(points, 0) == {} && CellPoints(FirstPoints(points, 0), cellOf, c) == {};
    } else {
      AddPointsAt(acc, points, gains, cellOf, f, g, n - 1, c);
      AddPointsNext(acc, points, gains, cellOf, n, c);
      CellContributionsNext(points, cellOf, f, g, n, c);
      GainedNext(acc, AddPoints(acc, points, gains, cellOf, n - 1), AddPoints(acc, points, gains, cellOf, n), c,
                 cellOf(points[n - 1]) == c, CellPoints(FirstPoints(points, n - 1), cellOf, c),
                 CellPoints(FirstPoints(points, n), cellOf, c), CellContributions(points, cellOf, f, g, n - 1, c),
                 gains[n - 1]);
    }
  }

  lemma WholeQuotient(x: real, n: nat)
    requires n > 0
    ensures Weighted(x / n as real, n) == x
  {
  }

  // Availability times samples is a count again, in both columns.
  lemma ContributionCounts(r: OracleResult, eng: seq<real>, bucket: seq<Segment>, satOf: string -> string,
                           inView: (Point, real) -> nat, k: int, i: nat)
    requires OracleRight(r, bucket, satOf, [k]) && EngineRight(eng, r, inView, k) && i < |r.latlon|
    ensures |r.availability[i]| == 1
    ensures Weighted(r.availability[i][0], r.nSamples) == OracleCount(satOf, k)(bucket, r.latlon[i])
    ensures Weighted(eng[i], r.nSamples) == EngineCount(inView, k)(bucket, r.latlon[i])
  {
    var p := r.latlon[i];
    assert PointRight(r.availability[i], r.satsInViewMean[i], bucket, satOf, p, [k]);
    assert r.availability[i][0] == Fraction(bucket, satOf, p, k);
    FractionCounts(bucket, satOf, p, k);
    EngineCounts(eng, r, inView, k, i);
  }

  lemma EngineCounts(eng: seq<real>, r: OracleResult, inView: (Point, real) -> nat, k: int, i: nat)
    requires EngineRight(eng, r, inView, k) && i < |r.latlon|
    ensures Weighted(eng[i], |r.times|) == |EngineTimes(r.times, inView, r.latlon[i], k)| as real
  {
    var p := r.latlon[i];
    assert IsShare(eng[i], |set t | t in r.times && inView(p, t) >= k|, |r.times|);
    assert (set t | t in r.times && inView(p, t) >= k) == EngineTimes(r.times, inView, p, k);
  }

  lemma FractionCounts(segs: seq<Segment>, satOf: string -> string, p: Point, k: int)
    requires Times(segs) != {}
    ensures Weighted(Fraction(segs, satOf, p, k), |Times(segs)|) == |ServedTimes(segs, satOf, p, k)| as real
  {
    WholeQuotient(|ServedTimes(segs, satOf, p, k)| as real, |Times(segs)|);
  }

  lemma ContributesCounts(r: OracleResult, eng: seq<real>, bucket: seq<Segment>, satOf: string -> string,
                          inView: (Point, real) -> nat, k: int)
    requires OracleRight(r, bucket, satOf, [k]) && EngineRight(eng, r, inView, k)
    ensures OneLevel(r, eng)
    ensures Contributes(r.latlon, Gains(r, eng), Over(OracleCount(satOf, k), bucket),
                        Over(EngineCount(inView, k), bucket))
  {
    forall i | 0 <= i < |r.latlon|
      ensures |r.availability[i]| == 1
    {
      ContributionCounts(r, eng, bucket, satOf, inView, k, i);
    }
    var f, g := Over(OracleCount(satOf, k), bucket), Over(EngineCount(inView, k), bucket);
    forall i | 0 <= i < |r.latlon|
      ensures Gains(r, eng)[i] == Tally(f(r.latlon[i]), g(r.latlon[i]))
    {
      ContributionCounts(r, eng, bucket, satOf, inView, k, i);
    }
  }

  lemma AllPoints(r: OracleResult, bucket: seq<Segment>, satOf: string -> string, k: int)
    requires OracleRight(r, bucket, satOf, [k])
    ensures FirstPoints(r.latlon, |r.latlon|) == Points(bucket)
  {
    assert forall p :: p in r.latlon <==> p in FirstPoints(r.latlon, |r.latlon|);
  }

  // The state of the merge, for any buckets: each cell holds the counts of its points over the
  // buckets that name them, and the total counts the samples of every bucket.
  ghost predicate Merged<Cell(!new)>(acc: map<Cell, Tally>, total: nat, buckets: seq<seq<Segment>>,
                                     satOf: string -> string, inView: (Point, real) -> nat, cellOf: Point -> Cell,
                                     k: int)
  {
    total == Samples(buckets) && forall c :: CellMerged(acc, buckets, satOf, inView, cellOf, k, c)
  }

  ghost predicate CellMerged<Cell>(acc: map<Cell, Tally>, buckets: seq<seq<Segment>>, satOf: string -> string,
                                   inView: (Point, real) -> nat, cellOf: Point -> Cell, k: int, c: Cell)
  {
    && (c in acc <==> CellPoints(Points(Joined(buckets)), cellOf, c) != {})
    && Entry(acc, c) == Tally(MergedCount(buckets, OracleCount(satOf, k), cellOf, c),
                              MergedCount(buckets, EngineCount(inView, k), cellOf, c))
  }

  lemma NothingMerged<Cell(!new)>(satOf: string -> string, inView: (Point, real) -> nat, cellOf: Point -> Cell, k: int)
    ensures Merged(map[], 0, [], satOf, inView, cellOf, k)
  {
    assert Points([]) == {};
    forall c
      ensures CellMerged(map[], [], satOf, inView, cellOf, k, c)
    {
      assert CellPoints(Points([]), cellOf, c) == {};
    }
  }

  lemma CellPointsJoin<Cell>(a: set<Point>, b: set<Point>, cellOf: Point -> Cell, c: Cell)
    ensures CellPoints(a + b, cellOf, c) == CellPoints(a, cellOf, c) + CellPoints(b, cellOf, c)
  {
  }

  lemma MoreBuckets(buckets: seq<seq<Segment>>, bucket: seq<Segment>)
    ensures var more := buckets + [bucket];
      && more[..|more| - 1] == buckets && more[|more| - 1] == bucket
      && Joined(more) == Joined(buckets) + bucket
      && Points(Joined(more)) == Points(Joined(buckets)) + Points(bucket)
  {
    var more := buckets + [bucket];
    assert more[..|more| - 1] == buckets;
    JoinTimes(Joined(buckets), bucket);
  }

  lemma CellMergedStep<Cell>(acc: map<Cell, Tally>, now: map<Cell, Tally>, buckets: seq<seq<Segment>>,
                             bucket: seq<Segment>, satOf: string -> string, inView: (Point, real) -> nat,
                             cellOf: Point -> Cell, k: int, c: Cell)
    requires CellMerged(acc, buckets, satOf, inView, cellOf, k, c)
    requires var (f, g) := (Over(OracleCount(satOf, k), bucket), Over(EngineCount(inView, k), bucket));
             var ps := CellPoints(Points(bucket), cellOf, c);
      Gained(acc, now, c, ps, Contributions(ps, f, g))
    ensures CellMerged(now, buckets + [bucket], satOf, inView, cellOf, k, c)
  {
    MoreBuckets(buckets, bucket);
    CellPointsJoin(Points(Joined(buckets)), Points(bucket), cellOf, c);
    MergedCountNext(buckets, bucket, OracleCount(satOf, k), cellOf, c);
    MergedCountNext(buckets, bucket, EngineCount(inView, k), cellOf, c);
  }

  lemma MergedCountNext<Cell>(buckets: seq<seq<Segment>>, bucket: seq<Segment>, count: (seq<Segment>, Point) -> real,
                              cellOf: Point -> Cell, c: Cell)
    ensures MergedCount(buckets + [bucket], count, cellOf, c)
         == MergedCount(buckets, count, cellOf, c) + CellCount(bucket, count, cellOf, c)
  {
    MoreBuckets(buckets, bucket);
  }

  lemma MergedStep<Cell(!new)>(acc: map<Cell, Tally>, total: nat, buckets: seq<seq<Segment>>, bucket: seq<Segment>,
                               r: OracleResult, eng: seq<real>, satOf: string -> string,
                               inView: (Point, real) -> nat, cellOf: Point -> Cell, k: int)
    requires Merged(acc, total, buckets, satOf, inView, cellOf, k)
    requires OracleRight(r, bucket, satOf, [k]) && EngineRight(eng, r, inView, k)
    ensures OneLevel(r, eng)
    ensures Merged(AddPoints(acc, r.latlon, Gains(r, eng), cellOf, |r.latlon|), total + r.nSamples,
                   buckets + [bucket], satOf, inView, cellOf, k)
  {
    ContributesCounts(r, eng, bucket, satOf, inView, k);
    var gains := Gains(r, eng);
    var f, g := Over(OracleCount(satOf, k), bucket), Over(EngineCount(inView, k), bucket);
    AllPoints(r, bucket, satOf, k);
    MoreBuckets(buckets, bucket);
    var now := AddPoints(acc, r.latlon, gains, cellOf, |r.latlon|);
    forall c
      ensures CellMerged(now, buckets + [bucket], satOf, inView, cellOf, k, c)
    {
      assert CellMerged(acc, buckets, satOf, inView, cellOf, k, c);
      AddPointsAt(acc, r.latlon, gains, cellOf, f, g, |r.latlon|, c);
      CellMergedStep(acc, now, buckets, bucket, satOf, inView, cellOf, k, c);
    }
  }

  // ---------- point by point ----------

  ghost function NamedCount(buckets: seq<seq<Segment>>, count: (seq<Segment>, Point) -> real, p: Point): real {
    if buckets == [] then 0.0 else
      var last := buckets[|buckets| - 1];
      NamedCount(buckets[..|buckets| - 1], count, p) + if p in Points(last) then count(last, p) else 0.0
  }

  // The counts of p over the buckets that do not name it, which the merge leaves out.
  ghost function MissingCount(buckets: seq<seq<Segment>>, count: (seq<Segment>, Point) -> real, p: Point): real {
    if buckets == [] then 0.0 else
      var last := buckets[|buckets| - 1];
      MissingCount(buckets[..|buckets| - 1], count, p) + if p in Points(last) then 0.0 else count(last, p)
  }

  ghost function Named(buckets: seq<seq<Segment>>, count: (seq<Segment>, Point) -> real): Point -> real {
    p => NamedCount(buckets, count, p)
  }

  ghost function InLast(bucket: seq<Segment>, count: (seq<Segment>, Point) -> real): Point -> real {
    p => if p in Points(bucket) then count(bucket, p) else 0.0
  }

  lemma {:induction false} UnnamedCount(buckets: seq<seq<Segment>>, count: (seq<Segment>, Point) -> real, p: Point)
    requires p !in Points(Joined(buckets))
    ensures NamedCount(buckets, count, p) == 0.0
    decreases |buckets|
  {
    if buckets != [] {
      var init, last := buckets[..|buckets| - 1], buckets[|buckets| - 1];
      JoinTimes(Joined(init), last);
      UnnamedCount(init, count, p);
    }
  }

  // Summing bucket by bucket or point by point is the same, whatever the buckets share.
  lemma {:induction false} MergedByPoint<Cell>(buckets: seq<seq<Segment>>, count: (seq<Segment>, Point) -> real,
                                              cellOf: Point -> Cell, c: Cell)
    ensures MergedCount(buckets, count, cellOf, c)
         == SumOver(CellPoints(Points(Joined(buckets)), cellOf, c), Named(buckets, count))
    decreases |buckets|
  {
    if buckets == [] {
      assert Points([]) == {} && CellPoints(Points([]), cellOf, c) == {};
    } else {
      var init, last := buckets[..|buckets| - 1], buckets[|buckets| - 1];
      MergedByPoint(init, count, cellOf, c);
      JoinTimes(Joined(init), last);
      CellPointsJoin(Points(Joined(init)), Points(last), cellOf, c);
      var ps0, ps1 := CellPoints(Points(Joined(init)), cellOf, c), CellPoints(Points(last), cellOf, c);
      SumPlus(ps0 + ps1, Named(init, count), InLast(last, count), Named(buckets, count));
      forall p | p in ps0 + ps1 && p !in ps0
        ensures Named(init, count)(p) == 0.0
      {
        UnnamedCount(init, count, p);
      }
      SumWithin(ps0 + ps1, ps0, Named(init, count));
      SumWithin(ps0 + ps1, ps1, InLast(last, count));
      SumSame(ps1, InLast(last, count), Over(count, last));
    }
  }

  lemma LastDisjoint(buckets: seq<seq<Segment>>)
    requires DisjointGrids(buckets) && buckets != []
    ensures DisjointGrids(buckets[..|buckets| - 1])
    ensures Times(Joined(buckets[..|buckets| - 1])) !! Times(buckets[|buckets| - 1])
  {
    JoinedDisjoint(buckets[..|buckets| - 1], buckets[|buckets| - 1]);
  }

  // Over disjoint grids the count of the whole is what the naming buckets hold and the others miss.
  lemma {:induction false} WholeCount(buckets: seq<seq<Segment>>, count: (seq<Segment>, Point) -> real, p: Point)
    requires DisjointGrids(buckets) && Tallying(count)
    ensures count(Joined(buckets), p) == NamedCount(buckets, count, p) + MissingCount(buckets, count, p)
    ensures NamedCount(buckets, count, p) >= 0.0 && MissingCount(buckets, count, p) >= 0.0
    ensures Samples(buckets) == |Times(Joined(buckets))|
    decreases |buckets|
  {
    if buckets == [] {
      assert Times([]) == {};
    } else {
      var init, last := buckets[..|buckets| - 1], buckets[|buckets| - 1];
      LastDisjoint(buckets);
      WholeCount(init, count, p);
      JoinGrids(Joined(init), last);
      assert count(Joined(init) + last, p) == count(Joined(init), p) + count(last, p);
    }
  }

  // What the other points of the cell hold.
  ghost function OthersCount<Cell>(buckets: seq<seq<Segment>>, count: (seq<Segment>, Point) -> real,
                                   cellOf: Point -> Cell, p: Point): real
  {
    SumOver(CellPoints(Points(Joined(buckets)), cellOf, cellOf(p)) - {p}, Named(buckets, count))
  }

  lemma SameQuotient(x: real, y: real, n: nat)
    requires n > 0
    ensures x / n as real == y / n as real <==> x == y
  {
    assert x / n as real * n as real == x && y / n as real * n as real == y;
  }

  // The value of a cell in a column: its merged count over the samples of all buckets.
  ghost function MergedValue<Cell>(buckets: seq<seq<Segment>>, count: (seq<Segment>, Point) -> real,
                                   cellOf: Point -> Cell, c: Cell): real
    requires Samples(buckets) > 0
  {
    MergedCount(buckets, count, cellOf, c) / Samples(buckets) as real
  }

  // The value of a point's cell is the point's own one-shot value over the joint grid.
  ghost predicate IsOneShot<Cell>(buckets: seq<seq<Segment>>, count: (seq<Segment>, Point) -> real,
                                  cellOf: Point -> Cell, p: Point)
    requires Samples(buckets) > 0 && Times(Joined(buckets)) != {}
  {
    MergedValue(buckets, count, cellOf, cellOf(p))
      == count(Joined(buckets), p) / |Times(Joined(buckets))| as real
  }

  // Over disjoint grids that is so exactly when the other points of its cell hold as much as the
  // buckets that do not name the point leave out.
  lemma OneShotIffBalanced<Cell>(buckets: seq<seq<Segment>>, count: (seq<Segment>, Point) -> real,
                                 cellOf: Point -> Cell, p: Point)
    requires DisjointGrids(buckets) && Tallying(count) && p in Points(Joined(buckets))
    ensures Samples(buckets) > 0 && Times(Joined(buckets)) != {}
    ensures IsOneShot(buckets, count, cellOf, p)
       <==> OthersCount(buckets, count, cellOf, p) == MissingCount(buckets, count, p)
  {
    var segs := Joined(buckets);
    PointsHaveTimes(segs);
    WholeCount(buckets, count, p);
    MergedByPoint(buckets, count, cellOf, cellOf(p));
    SumRemove(CellPoints(Points(segs), cellOf, cellOf(p)), p, Named(buckets, count));
    SameQuotient(MergedCount(buckets, count, cellOf, cellOf(p)), count(segs, p), Samples(buckets));
  }

  // ---------- point by point, as sets of samples ----------

  // The sample times of the buckets that name p.
  ghost function NamedTimes(buckets: seq<seq<Segment>>, p: Point): set<real> {
    set bucket, t | bucket in buckets && p in Points(bucket) && t in Times(bucket) :: t
  }

  // The samples of p, in buckets that name it, at which the engine has at least k satellites in view.
  ghost function EngineSamples(buckets: seq<seq<Segment>>, inView: (Point, real) -> nat, k: int): Point -> set<real> {
    p => set t | t in NamedTimes(buckets, p) && inView(p, t) >= k
  }

  // The same for the oracle's accessible satellites.
  ghost function OracleSamples(buckets: seq<seq<Segment>>, satOf: string -> string, k: int): Point -> set<real> {
    p => set t | t in NamedTimes(buckets, p) && |Access(Joined(buckets), satOf, p, t)| >= k
  }

  ghost function Marked(times: set<real>, mark: (Point, real) -> bool, p: Point): set<real> {
    set t | t in times && mark(p, t)
  }

  ghost function EngineMark(inView: (Point, real) -> nat, k: int): (Point, real) -> bool {
    (p, t) => inView(p, t) >= k
  }

  ghost function OracleMark(segs: seq<Segment>, satOf: string -> string, k: int): (Point, real) -> bool {
    (p, t) => |Access(segs, satOf, p, t)| >= k
  }

  lemma NamedTimesNext(buckets: seq<seq<Segment>>, p: Point)
    requires buckets != []
    ensures var (init, last) := (buckets[..|buckets| - 1], buckets[|buckets| - 1]);
      NamedTimes(buckets, p) == NamedTimes(init, p) + if p in Points(last) then Times(last) else {}
  {
    var init, last := buckets[..|buckets| - 1], buckets[|buckets| - 1];
    assert buckets == init + [last];
    assert forall bucket :: bucket in buckets <==> bucket in init || bucket == last;
  }

  lemma {:induction false} NamedTimesWithin(buckets: seq<seq<Segment>>, p: Point)
    ensures NamedTimes(buckets, p) <= Times(Joined(buckets))
    decreases |buckets|
  {
    if buckets != [] {
      var init, last := buckets[..|buckets| - 1], buckets[|buckets| - 1];
      NamedTimesWithin(init, p);
      NamedTimesNext(buckets, p);
      JoinTimes(Joined(init), last);
    }
  }

  // Over disjoint grids the counts of a point over the buckets naming it are a number of samples.
  lemma {:induction false} NamedCountExact(buckets: seq<seq<Segment>>, count: (seq<Segment>, Point) -> real,
                                           mark: (Point, real) -> bool, p: Point)
    requires DisjointGrids(buckets)
    requires forall bucket :: bucket in buckets ==> count(bucket, p) == |Marked(Times(bucket), mark, p)| as real
    ensures NamedCount(buckets, count, p) == |Marked(NamedTimes(buckets, p), mark, p)| as real
    decreases |buckets|
  {
    if buckets == [] {
      assert NamedTimes([], p) == {} && Marked({}, mark, p) == {};
    } else {
      var init, last := buckets[..|buckets| - 1], buckets[|buckets| - 1];
      LastDisjoint(buckets);
      NamedCountExact(init, count, mark, p);
      NamedTimesNext(buckets, p);
      NamedTimesWithin(init, p);
      if p in Points(last) {
        MarkedJoin(NamedTimes(init, p), Times(last), mark, p);
      }
      assert NamedTimes(init, p) + {} == NamedTimes(init, p);
    }
  }

  lemma MarkedJoin(a: set<real>, b: set<real>, mark: (Point, real) -> bool, p: Point)
    requires a !! b
    ensures |Marked(a + b, mark, p)| == |Marked(a, mark, p)| + |Marked(b, mark, p)|
  {
    assert Marked(a + b, mark, p) == Marked(a, mark, p) + Marked(b, mark, p);
  }

  // At a sample of one bucket, what the oracle sees over all segments is what it sees in the bucket.
  lemma {:induction false} AccessInBucket(buckets: seq<seq<Segment>>, j: nat, satOf: string -> string, p: Point,
                                          t: real)
    requires DisjointGrids(buckets) && j < |buckets| && t in Times(buckets[j])
    ensures Access(Joined(buckets), satOf, p, t) == Access(buckets[j], satOf, p, t)
    decreases |buckets|
  {
    var init, last := buckets[..|buckets| - 1], buckets[|buckets| - 1];
    LastDisjoint(buckets);
    if j < |init| {
      AccessInBucket(init, j, satOf, p, t);
      JoinAccess(Joined(init), last, satOf, p, t);
    } else {
      JoinAccess(last, Joined(init), satOf, p, t);
    }
  }

  lemma OracleMarked(buckets: seq<seq<Segment>>, satOf: string -> string, k: int, p: Point)
    requires DisjointGrids(buckets)
    ensures forall bucket :: bucket in buckets ==>
      OracleCount(satOf, k)(bucket, p) == |Marked(Times(bucket), OracleMark(Joined(buckets), satOf, k), p)| as real
  {
    forall bucket | bucket in buckets
      ensures ServedTimes(bucket, satOf, p, k) == Marked(Times(bucket), OracleMark(Joined(buckets), satOf, k), p)
    {
      var j: nat :| j < |buckets| && buckets[j] == bucket;
      forall t | t in Times(bucket)
        ensures Access(Joined(buckets), satOf, p, t) == Access(bucket, satOf, p, t)
      {
        AccessInBucket(buckets, j, satOf, p, t);
      }
    }
  }

  lemma NamedSamples(buckets: seq<seq<Segment>>, satOf: string -> string, inView: (Point, real) -> nat, k: int,
                     p: Point)
    requires DisjointGrids(buckets)
    ensures NamedCount(buckets, OracleCount(satOf, k), p) == |OracleSamples(buckets, satOf, k)(p)| as real
    ensures NamedCount(buckets, EngineCount(inView, k), p) == |EngineSamples(buckets, inView, k)(p)| as real
  {
    OracleMarked(buckets, satOf, k, p);
    NamedCountExact(buckets, OracleCount(satOf, k), OracleMark(Joined(buckets), satOf, k), p);
    assert OracleSamples(buckets, satOf, k)(p)
        == Marked(NamedTimes(buckets, p), OracleMark(Joined(buckets), satOf, k), p);
    forall bucket | bucket in buckets
      ensures EngineTimes(Times(bucket), inView, p, k) == Marked(Times(bucket), EngineMark(inView, k), p)
    {
    }
    NamedCountExact(buckets, EngineCount(inView, k), EngineMark(inView, k), p);
    assert EngineSamples(buckets, inView, k)(p) == Marked(NamedTimes(buckets, p), EngineMark(inView, k), p);
  }

  // Over disjoint grids a cell's counts are numbers of (point, sample) pairs.
  lemma MergedPairs<Cell>(buckets: seq<seq<Segment>>, satOf: string -> string, inView: (Point, real) -> nat,
                          cellOf: Point -> Cell, k: int, c: Cell)
    requires DisjointGrids(buckets)
    ensures var ps := CellPoints(Points(Joined(buckets)), cellOf, c);
      && MergedCount(buckets, OracleCount(satOf, k), cellOf, c)
         == |AllPairs(ps, OracleSamples(buckets, satOf, k))| as real
      && MergedCount(buckets, EngineCount(inView, k), cellOf, c)
         == |AllPairs(ps, EngineSamples(buckets, inView, k))| as real
  {
    var ps := CellPoints(Points(Joined(buckets)), cellOf, c);
    MergedByPoint(buckets, OracleCount(satOf, k), cellOf, c);
    MergedByPoint(buckets, EngineCount(inView, k), cellOf, c);
    forall p | p in ps
      ensures Named(buckets, OracleCount(satOf, k))(p) == |OracleSamples(buckets, satOf, k)(p)| as real
      ensures Named(buckets, EngineCount(inView, k))(p) == |EngineSamples(buckets, inView, k)(p)| as real
    {
      NamedSamples(buckets, satOf, inView, k, p);
    }
    SumOfSizes(ps, Named(buckets, OracleCount(satOf, k)), OracleSamples(buckets, satOf, k));
    SumOfSizes(ps, Named(buckets, EngineCount(inView, k)), EngineSamples(buckets, inView, k));
  }

  lemma {:induction false} SamplesExact(buckets: seq<seq<Segment>>)
    requires DisjointGrids(buckets)
    ensures Samples(buckets) == |Times(Joined(buckets))|
    decreases |buckets|
  {
    if buckets == [] {
      assert Times([]) == {};
    } else {
      LastDisjoint(buckets);
      SamplesExact(buckets[..|buckets| - 1]);
      JoinGrids(Joined(buckets[..|buckets| - 1]), buckets[|buckets| - 1]);
    }
  }

  // ---------- the oracle's column at levels of at least 1 ----------

  // What the comparison relies on: levels of at least 1 and buckets that share no sample time.
  ghost predicate Mergeable(buckets: seq<seq<Segment>>, k: int) {
    k >= 1 && DisjointGrids(buckets)
  }

  // A bucket that does not name a point serves it never.
  lemma {:induction false} NothingMissing(buckets: seq<seq<Segment>>, satOf: string -> string, k: int, p: Point)
    requires k >= 1
    ensures MissingCount(buckets, OracleCount(satOf, k), p) == 0.0
    decreases |buckets|
  {
    if buckets != [] {
      NothingMissing(buckets[..|buckets| - 1], satOf, k, p);
      if p !in Points(buckets[|buckets| - 1]) {
        AbsentServesNothing(buckets[|buckets| - 1], satOf, p, k);
      }
    }
  }

  // No other point of its cell is ever served.
  ghost predicate AloneInCell<Cell>(segs: seq<Segment>, satOf: string -> string, cellOf: Point -> Cell, k: int,
                                    p: Point) {
    forall q :: q in Points(segs) && q != p && cellOf(q) == cellOf(p) ==> ServedTimes(segs, satOf, q, k) == {}
  }

  lemma NamedIsWhole(buckets: seq<seq<Segment>>, satOf: string -> string, k: int, p: Point)
    requires Mergeable(buckets, k)
    ensures NamedCount(buckets, OracleCount(satOf, k), p) == |ServedTimes(Joined(buckets), satOf, p, k)| as real
  {
    OracleTallies(satOf, k);
    WholeCount(buckets, OracleCount(satOf, k), p);
    NothingMissing(buckets, satOf, k, p);
  }

  lemma OthersUnserved<Cell>(buckets: seq<seq<Segment>>, satOf: string -> string, cellOf: Point -> Cell, k: int,
                             p: Point)
    requires Mergeable(buckets, k)
    ensures OthersCount(buckets, OracleCount(satOf, k), cellOf, p) == 0.0
       <==> AloneInCell(Joined(buckets), satOf, cellOf, k, p)
  {
    var count, others := OracleCount(satOf, k), CellPoints(Points(Joined(buckets)), cellOf, cellOf(p)) - {p};
    forall q | q in others
      ensures Named(buckets, count)(q) >= 0.0
      ensures Named(buckets, count)(q) == 0.0 <==> ServedTimes(Joined(buckets), satOf, q, k) == {}
    {
      NamedIsWhole(buckets, satOf, k, q);
      NoSamples(ServedTimes(Joined(buckets), satOf, q, k));
    }
    SumZero(others, Named(buckets, count));
    assert forall q :: q in others <==> q in Points(Joined(buckets)) && q != p && cellOf(q) == cellOf(p);
  }

  lemma NoSamples(times: set<real>)
    ensures |times| as real >= 0.0 && (|times| as real == 0.0 <==> times == {})
  {
  }

  // A point's merged value is its one-shot availability exactly when no other point of the cell is
  // ever served, in particular when points and cells are one to one.
  lemma MergedIsOneShot<Cell>(buckets: seq<seq<Segment>>, satOf: string -> string, cellOf: Point -> Cell, k: int,
                              p: Point)
    requires Mergeable(buckets, k) && p in Points(Joined(buckets))
    ensures Samples(buckets) > 0 && Times(Joined(buckets)) != {}
    ensures IsOneShot(buckets, OracleCount(satOf, k), cellOf, p) <==> AloneInCell(Joined(buckets), satOf, cellOf, k, p)
  {
    OracleTallies(satOf, k);
    OneShotIffBalanced(buckets, OracleCount(satOf, k), cellOf, p);
    NothingMissing(buckets, satOf, k, p);
    OthersUnserved(buckets, satOf, cellOf, k, p);
  }

  // Served samples of all points of a cell, over the joint sample grid.
  ghost function CellFraction<Cell>(segs: seq<Segment>, satOf: string -> string, cellOf: Point -> Cell,
                                    k: int, c: Cell): real
    requires Times(segs) != {}
  {
    CellCount(segs, OracleCount(satOf, k), cellOf, c) / |Times(segs)| as real
  }

  lemma MergedIsCellFraction<Cell>(buckets: seq<seq<Segment>>, satOf: string -> string, cellOf: Point -> Cell,
                                   k: int, c: Cell)
    requires Mergeable(buckets, k) && Samples(buckets) > 0
    ensures Times(Joined(buckets)) != {}
    ensures MergedValue(buckets, OracleCount(satOf, k), cellOf, c)
         == CellFraction(Joined(buckets), satOf, cellOf, k, c)
  {
    var count, ps := OracleCount(satOf, k), CellPoints(Points(Joined(buckets)), cellOf, c);
    OracleTallies(satOf, k);
    WholeCount(buckets, count, Point(0.0, 0.0));
    MergedByPoint(buckets, count, cellOf, c);
    forall p | p in ps
      ensures Named(buckets, count)(p) == Over(count, Joined(buckets))(p)
    {
      NamedIsWhole(buckets, satOf, k, p);
    }
    SumSame(ps, Named(buckets, count), Over(count, Joined(buckets)));
  }

  // ---------- the merge of all buckets ----------

  ghost predicate AllParseable(buckets: seq<seq<Segment>>) {
    forall bucket :: bucket in buckets ==> Parseable(bucket)
  }

  // One bucket: oracle, engine at the oracle's points and times, then added to the sums.
  method MergeBucket<Cell(==,!new)>(acc: map<Cell, Tally>, total: nat, ghost buckets: seq<seq<Segment>>,
                                   bucket: seq<Segment>, satOf: string -> string, inView: (Point, real) -> nat,
                                   cellOf: Point -> Cell, k: int)
    returns (r: Result<(map<Cell, Tally>, nat)>)
    requires Merged(acc, total, buckets, satOf, inView, cellOf, k)
    ensures r.Err? <==> !Parseable(bucket)
    ensures r.Ok? ==> Merged(r.value.0, r.value.1, buckets + [bucket], satOf, inView, cellOf, k)
  {
    var orc :- BeamCandidatesToCoverage(bucket, satOf, [k]);
    var eng := EngineCoverage(orc, inView, k);
    MergedStep(acc, total, buckets, bucket, orc, eng, satOf, inView, cellOf, k);
    var acc' := AddBucket(acc, orc, eng, cellOf);
    r := Ok((acc', total + orc.nSamples));
  }

  // Fails with any bucket that fails.
  method AccumulateBuckets<Cell(==,!new)>(buckets: seq<seq<Segment>>, satOf: string -> string,
                                         inView: (Point, real) -> nat, cellOf: Point -> Cell, k: int)
    returns (r: Result<(map<Cell, Tally>, nat)>)
    ensures r.Err? <==> !AllParseable(buckets)
    ensures r.Ok? ==> Merged(r.value.0, r.value.1, buckets, satOf, inView, cellOf, k)
  {
    var sums: (map<Cell, Tally>, nat) := (map[], 0);
    NothingMerged(satOf, inView, cellOf, k);
    for j := 0 to |buckets|
      invariant AllParseable(buckets[..j])
      invariant Merged(sums.0, sums.1, buckets[..j], satOf, inView, cellOf, k)
    {
      assert buckets[..j + 1] == buckets[..j] + [buckets[j]];
      sums :- MergeBucket(sums.0, sums.1, buckets[..j], buckets[j], satOf, inView, cellOf, k);
    }
    assert buckets[..|buckets|] == buckets;
    r := Ok(sums);
  }

  // For any buckets: each cell some bucket names has, in both columns, the counts of its points over
  // the buckets that name them, relative to the samples of all buckets.
  ghost predicate CellsMerged<Cell(!new)>(merged: map<Cell, Tally>, buckets: seq<seq<Segment>>, satOf: string -> string,
                                          inView: (Point, real) -> nat, cellOf: Point -> Cell, k: int)
  {
    && (forall c :: c in merged <==> CellPoints(Points(Joined(buckets)), cellOf, c) != {})
    && (forall c :: c in merged ==>
          && Samples(buckets) > 0
          && merged[c].oracle == MergedValue(buckets, OracleCount(satOf, k), cellOf, c)
          && merged[c].engine == MergedValue(buckets, EngineCount(inView, k), cellOf, c))
  }

  // Over disjoint grids a point's value in either column is its one-shot availability exactly when
  // the other points of its cell hold as much as the buckets that do not name it leave out.
  ghost predicate PointCompared<Cell>(value: Tally, buckets: seq<seq<Segment>>, satOf: string -> string,
                                      inView: (Point, real) -> nat, cellOf: Point -> Cell, k: int, p: Point)
    requires Times(Joined(buckets)) != {}
  {
    var segs, seen, computed := Joined(buckets), OracleCount(satOf, k), EngineCount(inView, k);
    && (value.oracle == Fraction(segs, satOf, p, k) <==>
          OthersCount(buckets, seen, cellOf, p) == MissingCount(buckets, seen, p))
    && (IsShare(value.engine, |EngineTimes(Times(segs), inView, p, k)|, |Times(segs)|) <==>
          OthersCount(buckets, computed, cellOf, p) == MissingCount(buckets, computed, p))
  }

  ghost predicate PointsCompared<Cell>(merged: map<Cell, Tally>, buckets: seq<seq<Segment>>, satOf: string -> string,
                                       inView: (Point, real) -> nat, cellOf: Point -> Cell, k: int)
  {
    forall p :: p in Points(Joined(buckets)) ==>
      Times(Joined(buckets)) != {} && cellOf(p) in merged
      && PointCompared(merged[cellOf(p)], buckets, satOf, inView, cellOf, k, p)
  }

  // Over disjoint grids each cell's columns are its points' samples, in buckets naming them, with at
  // least k satellites, out of all samples.
  ghost predicate CellsCounted<Cell(!new)>(merged: map<Cell, Tally>, buckets: seq<seq<Segment>>,
                                           satOf: string -> string, inView: (Point, real) -> nat,
                                           cellOf: Point -> Cell, k: int)
  {
    var segs := Joined(buckets);
    forall c :: c in merged ==>
      var ps := CellPoints(Points(segs), cellOf, c);
      && IsShare(merged[c].oracle, |AllPairs(ps, OracleSamples(buckets, satOf, k))|, |Times(segs)|)
      && IsShare(merged[c].engine, |AllPairs(ps, EngineSamples(buckets, inView, k))|, |Times(segs)|)
  }

  lemma AllCounted<Cell(!new)>(merged: map<Cell, Tally>, buckets: seq<seq<Segment>>, satOf: string -> string,
                               inView: (Point, real) -> nat, cellOf: Point -> Cell, k: int)
    requires CellsMerged(merged, buckets, satOf, inView, cellOf, k) && DisjointGrids(buckets)
    ensures CellsCounted(merged, buckets, satOf, inView, cellOf, k)
  {
    var segs := Joined(buckets);
    SamplesExact(buckets);
    forall c | c in merged
      ensures var ps := CellPoints(Points(segs), cellOf, c);
        && IsShare(merged[c].oracle, |AllPairs(ps, OracleSamples(buckets, satOf, k))|, |Times(segs)|)
        && IsShare(merged[c].engine, |AllPairs(ps, EngineSamples(buckets, inView, k))|, |Times(segs)|)
    {
      var ps := CellPoints(Points(segs), cellOf, c);
      MergedPairs(buckets, satOf, inView, cellOf, k, c);
      QuotientIsShare(|AllPairs(ps, OracleSamples(buckets, satOf, k))|, |Times(segs)|);
      QuotientIsShare(|AllPairs(ps, EngineSamples(buckets, inView, k))|, |Times(segs)|);
    }
  }

  // The engine's value of a cell of one point that every bucket names, from the samples alone.
  lemma LonePointCounted<Cell(!new)>(merged: map<Cell, Tally>, buckets: seq<seq<Segment>>, satOf: string -> string,
                                     inView: (Point, real) -> nat, cellOf: Point -> Cell, k: int, p: Point)
    requires CellsCounted(merged, buckets, satOf, inView, cellOf, k) && cellOf(p) in merged
    requires CellPoints(Points(Joined(buckets)), cellOf, cellOf(p)) == {p}
    requires forall bucket :: bucket in buckets ==> p in Points(bucket)
    ensures var times := Times(Joined(buckets));
      IsShare(merged[cellOf(p)].engine, |set t | t in times && inView(p, t) >= k|, |times|)
  {
    var times := Times(Joined(buckets));
    NamedEverywhere(buckets, p);
    assert EngineSamples(buckets, inView, k)(p) == set t | t in times && inView(p, t) >= k;
    AllPairsOne(p, EngineSamples(buckets, inView, k));
  }

  lemma {:induction false} NamedEverywhere(buckets: seq<seq<Segment>>, p: Point)
    requires forall bucket :: bucket in buckets ==> p in Points(bucket)
    ensures NamedTimes(buckets, p) == Times(Joined(buckets))
    decreases |buckets|
  {
    if buckets == [] {
      assert NamedTimes([], p) == {} && Times([]) == {};
    } else {
      NamedEverywhere(buckets[..|buckets| - 1], p);
      NamedTimesNext(buckets, p);
      JoinTimes(Joined(buckets[..|buckets| - 1]), buckets[|buckets| - 1]);
    }
  }

  // For levels of at least 1 as well: the oracle's column holds the served samples of each cell's
  // points over the joint grid, a point's own availability exactly when it is alone in its cell.
  ghost predicate OneShotWhenAlone<Cell(!new)>(merged: map<Cell, Tally>, segs: seq<Segment>, satOf: string -> string,
                                               cellOf: Point -> Cell, k: int)
  {
    && (forall c :: c in merged ==> Times(segs) != {} && merged[c].oracle == CellFraction(segs, satOf, cellOf, k, c))
    && (forall p :: p in Points(segs) ==>
          && cellOf(p) in merged && Times(segs) != {}
          && (merged[cellOf(p)].oracle == Fraction(segs, satOf, p, k) <==> AloneInCell(segs, satOf, cellOf, k, p)))
  }

  lemma ColumnCompared<Cell>(value: real, n: nat, buckets: seq<seq<Segment>>, count: (seq<Segment>, Point) -> real,
                             cellOf: Point -> Cell, p: Point)
    requires DisjointGrids(buckets) && Tallying(count) && p in Points(Joined(buckets)) && Samples(buckets) > 0
    requires value == MergedValue(buckets, count, cellOf, cellOf(p)) && count(Joined(buckets), p) == n as real
    ensures Times(Joined(buckets)) != {}
    ensures IsShare(value, n, |Times(Joined(buckets))|)
       <==> OthersCount(buckets, count, cellOf, p) == MissingCount(buckets, count, p)
    ensures value == n as real / |Times(Joined(buckets))| as real
       <==> OthersCount(buckets, count, cellOf, p) == MissingCount(buckets, count, p)
  {
    OneShotIffBalanced(buckets, count, cellOf, p);
    ShareIsQuotient(value, n, |Times(Joined(buckets))|);
  }

  lemma ComparedAt<Cell(!new)>(merged: map<Cell, Tally>, buckets: seq<seq<Segment>>, satOf: string -> string,
                               inView: (Point, real) -> nat, cellOf: Point -> Cell, k: int, p: Point)
    requires CellsMerged(merged, buckets, satOf, inView, cellOf, k) && DisjointGrids(buckets)
    requires p in Points(Joined(buckets))
    ensures Times(Joined(buckets)) != {} && cellOf(p) in merged
    ensures PointCompared(merged[cellOf(p)], buckets, satOf, inView, cellOf, k, p)
  {
    var segs := Joined(buckets);
    assert p in CellPoints(Points(segs), cellOf, cellOf(p));
    OracleTallies(satOf, k);
    EngineTallies(inView, k);
    ColumnCompared(merged[cellOf(p)].oracle, |ServedTimes(segs, satOf, p, k)|, buckets, OracleCount(satOf, k),
                   cellOf, p);
    ColumnCompared(merged[cellOf(p)].engine, |EngineTimes(Times(segs), inView, p, k)|, buckets, EngineCount(inView, k),
                   cellOf, p);
  }

  lemma AloneAt<Cell(!new)>(merged: map<Cell, Tally>, buckets: seq<seq<Segment>>, satOf: string -> string,
                            inView: (Point, real) -> nat, cellOf: Point -> Cell, k: int)
    requires CellsMerged(merged, buckets, satOf, inView, cellOf, k) && Mergeable(buckets, k)
    ensures OneShotWhenAlone(merged, Joined(buckets), satOf, cellOf, k)
  {
    var segs := Joined(buckets);
    forall c | c in merged
      ensures Times(segs) != {} && merged[c].oracle == CellFraction(segs, satOf, cellOf, k, c)
    {
      MergedIsCellFraction(buckets, satOf, cellOf, k, c);
    }
    forall p | p in Points(segs)
      ensures cellOf(p) in merged && Times(segs) != {}
      ensures merged[cellOf(p)].oracle == Fraction(segs, satOf, p, k) <==> AloneInCell(segs, satOf, cellOf, k, p)
    {
      assert p in CellPoints(Points(segs), cellOf, cellOf(p));
      MergedIsOneShot(buckets, satOf, cellOf, k, p);
    }
  }

  lemma {:induction false} NamedHasSamples(buckets: seq<seq<Segment>>)
    requires Points(Joined(buckets)) != {}
    ensures Samples(buckets) > 0
    decreases |buckets|
  {
    if buckets != [] {
      var init, last := buckets[..|buckets| - 1], buckets[|buckets| - 1];
      JoinTimes(Joined(init), last);
      if Points(last) != {} {
        PointsHaveTimes(last);
      } else {
        NamedHasSamples(init);
      }
    }
  }

  lemma SumsHaveSamples<Cell(!new)>(acc: map<Cell, Tally>, total: nat, buckets: seq<seq<Segment>>,
                                    satOf: string -> string, inView: (Point, real) -> nat, cellOf: Point -> Cell,
                                    k: int)
    requires Merged(acc, total, buckets, satOf, inView, cellOf, k)
    ensures forall c :: c in acc ==> total > 0
  {
    forall c | c in acc
      ensures total > 0
    {
      assert CellMerged(acc, buckets, satOf, inView, cellOf, k, c);
      HasElement(CellPoints(Points(Joined(buckets)), cellOf, c));
      NamedHasSamples(buckets);
    }
  }

  // Dividing the sums gives the merged values.
  lemma DividedSums<Cell(!new)>(acc: map<Cell, Tally>, total: nat, merged: map<Cell, Tally>, buckets: seq<seq<Segment>>,
                                satOf: string -> string, inView: (Point, real) -> nat, cellOf: Point -> Cell, k: int)
    requires Merged(acc, total, buckets, satOf, inView, cellOf, k) && merged.Keys == acc.Keys
    requires forall c :: c in acc ==>
      total > 0 && merged[c] == Tally(acc[c].oracle / total as real, acc[c].engine / total as real)
    ensures CellsMerged(merged, buckets, satOf, inView, cellOf, k)
  {
    forall c
      ensures c in merged <==> CellPoints(Points(Joined(buckets)), cellOf, c) != {}
      ensures c in merged ==> acc[c].oracle == MergedCount(buckets, OracleCount(satOf, k), cellOf, c)
      ensures c in merged ==> acc[c].engine == MergedCount(buckets, EngineCount(inView, k), cellOf, c)
    {
      assert CellMerged(acc, buckets, satOf, inView, cellOf, k, c);
    }
  }

  // Streaming against one-shot aggregation of all segments, the oracle's and the engine's.
  method MergeBuckets<Cell(==,!new)>(buckets: seq<seq<Segment>>, satOf: string -> string,
                                    inView: (Point, real) -> nat, cellOf: Point -> Cell, k: int)
    returns (r: Result<map<Cell, Tally>>)
    ensures r.Err? <==> !AllParseable(buckets)
    ensures r.Ok? ==> CellsMerged(r.value, buckets, satOf, inView, cellOf, k)
    ensures r.Ok? && DisjointGrids(buckets) ==> CellsCounted(r.value, buckets, satOf, inView, cellOf, k)
    ensures r.Ok? && DisjointGrids(buckets) ==> PointsCompared(r.value, buckets, satOf, inView, cellOf, k)
    ensures r.Ok? && Mergeable(buckets, k) ==> OneShotWhenAlone(r.value, Joined(buckets), satOf, cellOf, k)
  {
    var sums: (map<Cell, Tally>, nat) :- AccumulateBuckets(buckets, satOf, inView, cellOf, k);
    var acc, total := sums.0, sums.1;
    SumsHaveSamples(acc, total, buckets, satOf, inView, cellOf, k);
    var merged := map c | c in acc :: Tally(acc[c].oracle / total as real, acc[c].engine / total as real);
    DividedSums(acc, total, merged, buckets, satOf, inView, cellOf, k);
    if DisjointGrids(buckets) {
      AllCompared(merged, buckets, satOf, inView, cellOf, k);
      AllCounted(merged, buckets, satOf, inView, cellOf, k);
    }
    if Mergeable(buckets, k) {
      AloneAt(merged, buckets, satOf, inView, cellOf, k);
    }
    r := Ok(merged);
  }

  lemma AllCompared<Cell(!new)>(merged: map<Cell, Tally>, buckets: seq<seq<Segment>>, satOf: string -> string,
                                inView: (Point, real) -> nat, cellOf: Point -> Cell, k: int)
    requires CellsMerged(merged, buckets, satOf, inView, cellOf, k) && DisjointGrids(buckets)
    ensures PointsCompared(merged, buckets, satOf, inView, cellOf, k)
  {
    forall p | p in Points(Joined(buckets))
      ensures Times(Joined(buckets)) != {} && cellOf(p) in merged
      ensures PointCompared(merged[cellOf(p)], buckets, satOf, inView, cellOf, k, p)
    {
      ComparedAt(merged, buckets, satOf, inView, cellOf, k, p);
    }
  }

  // ---------- two points in one cell ----------

  const EQUATOR := Point(0.0, 0.0)
  const NORTH := Point(1.0, 0.0)

  function SameSat(): string -> string {
    antenna => antenna
  }

  function OneCell(): Point -> int {
    _ => 0
  }

  // One sample of one antenna, accessible from p.
  function Seen(p: Point): Segment {
    Segment(Some((p, "antenna")), [true], 1.0, 0, 1)
  }

  lemma SeenServed(segs: seq<Segment>, p: Point)
    requires Seen(p) in segs && forall seg :: seg in segs ==> exists q :: seg == Seen(q)
    ensures Times(segs) == {0.0} && ServedTimes(segs, SameSat(), p, 1) == {0.0}
  {
    assert SampledAt(Seen(p), 0, 0.0) && Accessible(Seen(p), 0);
    AccessIsSees(segs, SameSat(), p, 0.0, "antenna");
    assert SampleTime(Seen(p), 0) in Times(segs);
  }

  lemma SeenPoints(p: Point, q: Point)
    ensures Points([Seen(p), Seen(q)]) == {p, q}
    ensures CellPoints(Points([Seen(p), Seen(q)]), OneCell(), 0) == {p, q}
  {
    assert Seen(p).id.value.0 == p && Seen(q).id.value.0 == q;
    assert Seen(p) in [Seen(p), Seen(q)] && Seen(q) in [Seen(p), Seen(q)];
  }

  lemma SumOfTwo(p: Point, q: Point, f: Point -> real)
    requires p != q && f(p) == 1.0 && f(q) == 1.0
    ensures SumOver({p, q}, f) == 2.0
  {
    SumAdd({}, p, f);
    SumAdd({p}, q, f);
    assert {} + {p} == {p} && {p} + {q} == {p, q};
  }

  lemma TwoInOneCell(p: Point, q: Point)
    requires p != q
    ensures var bucket := [Seen(p), Seen(q)];
      && Times(bucket) == {0.0} && Points(bucket) != {}
      && CellCount(bucket, OracleCount(SameSat(), 1), OneCell(), 0) == 2.0
  {
    var bucket := [Seen(p), Seen(q)];
    SeenServed(bucket, p);
    SeenServed(bucket, q);
    SeenPoints(p, q);
    SumOfTwo(p, q, Over(OracleCount(SameSat(), 1), bucket));
  }

  lemma JoinedOne(bucket: seq<Segment>)
    ensures Joined([bucket]) == bucket
  {
    MoreBuckets([], bucket);
    assert [] + bucket == bucket && [] + [bucket] == [bucket];
  }

  // Two points seen at the only sample share a cell: its merged availability is 2.
  lemma CollidingPointsCountTwice()
    ensures var bucket := [Seen(EQUATOR), Seen(NORTH)];
      && AllParseable([bucket]) && Mergeable([bucket], 1)
      && Times(Joined([bucket])) != {} && CellFraction(Joined([bucket]), SameSat(), OneCell(), 1, 0) == 2.0
  {
    TwoInOneCell(EQUATOR, NORTH);
    JoinedOne([Seen(EQUATOR), Seen(NORTH)]);
  }
}
