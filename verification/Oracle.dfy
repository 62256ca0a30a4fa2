// Availability rebuilt from beam-candidate segments, in one shot and bucket by bucket.
module Oracle {
  import opened Options
  import opened Sums

  datatype Point = Point(lat: real, lon: real)

  // id is None when the segment's identifier does not parse
  datatype Segment = Segment(id: Option<(Point, string)>, acc: seq<bool>, resS: real, start: int, nPlatforms: nat)

  // ---------- samples of a segment ----------

  // Number of time samples: the series may be laid out once or once per platform.
  ghost function SampleCount(seg: Segment): nat {
    var nPlat := Max(1, seg.nPlatforms);
    if |seg.acc| % nPlat != 0 then |seg.acc| else |seg.acc| / nPlat
  }

  ghost function SampleTime(seg: Segment, i: int): real {
    seg.start as real + i as real * seg.resS
  }

  lemma RowMajor(p: nat, i: nat, n: nat, nPlat: nat)
    requires p < nPlat && i < n
    ensures p * n + i < nPlat * n
  {
    assert (p + 1) * n <= nPlat * n;
  }

  predicate HasEntry(acc: seq<bool>, k: int) {
    0 <= k < |acc| && acc[k]
  }

  // Sample i is accessible: on some platform when the rows are per platform.
  ghost predicate Accessible(seg: Segment, i: nat)
    requires i < SampleCount(seg)
  {
    var n, nPlat := SampleCount(seg), Max(1, seg.nPlatforms);
    if |seg.acc| == n then seg.acc[i]
    else exists p: nat :: p < nPlat && HasEntry(seg.acc, p * n + i)
  }

  // Segments that contribute: parseable and non-empty.
  predicate Live(seg: Segment) {
    seg.id.Some? && seg.acc != []
  }

  ghost predicate SampledAt(seg: Segment, i: int, t: real) {
    Live(seg) && 0 <= i < SampleCount(seg) && SampleTime(seg, i) == t
  }

  // ---------- specification ----------

  // Every sample time, accessible or not.
  ghost function Times(segs: seq<Segment>): set<real> {
    set seg, i | seg in segs && Live(seg) && 0 <= i < SampleCount(seg) :: SampleTime(seg, i)
  }

  ghost function Points(segs: seq<Segment>): set<Point> {
    set seg | seg in segs && Live(seg) :: seg.id.value.0
  }

  // Some segment of satellite s shows it accessible from p at t.
  ghost predicate Sees(segs: seq<Segment>, satOf: string -> string, p: Point, t: real, s: string) {
    exists seg, i: nat :: seg in segs && SampledAt(seg, i, t) && Accessible(seg, i)
      && seg.id.value.0 == p && satOf(seg.id.value.1) == s
  }

  ghost function Access(segs: seq<Segment>, satOf: string -> string, p: Point, t: real): set<string> {
    set seg | seg in segs && Live(seg) && Sees(segs, satOf, p, t, satOf(seg.id.value.1)) :: satOf(seg.id.value.1)
  }

  // Sample times at which at least k distinct satellites are accessible from p.
  ghost function ServedTimes(segs: seq<Segment>, satOf: string -> string, p: Point, k: int): set<real> {
    set t | t in Times(segs) && |Access(segs, satOf, p, t)| >= k
  }

  ghost function Fraction(segs: seq<Segment>, satOf: string -> string, p: Point, k: int): real
    requires Times(segs) != {}
  {
    |ServedTimes(segs, satOf, p, k)| as real / |Times(segs)| as real
  }

  ghost function AccessCount(segs: seq<Segment>, satOf: string -> string, p: Point): real -> real {
    t => |Access(segs, satOf, p, t)| as real
  }

  // Satellites accessible from p, summed over the sample grid.
  ghost function InViewSum(segs: seq<Segment>, satOf: string -> string, p: Point): real {
    SumOver(Times(segs), AccessCount(segs, satOf, p))
  }

  // ---------- laws of the specification ----------

  lemma AccessIsSees(segs: seq<Segment>, satOf: string -> string, p: Point, t: real, s: string)
    ensures s in Access(segs, satOf, p, t) <==> Sees(segs, satOf, p, t, s)
  {
  }

  lemma LiveHasSamples(seg: Segment)
    requires Live(seg)
    ensures SampleCount(seg) > 0
  {
    var nPlat := Max(1, seg.nPlatforms);
    assert |seg.acc| == nPlat * (|seg.acc| / nPlat) + |seg.acc| % nPlat;
  }

  // What is seen decides everything: same grid and same sightings, same availability.
  lemma SightingsDecide(a: seq<Segment>, b: seq<Segment>, satOf: string -> string, p: Point, k: int)
    requires Times(a) == Times(b)
    requires forall t, s :: Sees(a, satOf, p, t, s) <==> Sees(b, satOf, p, t, s)
    ensures ServedTimes(a, satOf, p, k) == ServedTimes(b, satOf, p, k)
    ensures InViewSum(a, satOf, p) == InViewSum(b, satOf, p)
  {
    forall t
      ensures Access(a, satOf, p, t) == Access(b, satOf, p, t)
    {
      forall s
        ensures s in Access(a, satOf, p, t) <==> s in Access(b, satOf, p, t)
      {
        AccessIsSees(a, satOf, p, t, s);
        AccessIsSees(b, satOf, p, t, s);
      }
    }
    SumSame(Times(a), AccessCount(a, satOf, p), AccessCount(b, satOf, p));
  }

  // Reordered or repeated segments change nothing.
  lemma OrderAndRepetitionIrrelevant(a: seq<Segment>, b: seq<Segment>, satOf: string -> string, p: Point, k: int)
    requires forall seg :: seg in a <==> seg in b
    ensures Times(a) == Times(b) && Points(a) == Points(b)
    ensures ServedTimes(a, satOf, p, k) == ServedTimes(b, satOf, p, k)
    ensures InViewSum(a, satOf, p) == InViewSum(b, satOf, p)
  {
    forall t, s
      ensures Sees(a, satOf, p, t, s) <==> Sees(b, satOf, p, t, s)
    {
    }
    SightingsDecide(a, b, satOf, p, k);
  }

  // A second antenna of the same satellite reporting the same samples changes nothing.
  lemma ExtraAntennaIrrelevant(segs: seq<Segment>, seg: Segment, antenna: string,
                               satOf: string -> string, p: Point, k: int)
    requires seg in segs && Live(seg) && satOf(antenna) == satOf(seg.id.value.1)
    ensures var more := segs + [seg.(id := Some((seg.id.value.0, antenna)))];
      Times(more) == Times(segs) && Points(more) == Points(segs)
      && ServedTimes(more, satOf, p, k) == ServedTimes(segs, satOf, p, k)
      && InViewSum(more, satOf, p) == InViewSum(segs, satOf, p)
  {
    var twin := seg.(id := Some((seg.id.value.0, antenna)));
    var more := segs + [twin];
    assert SampleCount(twin) == SampleCount(seg);
    assert forall i :: SampleTime(twin, i) == SampleTime(seg, i);
    forall t, s
      ensures Sees(more, satOf, p, t, s) <==> Sees(segs, satOf, p, t, s)
    {
      if Sees(more, satOf, p, t, s) {
        var x, i: nat :| x in more && SampledAt(x, i, t) && Accessible(x, i)
          && x.id.value.0 == p && satOf(x.id.value.1) == s;
        if x == twin {
          assert SampledAt(seg, i, t) && Accessible(seg, i);
        }
      }
    }
    SightingsDecide(more, segs, satOf, p, k);
  }

  // ---------- what the raw series says ----------

  // The series holds one row of n samples per platform.
  ghost predicate HasRows(seg: Segment, n: nat) {
    seg.nPlatforms >= 1 && n >= 1 && |seg.acc| == n * seg.nPlatforms
  }

  // Platform p has sample i.
  ghost predicate RowHas(seg: Segment, n: nat, p: nat, i: nat)
    requires HasRows(seg, n)
  {
    p < seg.nPlatforms && i < n && HasEntry(seg.acc, p * n + i)
  }

  lemma RowsCounted(seg: Segment, n: nat)
    requires HasRows(seg, n)
    ensures SampleCount(seg) == n && (seg.nPlatforms > 1 ==> |seg.acc| != n)
  {
    var m := seg.nPlatforms;
    var q, r := |seg.acc| / m, |seg.acc| % m;
    assert n * m == q * m + r;
    SameQuotient(n, q, r, m);
    if m > 1 {
      MoreThanOne(n, m);
    }
  }

  lemma SameQuotient(n: int, q: int, r: int, m: int)
    requires 0 <= r < m && n * m == q * m + r
    ensures q == n && r == 0
  {
    var d := n - q;
    assert d * m == r;
    if d != 0 {
      NoSmallMultiple(d, m);
    }
  }

  lemma NoSmallMultiple(d: int, m: int)
    requires d != 0 && m > 0
    ensures d * m >= m || d * m <= -m
  {
    if d > 0 {
      assert (d - 1) * m >= 0;
    } else {
      assert (-d - 1) * m >= 0;
    }
  }

  lemma RowsAccessible(seg: Segment, n: nat, i: nat)
    requires HasRows(seg, n) && i < n
    ensures SampleCount(seg) == n
    ensures Accessible(seg, i) <==> exists p: nat :: RowHas(seg, n, p, i)
  {
    RowsCounted(seg, n);
    if seg.nPlatforms == 1 {
      OnlyRow(seg, n, i);
    } else if Accessible(seg, i) {
      var p: nat :| p < seg.nPlatforms && HasEntry(seg.acc, p * n + i);
      assert RowHas(seg, n, p, i);
    }
  }

  lemma OnlyRow(seg: Segment, n: nat, i: nat)
    requires HasRows(seg, n) && seg.nPlatforms == 1 && i < n
    ensures seg.acc[i] <==> exists p: nat :: RowHas(seg, n, p, i)
  {
    assert 0 * n + i == i;
    assert RowHas(seg, n, 0, i) <==> seg.acc[i];
    assert forall p: nat :: RowHas(seg, n, p, i) ==> p == 0;
  }

  lemma MoreThanOne(n: int, m: int)
    requires n >= 1 && m >= 2
    ensures n * m > n
  {
  }

  // One true entry of any platform shows the satellite at that sample's time.
  lemma PlatformSeen(segs: seq<Segment>, satOf: string -> string, seg: Segment, n: nat, p: nat, i: nat)
    requires seg in segs && seg.id.Some? && HasRows(seg, n) && RowHas(seg, n, p, i)
    ensures satOf(seg.id.value.1) in Access(segs, satOf, seg.id.value.0, seg.start as real + i as real * seg.resS)
  {
    RowsAccessible(seg, n, i);
    MoreThanNone(n, seg.nPlatforms);
    assert SampledAt(seg, i, seg.start as real + i as real * seg.resS);
  }

  lemma MoreThanNone(n: int, m: int)
    requires n >= 1 && m >= 1
    ensures n * m >= 1
  {
  }

  lemma SilentIsInaccessible(seg: Segment, n: nat, i: nat, t: real)
    requires HasRows(seg, n) && i < SampleCount(seg) && seg.start as real + i as real * seg.resS == t
    requires forall q: nat, i: nat :: RowHas(seg, n, q, i) ==> seg.start as real + i as real * seg.resS != t
    ensures !Accessible(seg, i)
  {
    RowsCounted(seg, n);
    RowsAccessible(seg, n, i);
  }

  lemma SilentAlone(satOf: string -> string, seg: Segment, n: nat, p: Point, t: real, s: string)
    requires HasRows(seg, n)
    requires forall q: nat, i: nat :: RowHas(seg, n, q, i) ==> seg.start as real + i as real * seg.resS != t
    ensures !Sees([seg], satOf, p, t, s)
  {
    RowsCounted(seg, n);
    forall i: nat | SampledAt(seg, i, t)
      ensures !Accessible(seg, i)
    {
      SilentIsInaccessible(seg, n, i, t);
    }
  }

  // A segment whose platforms all miss a time adds no satellite there.
  lemma SilentSample(segs: seq<Segment>, satOf: string -> string, seg: Segment, n: nat, p: Point, t: real)
    requires HasRows(seg, n)
    requires forall q: nat, i: nat :: RowHas(seg, n, q, i) ==> seg.start as real + i as real * seg.resS != t
    ensures Access(segs + [seg], satOf, p, t) == Access(segs, satOf, p, t)
  {
    forall s
      ensures s in Access(segs + [seg], satOf, p, t) <==> s in Access(segs, satOf, p, t)
    {
      AccessIsSees(segs + [seg], satOf, p, t, s);
      AccessIsSees(segs, satOf, p, t, s);
      SeesMoreSegments(segs, seg, satOf, p, t, s);
      SilentAlone(satOf, seg, n, p, t, s);
    }
  }

  // Whatever sample some platform of one segment has, some platform of the other has too.
  ghost predicate RowsWithin(seg: Segment, seg': Segment, n: nat)
    requires HasRows(seg, n) && HasRows(seg', n)
  {
    forall p: nat, i: nat :: RowHas(seg, n, p, i) ==> exists q: nat :: RowHas(seg', n, q, i)
  }

  // Only the samples matter, not which platforms have them: platforms may be reordered.
  lemma PlatformRowsIrrelevant(segs: seq<Segment>, satOf: string -> string, seg: Segment, seg': Segment, n: nat,
                               p: Point, k: int)
    requires HasRows(seg, n) && HasRows(seg', n) && RowsWithin(seg, seg', n) && RowsWithin(seg', seg, n)
    requires seg.id == seg'.id && seg.resS == seg'.resS && seg.start == seg'.start
    ensures Times(segs + [seg]) == Times(segs + [seg']) && Points(segs + [seg]) == Points(segs + [seg'])
    ensures ServedTimes(segs + [seg], satOf, p, k) == ServedTimes(segs + [seg'], satOf, p, k)
    ensures InViewSum(segs + [seg], satOf, p) == InViewSum(segs + [seg'], satOf, p)
  {
    RowsCounted(seg, n);
    RowsCounted(seg', n);
    MoreThanNone(n, seg.nPlatforms);
    MoreThanNone(n, seg'.nPlatforms);
    forall i: nat | i < n
      ensures Accessible(seg, i) <==> Accessible(seg', i)
    {
      RowsAccessible(seg, n, i);
      RowsAccessible(seg', n, i);
    }
    SameSeries(segs, satOf, seg, seg', p, k);
  }

  // One more platform that sees nothing.
  function WithSilentPlatform(seg: Segment, n: nat): Segment {
    seg.(acc := seg.acc + seq(n, _ => false), nPlatforms := seg.nPlatforms + 1)
  }

  lemma SilentPlatformIrrelevant(segs: seq<Segment>, satOf: string -> string, seg: Segment, n: nat, p: Point, k: int)
    requires HasRows(seg, n)
    ensures var (before, after) := (segs + [seg], segs + [WithSilentPlatform(seg, n)]);
      && Times(before) == Times(after) && Points(before) == Points(after)
      && ServedTimes(before, satOf, p, k) == ServedTimes(after, satOf, p, k)
      && InViewSum(before, satOf, p) == InViewSum(after, satOf, p)
  {
    var seg', m := WithSilentPlatform(seg, n), seg.nPlatforms;
    assert n * (m + 1) == n * m + n;
    forall q: nat, i: nat
      ensures RowHas(seg', n, q, i) <==> RowHas(seg, n, q, i)
    {
      if i < n {
        if q < m {
          RowMajor(q, i, n, m);
        } else if q == m {
          assert q * n == n * m;
        }
      }
    }
    PlatformRowsIrrelevant(segs, satOf, seg, seg', n, p, k);
  }

  lemma SameSeries(segs: seq<Segment>, satOf: string -> string, seg: Segment, seg': Segment, p: Point, k: int)
    requires seg.id == seg'.id && seg.resS == seg'.resS && seg.start == seg'.start
    requires SampleCount(seg) == SampleCount(seg') && (seg.acc == [] <==> seg'.acc == [])
    requires forall i: nat :: i < SampleCount(seg) ==> (Accessible(seg, i) <==> Accessible(seg', i))
    ensures Times(segs + [seg]) == Times(segs + [seg']) && Points(segs + [seg]) == Points(segs + [seg'])
    ensures ServedTimes(segs + [seg], satOf, p, k) == ServedTimes(segs + [seg'], satOf, p, k)
    ensures InViewSum(segs + [seg], satOf, p) == InViewSum(segs + [seg'], satOf, p)
  {
    assert forall i :: SampleTime(seg, i) == SampleTime(seg', i);
    SameTimes(segs, seg, seg');
    forall t, s
      ensures Sees(segs + [seg], satOf, p, t, s) <==> Sees(segs + [seg'], satOf, p, t, s)
    {
      SeesMoreSegments(segs, seg, satOf, p, t, s);
      SeesMoreSegments(segs, seg', satOf, p, t, s);
      SeesAlike(seg, seg', satOf, p, t, s);
      SeesAlike(seg', seg, satOf, p, t, s);
    }
    SightingsDecide(segs + [seg], segs + [seg'], satOf, p, k);
  }

  lemma SameTimes(segs: seq<Segment>, seg: Segment, seg': Segment)
    requires seg.id == seg'.id && (seg.acc == [] <==> seg'.acc == []) && SampleCount(seg) == SampleCount(seg')
    requires forall i :: SampleTime(seg, i) == SampleTime(seg', i)
    ensures Times(segs + [seg]) == Times(segs + [seg']) && Points(segs + [seg]) == Points(segs + [seg'])
  {
    assert Times(segs + [seg]) == Times(segs) + Times([seg]);
    assert Times(segs + [seg']) == Times(segs) + Times([seg']);
    assert Points(segs + [seg]) == Points(segs) + Points([seg]);
    assert Points(segs + [seg']) == Points(segs) + Points([seg']);
    assert Times([seg]) == Times([seg']) && Points([seg]) == Points([seg']);
  }

  lemma SeesAlike(seg: Segment, seg': Segment, satOf: string -> string, p: Point, t: real, s: string)
    requires seg.id == seg'.id && (seg.acc == [] <==> seg'.acc == []) && SampleCount(seg) == SampleCount(seg')
    requires forall i :: SampleTime(seg, i) == SampleTime(seg', i)
    requires forall i: nat :: i < SampleCount(seg) ==> (Accessible(seg, i) <==> Accessible(seg', i))
    ensures Sees([seg], satOf, p, t, s) ==> Sees([seg'], satOf, p, t, s)
  {
    if Sees([seg], satOf, p, t, s) {
      var x, i: nat :| x in [seg] && SampledAt(x, i, t) && Accessible(x, i)
        && x.id.value.0 == p && satOf(x.id.value.1) == s;
      assert seg' in [seg'] && SampledAt(seg', i, t) && Accessible(seg', i);
    }
  }

  // The mean counts, per sample, every satellite once.
  ghost function AccessSets(segs: seq<Segment>, satOf: string -> string, p: Point): real -> set<string> {
    t => Access(segs, satOf, p, t)
  }

  lemma InViewSumExact(segs: seq<Segment>, satOf: string -> string, p: Point)
    ensures InViewSum(segs, satOf, p) == |AllPairs(Times(segs), AccessSets(segs, satOf, p))| as real
  {
    SumOfSizes(Times(segs), AccessCount(segs, satOf, p), AccessSets(segs, satOf, p));
  }

  // ---------- one-shot aggregation ----------

  type Slot = map<real, set<string>>

  function At(slot: Slot, t: real): set<string> {
    if t in slot then slot[t] else {}
  }

  // The nested dictionary after some segments: sightings per point and time, and all times.
  ghost predicate Aggregated(segs: seq<Segment>, satOf: string -> string,
                             points: map<Point, Slot>, order: seq<Point>, grid: set<real>)
  {
    && grid == Times(segs)
    && points.Keys == Points(segs)
    && (forall p :: p in order <==> p in points)
    && (forall i, j :: 0 <= i < j < |order| ==> order[i] != order[j])
    && (forall p, t :: p in points ==> At(points[p], t) == Access(segs, satOf, p, t))
  }

  // The sightings of one point once the first n samples of a segment have been entered.
  ghost predicate Entered(before: Slot, now: Slot, seg: Segment, sat: string, n: nat)
    requires n <= SampleCount(seg)
  {
    forall t, s :: s in At(now, t) <==>
      s in At(before, t) || (s == sat && exists i: nat :: i < n && SampleTime(seg, i) == t && Accessible(seg, i))
  }

  // Whether any platform has sample i; the rows are per platform.
  method AnyPlatform(acc: seq<bool>, n: nat, nPlat: nat, i: nat) returns (some: bool)
    requires |acc| == n * nPlat && i < n
    ensures some <==> exists p: nat :: p < nPlat && HasEntry(acc, p * n + i)
  {
    some := false;
    for p := 0 to nPlat
      invariant some <==> exists q: nat :: q < p && HasEntry(acc, q * n + i)
    {
      RowMajor(p, i, n, nPlat);
      some := some || acc[p * n + i];
      assert HasEntry(acc, p * n + i) <==> acc[p * n + i];
    }
  }

  // The series of a segment: as it is, or any platform of each sample.
  method Series(seg: Segment) returns (series: seq<bool>)
    ensures |series| == SampleCount(seg)
    ensures forall i: nat :: i < |series| ==> (series[i] <==> Accessible(seg, i))
  {
    var nPlat := Max(1, seg.nPlatforms);
    var n := if |seg.acc| % nPlat != 0 then |seg.acc| else |seg.acc| / nPlat;
    if |seg.acc| == n {
      return seg.acc;
    }
    series := [];
    for i := 0 to n
      invariant |series| == i && forall j: nat :: j < i ==> (series[j] <==> Accessible(seg, j))
    {
      var some := AnyPlatform(seg.acc, n, nPlat, i);
      series := series + [some];
    }
  }

  // Enters the samples of one segment into the slot of its point and into the time grid.
  method EnterSamples(seg: Segment, sat: string, slot: Slot, grid: set<real>) returns (slot': Slot, grid': set<real>)
    ensures grid' == grid + set i | 0 <= i < SampleCount(seg) :: SampleTime(seg, i)
    ensures Entered(slot, slot', seg, sat, SampleCount(seg))
  {
    slot', grid' := slot, grid;
    var series := Series(seg);
    for i := 0 to |series|
      invariant grid' == grid + set j | 0 <= j < i :: SampleTime(seg, j)
      invariant Entered(slot, slot', seg, sat, i)
    {
      ghost var before := slot';
      var t := seg.start as real + i as real * seg.resS;
      grid' := grid' + {t};
      if series[i] {
        slot' := slot'[t := At(slot', t) + {sat}];
      }
      assert t == SampleTime(seg, i);
      assert forall u, s :: s in At(slot', u) <==>
        s in At(before, u) || (s == sat && u == t && Accessible(seg, i));
    }
  }

  lemma SeesMoreSegments(segs: seq<Segment>, seg: Segment, satOf: string -> string, p: Point, t: real, s: string)
    ensures Sees(segs + [seg], satOf, p, t, s) <==> Sees(segs, satOf, p, t, s) || Sees([seg], satOf, p, t, s)
  {
    if Sees(segs, satOf, p, t, s) {
      var x, i: nat :| x in segs && SampledAt(x, i, t) && Accessible(x, i)
        && x.id.value.0 == p && satOf(x.id.value.1) == s;
      assert x in segs + [seg];
    }
  }

  lemma SkippedSegment(segs: seq<Segment>, seg: Segment, satOf: string -> string,
                       points: map<Point, Slot>, order: seq<Point>, grid: set<real>)
    requires Aggregated(segs, satOf, points, order, grid) && !Live(seg)
    ensures Aggregated(segs + [seg], satOf, points, order, grid)
  {
    forall p, t
      ensures Access(segs + [seg], satOf, p, t) == Access(segs, satOf, p, t)
    {
      forall s
        ensures s in Access(segs + [seg], satOf, p, t) <==> s in Access(segs, satOf, p, t)
      {
        AccessIsSees(segs + [seg], satOf, p, t, s);
        AccessIsSees(segs, satOf, p, t, s);
        SeesMoreSegments(segs, seg, satOf, p, t, s);
      }
    }
  }

  lemma UnseenPoint(segs: seq<Segment>, satOf: string -> string, p: Point, t: real)
    requires p !in Points(segs)
    ensures Access(segs, satOf, p, t) == {}
  {
  }

  lemma EnteredSegment(segs: seq<Segment>, seg: Segment, satOf: string -> string,
                       points: map<Point, Slot>, order: seq<Point>, grid: set<real>, slot: Slot)
    requires Aggregated(segs, satOf, points, order, grid) && Live(seg)
    requires var p0 := seg.id.value.0;
      Entered(if p0 in points then points[p0] else map[], slot, seg, satOf(seg.id.value.1), SampleCount(seg))
    ensures var p0 := seg.id.value.0;
      Aggregated(segs + [seg], satOf, points[p0 := slot], if p0 in points then order else order + [p0],
                 grid + set i | 0 <= i < SampleCount(seg) :: SampleTime(seg, i))
  {
    var p0, more := seg.id.value.0, segs + [seg];
    var points' := points[p0 := slot];
    forall p, t | p in points'
      ensures At(points'[p], t) == Access(more, satOf, p, t)
    {
      if p !in points {
        UnseenPoint(segs, satOf, p, t);
      }
      forall s
        ensures s in At(points'[p], t) <==> s in Access(more, satOf, p, t)
      {
        AccessIsSees(more, satOf, p, t, s);
        AccessIsSees(segs, satOf, p, t, s);
        SeesMoreSegments(segs, seg, satOf, p, t, s);
      }
    }
    assert Points(more) == Points(segs) + {p0};
  }

  // point -> time -> satellites, the order points were first met, and every sample time.
  method Aggregate(segs: seq<Segment>, satOf: string -> string)
    returns (points: map<Point, Slot>, order: seq<Point>, grid: set<real>)
    ensures Aggregated(segs, satOf, points, order, grid)
  {
    points, order, grid := map[], [], {};
    for n := 0 to |segs|
      invariant Aggregated(segs[..n], satOf, points, order, grid)
    {
      var seg := segs[n];
      assert segs[..n + 1] == segs[..n] + [seg];
      if seg.id.None? || seg.acc == [] {
        SkippedSegment(segs[..n], seg, satOf, points, order, grid);
        continue;
      }
      var (p, antenna) := seg.id.value;
      var slot, grid' := EnterSamples(seg, satOf(antenna), if p in points then points[p] else map[], grid);
      EnteredSegment(segs[..n], seg, satOf, points, order, grid, slot);
      order := if p in points then order else order + [p];
      points := points[p := slot];
      grid := grid';
    }
    assert segs[..|segs|] == segs;
  }

  // ---------- availability per point ----------

  // availability[i][x] belongs to point latlon[i] and level ks[x], satsInViewMean[i] to the point;
  // times holds the sample times, whose order plays no part.
  datatype OracleResult = OracleResult(latlon: seq<Point>, availability: seq<seq<real>>, satsInViewMean: seq<real>,
                                       times: set<real>, nSamples: nat)

  lemma HasMember(s: set<real>)
    requires s != {}
    ensures exists t :: t in s
  {
    if forall t :: t !in s {
      assert false;
    }
  }

  method CountServed(slot: Slot, grid: set<real>, k: int) returns (n: nat)
    ensures n == |set t | t in grid && |At(slot, t)| >= k|
  {
    n := 0;
    var rest := grid;
    while rest != {}
      invariant rest <= grid
      invariant n == |set t | t in grid - rest && |At(slot, t)| >= k|
      decreases rest
    {
      HasMember(rest);
      var t :| t in rest;
      ghost var counted := set u | u in grid - rest && |At(slot, u)| >= k;
      rest := rest - {t};
      if |At(slot, t)| >= k {
        n := n + 1;
        assert (set u | u in grid - rest && |At(slot, u)| >= k) == counted + {t};
      } else {
        assert (set u | u in grid - rest && |At(slot, u)| >= k) == counted;
      }
    }
    assert grid - rest == grid;
  }

  function SlotCount(slot: Slot): real -> real {
    t => |At(slot, t)| as real
  }

  // Satellites in view at every sample, added up.
  method SumInView(slot: Slot, grid: set<real>) returns (sum: nat)
    ensures sum as real == SumOver(grid, SlotCount(slot))
  {
    sum := 0;
    var rest := grid;
    while rest != {}
      invariant rest <= grid
      invariant sum as real == SumOver(grid - rest, SlotCount(slot))
      decreases rest
    {
      HasMember(rest);
      var t :| t in rest;
      SumAdd(grid - rest, t, SlotCount(slot));
      assert grid - (rest - {t}) == grid - rest + {t};
      rest := rest - {t};
      sum := sum + |At(slot, t)|;
    }
    assert grid - rest == grid;
  }

  // Segments that name at least one point.
  ghost predicate Parseable(segs: seq<Segment>) {
    Points(segs) != {}
  }

  // Each point once, with its fraction of the global sample grid at every level and its mean number
  // of satellites in view over that grid.
  ghost predicate OracleRight(r: OracleResult, segs: seq<Segment>, satOf: string -> string, ks: seq<int>) {
    && r.times == Times(segs) != {} && r.nSamples == |Times(segs)|
    && (forall p :: p in r.latlon <==> p in Points(segs))
    && (forall i, j :: 0 <= i < j < |r.latlon| ==> r.latlon[i] != r.latlon[j])
    && |r.availability| == |r.satsInViewMean| == |r.latlon|
    && (forall i :: 0 <= i < |r.latlon| ==>
          PointRight(r.availability[i], r.satsInViewMean[i], segs, satOf, r.latlon[i], ks))
  }

  ghost predicate PointRight(row: seq<real>, mean: real, segs: seq<Segment>, satOf: string -> string, p: Point,
                             ks: seq<int>)
    requires Times(segs) != {}
  {
    && RowRight(row, segs, satOf, p, ks)
    && IsShare(mean, |AllPairs(Times(segs), AccessSets(segs, satOf, p))|, |Times(segs)|)
  }

  ghost predicate RowRight(row: seq<real>, segs: seq<Segment>, satOf: string -> string, p: Point, ks: seq<int>)
    requires Times(segs) != {}
  {
    |row| == |ks| && forall x :: 0 <= x < |ks| ==> row[x] == Fraction(segs, satOf, p, ks[x])
  }

  // The fraction of the global sample grid with at least k distinct satellites, per point.
  method BeamCandidatesToCoverage(segs: seq<Segment>, satOf: string -> string, ks: seq<int>)
    returns (r: Result<OracleResult>)
    ensures r.Err? <==> !Parseable(segs)
    ensures r.Ok? ==> OracleRight(r.value, segs, satOf, ks)
  {
    var points, latlon, grid := Aggregate(segs, satOf);
    if points == map[] {
      return Err("no parseable beam-candidate segments (id format drift?)");
    }
    PointsHaveTimes(segs);
    var rows: seq<seq<real>>, means: seq<real> := [], [];
    for i := 0 to |latlon|
      invariant |rows| == |means| == i
      invariant forall j :: 0 <= j < i ==> PointRight(rows[j], means[j], segs, satOf, latlon[j], ks)
    {
      var row, mean := PointCoverage(segs, satOf, latlon[i], points[latlon[i]], grid, ks);
      rows, means := rows + [row], means + [mean];
    }
    r := Ok(OracleResult(latlon, rows, means, grid, |grid|));
  }

  lemma PointsHaveTimes(segs: seq<Segment>)
    requires Points(segs) != {}
    ensures Times(segs) != {}
  {
    var p :| p in Points(segs);
    var seg :| seg in segs && Live(seg) && seg.id.value.0 == p;
    LiveHasSamples(seg);
    assert SampleTime(seg, 0) in Times(segs);
  }

  // The mean number of satellites in view over the grid.
  method PointMean(ghost segs: seq<Segment>, ghost satOf: string -> string, ghost p: Point, slot: Slot, grid: set<real>)
    returns (mean: real)
    requires grid == Times(segs) != {}
    requires forall t :: At(slot, t) == Access(segs, satOf, p, t)
    ensures IsShare(mean, |AllPairs(Times(segs), AccessSets(segs, satOf, p))|, |Times(segs)|)
  {
    var sum := SumInView(slot, grid);
    SumSame(grid, SlotCount(slot), AccessCount(segs, satOf, p));
    InViewSumExact(segs, satOf, p);
    mean := sum as real / |grid| as real;
    QuotientIsShare(sum, |grid|);
  }

  method PointCoverage(ghost segs: seq<Segment>, ghost satOf: string -> string, ghost p: Point,
                       slot: Slot, grid: set<real>, ks: seq<int>)
    returns (row: seq<real>, mean: real)
    requires grid == Times(segs) != {}
    requires forall t :: At(slot, t) == Access(segs, satOf, p, t)
    ensures PointRight(row, mean, segs, satOf, p, ks)
  {
    row := [];
    for x := 0 to |ks|
      invariant |row| == x
      invariant forall y :: 0 <= y < x ==> row[y] == Fraction(segs, satOf, p, ks[y])
    {
      var n := CountServed(slot, grid, ks[x]);
      assert (set t | t in grid && |At(slot, t)| >= ks[x]) == ServedTimes(segs, satOf, p, ks[x]);
      row := row + [n as real / |grid| as real];
    }
    mean := PointMean(segs, satOf, p, slot, grid);
  }
}
