// The Walker T/P/F lattice, in units of 360/T degrees relative to the shell's reference RAAN and
// phase, and the physical-plane ids derived from it.
module Walker {
  import opened Options

  // ---------- physical planes ----------

  // Distinct values below k.
  function DistinctBelow(keys: seq<int>, k: int): set<int> {
    set i | 0 <= i < |keys| && keys[i] < k :: keys[i]
  }

  // Rank of each key among the distinct sorted keys.
  function PhysicalPlaneUid(keys: seq<int>): seq<int> {
    seq(|keys|, i requires 0 <= i < |keys| => |DistinctBelow(keys, keys[i])|)
  }

  lemma RankGrows(keys: seq<int>, i: nat, j: nat)
    requires i < |keys| && j < |keys| && keys[i] < keys[j]
    ensures PhysicalPlaneUid(keys)[i] < PhysicalPlaneUid(keys)[j]
  {
    var a, b := DistinctBelow(keys, keys[i]), DistinctBelow(keys, keys[j]);
    assert keys[i] in b && keys[i] !in a && a <= b;
    ProperSubsetSmaller(a, b);
  }

  lemma ProperSubsetSmaller(a: set<int>, b: set<int>)
    requires a < b
    ensures |a| < |b|
  {
    assert b == a + (b - a);
    assert |b| == |a| + |b - a|;
  }

  // Same uid exactly when same key, so co-planar satellites share a plane and no others do.
  lemma UidIsKeyIdentity(keys: seq<int>, i: nat, j: nat)
    requires i < |keys| && j < |keys|
    ensures PhysicalPlaneUid(keys)[i] == PhysicalPlaneUid(keys)[j] <==> keys[i] == keys[j]
    ensures PhysicalPlaneUid(keys)[i] < PhysicalPlaneUid(keys)[j] <==> keys[i] < keys[j]
  {
    if keys[i] < keys[j] {
      RankGrows(keys, i, j);
    } else if keys[j] < keys[i] {
      RankGrows(keys, j, i);
    }
  }

  // The uids are the numbers from 0 on, one per distinct key: the smallest key has uid 0, and no uid
  // reaches the number of keys.
  lemma UidRange(keys: seq<int>, i: nat)
    requires i < |keys|
    ensures 0 <= PhysicalPlaneUid(keys)[i] < |set k | k in keys|
    ensures (forall j :: 0 <= j < |keys| ==> keys[i] <= keys[j]) ==> PhysicalPlaneUid(keys)[i] == 0
  {
    var below, all := DistinctBelow(keys, keys[i]), set k | k in keys;
    assert keys[i] in all && keys[i] !in below && below <= all;
    ProperSubsetSmaller(below, all);
    if forall j :: 0 <= j < |keys| ==> keys[i] <= keys[j] {
      assert below == {};
    }
  }

  // ---------- the lattice ----------

  // slots: satellites per plane; satellite i is slot i % slots of plane i / slots
  datatype Pattern = Pattern(planes: nat, slots: nat, phasing: int) {

    predicate Valid() {
      planes > 0 && slots > 0
    }

    function Total(): nat {
      planes * slots
    }

    function Raan(i: nat): int
      requires Valid()
    {
      Positive();
      (i / slots * slots) % Total()
    }

    function Anomaly(i: nat): int
      requires Valid()
    {
      Positive();
      (i % slots * planes + i / slots * phasing) % Total()
    }

    lemma Positive()
      requires Valid()
      ensures Total() > 0
    {
    }

    // Satellite reached by moving one plane on: the next plane's same slot, or across the seam
    // the first plane's slot moved on by the phasing.
    function Next(i: nat): nat
      requires Valid() && i < Total()
    {
      var p, s := i / slots, i % slots;
      if p + 1 < planes then (p + 1) * slots + s else (s + phasing) % slots
    }

    lemma PlaneInRange(i: nat)
      requires Valid() && i < Total()
      ensures 0 <= i / slots < planes && i == i / slots * slots + i % slots
    {
      if i / slots >= planes {
        MulMonotone(planes, i / slots, slots);
      }
    }

    lemma RaanExact(i: nat)
      requires Valid() && i < Total()
      ensures Raan(i) == i / slots * slots
    {
      PlaneInRange(i);
      MulMonotone(i / slots + 1, planes, slots);
      Positive();
      RemainderIs(i / slots * slots, 0, i / slots * slots, Total());
    }

    // T distinct positions.
    lemma PositionsDistinct(i: nat, j: nat)
      requires Valid() && i < Total() && j < Total()
      requires Raan(i) == Raan(j) && Anomaly(i) == Anomaly(j)
      ensures i == j
    {
      Positive();
      RaanExact(i);
      RaanExact(j);
      PlaneInRange(i);
      PlaneInRange(j);
      MulInjective(i / slots, j / slots, slots);
      var s, r := i % slots, j % slots;
      SameRemainder(s * planes + i / slots * phasing, r * planes + j / slots * phasing, Total());
      var q := (s * planes + i / slots * phasing) / Total() - (r * planes + j / slots * phasing) / Total();
      assert s * planes - r * planes == q * Total();
      SlotsApart(s, r, q);
    }

    lemma SlotsApart(s: int, r: int, q: int)
      requires Valid() && 0 <= s < slots && 0 <= r < slots
      requires s * planes - r * planes == q * Total()
      ensures s == r
    {
      assert q * Total() == (q * slots) * planes by {
        assert q * (planes * slots) == (q * slots) * planes;
      }
      assert (s - r) * planes == (q * slots) * planes;
      MulInjective(s - r, q * slots, planes);
      if q >= 1 {
        MulMonotone(1, q, slots);
      } else if q <= -1 {
        MulMonotone(q, -1, slots);
      }
    }

    // Plane p holds exactly the satellites p * slots .. p * slots + slots - 1.
    lemma SlotsPerPlane(i: nat, p: nat)
      requires Valid() && i < Total() && p < planes
      ensures Raan(i) == p * slots <==> p * slots <= i < p * slots + slots
    {
      RaanExact(i);
      PlaneInRange(i);
      SameBlock(i / slots, i % slots, p, slots);
    }

    // Satellite s of plane p sits at these coordinates.
    lemma Coordinates(p: nat, s: nat)
      requires Valid() && p < planes && s < slots
      ensures p * slots + s < Total()
      ensures Raan(p * slots + s) == p * slots
      ensures Anomaly(p * slots + s) == (s * planes + p * phasing) % Total()
    {
      Positive();
      MulMonotone(p + 1, planes, slots);
      DivModOf(p, s, slots);
      RaanExact(p * slots + s);
    }

    lemma StepInside(p: nat, s: nat)
      requires Valid() && p + 1 < planes && s < slots && Total() > 0
      ensures (p * slots + slots) % Total() == (p + 1) * slots
      ensures (s * planes + (p + 1) * phasing) % Total()
           == ((s * planes + p * phasing) % Total() + phasing) % Total()
    {
      MulMonotone(p + 2, planes, slots);
      Distribute(p + 1, 1, slots);
      Distribute(p, 1, slots);
      RemainderIs((p + 1) * slots, 0, (p + 1) * slots, Total());
      AddRemainder(s * planes + p * phasing, phasing, Total());
      Distribute(p, 1, phasing);
    }

    lemma StepAcrossSeam(s: nat)
      requires Valid() && s < slots && Total() > 0
      ensures ((planes - 1) * slots + slots) % Total() == 0
      ensures ((s + phasing) % slots * planes) % Total()
           == ((s * planes + (planes - 1) * phasing) % Total() + phasing) % Total()
    {
      Distribute(planes - 1, 1, slots);
      RemainderIs(Total(), 1, 0, Total());
      AddRemainder(s * planes + (planes - 1) * phasing, phasing, Total());
      Distribute(planes - 1, 1, phasing);
      Distribute(s, phasing, planes);
      Commute(phasing, planes);
      Commute(slots, planes);
      ScaledRemainder(s + phasing, slots, planes);
    }

    // The set of positions is closed under one plane on and phasing units of anomaly, across the
    // plane seam too.
    lemma ClosedUnderPlaneStep(i: nat)
      requires Valid() && i < Total()
      ensures Next(i) < Total()
      ensures Raan(Next(i)) == (Raan(i) + slots) % Total()
      ensures Anomaly(Next(i)) == (Anomaly(i) + phasing) % Total()
    {
      Positive();
      PlaneInRange(i);
      var p, s := i / slots, i % slots;
      Coordinates(p, s);
      if p + 1 < planes {
        StepInside(p, s);
        Coordinates(p + 1, s);
      } else {
        StepAcrossSeam(s);
        Coordinates(0, (s + phasing) % slots);
      }
    }
  }

  // total_sats, planes, phasing -> pattern; the total must split evenly over the planes.
  function WalkerPattern(totalSats: nat, planes: nat, phasing: int): (r: Result<Pattern>)
    requires planes > 0
    ensures r.Err? <==> totalSats % planes != 0
    ensures r.Ok? ==> r.value.planes == planes && r.value.phasing == phasing && r.value.Total() == totalSats
  {
    if totalSats % planes != 0 then Err("total_sats must be divisible by planes")
    else Ok(Pattern(planes, totalSats / planes, phasing))
  }

  // ---------- plane keys of a Walker shell ----------

  // 2 * pi as the program holds it.
  const TWO_PI := 6.283185307179586

  // x modulo m, in [0, m).
  function Mod(x: real, m: real): real
    requires m > 0.0
  {
    x - (x / m).Floor as real * m
  }

  // To the nearest integer, halves to the even one.
  function Round(x: real): int {
    var low := x.Floor;
    if x - low as real < 0.5 || (x - low as real == 0.5 && low % 2 == 0) then low else low + 1
  }

  lemma RoundNear(x: real)
    ensures Round(x) as real - 0.5 <= x <= Round(x) as real + 0.5
  {
  }

  // Before reduction to one turn.
  function Unwrapped(raan0: real, p: nat, planes: nat): real
    requires planes > 0
  {
    raan0 + p as real * (TWO_PI / planes as real)
  }

  // RAAN of plane p in radians, and its value rounded to three decimals, in thousandths.
  function RaanRad(raan0: real, p: nat, planes: nat): real
    requires planes > 0
  {
    Mod(Unwrapped(raan0, p, planes), TWO_PI)
  }

  function PlaneKey(raan0: real, p: nat, planes: nat): int
    requires planes > 0
  {
    Round(1000.0 * RaanRad(raan0, p, planes))
  }

  // The keys of all satellites: planes of a shell differ in RAAN alone.
  function ShellKeys(w: Pattern, raan0: real): (keys: seq<int>)
    requires w.Valid()
    ensures |keys| == w.Total()
  {
    seq(w.Total(), i requires 0 <= i < w.Total() && w.Valid() => PlaneKey(raan0, i / w.slots, w.planes))
  }

  // Equal uids exactly within a plane.
  ghost predicate UidsArePlanes(w: Pattern, raan0: real)
    requires w.Valid()
  {
    var uid := PhysicalPlaneUid(ShellKeys(w, raan0));
    forall i, j :: 0 <= i < w.Total() && 0 <= j < w.Total() ==> (uid[i] == uid[j] <==> i / w.slots == j / w.slots)
  }

  lemma Quantum(planes: nat)
    requires 0 < planes <= 6283
    ensures TWO_PI / planes as real > 0.001
  {
    var c := TWO_PI / planes as real;
    assert c * planes as real == TWO_PI;
    if c <= 0.001 {
      ProductBound(c, 0.001, planes as real);
    }
  }

  lemma ProductBound(a: real, b: real, m: real)
    requires a <= b && m >= 0.0
    ensures a * m <= b * m
  {
    assert (b - a) * m >= 0.0;
  }

  // The RAAN of a plane, less some whole turns.
  lemma RaanTurns(raan0: real, p: nat, planes: nat) returns (turns: int)
    requires planes > 0
    ensures RaanRad(raan0, p, planes) == raan0 + p as real * (TWO_PI / planes as real) - turns as real * TWO_PI
  {
    turns := (Unwrapped(raan0, p, planes) / TWO_PI).Floor;
  }

  // Two planes are a whole, non-zero number of plane spacings apart, also across the seam.
  lemma PlanesApart(raan0: real, p: nat, q: nat, planes: nat) returns (n: int)
    requires p < planes && q < planes && p != q
    ensures n != 0 && RaanRad(raan0, p, planes) - RaanRad(raan0, q, planes) == n as real * (TWO_PI / planes as real)
  {
    var a := RaanTurns(raan0, p, planes);
    var b := RaanTurns(raan0, q, planes);
    n := p - q - (a - b) * planes;
    NotMultiple(p - q, a - b, planes);
    SpacingSum(p, q, a - b, planes, TWO_PI / planes as real);
  }

  lemma NotMultiple(d: int, q: int, m: int)
    requires -m < d < m && d != 0
    ensures d - q * m != 0
  {
    if q >= 1 {
      MulMonotone(1, q, m);
    } else if q <= -1 {
      MulMonotone(q, -1, m);
    }
  }

  lemma SpacingSum(p: int, q: int, turns: int, m: nat, c: real)
    requires c * m as real == TWO_PI
    ensures (p - q - turns * m) as real * c == p as real * c - q as real * c - turns as real * TWO_PI
  {
    var x, y, z := p as real, q as real, (turns * m) as real;
    assert (p - q - turns * m) as real == x - y - z;
    assert (x - y - z) * c == x * c - y * c - z * c;
    assert z * c == turns as real * TWO_PI by {
      assert z == turns as real * m as real;
      assert turns as real * m as real * c == turns as real * (m as real * c);
    }
  }

  lemma AtLeastOne(n: int, c: real)
    requires n != 0 && c > 0.001
    ensures 1000.0 * (n as real * c) > 1.0 || 1000.0 * (n as real * c) < -1.0
  {
    if n > 0 {
      ProductBound(1.0, n as real, c);
    } else {
      ProductBound(n as real, -1.0, c);
    }
  }

  lemma KeysApart(raan0: real, p: nat, q: nat, planes: nat)
    requires p < planes <= 6283 && q < planes && p != q
    ensures PlaneKey(raan0, p, planes) != PlaneKey(raan0, q, planes)
  {
    var x, y := RaanRad(raan0, p, planes), RaanRad(raan0, q, planes);
    var n := PlanesApart(raan0, p, q, planes);
    Quantum(planes);
    AtLeastOne(n, TWO_PI / planes as real);
    RoundNear(1000.0 * x);
    RoundNear(1000.0 * y);
  }

  // Up to 6283 planes the physical-plane id identifies the plane index, whatever the reference RAAN.
  lemma FewPlanesIdentified(w: Pattern, raan0: real)
    requires w.Valid() && w.planes <= 6283
    ensures UidsArePlanes(w, raan0)
  {
    var keys := ShellKeys(w, raan0);
    forall i: nat, j: nat | i < w.Total() && j < w.Total()
      ensures PhysicalPlaneUid(keys)[i] == PhysicalPlaneUid(keys)[j] <==> i / w.slots == j / w.slots
    {
      UidIsKeyIdentity(keys, i, j);
      w.PlaneInRange(i);
      w.PlaneInRange(j);
      if i / w.slots != j / w.slots {
        KeysApart(raan0, i / w.slots, j / w.slots, w.planes);
      }
    }
  }

  lemma ModSmall(x: real, m: real)
    requires 0.0 <= x < m
    ensures Mod(x, m) == x
  {
    var q := x / m;
    assert q * m == x;
    if q >= 1.0 {
      ProductBound(1.0, q, m);
    }
    assert q.Floor == 0;
  }

  lemma BelowTurn(p: nat, planes: nat, c: real)
    requires p < planes && c > 0.0 && c * planes as real == TWO_PI
    ensures 0.0 <= p as real * c <= TWO_PI - c
  {
    ProductBound(0.0, p as real, c);
    ProductBound(p as real, planes as real - 1.0, c);
    OneLess(planes, c);
  }

  lemma UnwrappedBelowTurn(p: nat, planes: nat)
    requires p < planes
    ensures 0.0 <= Unwrapped(0.0, p, planes) <= TWO_PI - TWO_PI / planes as real
  {
    PositiveQuotient(TWO_PI, planes);
    QuotientTimes(TWO_PI, planes);
    BelowTurn(p, planes, TWO_PI / planes as real);
  }

  // The RAAN of plane p from reference 0, at least one spacing below a full turn.
  lemma FirstTurn(p: nat, planes: nat)
    requires p < planes
    ensures 0.0 <= RaanRad(0.0, p, planes) <= TWO_PI - TWO_PI / planes as real
  {
    PositiveQuotient(TWO_PI, planes);
    UnwrappedBelowTurn(p, planes);
    ModSmall(Unwrapped(0.0, p, planes), TWO_PI);
  }

  lemma QuotientTimes(x: real, n: nat)
    requires n > 0
    ensures x / n as real * n as real == x
  {
  }

  lemma PositiveQuotient(x: real, n: nat)
    requires x > 0.0 && n > 0
    ensures x / n as real > 0.0
  {
    var q := x / n as real;
    assert q * n as real == x;
    if q <= 0.0 {
      ProductBound(q, 0.0, n as real);
    }
  }

  lemma OneLess(n: nat, c: real)
    ensures (n as real - 1.0) * c == c * n as real - c
  {
  }

  lemma KeyBound(x: real, planes: nat)
    requires 0.0 <= x < TWO_PI && planes > 6283 && (planes == 6284 ==> x <= TWO_PI - 0.0009)
    ensures 0 <= Round(1000.0 * x) < planes - 1
  {
    RoundNear(1000.0 * x);
  }

  // From reference RAAN 0 the keys lie between 0 and one less than the number of planes.
  lemma KeyRange(p: nat, planes: nat)
    requires p < planes && planes > 6283
    ensures 0 <= PlaneKey(0.0, p, planes) < planes - 1
  {
    FirstTurn(p, planes);
    PositiveQuotient(TWO_PI, planes);
    KeyBound(RaanRad(0.0, p, planes), planes);
  }

  // More keys than values: two are equal.
  lemma {:induction false} Pigeonhole(keys: seq<int>, m: nat) returns (i: nat, j: nat)
    requires |keys| > m && forall k :: 0 <= k < |keys| ==> 0 <= keys[k] < m
    ensures i < j < |keys| && keys[i] == keys[j]
    decreases m
  {
    if k: nat :| k < |keys| && keys[k] == m - 1 {
      if l: nat :| l < |keys| && l != k && keys[l] == m - 1 {
        i, j := if k < l then k else l, if k < l then l else k;
      } else {
        var rest := keys[..k] + keys[k + 1..];
        i, j := Pigeonhole(rest, m - 1);
        i, j := if i < k then i else i + 1, if j < k then j else j + 1;
      }
    } else {
      assert 0 <= keys[0] < m;
      i, j := Pigeonhole(keys, m - 1);
    }
  }

  // From 6284 planes on two planes round to one key already for reference RAAN 0.
  lemma ManyPlanesMerge(w: Pattern)
    requires w.Valid() && w.planes > 6283
    ensures !UidsArePlanes(w, 0.0)
  {
    var planeKeys := seq(w.planes, p requires 0 <= p < w.planes => PlaneKey(0.0, p, w.planes));
    forall p | 0 <= p < w.planes
      ensures 0 <= planeKeys[p] < w.planes - 1
    {
      KeyRange(p, w.planes);
    }
    var p, q := Pigeonhole(planeKeys, w.planes - 1);
    var keys := ShellKeys(w, 0.0);
    w.Coordinates(p, 0);
    w.Coordinates(q, 0);
    DivModOf(p, 0, w.slots);
    DivModOf(q, 0, w.slots);
    UidIsKeyIdentity(keys, p * w.slots, q * w.slots);
  }

  // In a Walker shell the physical-plane id identifies the plane index, for every reference RAAN,
  // exactly up to 6283 planes: then planes are more than a thousandth of a radian apart.
  lemma WalkerPlaneUids(w: Pattern)
    requires w.Valid()
    ensures (forall raan0: real :: UidsArePlanes(w, raan0)) <==> w.planes <= 6283
  {
    if w.planes <= 6283 {
      forall raan0: real
        ensures UidsArePlanes(w, raan0)
      {
        FewPlanesIdentified(w, raan0);
      }
    } else {
      ManyPlanesMerge(w);
    }
  }

  // ---------- arithmetic ----------

  lemma Distribute(a: int, b: int, m: int)
    ensures (a + b) * m == a * m + b * m
  {
  }

  lemma Commute(a: int, b: int)
    ensures a * b == b * a
  {
  }

  lemma SameBlock(q: int, r: int, p: int, m: int)
    requires 0 <= r < m
    ensures q * m == p * m <==> p * m <= q * m + r < p * m + m
  {
    if q < p {
      MulMonotone(q + 1, p, m);
      Distribute(q, 1, m);
    } else if q > p {
      MulMonotone(p + 1, q, m);
      Distribute(p, 1, m);
    }
  }

  lemma MulMonotone(a: int, b: int, m: int)
    requires a <= b && m >= 0
    ensures a * m <= b * m
  {
    assert (b - a) * m >= 0;
  }

  lemma MulInjective(a: int, b: int, m: int)
    requires m > 0 && a * m == b * m
    ensures a == b
  {
    if a < b {
      MulMonotone(a + 1, b, m);
    } else if b < a {
      MulMonotone(b + 1, a, m);
    }
  }

  lemma RemainderIs(x: int, q: int, r: int, m: int)
    requires m > 0 && x == q * m + r && 0 <= r < m
    ensures x % m == r && x / m == q
  {
    var d := x / m - q;
    assert x == x / m * m + x % m;
    assert d * m == r - x % m;
    if d >= 1 {
      MulMonotone(1, d, m);
    } else if d <= -1 {
      MulMonotone(d, -1, m);
    }
  }

  lemma SameRemainder(x: int, y: int, m: int)
    requires m > 0 && x % m == y % m
    ensures x - y == (x / m - y / m) * m
  {
    assert x == x / m * m + x % m && y == y / m * m + y % m;
  }

  lemma AddRemainder(x: int, y: int, m: int)
    requires m > 0
    ensures (x % m + y) % m == (x + y) % m
  {
    var z := x % m + y;
    assert x == x / m * m + x % m && z == z / m * m + z % m;
    assert x + y == (x / m + z / m) * m + z % m;
    RemainderIs(x + y, x / m + z / m, z % m, m);
  }

  lemma ScaledRemainder(x: int, m: int, k: int)
    requires m > 0 && k > 0 && m * k > 0
    ensures (x % m * k) % (m * k) == (x * k) % (m * k)
  {
    assert x == x / m * m + x % m;
    assert x * k == x / m * (m * k) + x % m * k;
    MulMonotone(x % m + 1, m, k);
    RemainderIs(x * k, x / m, x % m * k, m * k);
    RemainderIs(x % m * k, 0, x % m * k, m * k);
  }

  lemma DivModOf(p: nat, s: nat, m: nat)
    requires m > 0 && s < m
    ensures (p * m + s) / m == p && (p * m + s) % m == s
  {
    RemainderIs(p * m + s, p, s, m);
  }
}
