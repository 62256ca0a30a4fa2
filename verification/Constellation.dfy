// Plane identities of constellations: concatenation, physical planes, and the Walker lattice.
module Constellation {
  import opened Options
  import opened ServingGraph

  // Parallel per-satellite arrays; a negative plane uid is unknown.
  datatype Model<Elem> = Model(elems: seq<Elem>, planeUid: seq<int>, slotId: seq<int>,
                               shellId: seq<int>, epochS: seq<real>, satId: seq<string>)
  {
    predicate Valid() {
      |elems| == |planeUid| == |slotId| == |shellId| == |epochS| == |satId|
    }

    function NSat(): nat {
      |elems|
    }
  }

  // ---------- concat ----------

  // The uids of one model moved up by an offset, unknown ones left alone.
  function Shifted(uids: seq<int>, offset: int): seq<int> {
    seq(|uids|, i requires 0 <= i < |uids| => if uids[i] >= 0 then uids[i] + offset else uids[i])
  }

  // Largest known uid, -1 when all are unknown.
  function MaxKnown(uids: seq<int>): int {
    if uids == [] then -1 else Max(MaxKnown(uids[..|uids| - 1]), uids[|uids| - 1])
  }

  lemma {:induction false} MaxKnownBounds(uids: seq<int>)
    ensures MaxKnown(uids) >= -1
    ensures forall i :: 0 <= i < |uids| ==> uids[i] <= MaxKnown(uids)
    ensures MaxKnown(uids) >= 0 ==> MaxKnown(uids) in uids
    decreases |uids|
  {
    if uids != [] {
      var init := uids[..|uids| - 1];
      MaxKnownBounds(init);
      assert uids == init + [uids[|uids| - 1]];
    }
  }

  lemma {:induction false} MaxKnownShifted(uids: seq<int>, a: nat)
    ensures MaxKnown(Shifted(uids, a)) == if MaxKnown(uids) >= 0 then MaxKnown(uids) + a else -1
    decreases |uids|
  {
    if uids != [] {
      var init := uids[..|uids| - 1];
      MaxKnownBounds(init);
      MaxKnownShifted(init, a);
      assert Shifted(uids, a)[..|uids| - 1] == Shifted(init, a);
    }
  }

  // The next free offset: past the largest uid just placed, unmoved when none is known.
  function NextOffset(uids: seq<int>, offset: nat): nat {
    if MaxKnown(uids) >= 0 then MaxKnown(uids) + 1 else offset
  }

  // Plane uids and the next free offset after a list of models, starting at offset.
  function Planes(parts: seq<seq<int>>, offset: nat): (r: (seq<int>, nat)) {
    if parts == [] then ([], offset) else
      var (uids, next) := Planes(parts[..|parts| - 1], offset);
      var part := Shifted(parts[|parts| - 1], next);
      (uids + part, NextOffset(part, next))
  }

  // Offset at which model m of the list is placed.
  function OffsetOf(parts: seq<seq<int>>, m: nat): nat
    requires m <= |parts|
  {
    Planes(parts[..m], 0).1
  }

  function Uids<Elem>(models: seq<Model<Elem>>): seq<seq<int>> {
    seq(|models|, m requires 0 <= m < |models| => models[m].planeUid)
  }

  function Elems<Elem>(models: seq<Model<Elem>>): seq<seq<Elem>> {
    seq(|models|, m requires 0 <= m < |models| => models[m].elems)
  }

  function Slots<Elem>(models: seq<Model<Elem>>): seq<seq<int>> {
    seq(|models|, m requires 0 <= m < |models| => models[m].slotId)
  }

  function Epochs<Elem>(models: seq<Model<Elem>>): seq<seq<real>> {
    seq(|models|, m requires 0 <= m < |models| => models[m].epochS)
  }

  function Ids<Elem>(models: seq<Model<Elem>>): seq<seq<string>> {
    seq(|models|, m requires 0 <= m < |models| => models[m].satId)
  }

  // Every satellite's shell is the position of its model.
  function Shells<Elem>(models: seq<Model<Elem>>): seq<seq<int>> {
    seq(|models|, m requires 0 <= m < |models| => seq(models[m].NSat(), _ => m))
  }

  function Flat<T>(parts: seq<seq<T>>): seq<T> {
    if parts == [] then [] else Flat(parts[..|parts| - 1]) + parts[|parts| - 1]
  }

  // Position of the first entry of part m in the flattened list.
  function Start<T>(parts: seq<seq<T>>, m: nat): nat
    requires m <= |parts|
  {
    if m == 0 then 0 else Start(parts, m - 1) + |parts[m - 1]|
  }

  lemma FlatStep<T>(parts: seq<seq<T>>, m: nat)
    requires m < |parts|
    ensures Flat(parts[..m + 1]) == Flat(parts[..m]) + parts[m]
  {
    assert parts[..m + 1][..m] == parts[..m];
  }

  // Entry i of part m sits at its own place in the flattened list.
  lemma {:induction false} FlatAt<T>(parts: seq<seq<T>>, n: nat, m: nat, i: nat)
    requires m < n <= |parts| && i < |parts[m]|
    ensures |Flat(parts[..n])| == Start(parts, n)
    ensures Start(parts, m) + i < Start(parts, n) && Flat(parts[..n])[Start(parts, m) + i] == parts[m][i]
    decreases n
  {
    FlatStep(parts, n - 1);
    FlatLength(parts, n - 1);
    if m < n - 1 {
      FlatAt(parts, n - 1, m, i);
    }
  }

  lemma {:induction false} FlatLength<T>(parts: seq<seq<T>>, n: nat)
    requires n <= |parts|
    ensures |Flat(parts[..n])| == Start(parts, n)
  {
    if n > 0 {
      FlatLength(parts, n - 1);
      FlatStep(parts, n - 1);
    }
  }

  lemma {:induction false} SameStart<S, T>(a: seq<seq<S>>, b: seq<seq<T>>, n: nat)
    requires n <= |a| == |b| && forall m :: 0 <= m < n ==> |a[m]| == |b[m]|
    ensures Start(a, n) == Start(b, n)
  {
    if n > 0 {
      SameStart(a, b, n - 1);
    }
  }

  lemma FlatSameLength<S, T>(a: seq<seq<S>>, b: seq<seq<T>>)
    requires |a| == |b| && forall m :: 0 <= m < |a| ==> |a[m]| == |b[m]|
    ensures |Flat(a)| == Start(b, |b|)
  {
    assert a[..|a|] == a;
    FlatLength(a, |a|);
    SameStart(a, b, |a|);
  }

  // All parallel arrays of the stack have one entry per satellite.
  lemma StackedLengths<Elem>(models: seq<Model<Elem>>)
    requires forall m :: 0 <= m < |models| ==> models[m].Valid()
    ensures |Flat(Elems(models))| == |Flat(Slots(models))| == |Flat(Epochs(models))|
         == |Flat(Ids(models))| == |Flat(Shells(models))| == |Planes(Uids(models), 0).0|
  {
    FlatSameLength(Elems(models), Uids(models));
    FlatSameLength(Slots(models), Uids(models));
    FlatSameLength(Epochs(models), Uids(models));
    FlatSameLength(Ids(models), Uids(models));
    FlatSameLength(Shells(models), Uids(models));
    assert Uids(models)[..|models|] == Uids(models);
    PlanesLength(Uids(models), 0, |models|);
  }

  // Satellite i of model m, at its place in the stack: its elements and metadata, shell m, and a plane
  // that is known exactly when it was.
  ghost predicate Stacked<Elem>(models: seq<Model<Elem>>, r: Model<Elem>, m: nat, i: nat)
    requires m < |models| && i < models[m].NSat() && models[m].Valid()
  {
    var at := Start(Elems(models), m) + i;
    && at < r.NSat() && r.Valid()
    && r.elems[at] == models[m].elems[i] && r.slotId[at] == models[m].slotId[i]
    && r.epochS[at] == models[m].epochS[i] && r.satId[at] == models[m].satId[i]
    && r.shellId[at] == m
    && (r.planeUid[at] >= 0 <==> models[m].planeUid[i] >= 0)
    && (models[m].planeUid[i] < 0 ==> r.planeUid[at] == models[m].planeUid[i])
  }

  lemma PartAt<T, S>(parts: seq<seq<T>>, shape: seq<seq<S>>, m: nat, i: nat)
    requires |parts| == |shape| && forall k :: 0 <= k < |parts| ==> |parts[k]| == |shape[k]|
    requires m < |parts| && i < |parts[m]|
    ensures Start(shape, m) + i < |Flat(parts)| && Flat(parts)[Start(shape, m) + i] == parts[m][i]
  {
    FlatAt(parts, |parts|, m, i);
    assert parts[..|parts|] == parts;
    SameStart(parts, shape, m);
  }

  lemma ElementsAt<Elem>(models: seq<Model<Elem>>, m: nat, i: nat)
    requires forall k :: 0 <= k < |models| ==> models[k].Valid()
    requires m < |models| && i < models[m].NSat() && models[m].Valid()
    ensures var (at, elems, slots) := (Start(Elems(models), m) + i, Flat(Elems(models)), Flat(Slots(models)));
      at < |elems| && at < |slots| && elems[at] == models[m].elems[i] && slots[at] == models[m].slotId[i]
  {
    PartAt(Elems(models), Elems(models), m, i);
    PartAt(Slots(models), Elems(models), m, i);
  }

  lemma MetadataAt<Elem>(models: seq<Model<Elem>>, m: nat, i: nat)
    requires forall k :: 0 <= k < |models| ==> models[k].Valid()
    requires m < |models| && i < models[m].NSat() && models[m].Valid()
    ensures var (at, epochs, ids) := (Start(Elems(models), m) + i, Flat(Epochs(models)), Flat(Ids(models)));
      at < |epochs| && at < |ids| && epochs[at] == models[m].epochS[i] && ids[at] == models[m].satId[i]
  {
    PartAt(Epochs(models), Elems(models), m, i);
    PartAt(Ids(models), Elems(models), m, i);
  }

  lemma ShellAt<Elem>(models: seq<Model<Elem>>, m: nat, i: nat)
    requires m < |models| && i < models[m].NSat()
    ensures var (at, shells) := (Start(Elems(models), m) + i, Flat(Shells(models))); at < |shells| && shells[at] == m
  {
    PartAt(Shells(models), Elems(models), m, i);
  }

  lemma StackedAt<Elem>(models: seq<Model<Elem>>, r: Model<Elem>, m: nat, i: nat)
    requires forall k :: 0 <= k < |models| ==> models[k].Valid()
    requires m < |models| && i < models[m].NSat() && r.Valid()
    requires r.planeUid == Planes(Uids(models), 0).0 && r.elems == Flat(Elems(models))
    requires r.slotId == Flat(Slots(models)) && r.epochS == Flat(Epochs(models))
    requires r.satId == Flat(Ids(models)) && r.shellId == Flat(Shells(models))
    ensures Stacked(models, r, m, i)
  {
    ElementsAt(models, m, i);
    MetadataAt(models, m, i);
    ShellAt(models, m, i);
    UidAt(models, m, i);
  }

  lemma UidAt<Elem>(models: seq<Model<Elem>>, m: nat, i: nat)
    requires forall k :: 0 <= k < |models| ==> models[k].Valid()
    requires m < |models| && i < models[m].NSat()
    ensures var (at, uids) := (Start(Elems(models), m) + i, Planes(Uids(models), 0).0);
      && at < |uids|
      && |models[m].planeUid| == models[m].NSat()
      && (uids[at] >= 0 <==> models[m].planeUid[i] >= 0)
      && (models[m].planeUid[i] < 0 ==> uids[at] == models[m].planeUid[i])
  {
    SameStart(Uids(models), Elems(models), m);
    ConcatKeepsPlaneIdentity(Uids(models), m, i, m, i);
  }

  method Concat<Elem>(models: seq<Model<Elem>>) returns (r: Result<Model<Elem>>)
    requires forall m :: 0 <= m < |models| ==> models[m].Valid()
    ensures r.Err? <==> models == []
    ensures r.Ok? ==> r.value.Valid()
    ensures r.Ok? ==> r.value.planeUid == Planes(Uids(models), 0).0
    ensures r.Ok? ==> r.value.elems == Flat(Elems(models)) && r.value.slotId == Flat(Slots(models))
    ensures r.Ok? ==> r.value.epochS == Flat(Epochs(models)) && r.value.satId == Flat(Ids(models))
    ensures r.Ok? ==> r.value.shellId == Flat(Shells(models))
    ensures r.Ok? ==> forall m: nat, i: nat :: m < |models| && i < models[m].NSat() ==> Stacked(models, r.value, m, i)
    ensures r.Ok? ==> r.value.NSat() == Start(Elems(models), |models|)
  {
    if models == [] {
      return Err("concat needs at least one model");
    }
    var uids := PlaneParts(Uids(models));
    StackedLengths(models);
    var stack := Model(Flat(Elems(models)), uids, Flat(Slots(models)), Flat(Shells(models)),
                       Flat(Epochs(models)), Flat(Ids(models)));
    forall m: nat, i: nat | m < |models| && i < models[m].NSat()
      ensures Stacked(models, stack, m, i)
    {
      StackedAt(models, stack, m, i);
    }
    FlatSameLength(Elems(models), Elems(models));
    r := Ok(stack);
  }

  // Each model's known uids are offset past everything placed before them.
  method PlaneParts(parts: seq<seq<int>>) returns (uids: seq<int>)
    ensures uids == Planes(parts, 0).0
  {
    uids := [];
    var offset: nat := 0;
    for m := 0 to |parts|
      invariant (uids, offset) == Planes(parts[..m], 0)
    {
      assert parts[..m + 1][..m] == parts[..m];
      var pu := Shifted(parts[m], offset);
      MaxKnownBounds(pu);
      if exists i :: 0 <= i < |pu| && pu[i] >= 0 {
        offset := MaxKnown(pu) + 1;
      }
      uids := uids + pu;
    }
    assert parts[..|parts|] == parts;
  }

  // ---------- laws of concat ----------

  lemma {:induction false} PlanesLength(parts: seq<seq<int>>, offset: nat, m: nat)
    requires m <= |parts|
    ensures |Planes(parts[..m], offset).0| == Start(parts, m)
  {
    if m > 0 {
      assert parts[..m][..m - 1] == parts[..m - 1];
      PlanesLength(parts, offset, m - 1);
    }
  }

  lemma {:induction false} OffsetsGrow(parts: seq<seq<int>>, m: nat, n: nat)
    requires m <= n <= |parts|
    ensures OffsetOf(parts, m) <= OffsetOf(parts, n)
  {
    if m < n {
      OffsetsGrow(parts, m, n - 1);
      assert parts[..n][..n - 1] == parts[..n - 1];
      var offset := OffsetOf(parts, n - 1);
      MaxKnownBounds(parts[n - 1]);
      MaxKnownShifted(parts[n - 1], offset);
    }
  }

  // The uid satellite i of model m gets.
  function NewUid(parts: seq<seq<int>>, m: nat, i: nat): int
    requires m < |parts| && i < |parts[m]|
  {
    if parts[m][i] >= 0 then parts[m][i] + OffsetOf(parts, m) else parts[m][i]
  }

  lemma {:induction false} PlaneAt(parts: seq<seq<int>>, n: nat, m: nat, i: nat)
    requires m < n <= |parts| && i < |parts[m]|
    ensures var uids := Planes(parts[..n], 0).0;
      Start(parts, m) + i < |uids| && uids[Start(parts, m) + i] == NewUid(parts, m, i)
    decreases n
  {
    PlanesLength(parts, 0, n - 1);
    assert parts[..n][..n - 1] == parts[..n - 1];
    if m < n - 1 {
      PlaneAt(parts, n - 1, m, i);
    }
  }

  // A known uid lies between the offsets of its model and of the next one.
  lemma NewUidRange(parts: seq<seq<int>>, m: nat, i: nat)
    requires m < |parts| && i < |parts[m]|
    ensures NewUid(parts, m, i) < OffsetOf(parts, m + 1) || parts[m][i] < 0
    ensures parts[m][i] >= 0 ==> NewUid(parts, m, i) >= OffsetOf(parts, m)
  {
    assert parts[..m + 1][..m] == parts[..m];
    var part := Shifted(parts[m], OffsetOf(parts, m));
    MaxKnownBounds(part);
    assert part[i] <= MaxKnown(part);
  }

  lemma NewUidsDistinct(parts: seq<seq<int>>, m: nat, i: nat, n: nat, j: nat)
    requires m < n < |parts| && i < |parts[m]| && j < |parts[n]|
    requires parts[m][i] >= 0 && parts[n][j] >= 0
    ensures NewUid(parts, m, i) < NewUid(parts, n, j)
  {
    NewUidRange(parts, m, i);
    OffsetsGrow(parts, m + 1, n);
    NewUidRange(parts, n, j);
  }

  // Two satellites with known planes share a uid afterwards iff they come from the same model
  // and shared one before; unknown stays unknown.
  lemma ConcatKeepsPlaneIdentity(parts: seq<seq<int>>, m: nat, i: nat, n: nat, j: nat)
    requires m < |parts| && i < |parts[m]| && n < |parts| && j < |parts[n]|
    ensures var uids := Planes(parts, 0).0;
      && Start(parts, m) + i < |uids| && Start(parts, n) + j < |uids|
      && uids[Start(parts, m) + i] == NewUid(parts, m, i) && uids[Start(parts, n) + j] == NewUid(parts, n, j)
    ensures (NewUid(parts, m, i) >= 0 <==> parts[m][i] >= 0) && (parts[m][i] < 0 ==> NewUid(parts, m, i) == parts[m][i])
    ensures parts[m][i] >= 0 && parts[n][j] >= 0 ==>
      (NewUid(parts, m, i) == NewUid(parts, n, j) <==> m == n && parts[m][i] == parts[n][j])
  {
    assert parts[..|parts|] == parts;
    PlaneAt(parts, |parts|, m, i);
    PlaneAt(parts, |parts|, n, j);
    if parts[m][i] >= 0 && parts[n][j] >= 0 {
      if m < n {
        NewUidsDistinct(parts, m, i, n, j);
      } else if n < m {
        NewUidsDistinct(parts, n, j, m, i);
      }
    }
  }

  // So the different-plane verdict between two satellites of one model is unchanged, and between
  // models it holds whenever both planes are known.
  lemma ConcatKeepsPlaneVerdicts(parts: seq<seq<int>>, m: nat, i: nat, n: nat, j: nat)
    requires m < |parts| && i < |parts[m]| && n < |parts| && j < |parts[n]|
    ensures PlanesDiffer(Planes(parts, 0).0, Start(parts, m) + i, Start(parts, n) + j)
       <==> if m == n then PlanesDiffer(parts[m], i, j) else parts[m][i] >= 0 && parts[n][j] >= 0
  {
    ConcatKeepsPlaneIdentity(parts, m, i, n, j);
    ConcatKeepsPlaneIdentity(parts, n, j, m, i);
    PlanesAt(Planes(parts, 0).0, Start(parts, m) + i, Start(parts, n) + j);
    if m == n {
      PlanesAt(parts[m], i, j);
    }
  }

  lemma PlanesAt(uids: seq<int>, i: nat, j: nat)
    requires i < |uids| && j < |uids|
    ensures PlanesDiffer(uids, i, j) <==> uids[i] >= 0 && uids[j] >= 0 && uids[i] != uids[j]
  {
  }

  // ---------- nesting ----------

  lemma ShiftedTwice(uids: seq<int>, a: nat, b: nat)
    ensures Shifted(Shifted(uids, a), b) == Shifted(uids, a + b)
  {
  }

  // Starting higher shifts everything.
  lemma {:induction false} PlanesShifted(parts: seq<seq<int>>, offset: nat)
    ensures Planes(parts, offset).0 == Shifted(Planes(parts, 0).0, offset)
    ensures Planes(parts, offset).1 == Planes(parts, 0).1 + offset
    decreases |parts|
  {
    if parts != [] {
      var init, last := parts[..|parts| - 1], parts[|parts| - 1];
      PlanesShifted(init, offset);
      var next := Planes(init, 0).1;
      ShiftedTwice(last, next, offset);
      MaxKnownShifted(Shifted(last, next), offset);
    }
  }

  // The next free offset is one past the largest uid placed so far.
  lemma {:induction false} PlanesNext(parts: seq<seq<int>>)
    ensures var (uids, next) := Planes(parts, 0); next == MaxKnown(uids) + 1
    decreases |parts|
  {
    if parts != [] {
      var init, last := parts[..|parts| - 1], parts[|parts| - 1];
      var (uids, next) := Planes(init, 0);
      PlanesNext(init);
      MaxKnownBounds(last);
      MaxKnownShifted(last, next);
      MaxKnownBounds(uids);
      MaxKnownOfJoin(uids, Shifted(last, next));
    }
  }

  // A known uid is moved up by one more than the largest uid placed before its model.
  lemma NewUidExact(parts: seq<seq<int>>, m: nat, i: nat)
    requires m < |parts| && i < |parts[m]| && parts[m][i] >= 0
    ensures var (placed, offset) := (Planes(parts[..m], 0).0, NewUid(parts, m, i) - parts[m][i]);
      && (forall u :: u in placed ==> u < offset)
      && offset >= 0 && (offset > 0 ==> offset - 1 in placed)
  {
    PlanesNext(parts[..m]);
    MaxKnownBounds(Planes(parts[..m], 0).0);
  }

  lemma {:induction false} MaxKnownOfJoin(a: seq<int>, b: seq<int>)
    ensures MaxKnown(a + b) == Max(MaxKnown(a), MaxKnown(b))
    decreases |b|
  {
    MaxKnownBounds(a);
    if b == [] {
      assert a + b == a;
    } else {
      MaxKnownOfJoin(a, b[..|b| - 1]);
      assert (a + b)[..|a + b| - 1] == a + b[..|b| - 1];
    }
  }

  lemma {:induction false} PlanesOfJoin(a: seq<seq<int>>, b: seq<seq<int>>)
    ensures Planes(a + b, 0).0 == Planes(a, 0).0 + Planes(b, Planes(a, 0).1).0
    ensures Planes(a + b, 0).1 == Planes(b, Planes(a, 0).1).1
    decreases |b|
  {
    if b == [] {
      assert a + b == a;
    } else {
      PlanesOfJoin(a, b[..|b| - 1]);
      assert (a + b)[..|a + b| - 1] == a + b[..|b| - 1];
    }
  }

  // Two parts: the second starts past the largest uid of the first.
  lemma PlanesOfPair(a: seq<int>, b: seq<int>)
    ensures Planes([a, b], 0).0 == Shifted(a, 0) + Shifted(b, NextOffset(Shifted(a, 0), 0))
  {
    assert [a, b][..1] == [a] && [a][..0] == [];
    assert Planes([], 0) == ([], 0);
    assert Planes([a], 0) == ([] + Shifted(a, 0), NextOffset(Shifted(a, 0), 0));
  }

  // Nesting is associative on plane uids: concatenating two concatenations is concatenating all.
  lemma ConcatAssociative(a: seq<seq<int>>, b: seq<seq<int>>)
    ensures Planes([Planes(a, 0).0, Planes(b, 0).0], 0).0 == Planes(a + b, 0).0
  {
    var (ua, na) := Planes(a, 0);
    var ub := Planes(b, 0).0;
    PlanesOfPair(ua, ub);
    assert Shifted(ua, 0) == ua;
    PlanesNext(a);
    MaxKnownBounds(ua);
    assert NextOffset(ua, 0) == na;
    PlanesOfJoin(a, b);
    PlanesShifted(b, na);
  }
}
