// The planes x satellites-per-plane grid: which candidate is marked as the winner.
module ShapeSweep {
  import opened Options
  import opened Sums
  import opened Scenes
  import opened Sweep

  // A grid candidate; the winner is marked in place, through whichever list reaches it.
  class Candidate {
    const planes: int
    const spp: int
    const row: Row  // the grid itself does not report the mean availabilities
    const mbbPass: bool
    var isPareto: bool

    constructor (planes: int, spp: int, row: Row, grade: real)
      ensures this.planes == planes && this.spp == spp && this.row == row && !isPareto
      ensures mbbPass == (row.pctMbb.Some? && row.pctMbb.value >= grade)
    {
      this.planes, this.spp, this.row, isPareto := planes, spp, row, false;
      mbbPass := row.pctMbb.Some? && row.pctMbb.value >= grade;
    }

    // All levels meet the grade, and the handover gate does when it is on.
    predicate Passes(grade: real, gate: bool) {
      (forall x :: 0 <= x < |row.pct| ==> row.pct[x] >= grade) && (gate ==> mbbPass)
    }
  }

  // Fewer satellites, then fewer planes.
  predicate Cheaper(a: Candidate, b: Candidate) {
    a.row.n < b.row.n || (a.row.n == b.row.n && a.planes < b.planes)
  }

  // Every level meets the grade, and the MBB fraction does when the gate is on.
  ghost predicate Meets(c: Candidate, grade: real, gate: bool) {
    (forall x :: 0 <= x < |c.row.pct| ==> c.row.pct[x] >= grade) && (gate ==> c.mbbPass)
  }

  // Position i holds the winner: every other candidate that meets the grade has more satellites, or
  // as many and more planes, or as many of both and comes later.
  ghost predicate Wins(cands: seq<Candidate>, i: int, grade: real, gate: bool) {
    && 0 <= i < |cands| && Meets(cands[i], grade, gate)
    && forall j :: 0 <= j < |cands| && j != i && Meets(cands[j], grade, gate) ==>
         || cands[i].row.n < cands[j].row.n
         || (cands[i].row.n == cands[j].row.n && cands[i].planes < cands[j].planes)
         || (cands[i].row.n == cands[j].row.n && cands[i].planes == cands[j].planes && i < j)
  }

  // The stable sort of the winners by (N, planes).
  function Place(sorted: seq<Candidate>, c: Candidate): seq<Candidate> {
    if sorted == [] || !Cheaper(c, sorted[|sorted| - 1]) then sorted + [c]
    else Place(sorted[..|sorted| - 1], c) + [sorted[|sorted| - 1]]
  }

  lemma {:induction false} PlaceHead(sorted: seq<Candidate>, c: Candidate)
    requires forall x :: x in sorted ==> !Cheaper(x, sorted[0])
    ensures Place(sorted, c) != []
    ensures Place(sorted, c)[0] == if sorted != [] && !Cheaper(c, sorted[0]) then sorted[0] else c
    ensures forall x :: x in Place(sorted, c) <==> x in sorted || x == c
    ensures forall x :: x in Place(sorted, c) ==> !Cheaper(x, Place(sorted, c)[0])
    decreases |sorted|
  {
    if sorted != [] {
      assert sorted[|sorted| - 1] in sorted;
    }
    if sorted != [] && Cheaper(c, sorted[|sorted| - 1]) {
      var init := sorted[..|sorted| - 1];
      assert sorted == init + [sorted[|sorted| - 1]];
      PlaceHead(init, c);
    }
  }

  // Winners are collected, sorted by (N, planes), and the first one is marked.
  method MarkWinner(cands: seq<Candidate>, grade: real, gate: bool)
    requires forall i, j :: 0 <= i < j < |cands| ==> cands[i] != cands[j]
    requires forall i :: 0 <= i < |cands| ==> !cands[i].isPareto
    modifies set c | c in cands
    ensures forall i :: 0 <= i < |cands| ==> (cands[i].isPareto <==> Wins(cands, i, grade, gate))
  {
    var winners: seq<Candidate> := [];
    ghost var first := -1;
    for i := 0 to |cands|
      invariant unchanged(set c | c in cands)
      invariant forall c :: c in winners <==> exists j :: 0 <= j < i && cands[j] == c && Meets(c, grade, gate)
      invariant winners == [] <==> first == -1
      invariant winners != [] ==>
        && 0 <= first < i && winners[0] == cands[first] && Meets(winners[0], grade, gate)
        && (forall x :: x in winners ==> !Cheaper(x, winners[0]))
        && (forall j :: 0 <= j < first && Meets(cands[j], grade, gate) ==> Cheaper(winners[0], cands[j]))
    {
      if cands[i].Passes(grade, gate) {
        PlaceHead(winners, cands[i]);
        if winners == [] || Cheaper(cands[i], winners[0]) {
          first := i;
        }
        winners := Place(winners, cands[i]);
      }
    }
    if winners != [] {
      assert winners[0] in cands;
      winners[0].isPareto := true;
      assert Wins(cands, first, grade, gate);
    }
  }

  // As soon as any candidate passes there is a winner, and only one.
  lemma {:induction false} OneWinner(cands: seq<Candidate>, grade: real, gate: bool) returns (w: nat)
    requires exists i :: 0 <= i < |cands| && Meets(cands[i], grade, gate)
    ensures Wins(cands, w, grade, gate)
    ensures forall i :: Wins(cands, i, grade, gate) ==> i == w
    decreases |cands|
  {
    var init, last := cands[..|cands| - 1], |cands| - 1;
    if exists i :: 0 <= i < |init| && Meets(init[i], grade, gate) {
      w := OneWinner(init, grade, gate);
      if Meets(cands[last], grade, gate) && Cheaper(cands[last], cands[w]) {
        w := last;
      }
    } else {
      w := last;
    }
  }

  // ---------- the grid ----------

  // The shapes in the order they are run: all of the first plane count, then of the second, ...
  function Shapes(planesValues: seq<int>, spps: seq<int>): seq<(int, int)> {
    if planesValues == [] then []
    else Shapes(planesValues[..|planesValues| - 1], spps) + OneRow(planesValues[|planesValues| - 1], spps)
  }

  function OneRow(planes: int, spps: seq<int>): (row: seq<(int, int)>)
    ensures |row| == |spps| && forall b :: 0 <= b < |spps| ==> row[b] == (planes, spps[b])
  {
    seq(|spps|, b requires 0 <= b < |spps| => (planes, spps[b]))
  }

  lemma OneMore(n: int, m: int)
    ensures (n + 1) * m == n * m + m
  {
  }

  lemma {:induction false} ShapeCount(planesValues: seq<int>, spps: seq<int>)
    ensures |Shapes(planesValues, spps)| == |planesValues| * |spps|
    decreases |planesValues|
  {
    if planesValues != [] {
      ShapeCount(planesValues[..|planesValues| - 1], spps);
      OneMore(|planesValues| - 1, |spps|);
    }
  }

  // The a-th plane count with the b-th number of satellites per plane is run as number a * |spps| + b.
  lemma {:induction false} ShapeAt(planesValues: seq<int>, spps: seq<int>, a: nat, b: nat)
    requires a < |planesValues| && b < |spps|
    ensures a * |spps| + b < |Shapes(planesValues, spps)|
    ensures Shapes(planesValues, spps)[a * |spps| + b] == (planesValues[a], spps[b])
    decreases |planesValues|
  {
    var init, last := planesValues[..|planesValues| - 1], planesValues[|planesValues| - 1];
    ShapeCount(init, spps);
    if a < |init| {
      ShapeAt(init, spps, a, b);
    }
  }

  // From position at on, the list runs one plane count with every number of satellites per plane.
  ghost predicate HoldsRow(shapes: seq<(int, int)>, at: nat, planes: int, spps: seq<int>) {
    at + |spps| <= |shapes| && shapes[at..at + |spps|] == OneRow(planes, spps)
  }

  lemma RowEntry(shapes: seq<(int, int)>, at: nat, planes: int, spps: seq<int>, b: nat)
    requires HoldsRow(shapes, at, planes, spps) && b < |spps|
    ensures shapes[at + b] == (planes, spps[b])
  {
    assert shapes[at..at + |spps|][b] == OneRow(planes, spps)[b];
  }

  lemma {:induction false} ShapesPrefix(planesValues: seq<int>, spps: seq<int>, a: nat)
    requires a < |planesValues|
    ensures HoldsRow(Shapes(planesValues, spps), |Shapes(planesValues[..a], spps)|, planesValues[a], spps)
    ensures Shapes(planesValues[..a + 1], spps) == Shapes(planesValues[..a], spps) + OneRow(planesValues[a], spps)
    decreases |planesValues|
  {
    var init := planesValues[..|planesValues| - 1];
    assert planesValues[..a + 1][..a] == planesValues[..a];
    if a < |init| {
      assert init[..a] == planesValues[..a];
      ShapesPrefix(init, spps, a);
    }
  }

  // The row of one shape.
  ghost predicate ShapeMeasured<Cell, Key>(st: Setting<Cell, Key>, sceneOf: (int, int) -> Scene, shape: (int, int),
                                           row: Row)
  {
    && Runnable(st, sceneOf(shape.0, shape.1)) && row.n == shape.0 * shape.1
    && RowMeasured(st, sceneOf(shape.0, shape.1), row.n, row)
  }

  ghost function ShapeRelation<Cell, Key>(st: Setting<Cell, Key>, sceneOf: (int, int) -> Scene)
    : ((int, int), Row) -> bool
  {
    (shape, row) => ShapeMeasured(st, sceneOf, shape, row)
  }

  // rel holds of every row measured on its shape.
  ghost predicate AcceptsRows<Cell, Key>(rel: ((int, int), Row) -> bool, st: Setting<Cell, Key>,
                                         sceneOf: (int, int) -> Scene)
  {
    forall shape, row :: ShapeMeasured(st, sceneOf, shape, row) ==> rel(shape, row)
  }

  // The candidate carries its shape, and its gate is decided by its own MBB fraction.
  ghost predicate Tagged(shape: (int, int), grade: real, c: Candidate) {
    && c.planes == shape.0 && c.spp == shape.1
    && (c.mbbPass <==> c.row.pctMbb.Some? && c.row.pctMbb.value >= grade)
  }

  ghost predicate Measured<Cell, Key>(st: Setting<Cell, Key>, sceneOf: (int, int) -> Scene, grade: real,
                                      shape: (int, int), c: Candidate)
  {
    Tagged(shape, grade, c) && ShapeMeasured(st, sceneOf, shape, c.row)
  }

  ghost predicate AllRunnable<Cell, Key>(st: Setting<Cell, Key>, shapes: seq<(int, int)>,
                                         sceneOf: (int, int) -> Scene) {
    forall i :: 0 <= i < |shapes| ==> Runnable(st, sceneOf(shapes[i].0, shapes[i].1))
  }

  function Rows(cands: seq<Candidate>): (rows: seq<Row>)
    ensures |rows| == |cands|
  {
    seq(|cands|, i requires 0 <= i < |cands| => cands[i].row)
  }

  // The candidates of the first shapes, in order, all different and still unmarked.
  ghost predicate Collected(shapes: seq<(int, int)>, grade: real, cands: seq<Candidate>)
    reads set c | c in cands
  {
    && |cands| <= |shapes|
    && (forall i :: 0 <= i < |cands| ==> Tagged(shapes[i], grade, cands[i]))
    && (forall i :: 0 <= i < |cands| ==> !cands[i].isPareto)
    && (forall i, j :: 0 <= i < j < |cands| ==> cands[i] != cands[j])
  }

  ghost predicate ShapeFails<Cell, Key>(st: Setting<Cell, Key>, sceneOf: (int, int) -> Scene, shape: (int, int)) {
    RunFails(st, sceneOf(shape.0, shape.1))
  }

  ghost predicate SomeShapeFails<Cell, Key>(st: Setting<Cell, Key>, shapes: seq<(int, int)>,
                                            sceneOf: (int, int) -> Scene) {
    exists i :: 0 <= i < |shapes| && ShapeFails(st, sceneOf, shapes[i])
  }

  lemma OneMoreCollected(shapes: seq<(int, int)>, grade: real, cands: seq<Candidate>, c: Candidate)
    requires Collected(shapes, grade, cands) && |cands| < |shapes|
    requires Tagged(shapes[|cands|], grade, c) && !c.isPareto && c !in cands
    ensures Collected(shapes, grade, cands + [c]) && Rows(cands + [c]) == Rows(cands) + [c.row]
  {
  }

  // Measures shape i; rel is whatever the caller wants to know of a measured row.
  method MeasureShape<Cell, Key(==,!new)>(st: Setting<Cell, Key>, ghost shapes: seq<(int, int)>, ghost i: nat,
                                         planes: int, spp: int, sceneOf: (int, int) -> Scene,
                                         ghost rel: ((int, int), Row) -> bool)
    returns (r: Result<Row>)
    requires AllRunnable(st, shapes, sceneOf) && i < |shapes| && shapes[i] == (planes, spp)
    requires AcceptsRows(rel, st, sceneOf)
    ensures r.Err? ==> SomeShapeFails(st, shapes, sceneOf)
    ensures r.Ok? ==> rel(shapes[i], r.value)
  {
    assert Runnable(st, sceneOf(shapes[i].0, shapes[i].1));
    r := Measure(st, sceneOf(planes, spp), planes * spp);
    assert r.Err? ==> ShapeFails(st, sceneOf, shapes[i]);
    assert r.Ok? ==> ShapeMeasured(st, sceneOf, shapes[i], r.value);
  }

  // Measures the next shape of the grid and adds its candidate.
  method AddCandidate<Cell, Key(==,!new)>(st: Setting<Cell, Key>, ghost shapes: seq<(int, int)>, planes: int, spp: int,
                                         sceneOf: (int, int) -> Scene, grade: real, cands: seq<Candidate>,
                                         ghost rel: ((int, int), Row) -> bool)
    returns (r: Result<seq<Candidate>>)
    requires AllRunnable(st, shapes, sceneOf) && AcceptsRows(rel, st, sceneOf)
    requires Collected(shapes, grade, cands) && Related(rel, shapes, Rows(cands))
    requires |cands| < |shapes| && shapes[|cands|] == (planes, spp)
    ensures r.Err? ==> SomeShapeFails(st, shapes, sceneOf)
    ensures r.Ok? ==> |r.value| == |cands| + 1 && Related(rel, shapes, Rows(r.value))
    ensures r.Ok? ==> Collected(shapes, grade, r.value) && forall c :: c in r.value ==> c in cands || fresh(c)
  {
    var row :- MeasureShape(st, shapes, |cands|, planes, spp, sceneOf, rel);
    var cand := new Candidate(planes, spp, row, grade);
    OneMoreCollected(shapes, grade, cands, cand);
    OneMoreRelated(rel, shapes, Rows(cands), row);
    r := Ok(cands + [cand]);
  }

  // Measures the shapes of one plane count, from position |cands| of the grid on.
  method MeasurePlanes<Cell, Key(==,!new)>(st: Setting<Cell, Key>, ghost shapes: seq<(int, int)>, planes: int,
                                          spps: seq<int>, sceneOf: (int, int) -> Scene, grade: real,
                                          cands: seq<Candidate>, ghost rel: ((int, int), Row) -> bool)
    returns (r: Result<seq<Candidate>>)
    requires AllRunnable(st, shapes, sceneOf) && AcceptsRows(rel, st, sceneOf)
    requires Collected(shapes, grade, cands) && Related(rel, shapes, Rows(cands))
    requires HoldsRow(shapes, |cands|, planes, spps)
    ensures r.Err? ==> SomeShapeFails(st, shapes, sceneOf)
    ensures r.Ok? ==> |r.value| == |cands| + |spps| && Related(rel, shapes, Rows(r.value))
    ensures r.Ok? ==> Collected(shapes, grade, r.value) && forall c :: c in r.value ==> c in cands || fresh(c)
  {
    var more := cands;
    for b := 0 to |spps|
      invariant |more| == |cands| + b && Related(rel, shapes, Rows(more))
      invariant Collected(shapes, grade, more) && forall c :: c in more ==> c in cands || fresh(c)
    {
      RowEntry(shapes, |cands|, planes, spps, b);
      more :- AddCandidate(st, shapes, planes, spps[b], sceneOf, grade, more, rel);
    }
    r := Ok(more);
  }

  // The whole grid, plane count by plane count.
  method MeasureShapes<Cell, Key(==,!new)>(st: Setting<Cell, Key>, planesValues: seq<int>, spps: seq<int>,
                                          sceneOf: (int, int) -> Scene, grade: real,
                                          ghost rel: ((int, int), Row) -> bool)
    returns (r: Result<seq<Candidate>>)
    requires AllRunnable(st, Shapes(planesValues, spps), sceneOf) && AcceptsRows(rel, st, sceneOf)
    ensures r.Err? ==> SomeShapeFails(st, Shapes(planesValues, spps), sceneOf)
    ensures r.Ok? ==> |r.value| == |Shapes(planesValues, spps)| && forall c :: c in r.value ==> fresh(c)
    ensures r.Ok? ==> Collected(Shapes(planesValues, spps), grade, r.value)
    ensures r.Ok? ==> Related(rel, Shapes(planesValues, spps), Rows(r.value))
  {
    ghost var shapes := Shapes(planesValues, spps);
    var cands: seq<Candidate> := [];
    for a := 0 to |planesValues|
      invariant |cands| == |Shapes(planesValues[..a], spps)| && forall c :: c in cands ==> fresh(c)
      invariant Collected(shapes, grade, cands) && Related(rel, shapes, Rows(cands))
    {
      ShapesPrefix(planesValues, spps, a);
      cands :- MeasurePlanes(st, shapes, planesValues[a], spps, sceneOf, grade, cands, rel);
    }
    assert planesValues[..|planesValues|] == planesValues;
    r := Ok(cands);
  }

  lemma RelatedMeasuredShapes<Cell, Key>(st: Setting<Cell, Key>, shapes: seq<(int, int)>,
                                         sceneOf: (int, int) -> Scene, rows: seq<Row>)
    requires Related(ShapeRelation(st, sceneOf), shapes, rows) && |rows| == |shapes|
    ensures !SomeShapeFails(st, shapes, sceneOf)
    ensures forall i :: 0 <= i < |rows| ==> ShapeMeasured(st, sceneOf, shapes[i], rows[i])
    ensures forall i :: 0 <= i < |rows| ==>
      RowOrdered(rows[i], st.ks, st.target) && (rows[i].pctMbb.Some? <==> st.overlapS.Some?)
  {
    forall i | 0 <= i < |shapes|
      ensures !ShapeFails(st, sceneOf, shapes[i]) && ShapeMeasured(st, sceneOf, shapes[i], rows[i])
      ensures RowOrdered(rows[i], st.ks, st.target) && (rows[i].pctMbb.Some? <==> st.overlapS.Some?)
    {
      assert ShapeRelation(st, sceneOf)(shapes[i], rows[i]);
    }
  }

  method MeasureGrid<Cell, Key(==,!new)>(st: Setting<Cell, Key>, planesValues: seq<int>, spps: seq<int>,
                                        sceneOf: (int, int) -> Scene, grade: real)
    returns (r: Result<seq<Candidate>>)
    requires AllRunnable(st, Shapes(planesValues, spps), sceneOf)
    ensures r.Err? <==> SomeShapeFails(st, Shapes(planesValues, spps), sceneOf)
    ensures r.Ok? ==> |r.value| == |Shapes(planesValues, spps)| && forall c :: c in r.value ==> fresh(c)
    ensures r.Ok? ==> Collected(Shapes(planesValues, spps), grade, r.value)
    ensures r.Ok? ==> forall i :: 0 <= i < |r.value| ==>
      ShapeMeasured(st, sceneOf, Shapes(planesValues, spps)[i], r.value[i].row)
    ensures r.Ok? ==> forall i :: 0 <= i < |r.value| ==>
      RowOrdered(r.value[i].row, st.ks, st.target) && (r.value[i].row.pctMbb.Some? <==> st.overlapS.Some?)
  {
    var cands :- MeasureShapes(st, planesValues, spps, sceneOf, grade, ShapeRelation(st, sceneOf));
    RelatedMeasuredShapes(st, Shapes(planesValues, spps), sceneOf, Rows(cands));
    forall i | 0 <= i < |cands|
      ensures ShapeMeasured(st, sceneOf, Shapes(planesValues, spps)[i], cands[i].row)
      ensures RowOrdered(cands[i].row, st.ks, st.target) && (cands[i].row.pctMbb.Some? <==> st.overlapS.Some?)
    {
      assert Rows(cands)[i] == cands[i].row;
    }
    r := Ok(cands);
  }

  datatype GridResult = GridResult(candidates: seq<Candidate>, minNByK: seq<Option<int>>, minNMbb: Option<int>)

  // Every shape of the grid is measured, in order, and the winner marked; oversized grids are
  // refused before anything runs.
  method MultiShapeSweep<Cell, Key(==,!new)>(st: Setting<Cell, Key>, planesValues: seq<int>, spps: seq<int>,
                                            sceneOf: (int, int) -> Scene, grade: real, maxGridCells: int)
    returns (r: Result<GridResult>)
    requires AllRunnable(st, Shapes(planesValues, spps), sceneOf)
    ensures r.Err? <==>
      |planesValues| * |spps| > maxGridCells || SomeShapeFails(st, Shapes(planesValues, spps), sceneOf)
    ensures r.Ok? ==> |r.value.candidates| == |Shapes(planesValues, spps)|
    ensures r.Ok? ==> forall i :: 0 <= i < |r.value.candidates| ==>
      Measured(st, sceneOf, grade, Shapes(planesValues, spps)[i], r.value.candidates[i])
    ensures r.Ok? ==> forall i :: 0 <= i < |r.value.candidates| ==>
      (r.value.candidates[i].isPareto <==> Wins(r.value.candidates, i, grade, st.overlapS.Some?))
    ensures r.Ok? ==> Minimal(SweepResult(Rows(r.value.candidates), r.value.minNByK, r.value.minNMbb),
                              |st.ks|, grade, st.overlapS.Some?)
    ensures r.Ok? ==> forall x, y :: 0 <= x < |st.ks| && 0 <= y < |st.ks| && st.ks[x] <= st.ks[y] ==>
      NoLarger(r.value.minNByK[x], r.value.minNByK[y])
    ensures r.Ok? && st.overlapS.Some? && st.target <= 1.0 ==>
      forall x :: 0 <= x < |st.ks| && st.ks[x] == 1 ==> NoLarger(r.value.minNByK[x], r.value.minNMbb)
  {
    if |planesValues| * |spps| > maxGridCells {
      return Err("grid exceeds max_grid_cells");
    }
    var cands :- MeasureGrid(st, planesValues, spps, sceneOf, grade);
    MarkWinner(cands, grade, st.overlapS.Some?);
    var summary := Summarize(Rows(cands), |st.ks|, grade, st.overlapS.Some?);
    MinimumSizesOrdered(summary, st.ks, st.target, grade, st.overlapS.Some?);
    r := Ok(GridResult(cands, summary.minNByK, summary.minNMbb));
  }
}
