// What the coverage kernel sees of the geometry: elevations, azimuths, an optional terrain
// skyline and the nearness test of the satellite pre-filter, all arbitrary functions.
module Scenes {
  import opened Options
  import opened Visibility
  import opened SatelliteSubset

  // horizon: per cell, the skyline elevation of each azimuth bin
  datatype Scene = Scene(
    nTime: nat,
    nSat: nat,
    planes: seq<int>,
    minElev: real,
    elev: (nat, nat, nat) -> real,
    az: (nat, nat, nat) -> real,
    horizon: Option<seq<seq<real>>>,
    near: (nat, nat, nat) -> bool)
  {
    ghost predicate Valid(nCell: nat) {
      && |planes| == nSat
      && (horizon.Some? ==> |horizon.value| == nCell)
      && (horizon.Some? ==> forall c :: 0 <= c < nCell ==> horizon.value[c] != [])
    }

    // Azimuth bin, clipped into the table.
    function AzimuthBin(c: nat, t: nat, s: nat, nBins: nat): nat
      requires nBins > 0
    {
      var bin := (az(c, t, s) * nBins as real / 360.0).Floor;
      Min(Max(bin, 0), nBins - 1)
    }

    function MinElevation(c: nat, t: nat, s: nat): real
      requires horizon.Some? ==> c < |horizon.value| && horizon.value[c] != []
    {
      if horizon.None? then minElev else
        var skyline := horizon.value[c][AzimuthBin(c, t, s, |horizon.value[c]|)];
        if minElev >= skyline then minElev else skyline
    }

    function CellGrid(c: nat): Grid
      requires horizon.Some? ==> c < |horizon.value| && horizon.value[c] != []
    {
      Table(seq(nTime, t requires 0 <= t < nTime =>
                  seq(nSat, s requires 0 <= s < nSat => elev(c, t, s) >= MinElevation(c, t, s))), nSat)
    }

    // Bin b of the cell's skyline spans the azimuth.
    predicate InBin(c: nat, t: nat, s: nat, nBins: nat, b: nat) {
      b < nBins && b as real * 360.0 <= az(c, t, s) * nBins as real < (b + 1) as real * 360.0
    }

    // Azimuths outside every bin fall into the nearest one.
    lemma AzimuthBinSpans(c: nat, t: nat, s: nat, nBins: nat, b: nat)
      requires nBins > 0
      ensures InBin(c, t, s, nBins, b) ==> AzimuthBin(c, t, s, nBins) == b
      ensures az(c, t, s) < 0.0 ==> AzimuthBin(c, t, s, nBins) == 0
      ensures az(c, t, s) >= 360.0 ==> AzimuthBin(c, t, s, nBins) == nBins - 1
    {
      var x, n := az(c, t, s), nBins as real;
      if x < 0.0 {
        ScaleBelow(x, 0.0, n);
      } else if x >= 360.0 {
        ScaleBelow(360.0, x, n);
      }
    }

    lemma ScaleBelow(x: real, y: real, n: real)
      requires x <= y && n > 0.0
      ensures x * n <= y * n && (x < y ==> x * n < y * n)
    {
      assert (y - x) * n >= 0.0;
    }

    // A satellite is in view exactly when it is at or above the minimum elevation and, with terrain,
    // at or above the skyline of the bin that spans its azimuth.
    lemma InViewAboveSkyline(c: nat, t: nat, s: nat)
      requires horizon.Some? ==> c < |horizon.value| && horizon.value[c] != []
      ensures horizon.None? ==>
        (InView(CellGrid(c), t, s) <==> t < nTime && s < nSat && elev(c, t, s) >= minElev)
      ensures horizon.Some? ==> forall b: nat :: InBin(c, t, s, |horizon.value[c]|, b) ==>
        (InView(CellGrid(c), t, s) <==>
           t < nTime && s < nSat && elev(c, t, s) >= minElev && elev(c, t, s) >= horizon.value[c][b])
    {
      if horizon.Some? {
        forall b: nat | InBin(c, t, s, |horizon.value[c]|, b)
          ensures AzimuthBin(c, t, s, |horizon.value[c]|) == b
        {
          AzimuthBinSpans(c, t, s, |horizon.value[c]|, b);
        }
      }
    }

    // The pre-filter is a superset: a satellite in view of a cell passes the nearness test there.
    ghost predicate PrefilterSound(nCell: nat)
      requires Valid(nCell)
    {
      forall c: nat, t: nat, s: nat :: c < nCell && InView(CellGrid(c), t, s) ==> near(c, t, s)
    }

    predicate Relevant(cidx: seq<nat>, s: nat) {
      exists i, t: nat :: 0 <= i < |cidx| && t < nTime && near(cidx[i], t, s)
    }

    // The relevant satellites below m.
    function RelevantTo(cidx: seq<nat>, m: nat): (r: seq<nat>)
      ensures forall s: nat :: s in r <==>
        s < m && exists i, t: nat :: 0 <= i < |cidx| && t < nTime && near(cidx[i], t, s)
      ensures Ascending(r)
    {
      if m == 0 then [] else
        var r := RelevantTo(cidx, m - 1);
        assert forall i :: 0 <= i < |r| ==> r[i] in r;
        if Relevant(cidx, m - 1) then r + [m - 1] else r
    }

    // The satellites a shard keeps: all of them when not sharding.
    function ShardSats(sharded: bool, cidx: seq<nat>): (r: seq<nat>)
      ensures Ascending(r) && forall i :: 0 <= i < |r| ==> r[i] < nSat
      ensures !sharded ==> |r| == nSat
      ensures sharded ==> forall s: nat :: s in r <==>
        s < nSat && exists i, t: nat :: 0 <= i < |cidx| && t < nTime && near(cidx[i], t, s)
    {
      if sharded then
        var r := RelevantTo(cidx, nSat);
        assert forall i :: 0 <= i < |r| ==> r[i] in r;
        r
      else seq(nSat, s requires 0 <= s < nSat => s)
    }

    lemma ShardKeepsSeen(nCell: nat, sharded: bool, cidx: seq<nat>, c: nat)
      requires Valid(nCell) && PrefilterSound(nCell) && c in cidx && c < nCell
      ensures KeepsSeen(CellGrid(c), ShardSats(sharded, cidx))
    {
      var g, r := CellGrid(c), ShardSats(sharded, cidx);
      forall t: nat, s: nat | InView(g, t, s)
        ensures s in r
      {
        if sharded {
          assert near(c, t, s);
          var i :| 0 <= i < |cidx| && cidx[i] == c;
          assert Relevant(cidx, s);
        } else {
          assert r[s] == s;
        }
      }
    }
  }
}
