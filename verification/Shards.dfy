// Single-owner partition of the cells into shards.
module Shards {
  import opened Options

  // Insertion-ordered dictionary from shard key to the indices of its cells.
  datatype Groups<Key> = Groups(keys: seq<Key>, members: map<Key, seq<nat>>)

  function ShardList<Key>(groups: Groups<Key>): seq<seq<nat>>
    requires forall x :: 0 <= x < |groups.keys| ==> groups.keys[x] in groups.members
  {
    seq(|groups.keys|, x requires 0 <= x < |groups.keys| => groups.members[groups.keys[x]])
  }

  ghost predicate Distinct(s: seq<nat>) {
    forall i, j :: 0 <= i < j < |s| ==> s[i] != s[j]
  }

  // 0, 1, ..., n - 1
  function Range(n: nat): (r: seq<nat>)
    ensures Distinct(r) && forall i: nat :: i in r <==> i < n
  {
    if n == 0 then [] else
      var r := Range(n - 1);
      assert forall i :: 0 <= i < |r| ==> r[i] in r;
      r + [n - 1]
  }

  // Shard x owns cell c.
  predicate Owns(shards: seq<seq<nat>>, x: int, c: nat) {
    0 <= x < |shards| && c in shards[x]
  }

  ghost predicate Owned(shards: seq<seq<nat>>, c: nat) {
    exists x :: Owns(shards, x, c)
  }

  // Every cell below nCell is in exactly one shard, once.
  ghost predicate Partition(shards: seq<seq<nat>>, nCell: nat) {
    && (forall x :: 0 <= x < |shards| ==> Distinct(shards[x]))
    && (forall x, c: nat :: Owns(shards, x, c) ==> c < nCell)
    && (forall x, y, c: nat :: Owns(shards, x, c) && Owns(shards, y, c) ==> x == y)
    && (forall c: nat :: c < nCell ==> Owned(shards, c))
  }

  // Positions below n that hold key k, ascending.
  function Positions<Key(==)>(shardOf: seq<Key>, k: Key, n: nat): (r: seq<nat>)
    requires n <= |shardOf|
    ensures forall i: nat :: i in r <==> i < n && shardOf[i] == k
    ensures Distinct(r)
  {
    if n == 0 then [] else
      var r := Positions(shardOf, k, n - 1);
      assert forall i :: 0 <= i < |r| ==> r[i] in r;
      if shardOf[n - 1] == k then r + [n - 1] else r
  }

  // The groups of the first n cells: one key per parent seen, holding its positions.
  ghost predicate Grouped<Key(!new)>(groups: Groups<Key>, shardOf: seq<Key>, n: nat)
    requires n <= |shardOf|
  {
    && (forall x, y :: 0 <= x < y < |groups.keys| ==> groups.keys[x] != groups.keys[y])
    && (forall k :: k in groups.keys <==> k in groups.members)
    && (forall k :: k in groups.members ==> groups.members[k] == Positions(shardOf, k, n))
    && (forall i :: 0 <= i < n ==> shardOf[i] in groups.members)
    && (forall k :: k !in groups.members ==> Positions(shardOf, k, n) == [])
  }

  // setdefault(s, []).append(i)
  function Appended<Key(==)>(groups: Groups<Key>, s: Key, i: nat): Groups<Key>
    requires s in groups.keys ==> s in groups.members
  {
    if s in groups.keys then Groups(groups.keys, groups.members[s := groups.members[s] + [i]])
    else Groups(groups.keys + [s], groups.members[s := [i]])
  }

  lemma PositionsStep<Key>(shardOf: seq<Key>, k: Key, i: nat)
    requires i < |shardOf|
    ensures Positions(shardOf, k, i + 1)
         == if shardOf[i] == k then Positions(shardOf, k, i) + [i] else Positions(shardOf, k, i)
  {
  }

  lemma AppendedGrouped<Key(!new)>(groups: Groups<Key>, shardOf: seq<Key>, i: nat)
    requires i < |shardOf| && Grouped(groups, shardOf, i)
    ensures Grouped(Appended(groups, shardOf[i], i), shardOf, i + 1)
  {
    var s, groups' := shardOf[i], Appended(groups, shardOf[i], i);
    forall k
      ensures k in groups'.keys <==> k in groups'.members
      ensures k in groups'.members ==> groups'.members[k] == Positions(shardOf, k, i + 1)
      ensures k !in groups'.members ==> Positions(shardOf, k, i + 1) == []
    {
      assert k in groups.keys <==> k in groups.members;
      PositionsStep(shardOf, k, i);
    }
  }

  // shard_of is the parent of each cell; groups collect the indices per parent, in order.
  method AssignShards<Cell, Key(==,!new)>(cells: seq<Cell>, shardRes: int,
                                         resolution: Cell -> int, parent: (Cell, int) -> Key)
    returns (r: Result<(Groups<Key>, seq<Key>)>)
    ensures r.Err? <==> cells != [] && shardRes > resolution(cells[0])
    ensures r.Ok? ==> var (groups, shardOf) := r.value;
      && |shardOf| == |cells| && (forall i :: 0 <= i < |cells| ==> shardOf[i] == parent(cells[i], shardRes))
      && Grouped(groups, shardOf, |cells|)
  {
    if cells != [] && shardRes > resolution(cells[0]) {
      return Err("shard_res must be <= cell resolution (parent is coarser)");
    }
    var shardOf := seq(|cells|, i requires 0 <= i < |cells| => parent(cells[i], shardRes));
    var groups: Groups<Key> := Groups([], map[]);
    for i := 0 to |shardOf|
      invariant Grouped(groups, shardOf, i)
    {
      AppendedGrouped(groups, shardOf, i);
      groups := Appended(groups, shardOf[i], i);
    }
    r := Ok((groups, shardOf));
  }

  // The groups own every cell exactly once.
  lemma GroupsPartition<Key(!new)>(groups: Groups<Key>, shardOf: seq<Key>)
    requires Grouped(groups, shardOf, |shardOf|)
    ensures Partition(ShardList(groups), |shardOf|)
  {
    var shards := ShardList(groups);
    assert forall x :: 0 <= x < |shards| ==> shards[x] == Positions(shardOf, groups.keys[x], |shardOf|);
    forall c: nat | c < |shardOf|
      ensures Owned(shards, c)
    {
      assert shardOf[c] in groups.keys;
      var x :| 0 <= x < |groups.keys| && groups.keys[x] == shardOf[c];
      assert Owns(shards, x, c);
    }
  }
}
