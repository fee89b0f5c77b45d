/** The contiguous shard of a checkpoint's trajectory list that each rank loads. */
module CheckpointShards {
  import opened Sequences
  import opened Arithmetic

  function ShardStart(total: nat, rank: nat, world: nat): nat
    requires world > 0
  {
    rank * (total / world) + Min(rank, total % world)
  }

  function ShardSize(total: nat, rank: nat, world: nat): nat
    requires world > 0
  {
    total / world + if rank < total % world then 1 else 0
  }

  /** Each shard ends where the next starts, and the last one at the end of the list. */
  lemma ShardsMeet(total: nat, rank: nat, world: nat)
    requires world > 0 && rank < world
    ensures ShardStart(total, rank + 1, world) == ShardStart(total, rank, world) + ShardSize(total, rank, world)
    ensures ShardStart(total, world, world) == total
  {
    var q := total / world;
    assert (rank + 1) * q == rank * q + q;
    assert total == world * q + total % world;
  }

  lemma {:induction false} ShardFits(total: nat, rank: nat, world: nat)
    requires world > 0 && rank <= world
    ensures ShardStart(total, rank, world) <= total
    decreases world - rank
  {
    if rank < world {
      ShardFits(total, rank + 1, world);
      ShardsMeet(total, rank, world);
    } else {
      ShardsMeet(total, world - 1, world);
    }
  }

  function Shard(ids: seq<nat>, rank: nat, world: nat): (s: seq<nat>)
    requires rank < world
    ensures |s| == ShardSize(|ids|, rank, world)
  {
    ShardsMeet(|ids|, rank, world);
    ShardFits(|ids|, rank + 1, world);
    ids[ShardStart(|ids|, rank, world)..ShardStart(|ids|, rank, world) + ShardSize(|ids|, rank, world)]
  }

  function FirstShards(ids: seq<nat>, count: nat, world: nat): (shards: seq<seq<nat>>)
    requires count <= world
    ensures |shards| == count && forall r :: 0 <= r < count ==> shards[r] == Shard(ids, r, world)
  {
    seq(count, r requires 0 <= r < count => Shard(ids, r, world))
  }

  lemma {:induction false} FirstShardsCover(ids: seq<nat>, count: nat, world: nat)
    requires count <= world && world > 0
    ensures ShardStart(|ids|, count, world) <= |ids|
    ensures Flatten<nat>(FirstShards(ids, count, world)) == ids[..ShardStart(|ids|, count, world)]
  {
    ShardFits(|ids|, count, world);
    if count > 0 {
      var before := FirstShards(ids, count - 1, world);
      FirstShardsCover(ids, count - 1, world);
      ShardsMeet(|ids|, count - 1, world);
      assert FirstShards(ids, count, world) == before + [Shard(ids, count - 1, world)];
      FlattenConcat<nat>(before, [Shard(ids, count - 1, world)]);
      assert Flatten<nat>([Shard(ids, count - 1, world)]) == Shard(ids, count - 1, world);
    }
  }

  /** All ranks together load the whole list, each trajectory once and in order, and no two
      ranks' shards differ by more than one trajectory, the longer ones coming first. */
  lemma ShardsPartition(ids: seq<nat>, world: nat)
    requires world > 0
    ensures Flatten<nat>(FirstShards(ids, world, world)) == ids
    ensures forall r, t :: 0 <= r < world && 0 <= t < world ==> |Shard(ids, r, world)| <= |Shard(ids, t, world)| + 1
    ensures forall r, t :: 0 <= r <= t < world ==> |Shard(ids, r, world)| >= |Shard(ids, t, world)|
  {
    FirstShardsCover(ids, world, world);
    ShardsMeet(|ids|, world - 1, world);
  }
}
