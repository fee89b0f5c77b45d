/**
 Chunked rollouts come as chunk, environment, step of the chunk; the advantage code wants one
 row per step. What the flattening before and the unflattening after it do to the indices.
 */
module ChunkLayout {
  import opened Arithmetic

  /** chunks x environments x steps of a chunk. */
  ghost predicate Shape<T>(x: seq<seq<seq<T>>>, chunks: nat, envs: nat, size: nat) {
    && |x| == chunks
    && forall k :: 0 <= k < chunks ==> |x[k]| == envs && forall b :: 0 <= b < envs ==> |x[k][b]| == size
  }

  /** steps x environments. */
  ghost predicate FlatShape<T>(y: seq<seq<T>>, steps: nat, envs: nat) {
    |y| == steps && forall s :: 0 <= s < steps ==> |y[s]| == envs
  }

  function Steps(chunks: nat, size: nat): nat {
    chunks * size
  }

  function ChunkOf(s: nat, size: nat): nat
    requires size > 0
  {
    s / size
  }

  function StepOf(s: nat, size: nat): (j: nat)
    requires size > 0
    ensures j < size
  {
    s % size
  }

  lemma StepParts(s: nat, chunks: nat, size: nat)
    requires size > 0 && s < Steps(chunks, size)
    ensures ChunkOf(s, size) < chunks && s == Steps(ChunkOf(s, size), size) + StepOf(s, size)
  {
    assert s == (s / size) * size + s % size;
    ProductOrder(s / size, chunks, size);
  }

  lemma PartsStep(k: nat, j: nat, chunks: nat, size: nat)
    requires size > 0 && k < chunks && j < size
    ensures Steps(k, size) + j < Steps(chunks, size)
    ensures ChunkOf(Steps(k, size) + j, size) == k && StepOf(Steps(k, size) + j, size) == j
  {
    MulMonotone(k + 1, chunks, size);
    assert Steps(k, size) + j == k * size + j;
    DivModUnique(Steps(k, size) + j, size, k, j);
  }

  /** `x.transpose(1, 2).reshape(chunks * size, envs)`. */
  function Flatten<T>(x: seq<seq<seq<T>>>, chunks: nat, envs: nat, size: nat): (y: seq<seq<T>>)
    requires Shape(x, chunks, envs, size) && size > 0
    ensures FlatShape(y, Steps(chunks, size), envs)
  {
    seq(Steps(chunks, size), s requires 0 <= s < Steps(chunks, size) => FlatRow(x, chunks, envs, size, s))
  }

  function FlatRow<T>(x: seq<seq<seq<T>>>, chunks: nat, envs: nat, size: nat, s: nat): (row: seq<T>)
    requires Shape(x, chunks, envs, size) && size > 0 && s < Steps(chunks, size)
    ensures |row| == envs
  {
    StepParts(s, chunks, size);
    seq(envs, b requires 0 <= b < envs => x[ChunkOf(s, size)][b][StepOf(s, size)])
  }

  /** `y.reshape(chunks, size, -1).transpose(1, 2)`. */
  function Unflatten<T>(y: seq<seq<T>>, chunks: nat, envs: nat, size: nat): (x: seq<seq<seq<T>>>)
    requires FlatShape(y, Steps(chunks, size), envs) && size > 0
    ensures Shape(x, chunks, envs, size)
  {
    seq(chunks, k requires 0 <= k < chunks => seq(envs,
      b requires 0 <= b < envs => UnflatRow(y, chunks, envs, size, k, b)))
  }

  lemma ChunkFits(k: nat, chunks: nat, size: nat)
    requires k < chunks
    ensures Steps(k, size) + size <= Steps(chunks, size)
  {
    MulMonotone(k + 1, chunks, size);
  }

  function UnflatRow<T>(y: seq<seq<T>>, chunks: nat, envs: nat, size: nat, k: nat, b: nat): (row: seq<T>)
    requires FlatShape(y, Steps(chunks, size), envs) && size > 0 && k < chunks && b < envs
    ensures |row| == size
  {
    ChunkFits(k, chunks, size);
    seq(size, j requires 0 <= j < size => y[Steps(k, size) + j][b])
  }

  /** Advantages go back to exactly the place their step came from. */
  lemma UnflattenFlatten<T>(x: seq<seq<seq<T>>>, chunks: nat, envs: nat, size: nat)
    requires Shape(x, chunks, envs, size) && size > 0
    ensures Unflatten(Flatten(x, chunks, envs, size), chunks, envs, size) == x
  {
    var y := Flatten(x, chunks, envs, size);
    var z := Unflatten(y, chunks, envs, size);
    forall k, b | 0 <= k < chunks && 0 <= b < envs
      ensures z[k][b] == x[k][b]
    {
      forall j | 0 <= j < size
        ensures z[k][b][j] == x[k][b][j]
      {
        PartsStep(k, j, chunks, size);
        assert y[Steps(k, size) + j] == FlatRow(x, chunks, envs, size, Steps(k, size) + j);
      }
    }
    forall k | 0 <= k < chunks
      ensures z[k] == x[k]
    {
    }
  }

  lemma FlattenUnflatten<T>(y: seq<seq<T>>, chunks: nat, envs: nat, size: nat)
    requires FlatShape(y, Steps(chunks, size), envs) && size > 0
    ensures Flatten(Unflatten(y, chunks, envs, size), chunks, envs, size) == y
  {
    var x := Unflatten(y, chunks, envs, size);
    var z := Flatten(x, chunks, envs, size);
    forall s | 0 <= s < Steps(chunks, size)
      ensures z[s] == y[s]
    {
      StepParts(s, chunks, size);
      assert z[s] == FlatRow(x, chunks, envs, size, s);
      forall b | 0 <= b < envs
        ensures z[s][b] == y[s][b]
      {
        assert x[ChunkOf(s, size)][b] == UnflatRow(y, chunks, envs, size, ChunkOf(s, size), b);
      }
    }
  }

  /** The last n_steps + 1 flags of the flattened done flags, which come in one chunk more. */
  function LastFlags(dones: seq<seq<seq<bool>>>, chunks: nat, envs: nat, size: nat): (flags: seq<seq<bool>>)
    requires Shape(dones, chunks + 1, envs, size) && size > 0
    ensures FlatShape(flags, Steps(chunks, size) + 1, envs)
  {
    var full := Flatten(dones, chunks + 1, envs, size);
    assert |full| == Steps(chunks, size) + size;
    full[|full| - (Steps(chunks, size) + 1)..]
  }

  /** The flag after step s is the one recorded with that step of the following chunk row, and
      the flag before the first step is the last one of the extra chunk. */
  lemma FlagsAlign(dones: seq<seq<seq<bool>>>, chunks: nat, envs: nat, size: nat, s: nat, b: nat)
    requires Shape(dones, chunks + 1, envs, size) && size > 0 && b < envs
    ensures LastFlags(dones, chunks, envs, size)[0][b] == dones[0][b][size - 1]
    ensures s < Steps(chunks, size) ==>
      ChunkOf(s, size) < chunks
      && LastFlags(dones, chunks, envs, size)[s + 1][b] == dones[ChunkOf(s, size) + 1][b][StepOf(s, size)]
  {
    var full := Flatten(dones, chunks + 1, envs, size);
    assert |full| == Steps(chunks, size) + size;
    PartsStep(0, size - 1, chunks + 1, size);
    assert full[size - 1] == FlatRow(dones, chunks + 1, envs, size, size - 1);
    if s < Steps(chunks, size) {
      StepParts(s, chunks, size);
      PartsStep(ChunkOf(s, size) + 1, StepOf(s, size), chunks + 1, size);
      assert Steps(ChunkOf(s, size) + 1, size) + StepOf(s, size) == s + size;
      assert full[s + size] == FlatRow(dones, chunks + 1, envs, size, s + size);
    }
  }
}
