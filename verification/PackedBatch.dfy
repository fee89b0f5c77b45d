/**
 The batch that `pack_traj_batch` leaves: the folded rows, the rows that are dropped, and
 the theorem that none of it changes the training objective.
 */
module PackedBatch {
  import opened Sequences
  import opened Turns
  import opened RowFolding
  import opened TurnPacking

  // ----- The packed batch -----

  function RowsOf(batch: seq<Turn>, c: seq<nat>): (ts: seq<Turn>)
    requires InBatch(batch, c)
    ensures |ts| == |c|
  {
    seq(|c|, i requires 0 <= i < |c| => batch[c[i]])
  }

  ghost predicate ChainsFoldable(batch: seq<Turn>, chains: map<nat, seq<nat>>, width: nat) {
    forall k :: k in chains ==> InBatch(batch, chains[k] + [k]) && Foldable(RowsOf(batch, chains[k] + [k]), width)
  }

  function RewardsIn(ts: seq<Turn>): set<real> {
    set i | 0 <= i < |ts| :: ts[i].reward
  }

  ghost predicate OneReward(ts: seq<Turn>) {
    forall i, j :: 0 <= i < |ts| && 0 <= j < |ts| ==> ts[i].reward == ts[j].reward
  }

  /** All turns folded into one row carry the same reward. */
  ghost predicate RewardsAgree(batch: seq<Turn>, chains: map<nat, seq<nat>>) {
    forall k :: k in chains ==> InBatch(batch, chains[k] + [k]) && OneReward(RowsOf(batch, chains[k] + [k]))
  }

  function PackedRow(batch: seq<Turn>, chains: map<nat, seq<nat>>, width: nat, i: nat): Turn
    requires i < |batch| && ChainsFoldable(batch, chains, width)
  {
    if i in chains then Folded(RowsOf(batch, chains[i] + [i]), width) else batch[i]
  }

  function Prefixes(chains: map<nat, seq<nat>>): set<nat> {
    set k, x | k in chains && x in chains[k] :: x
  }

  /** The rows that stay, in order. */
  function Kept(n: nat, dropped: set<nat>): (kept: seq<nat>)
    ensures forall i :: 0 <= i < |kept| ==> kept[i] < n && kept[i] !in dropped
  {
    if n == 0 then [] else Kept(n - 1, dropped) + if n - 1 in dropped then [] else [n - 1]
  }

  function PackedRows(batch: seq<Turn>, chains: map<nat, seq<nat>>, width: nat): (rows: seq<Turn>)
    requires ChainsFoldable(batch, chains, width)
    ensures |rows| == |Kept(|batch|, Prefixes(chains))|
  {
    var kept := Kept(|batch|, Prefixes(chains));
    seq(|kept|, i requires 0 <= i < |kept| && kept[i] < |batch| => PackedRow(batch, chains, width, kept[i]))
  }

  /** `packed_batch["loss_scales"] *= factor`. */
  function Rescaled(rows: seq<Turn>, factor: real): (r: seq<Turn>)
    ensures |r| == |rows|
  {
    seq(|rows|, i requires 0 <= i < |rows| => rows[i].(scale := Scaled(rows[i].scale, factor)))
  }

  function Pack(batch: seq<Turn>, width: nat, groupLevel: bool): seq<Turn>
    requires batch != [] && ChainsFoldable(batch, PackMap(batch), width)
  {
    var rows := PackedRows(batch, PackMap(batch), width);
    if groupLevel then Rescaled(rows, (|rows| as real) / (|batch| as real)) else rows
  }

  lemma ChainFoldable(batch: seq<Turn>, c: seq<nat>, width: nat)
    requires AllBuilt(batch, width) && ChainOk(batch, c)
    ensures Foldable(RowsOf(batch, c), width)
  {
    var ts := RowsOf(batch, c);
    forall i | 0 <= i < |ts|
      ensures Shaped(ts[i], width) && Count(ts[i].mask) > 0
    {
      BuiltCounts(batch[c[i]], width);
    }
    PromptsAlong(batch, c, |c| - 1);
  }

  lemma {:induction false} PromptsAlong(batch: seq<Turn>, c: seq<nat>, j: nat)
    requires ChainOk(batch, c) && j < |c|
    ensures batch[c[0]].promptLen <= batch[c[j]].promptLen
  {
    if j > 0 {
      PromptsAlong(batch, c, j - 1);
      assert Linked(batch[c[j - 1]], batch[c[j - 1 + 1]]);
    }
  }

  lemma PackMapFoldable(batch: seq<Turn>, width: nat)
    requires AllBuilt(batch, width)
    ensures ChainsFoldable(batch, PackMap(batch), width)
  {
    PackMapOk(batch);
    var chains := PackMap(batch);
    hide PackMap, Foldable;
    forall k | k in chains
      ensures InBatch(batch, chains[k] + [k]) && Foldable(RowsOf(batch, chains[k] + [k]), width)
    {
      assert ChainOk(batch, chains[k] + [k]);
      ChainFoldable(batch, chains[k] + [k], width);
    }
  }

  // ----- Folding moves row means -----

  /** No two turns of a trajectory that were linked share a response position. */
  ghost predicate CleanLinks(batch: seq<Turn>, chains: map<nat, seq<nat>>) {
    AllChainsOk(batch, chains) && forall k :: k in chains ==> CleanChain(batch, chains[k] + [k])
  }

  lemma CleanRows(batch: seq<Turn>, c: seq<nat>, width: nat)
    requires AllBuilt(batch, width) && ChainOk(batch, c) && CleanChain(batch, c)
    ensures Foldable(RowsOf(batch, c), width)
    ensures Disjoint(RowsOf(batch, c), width) && TokensAgree(RowsOf(batch, c), width)
  {
    var ts := RowsOf(batch, c);
    ChainFoldable(batch, c, width);
    forall i, j, p | 0 <= i < j < |ts| && 0 <= p < width
      ensures !(ts[i].mask[p] && ts[j].mask[p])
    {
      ChainSpans(batch, c, width, i, j);
    }
    forall i, p | 0 <= i < |ts| && 0 <= p < width && ts[i].mask[p]
      ensures ts[i].ids[..p + 1] == ts[|ts| - 1].ids[..p + 1]
    {
      var a, b := batch[c[i]], batch[c[|c| - 1]];
      ChainTokens(batch, c, width, i, |c| - 1);
      assert a.ids[..p + 1] == a.ids[..End(a)][..p + 1] == b.ids[..End(a)][..p + 1] == b.ids[..p + 1];
    }
  }

  /** Zeroing entries takes their sum away. */
  function Zeroed(w: seq<real>, c: seq<nat>): (r: seq<real>)
    requires forall i :: 0 <= i < |c| ==> c[i] < |w|
    ensures |r| == |w|
    ensures forall x :: 0 <= x < |w| ==> r[x] == if x in c then 0.0 else w[x]
    decreases |c|
  {
    if c == [] then w else Zeroed(w[c[0] := 0.0], c[1..])
  }

  lemma {:induction false} ZeroedSum(w: seq<real>, c: seq<nat>)
    requires Distinct(c) && forall i :: 0 <= i < |c| ==> c[i] < |w|
    ensures RSum(Zeroed(w, c)) == RSum(w) - RSum(Picked(w, c))
    decreases |c|
  {
    if c != [] {
      var v := w[c[0] := 0.0];
      RSumUpdate(w, c[0], 0.0);
      ZeroedSum(v, c[1..]);
      assert Picked(w, c)[1..] == Picked(v, c[1..]);
    }
  }

  /** Moving the entries of c into entry k changes the sum by what k gains beyond them. */
  lemma MoveInto(w: seq<real>, c: seq<nat>, k: nat, after: seq<real>)
    requires k < |w| == |after| && k !in c && Distinct(c) && forall i :: 0 <= i < |c| ==> c[i] < |w|
    requires forall x :: 0 <= x < |w| && x != k ==> after[x] == if x in c then 0.0 else w[x]
    ensures RSum(after) == RSum(w) + after[k] - RSum(Picked(w, c + [k]))
  {
    var z := Zeroed(w, c);
    ZeroedSum(w, c);
    assert after == z[k := after[k]];
    RSumUpdate(z, k, after[k]);
    PickedLast(w, c, k);
  }

  /** The weight of every row once the chains with tails in `keys` are folded. */
  ghost function Weights(batch: seq<Turn>, chains: map<nat, seq<nat>>, width: nat, loss: Loss,
                         keys: set<nat>): (w: seq<real>)
    requires AllBuilt(batch, width) && ChainsFoldable(batch, chains, width)
    ensures |w| == |batch|
  {
    seq(|batch|, i requires 0 <= i < |batch| => Weight(batch, chains, width, loss, keys, i))
  }

  ghost function Weight(batch: seq<Turn>, chains: map<nat, seq<nat>>, width: nat, loss: Loss, keys: set<nat>,
                        i: nat): real
    requires i < |batch| && AllBuilt(batch, width) && ChainsFoldable(batch, chains, width)
  {
    if i in keys && i in chains then
      FoldedCount(RowsOf(batch, chains[i] + [i]), width);
      RowMean(Folded(RowsOf(batch, chains[i] + [i]), width), loss)
    else if exists k :: k in keys && k in chains && i in chains[k] then 0.0
    else
      BuiltCounts(batch[i], width);
      RowMean(batch[i], loss)
  }

  lemma WeightOfOthers(batch: seq<Turn>, chains: map<nat, seq<nat>>, width: nat, loss: Loss, keys: set<nat>, k: nat,
                       x: nat)
    requires AllBuilt(batch, width) && ChainsFoldable(batch, chains, width) && Separated(chains)
    requires k in keys && k in chains && x < |batch| && x != k
    ensures Weight(batch, chains, width, loss, keys, x)
         == if x in chains[k] then 0.0 else Weight(batch, chains, width, loss, keys - {k}, x)
  {
    hide RowMean, Folded, ChainsFoldable, AllBuilt;
    if x !in chains[k] {
      assert (exists l :: l in keys && l in chains && x in chains[l])
        <==> (exists l :: l in keys - {k} && l in chains && x in chains[l]);
    }
  }

  lemma WeightUntouched(batch: seq<Turn>, chains: map<nat, seq<nat>>, width: nat, loss: Loss, keys: set<nat>, k: nat,
                        x: nat)
    requires AllBuilt(batch, width) && ChainsFoldable(batch, chains, width) && Separated(chains)
    requires k in chains && k !in keys && x < |batch| && (x == k || x in chains[k])
    ensures Count(batch[x].mask) > 0
    ensures Weight(batch, chains, width, loss, keys, x) == RowMean(batch[x], loss)
  {
    BuiltCounts(batch[x], width);
    hide RowMean, Folded, ChainsFoldable, AllBuilt;
  }

  /** Folding one more chain changes the sum of the weights by what the folded row's
      mean exceeds the sum of the turns' means. */
  lemma FoldOneChain(batch: seq<Turn>, chains: map<nat, seq<nat>>, width: nat, loss: Loss, keys: set<nat>, k: nat)
    requires AllBuilt(batch, width) && ChainsFoldable(batch, chains, width)
    requires Separated(chains) && AllChainsOk(batch, chains) && k in keys && k in chains
    ensures var ts := RowsOf(batch, chains[k] + [k]);
      && Foldable(ts, width) && Count(Folded(ts, width).mask) > 0
      && RSum(Weights(batch, chains, width, loss, keys))
         == RSum(Weights(batch, chains, width, loss, keys - {k}))
            + RowMean(Folded(ts, width), loss) - RSum(MeansOf(ts, loss, width))
  {
    var c, before, after := chains[k], Weights(batch, chains, width, loss, keys - {k}),
      Weights(batch, chains, width, loss, keys);
    assert ChainOk(batch, c + [k]);
    var ts := RowsOf(batch, c + [k]);
    FoldedCount(ts, width);
    ChainDistinct(batch, c, k);
    assert forall i :: 0 <= i < |ts| ==> Shaped(ts[i], width) && Count(ts[i].mask) > 0;
    hide ChainOk, AllChainsOk, Folded, RowMean, Foldable, ChainsFoldable, AllBuilt;
    forall i | 0 <= i < |c + [k]|
      ensures MeansOf(ts, loss, width)[i] == Picked(before, c + [k])[i]
    {
      WeightUntouched(batch, chains, width, loss, keys - {k}, k, (c + [k])[i]);
    }
    assert MeansOf(ts, loss, width) == Picked(before, c + [k]);
    forall x | 0 <= x < |batch| && x != k
      ensures after[x] == if x in c then 0.0 else before[x]
    {
      WeightOfOthers(batch, chains, width, loss, keys, k, x);
    }
    MoveInto(before, c, k, after);
  }

  lemma ChainDistinct(batch: seq<Turn>, c: seq<nat>, k: nat)
    requires ChainOk(batch, c + [k])
    ensures InBatch(batch, c) && k < |batch| && k !in c && Distinct(c)
  {
    assert (c + [k])[|c|] == k;
    assert forall i :: 0 <= i < |c| ==> (c + [k])[i] == c[i];
  }

  lemma FoldCleanChain(batch: seq<Turn>, chains: map<nat, seq<nat>>, width: nat, loss: Loss, keys: set<nat>, k: nat)
    requires AllBuilt(batch, width) && ChainsFoldable(batch, chains, width)
    requires Separated(chains) && CleanLinks(batch, chains) && k in keys && k in chains
    ensures RSum(Weights(batch, chains, width, loss, keys)) == RSum(Weights(batch, chains, width, loss, keys - {k}))
  {
    CleanRows(batch, chains[k] + [k], width);
    FoldKeepsMean(RowsOf(batch, chains[k] + [k]), loss, width);
    hide Weights, Folded, Foldable, Disjoint, TokensAgree, RSum, RowMean;
    FoldOneChain(batch, chains, width, loss, keys, k);
  }

  lemma {:induction false} FoldAllChains(batch: seq<Turn>, chains: map<nat, seq<nat>>, width: nat, loss: Loss,
                                         keys: set<nat>)
    requires AllBuilt(batch, width) && ChainsFoldable(batch, chains, width)
    requires Separated(chains) && CleanLinks(batch, chains) && keys <= chains.Keys
    ensures RSum(Weights(batch, chains, width, loss, keys)) == RSum(Weights(batch, chains, width, loss, {}))
    decreases |keys|
  {
    hide CleanLinks, Weights, ChainsFoldable, AllBuilt, Separated, RSum;
    if keys != {} {
      var k :| k in keys;
      FoldCleanChain(batch, chains, width, loss, keys, k);
      FoldAllChains(batch, chains, width, loss, keys - {k});
    }
  }

  lemma {:induction false} KeptSum(w: seq<real>, n: nat, dropped: set<nat>)
    requires n <= |w| && forall i :: 0 <= i < |w| && i in dropped ==> w[i] == 0.0
    ensures RSum(Picked(w, Kept(n, dropped))) == RSum(w[..n])
  {
    if n > 0 {
      KeptSum(w, n - 1, dropped);
      assert w[..n] == w[..n - 1] + [w[n - 1]];
      RSumConcat(w[..n - 1], [w[n - 1]]);
      assert RSum([w[n - 1]]) == w[n - 1] + RSum([]);
      if n - 1 !in dropped {
        PickedLast(w, Kept(n - 1, dropped), n - 1);
      } else {
        assert Kept(n, dropped) == Kept(n - 1, dropped);
      }
    }
  }

  lemma WeightFolded(batch: seq<Turn>, chains: map<nat, seq<nat>>, width: nat, loss: Loss, i: nat)
    requires AllBuilt(batch, width) && ChainsFoldable(batch, chains, width) && Separated(chains) && i < |batch|
    ensures i in Prefixes(chains) ==> Weight(batch, chains, width, loss, chains.Keys, i) == 0.0
    ensures i !in Prefixes(chains) ==>
      var row := PackedRow(batch, chains, width, i);
      Shaped(row, |row.ids|) && Count(row.mask) > 0
        && Weight(batch, chains, width, loss, chains.Keys, i) == RowMean(row, loss)
  {
    if i in chains {
      FoldedCount(RowsOf(batch, chains[i] + [i]), width);
    } else {
      BuiltCounts(batch[i], width);
    }
    hide RowMean, Folded, ChainsFoldable;
  }

  lemma PackedReducible(batch: seq<Turn>, chains: map<nat, seq<nat>>, width: nat)
    requires AllBuilt(batch, width) && ChainsFoldable(batch, chains, width)
    ensures Reducible(PackedRows(batch, chains, width))
  {
    var rows, kept := PackedRows(batch, chains, width), Kept(|batch|, Prefixes(chains));
    forall i | 0 <= i < |rows|
      ensures Shaped(rows[i], |rows[i].ids|) && Count(rows[i].mask) > 0
    {
      if kept[i] in chains {
        FoldedCount(RowsOf(batch, chains[kept[i]] + [kept[i]]), width);
      } else {
        BuiltCounts(batch[kept[i]], width);
      }
    }
  }

  lemma BuiltReducible(batch: seq<Turn>, width: nat)
    requires AllBuilt(batch, width)
    ensures Reducible(batch)
  {
    forall i | 0 <= i < |batch|
      ensures Shaped(batch[i], |batch[i].ids|) && Count(batch[i].mask) > 0
    {
      BuiltCounts(batch[i], width);
    }
  }

  /** The packed rows' objective is the sum of the weights after all chains are folded. */
  lemma PackedObjective(batch: seq<Turn>, chains: map<nat, seq<nat>>, width: nat, loss: Loss)
    requires AllBuilt(batch, width) && ChainsFoldable(batch, chains, width) && Separated(chains)
    ensures Reducible(PackedRows(batch, chains, width))
    ensures Objective(PackedRows(batch, chains, width), loss) == RSum(Weights(batch, chains, width, loss, chains.Keys))
  {
    hide RowMean, Folded, ChainsFoldable, AllBuilt, Weight, Prefixes, RSum, PackedRow;
    var rows, w, kept := PackedRows(batch, chains, width), Weights(batch, chains, width, loss, chains.Keys),
      Kept(|batch|, Prefixes(chains));
    PackedReducible(batch, chains, width);
    forall i | 0 <= i < |batch|
      ensures i in Prefixes(chains) ==> w[i] == 0.0
    {
      WeightFolded(batch, chains, width, loss, i);
    }
    forall i | 0 <= i < |rows|
      ensures RowMeans(rows, loss)[i] == Picked(w, kept)[i]
    {
      WeightFolded(batch, chains, width, loss, kept[i]);
    }
    assert RowMeans(rows, loss) == Picked(w, kept);
    KeptSum(w, |w|, Prefixes(chains));
    assert w[..|w|] == w;
  }

  lemma UnfoldedWeights(batch: seq<Turn>, chains: map<nat, seq<nat>>, width: nat, loss: Loss)
    requires AllBuilt(batch, width) && ChainsFoldable(batch, chains, width)
    ensures Reducible(batch)
    ensures RSum(Weights(batch, chains, width, loss, {})) == Objective(batch, loss)
  {
    hide RowMean, Folded, ChainsFoldable;
    BuiltReducible(batch, width);
    assert Weights(batch, chains, width, loss, {}) == RowMeans(batch, loss);
  }

  /** Packing linked turns that share no response position leaves the objective alone,
      for every causal per-token loss. */
  lemma PackingKeepsObjective(batch: seq<Turn>, width: nat, loss: Loss)
    requires batch != [] && AllBuilt(batch, width) && CleanLinks(batch, PackMap(batch))
    ensures ChainsFoldable(batch, PackMap(batch), width)
    ensures Reducible(batch) && Reducible(Pack(batch, width, false))
    ensures Objective(Pack(batch, width, false), loss) == Objective(batch, loss)
  {
    var chains := PackMap(batch);
    PackMapOk(batch);
    PackMapFoldable(batch, width);
    PackedObjective(batch, chains, width, loss);
    FoldAllChains(batch, chains, width, loss, chains.Keys);
    UnfoldedWeights(batch, chains, width, loss);
  }

  // ----- Group-level rescaling -----

  lemma RescaledMean(t: Turn, loss: Loss, f: real)
    requires Shaped(t, |t.ids|) && Count(t.mask) > 0
    ensures RowMean(t.(scale := Scaled(t.scale, f)), loss) == Mul(RowMean(t, loss), f)
  {
    var u := t.(scale := Scaled(t.scale, f));
    forall p | 0 <= p < |t.ids|
      ensures Contribution(u, loss)[p] == Scaled(Contribution(t, loss), f)[p]
    {
      assert u.ids == t.ids && TokenLoss(u, loss, p) == TokenLoss(t, loss, p);
      assert t.mask[p] ==> u.scale[p] == Mul(t.scale[p], f);
      Reorder(t.scale[p], f, TokenLoss(t, loss, p));
      assert Mul(0.0, f) == 0.0;
    }
    assert Contribution(u, loss) == Scaled(Contribution(t, loss), f);
    RSumScaled(Contribution(t, loss), f);
    ScaledQuotient(RSum(Contribution(t, loss)), f, Count(t.mask) as real);
  }

  lemma ScaledQuotient(a: real, f: real, c: real)
    requires c > 0.0
    ensures Mul(a, f) / c == Mul(a / c, f)
  {
  }

  lemma RescaledObjective(rows: seq<Turn>, loss: Loss, f: real)
    requires Reducible(rows)
    ensures Reducible(Rescaled(rows, f))
    ensures Objective(Rescaled(rows, f), loss) == Mul(Objective(rows, loss), f)
  {
    hide RowMean, Contribution, Count, Mul;
    forall i | 0 <= i < |rows|
      ensures RowMeans(Rescaled(rows, f), loss)[i] == Scaled(RowMeans(rows, loss), f)[i]
    {
      RescaledMean(rows[i], loss, f);
    }
    assert RowMeans(Rescaled(rows, f), loss) == Scaled(RowMeans(rows, loss), f);
    RSumScaled(RowMeans(rows, loss), f);
  }

  function MeanOverRows(rows: seq<Turn>, loss: Loss): real
    requires rows != [] && Reducible(rows)
  {
    Objective(rows, loss) / (|rows| as real)
  }

  lemma MeanRatio(total: real, m: real, n: real)
    requires m > 0.0 && n > 0.0
    ensures Mul(total, m / n) / m == total / n
  {
    assert Mul(total, m / n) == (total / n) * m;
  }

  /** Under `group_level` the mean over rows is what stays the same. */
  lemma PackingKeepsMean(batch: seq<Turn>, width: nat, loss: Loss)
    requires batch != [] && AllBuilt(batch, width) && CleanLinks(batch, PackMap(batch))
    ensures ChainsFoldable(batch, PackMap(batch), width)
    ensures var packed := Pack(batch, width, true);
      packed != [] && Reducible(batch) && Reducible(packed) && MeanOverRows(packed, loss) == MeanOverRows(batch, loss)
  {
    hide PackMap, PackedRows, Objective, Mul, CleanLinks, ChainsFoldable, AllBuilt, Rescaled;
    PackingKeepsObjective(batch, width, loss);
    SomeRowStays(batch, width);
    var rows := Pack(batch, width, false);
    RescaledObjective(rows, loss, (|rows| as real) / (|batch| as real));
    MeanRatio(Objective(rows, loss), |rows| as real, |batch| as real);
  }

  lemma {:induction false} KeptHolds(n: nat, dropped: set<nat>, x: nat)
    requires x < n && x !in dropped
    ensures x in Kept(n, dropped)
  {
    if x < n - 1 {
      KeptHolds(n - 1, dropped, x);
    }
  }

  lemma SomeRowStays(batch: seq<Turn>, width: nat)
    requires batch != [] && ChainsFoldable(batch, PackMap(batch), width)
    ensures Pack(batch, width, false) != []
  {
    PackMapOk(batch);
    var chains := PackMap(batch);
    if 0 in Prefixes(chains) {
      var k :| k in chains && 0 in chains[k];
      assert ChainOk(batch, chains[k] + [k]);
      assert (chains[k] + [k])[|chains[k]|] == k;
      KeptHolds(|batch|, Prefixes(chains), k);
    } else {
      KeptHolds(|batch|, Prefixes(chains), 0);
    }
  }
}
