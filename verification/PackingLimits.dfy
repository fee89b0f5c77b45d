/**
 Exactly when `pack_traj_batch` preserves the objective. Its overlap guard lets a pair of
 turns through that share one response position; the fold then counts that position once
 in the mean but twice in the scales.
 */
module PackingLimits {
  import opened Sequences
  import opened Turns
  import opened RowFolding
  import opened TurnPacking
  import opened PackedBatch
  import Grouping

  const ONE: Loss := (_, _, _) => 1.0

  /** Every response token carries a positive loss scale, as the scale functions leave it. */
  ghost predicate PositiveScales(ts: seq<Turn>) {
    forall i, p :: 0 <= i < |ts| && 0 <= p < |ts[i].mask| && |ts[i].scale| == |ts[i].mask| && ts[i].mask[p] ==>
      ts[i].scale[p] > 0.0
  }

  lemma PositiveMean(t: Turn)
    requires Shaped(t, |t.ids|) && Count(t.mask) > 0
    requires forall p :: 0 <= p < |t.ids| && t.mask[p] ==> t.scale[p] > 0.0
    ensures RowMean(t, ONE) > 0.0
  {
    var c := Contribution(t, ONE);
    forall p | 0 <= p < |c|
      ensures c[p] == if t.mask[p] then t.scale[p] else 0.0
    {
      assert TokenLoss(t, ONE, p) == 1.0;
    }
    var p := SomePosition(t.mask);
    RSumNonNegative(c);
    assert c[p] > 0.0;
    assert RSum(c) > 0.0;
    PositiveQuotient(RSum(c), Count(t.mask) as real);
  }

  lemma PositiveQuotient(a: real, c: real)
    requires a > 0.0 && c > 0.0
    ensures a / c > 0.0
  {
  }

  /** With the constant loss the stacked scales add up whether or not turns overlap. */
  lemma ConstantContribution(ts: seq<Turn>, width: nat)
    requires Foldable(ts, width)
    ensures Contribution(Folded(ts, width), ONE) == AddAll(ScaledContributions(ts, ONE, width), width)
  {
    var row, vs, us := Folded(ts, width), ScaledContributions(ts, ONE, width), RescaledScales(ts, width);
    forall i | 0 <= i < |ts|
      ensures vs[i] == us[i]
    {
      forall p | 0 <= p < width
        ensures Contribution(ts[i], ONE)[p] == Masked(ts[i].scale, ts[i].mask)[p]
      {
        assert TokenLoss(ts[i], ONE, p) == 1.0;
      }
      assert Contribution(ts[i], ONE) == Masked(ts[i].scale, ts[i].mask);
    }
    assert vs == us;
    forall p | 0 <= p < width
      ensures Contribution(row, ONE)[p] == AddAll(us, width)[p]
    {
      if row.mask[p] {
        assert TokenLoss(row, ONE, p) == 1.0;
      } else {
        UnmaskedColumn(ts, width, p);
      }
    }
  }

  lemma UnmaskedColumn(ts: seq<Turn>, width: nat, p: nat)
    requires Foldable(ts, width) && p < width && !AnyMask(ts, width)[p]
    ensures AddAll(RescaledScales(ts, width), width)[p] == 0.0
  {
    assert forall i :: 0 <= i < |ts| ==> !ts[i].mask[p];
    AllZero(Column(RescaledScales(ts, width), p));
  }

  lemma LargerQuotient(m: real, s: real, c: real, n: real)
    requires 0.0 < c <= n && s > 0.0 && Mul(m, c) == Mul(s, n)
    ensures m >= s && (c < n ==> m > s)
  {
    assert s * n >= s * c;
    assert c < n ==> s * n > s * c;
    assert m * c >= s * c;
    assert (m - s) * c >= 0.0;
  }

  /** Under the constant loss a fold never lowers the sum of means, and raises it as soon
      as two of the turns share a response position. */
  lemma FoldRaisesMean(ts: seq<Turn>, width: nat)
    requires Foldable(ts, width) && RSum(MeansOf(ts, ONE, width)) > 0.0
    ensures Count(Folded(ts, width).mask) > 0
    ensures RowMean(Folded(ts, width), ONE) >= RSum(MeansOf(ts, ONE, width))
    ensures !Disjoint(ts, width) ==> RowMean(Folded(ts, width), ONE) > RSum(MeansOf(ts, ONE, width))
  {
    ConstantContribution(ts, width);
    StackedTotal(ts, ONE, width);
    FoldedCount(ts, width);
    hide Folded, AddAll, ScaledContributions, MeansOf, Contribution, RowMean, TotalCount, Count, RSum, Mul;
    MeanTimesCount(Folded(ts, width), ONE);
    LargerQuotient(RowMean(Folded(ts, width), ONE), RSum(MeansOf(ts, ONE, width)),
                   Count(Folded(ts, width).mask) as real, TotalCount(ts) as real);
  }

  lemma SumPositive(s: seq<real>)
    requires s != [] && forall i :: 0 <= i < |s| ==> s[i] > 0.0
    ensures RSum(s) > 0.0
  {
    RSumNonNegative(s);
    assert s[0] <= RSum(s);
  }

  lemma MeansPositive(batch: seq<Turn>, c: seq<nat>, width: nat)
    requires AllBuilt(batch, width) && PositiveScales(batch) && InBatch(batch, c) && Foldable(RowsOf(batch, c), width)
    ensures RSum(MeansOf(RowsOf(batch, c), ONE, width)) > 0.0
  {
    var ts := RowsOf(batch, c);
    forall i | 0 <= i < |ts|
      ensures MeansOf(ts, ONE, width)[i] > 0.0
    {
      assert ts[i] == batch[c[i]];
      PositiveMean(ts[i]);
    }
    SumPositive(MeansOf(ts, ONE, width));
  }

  lemma UncleanOverlaps(batch: seq<Turn>, c: seq<nat>, width: nat)
    requires AllBuilt(batch, width) && ChainOk(batch, c) && !CleanChain(batch, c)
    ensures forall i :: 0 <= i < |c| ==> |RowsOf(batch, c)[i].mask| == width
    ensures !Disjoint(RowsOf(batch, c), width)
  {
    var ts := RowsOf(batch, c);
    forall i | 0 <= i < |c|
      ensures ts[i] == batch[c[i]] && |ts[i].mask| == width
    {
      assert Built(batch[c[i]], width);
    }
    hide Count, And, RowsOf, Built, AllBuilt, Disjoint, Linked;
    var i :| 0 <= i < |c| - 1 && Count(And(batch[c[i]].mask, batch[c[i + 1]].mask)) != 0;
    hide ChainOk, CleanChain;
    OverlapBreaksDisjoint(ts, width, i, i + 1);
  }

  lemma OverlapBreaksDisjoint(ts: seq<Turn>, width: nat, i: nat, j: nat)
    requires forall x :: 0 <= x < |ts| ==> |ts[x].mask| == width
    requires i < j < |ts| && Count(And(ts[i].mask, ts[j].mask)) != 0
    ensures !Disjoint(ts, width)
  {
    var p := SomePosition(And(ts[i].mask, ts[j].mask));
    assert ts[i].mask[p] && ts[j].mask[p];
  }

  lemma RaiseOne(batch: seq<Turn>, chains: map<nat, seq<nat>>, width: nat, keys: set<nat>, k: nat)
    requires AllBuilt(batch, width) && PositiveScales(batch) && ChainsFoldable(batch, chains, width)
    requires Separated(chains) && AllChainsOk(batch, chains) && k in keys && k in chains
    ensures RSum(Weights(batch, chains, width, ONE, keys)) >= RSum(Weights(batch, chains, width, ONE, keys - {k}))
    ensures !CleanChain(batch, chains[k] + [k]) ==>
      RSum(Weights(batch, chains, width, ONE, keys)) > RSum(Weights(batch, chains, width, ONE, keys - {k}))
  {
    var c := chains[k] + [k];
    FoldOneChain(batch, chains, width, ONE, keys, k);
    MeansPositive(batch, c, width);
    FoldRaisesMean(RowsOf(batch, c), width);
    if !CleanChain(batch, c) {
      UncleanOverlaps(batch, c, width);
    }
  }

  ghost predicate AllClean(batch: seq<Turn>, chains: map<nat, seq<nat>>, keys: set<nat>)
    requires AllChainsOk(batch, chains)
  {
    forall k :: k in keys && k in chains ==> CleanChain(batch, chains[k] + [k])
  }

  lemma {:induction false} RaiseAll(batch: seq<Turn>, chains: map<nat, seq<nat>>, width: nat, keys: set<nat>)
    requires AllBuilt(batch, width) && PositiveScales(batch) && ChainsFoldable(batch, chains, width)
    requires Separated(chains) && AllChainsOk(batch, chains) && keys <= chains.Keys
    ensures RSum(Weights(batch, chains, width, ONE, keys)) >= RSum(Weights(batch, chains, width, ONE, {}))
    ensures !AllClean(batch, chains, keys) ==>
      RSum(Weights(batch, chains, width, ONE, keys)) > RSum(Weights(batch, chains, width, ONE, {}))
    decreases |keys|
  {
    hide Weights, ChainsFoldable, AllBuilt, Separated, RSum, CleanChain, PositiveScales;
    if keys != {} {
      var k :| k in keys;
      RaiseOne(batch, chains, width, keys, k);
      RaiseAll(batch, chains, width, keys - {k});
    }
  }

  /** With positive loss scales, packing preserves the objective of every causal loss
      exactly when no linked turns share a response position. */
  lemma PackingExact(batch: seq<Turn>, width: nat)
    requires batch != [] && AllBuilt(batch, width) && PositiveScales(batch)
    ensures ChainsFoldable(batch, PackMap(batch), width)
    ensures Reducible(batch) && Reducible(Pack(batch, width, false))
    ensures CleanLinks(batch, PackMap(batch)) <==>
      forall loss: Loss :: Objective(Pack(batch, width, false), loss) == Objective(batch, loss)
  {
    var chains := PackMap(batch);
    PackMapOk(batch);
    PackMapFoldable(batch, width);
    PackedReducible(batch, chains, width);
    BuiltReducible(batch, width);
    if CleanLinks(batch, chains) {
      forall loss: Loss
        ensures Objective(Pack(batch, width, false), loss) == Objective(batch, loss)
      {
        PackingKeepsObjective(batch, width, loss);
      }
    } else {
      UncleanRaises(batch, width);
    }
  }

  lemma UncleanRaises(batch: seq<Turn>, width: nat)
    requires batch != [] && AllBuilt(batch, width) && PositiveScales(batch)
    requires !CleanLinks(batch, PackMap(batch))
    ensures ChainsFoldable(batch, PackMap(batch), width)
    ensures Reducible(batch) && Reducible(Pack(batch, width, false))
    ensures Objective(Pack(batch, width, false), ONE) > Objective(batch, ONE)
  {
    var chains := PackMap(batch);
    PackMapOk(batch);
    PackMapFoldable(batch, width);
    PackedObjective(batch, chains, width, ONE);
    RaiseAll(batch, chains, width, chains.Keys);
    UnfoldedWeights(batch, chains, width, ONE);
  }

  /** The precondition the source relies on: no two turns of a trajectory share exactly
      one response position. */
  ghost predicate NoSharedSingle(batch: seq<Turn>) {
    forall i, j :: 0 <= i < |batch| && 0 <= j < |batch| && i != j && batch[i].traj == batch[j].traj ==>
      |batch[i].mask| == |batch[j].mask| ==> Count(And(batch[i].mask, batch[j].mask)) != 1
  }

  lemma NoSharedSingleIsClean(batch: seq<Turn>)
    requires NoSharedSingle(batch)
    ensures CleanLinks(batch, PackMap(batch))
  {
    PackMapOk(batch);
    var chains := PackMap(batch);
    hide PackMap;
    forall k | k in chains
      ensures CleanChain(batch, chains[k] + [k])
    {
      var c := chains[k] + [k];
      forall i | 0 <= i < |c| - 1
        ensures Count(And(batch[c[i]].mask, batch[c[i + 1]].mask)) == 0
      {
        assert Linked(batch[c[i]], batch[c[i + 1]]);
        assert c[i] != c[i + 1];
      }
    }
  }

  // ----- A batch the guard lets through -----

  const LEFT := Turn(0, 0, [5, 7, 0], [false, true, false], 1, 1, [0.0, 0.0, 0.0], [0.0, 1.0, 0.0], [0.0, 1.0, 0.0],
    1.0)
  const RIGHT := Turn(0, 0, [5, 7, 8], [false, true, true], 1, 2, [0.0, 0.0, 0.0], [0.0, 1.0, 1.0], [0.0, 1.0, 1.0],
    1.0)

  /** The two turns, the second with the given reward. */
  function Pair(reward: real): seq<Turn> {
    [LEFT, RIGHT.(reward := reward)]
  }

  lemma SharedPairOverlap(reward: real)
    ensures Count(And(LEFT.mask, RIGHT.mask)) == 1 && Linkable(LEFT, RIGHT.(reward := reward))
  {
    assert And(LEFT.mask, RIGHT.mask) == [false, true, false];
    assert [false, true, false][1..] == [true, false];
    assert [true, false][1..] == [false];
    assert [false][1..] == [];
    assert LEFT.ids[..2] == [5, 7] == RIGHT.ids[..2];
  }

  lemma SharedPairMembers()
    ensures forall reward: real :: Labels(Pair(reward)) == [0, 0]
    ensures Iota(2) == [0, 1]
    ensures Grouping.Members([0, 0], [0, 1], 0) == [0, 1]
    ensures Grouping.Keys([0, 0], [0, 1]) == [0]
  {
    hide Grouping.Keys;
    var all: seq<nat> := [0, 1];
    assert Iota(2) == all;
    assert all[..1] == [0] && all[..1][..0] == [];
    assert Grouping.Members([0, 0], all, 0) == all;
    SharedPairKeys();
  }

  lemma SharedPairKeys()
    ensures Grouping.Keys([0, 0], [0, 1]) == [0]
  {
    var all: seq<nat> := [0, 1];
    assert all[..1] == [0] && all[..1][..0] == [];
    assert Grouping.Keys([0, 0], all) == [0];
  }

  lemma SharedPairOrder(reward: real)
    ensures Order(Pair(reward), 0) == [0, 1]
    ensures Grouping.Keys(Labels(Pair(reward)), Iota(2)) == [0]
  {
    var batch, all: seq<nat> := Pair(reward), [0, 1];
    SharedPairMembers();
    hide Grouping.Keys, Grouping.Members, Labels, Iota;
    assert all[1..] == [1] && all[1..][1..] == [];
    assert ByPrompt(batch, all[1..]) == [1];
    assert ByPrompt(batch, all) == all;
  }

  lemma SharedPairFold(reward: real)
    ensures LinkOrder(Pair(reward), [0, 1], 2, Links(map[], {})) == Links(map[1 := [0]], {1})
  {
    var batch, all: seq<nat>, none := Pair(reward), [0, 1], Links(map[], {});
    SharedPairOverlap(reward);
    assert FindRight(batch, all, 0, 1, {}) == Some(1);
    assert FindRight(batch, all, 1, 2, {1}) == None;
    hide FindRight, Linkable;
    assert Fold(none, 0, 1) == Links(map[1 := [0]], {1}) by {
      assert ChainOf(none.chains, 0) + [0] == [0];
      assert none.chains - {0} == map[];
      assert none.taken + {1} == {1};
    }
    assert LinkOrder(batch, all, 0, none) == none;
    assert LinkOrder(batch, all, 1, none) == LinkOne(batch, all, 0, none) == Fold(none, 0, 1);
  }

  lemma SharedPairLinks(reward: real)
    ensures PackMap(Pair(reward)) == map[1 := [0]]
  {
    SharedPairOrder(reward);
    SharedPairFold(reward);
    hide Order, Grouping.Keys, LinkOrder;
    assert LinkTrajs(Pair(reward), [0], 0) == Links(map[], {});
    assert LinkTrajs(Pair(reward), [0], 1) == Links(map[1 := [0]], {1});
  }

  /** Two turns with the same prompt, the shorter response a prefix of the longer: they
      are packed, and the constant loss gains weight. */
  lemma SharedPositionBreaksObjective()
    ensures var batch := [LEFT, RIGHT];
      && AllBuilt(batch, 3) && ChainsFoldable(batch, PackMap(batch), 3)
      && Reducible(batch) && Reducible(Pack(batch, 3, false))
      && Objective(Pack(batch, 3, false), ONE) > Objective(batch, ONE)
  {
    hide PackMap, And;
    var batch := [LEFT, RIGHT];
    assert batch == Pair(1.0);
    SharedPairBuilt(1.0);
    SharedPairLinks(1.0);
    SharedPairOverlap(1.0);
    PackMapOk(batch);
    var c := PackMap(batch)[1] + [1];
    assert c == [0, 1] && ChainOk(batch, c);
    assert Count(And(batch[c[0]].mask, batch[c[0 + 1]].mask)) == 1;
    assert !CleanChain(batch, c);
    UncleanRaises(batch, 3);
  }

  /** With different rewards the same two turns are linked and the reward assert fails. */
  lemma MixedRewardsFail()
    ensures AllBuilt(Pair(0.0), 3) && !RewardsAgree(Pair(0.0), PackMap(Pair(0.0)))
  {
    SharedPairBuilt(0.0);
    SharedPairLinks(0.0);
    hide PackMap, AllBuilt;
    RewardsDiffer(Pair(0.0), map[1 := [0]], 1);
  }

  lemma RewardsDiffer(batch: seq<Turn>, chains: map<nat, seq<nat>>, k: nat)
    requires k in chains && chains[k] != [] && chains[k][0] < |batch| && k < |batch|
    requires batch[chains[k][0]].reward != batch[k].reward
    ensures !RewardsAgree(batch, chains)
  {
    var c := chains[k] + [k];
    assert c[0] == chains[k][0] && c[|c| - 1] == k;
    assert InBatch(batch, c) ==> RowsOf(batch, c)[0] == batch[c[0]] && RowsOf(batch, c)[|c| - 1] == batch[k];
  }

  lemma SharedPairBuilt(reward: real)
    ensures AllBuilt(Pair(reward), 3)
  {
    assert LEFT.mask == ResponseMask(1, 1, 3) && RIGHT.mask == ResponseMask(1, 2, 3);
  }
}
