/** The code of `pack_traj_batch`, proved to compute `Pack`, and what it does to each row
    and each token. */
module PackTrajBatch {
  import opened Sequences
  import opened Turns
  import opened RowFolding
  import opened TurnPacking
  import opened PackedBatch
  import Grouping

  /** The nested loops over the pairs of turns of each trajectory. */
  method FindChains(batch: seq<Turn>) returns (packMap: map<nat, seq<nat>>)
    ensures packMap == PackMap(batch)
  {
    var trajs, groups := Grouping.GroupBy(Labels(batch), Iota(|batch|));
    var taken: set<nat>;
    packMap, taken := map[], {};
    for t := 0 to |trajs|
      invariant Links(packMap, taken) == LinkTrajs(batch, trajs, t)
    {
      assert trajs[t] in trajs;
      var order := ByPrompt(batch, groups[trajs[t]]);
      for i := 0 to |order|
        invariant Links(packMap, taken) == LinkOrder(batch, order, i, LinkTrajs(batch, trajs, t))
      {
        packMap, taken := FindSuffix(batch, order, i, packMap, taken);
      }
    }
  }

  /** The inner loop: fold order[i] into the first later turn that takes it. */
  method FindSuffix(batch: seq<Turn>, order: seq<nat>, i: nat, packMap: map<nat, seq<nat>>, taken: set<nat>)
    returns (nextMap: map<nat, seq<nat>>, nextTaken: set<nat>)
    requires i < |order| && InBatch(batch, order)
    ensures Links(nextMap, nextTaken) == LinkOne(batch, order, i, Links(packMap, taken))
  {
    hide Linkable;
    var left := order[i];
    for j := i + 1 to |order|
      invariant FindRight(batch, order, i, i + 1, taken) == FindRight(batch, order, i, j, taken)
    {
      var right := order[j];
      if right in taken || !Linkable(batch[left], batch[right]) {
        continue;
      }
      var folded := if left in packMap then packMap[left] else [];
      return (packMap - {left})[right := folded + [left]], taken + {right};
    }
    return packMap, taken;
  }

  /** A set of rewards has one element exactly when all turns carry the same one. */
  lemma OneRewardCounts(ts: seq<Turn>)
    requires ts != []
    ensures |RewardsIn(ts)| == 1 <==> OneReward(ts)
  {
    var r, all := ts[0].reward, RewardsIn(ts);
    assert r in all;
    if OneReward(ts) {
      assert all == {r};
    }
    if |all| == 1 {
      assert all == {r} by {
        assert |all - {r}| == 0;
      }
      assert forall i :: 0 <= i < |ts| ==> ts[i].reward in all;
    }
  }

  /** The chains folded so far, and no other, have had their rewards checked and their
      suffix row rewritten. */
  ghost predicate FoldedSoFar(batch: seq<Turn>, packMap: map<nat, seq<nat>>, width: nat, todo: set<nat>,
                              rows: seq<Turn>)
    requires ChainsFoldable(batch, packMap, width)
  {
    && |rows| == |batch|
    && (forall i :: 0 <= i < |batch| ==> rows[i] == if i in todo then batch[i] else PackedRow(batch, packMap, width, i))
    && (forall k :: k in packMap && k !in todo ==> OneReward(RowsOf(batch, packMap[k] + [k])))
  }

  /** The rows of a chain are still the batch's: its suffix waits and its prefixes are in no
      other chain's place. */
  lemma ChainUntouched(batch: seq<Turn>, packMap: map<nat, seq<nat>>, width: nat, todo: set<nat>, rows: seq<Turn>,
                       k: nat)
    requires AllChainsOk(batch, packMap) && Separated(packMap) && ChainsFoldable(batch, packMap, width)
    requires FoldedSoFar(batch, packMap, width, todo, rows) && k in todo && k in packMap
    ensures InBatch(batch, packMap[k] + [k]) && |packMap[k] + [k]| >= 2
    ensures RowsOf(rows, packMap[k] + [k]) == RowsOf(batch, packMap[k] + [k])
  {
    hide Folded, Foldable;
    var idxs := packMap[k] + [k];
    ChainLength(batch, idxs);
    forall i | 0 <= i < |idxs|
      ensures rows[idxs[i]] == batch[idxs[i]]
    {
      assert idxs[i] == k || idxs[i] in packMap[k];
    }
  }

  /** Rewrite the suffix rows in place, one chain after the other; false when the turns of
      a chain carry different rewards. */
  method FoldSuffixes(batch: seq<Turn>, packMap: map<nat, seq<nat>>, width: nat) returns (ok: bool, rows: array<Turn>)
    requires AllChainsOk(batch, packMap) && Separated(packMap) && ChainsFoldable(batch, packMap, width)
    ensures ok <==> RewardsAgree(batch, packMap)
    ensures ok ==> rows.Length == |batch|
    ensures ok ==> forall i :: 0 <= i < |batch| ==> rows[i] == PackedRow(batch, packMap, width, i)
  {
    hide FoldedSoFar, RowsOf, Folded, Foldable, ChainOk, OneReward, RewardsIn, AllChainsOk, ChainsFoldable,
      RewardsAgree;
    rows := new Turn[|batch|](i requires 0 <= i < |batch| => batch[i]);
    var todo := packMap.Keys;
    assert rows[..] == batch;
    NothingFolded(batch, packMap, width);
    while todo != {}
      invariant todo <= packMap.Keys && FoldedSoFar(batch, packMap, width, todo, rows[..])
      decreases |todo|
    {
      var suffix :| suffix in todo;
      var idxs := packMap[suffix] + [suffix];
      ChainUntouched(batch, packMap, width, todo, rows[..], suffix);
      assert |idxs| >= 2;
      var turns := RowsOf(rows[..], idxs);
      OneRewardCounts(turns);
      if |RewardsIn(turns)| != 1 {
        ChainDisagrees(batch, packMap, suffix);
        return false, rows;
      }
      FoldedNext(batch, packMap, width, todo, rows[..], suffix);
      ghost var next := rows[..][suffix := Folded(turns, width)];
      rows[suffix] := Folded(turns, width);
      assert rows[..] == next;
      todo := todo - {suffix};
    }
    AllFolded(batch, packMap, width, rows[..]);
    return true, rows;
  }

  lemma NothingFolded(batch: seq<Turn>, packMap: map<nat, seq<nat>>, width: nat)
    requires AllChainsOk(batch, packMap) && ChainsFoldable(batch, packMap, width)
    ensures FoldedSoFar(batch, packMap, width, packMap.Keys, batch)
  {
    hide Folded, Foldable, ChainOk;
  }

  lemma FoldedNext(batch: seq<Turn>, packMap: map<nat, seq<nat>>, width: nat, todo: set<nat>, rows: seq<Turn>, k: nat)
    requires AllChainsOk(batch, packMap) && ChainsFoldable(batch, packMap, width)
    requires FoldedSoFar(batch, packMap, width, todo, rows) && k in todo && k in packMap
    requires InBatch(batch, packMap[k] + [k]) && OneReward(RowsOf(batch, packMap[k] + [k]))
    ensures Foldable(RowsOf(batch, packMap[k] + [k]), width) && k < |rows| == |batch|
    ensures FoldedSoFar(batch, packMap, width, todo - {k}, rows[k := Folded(RowsOf(batch, packMap[k] + [k]), width)])
  {
    hide Folded, Foldable, OneReward, RowsOf;
    assert (packMap[k] + [k])[|packMap[k]|] == k;
  }

  lemma ChainDisagrees(batch: seq<Turn>, packMap: map<nat, seq<nat>>, k: nat)
    requires k in packMap && InBatch(batch, packMap[k] + [k]) && !OneReward(RowsOf(batch, packMap[k] + [k]))
    ensures !RewardsAgree(batch, packMap)
  {
    hide OneReward;
  }

  lemma AllFolded(batch: seq<Turn>, packMap: map<nat, seq<nat>>, width: nat, rows: seq<Turn>)
    requires ChainsFoldable(batch, packMap, width) && FoldedSoFar(batch, packMap, width, {}, rows)
    ensures |rows| == |batch| && forall i :: 0 <= i < |batch| ==> rows[i] == PackedRow(batch, packMap, width, i)
    ensures RewardsAgree(batch, packMap)
  {
    hide Folded, Foldable, OneReward;
  }

  lemma ChainLength(batch: seq<Turn>, c: seq<nat>)
    requires ChainOk(batch, c)
    ensures |c| >= 2 && InBatch(batch, c)
  {
  }

  /** None when the turns of some chain carry different rewards. */
  method PackTrajBatch(batch: seq<Turn>, width: nat, groupLevel: bool) returns (out: Option<seq<Turn>>)
    requires batch != [] && AllBuilt(batch, width)
    ensures ChainsFoldable(batch, PackMap(batch), width)
    ensures out == if RewardsAgree(batch, PackMap(batch)) then Some(Pack(batch, width, groupLevel)) else None
  {
    hide PackMap, AllBuilt, RewardsAgree, Prefixes;
    var packMap := FindChains(batch);
    PackMapOk(batch);
    PackMapFoldable(batch, width);
    var ok, rows := FoldSuffixes(batch, packMap, width);
    if !ok {
      return None;
    }
    var packed := [];
    ghost var dropped := Prefixes(packMap);
    for i := 0 to |batch|
      invariant |packed| == |Kept(i, dropped)|
      invariant forall j :: 0 <= j < |packed| ==> packed[j] == PackedRow(batch, packMap, width, Kept(i, dropped)[j])
    {
      if i !in Prefixes(packMap) {
        packed := packed + [rows[i]];
      }
    }
    assert packed == PackedRows(batch, packMap, width);
    if groupLevel {
      packed := Rescaled(packed, (|packed| as real) / (|batch| as real));
    }
    return Some(packed);
  }

  // ----- The reward assert -----

  /** Turns of one trajectory share their reward, as the source asserts of every chain. */
  ghost predicate SameRewards(batch: seq<Turn>) {
    forall i, j :: 0 <= i < |batch| && 0 <= j < |batch| && batch[i].traj == batch[j].traj ==>
      batch[i].reward == batch[j].reward
  }

  lemma {:induction false} ChainTraj(batch: seq<Turn>, c: seq<nat>, j: nat)
    requires ChainOk(batch, c) && j < |c|
    ensures batch[c[0]].traj == batch[c[j]].traj
  {
    if j > 0 {
      ChainTraj(batch, c, j - 1);
      assert Linked(batch[c[j - 1]], batch[c[j - 1 + 1]]);
    }
  }

  /** A batch whose trajectories have one reward each is always packed. */
  lemma SameRewardsAgree(batch: seq<Turn>)
    requires SameRewards(batch)
    ensures RewardsAgree(batch, PackMap(batch))
  {
    PackMapOk(batch);
    var chains := PackMap(batch);
    hide PackMap;
    forall k | k in chains
      ensures InBatch(batch, chains[k] + [k]) && OneReward(RowsOf(batch, chains[k] + [k]))
    {
      var c := chains[k] + [k];
      assert ChainOk(batch, c);
      forall i | 0 <= i < |c|
        ensures batch[c[i]].traj == batch[c[0]].traj
      {
        ChainTraj(batch, c, i);
      }
    }
  }

  // ----- Rows and tokens -----

  lemma {:induction false} KeptCount(n: nat, dropped: set<nat>)
    requires forall x :: x in dropped ==> x < n
    ensures |Kept(n, dropped)| == n - |dropped|
  {
    if n == 0 {
      assert dropped == {};
    } else if n - 1 in dropped {
      KeptCount(n - 1, dropped - {n - 1});
      KeptBelow(n - 1, dropped, dropped - {n - 1});
    } else {
      KeptCount(n - 1, dropped);
    }
  }

  lemma {:induction false} KeptBelow(n: nat, dropped: set<nat>, others: set<nat>)
    requires forall x: nat :: x < n ==> (x in dropped <==> x in others)
    ensures Kept(n, dropped) == Kept(n, others)
  {
    if n > 0 {
      KeptBelow(n - 1, dropped, others);
    }
  }

  lemma {:induction false} KeptAscends(n: nat, dropped: set<nat>)
    ensures forall i, j :: 0 <= i < j < |Kept(n, dropped)| ==> Kept(n, dropped)[i] < Kept(n, dropped)[j]
  {
    if n > 0 {
      KeptAscends(n - 1, dropped);
    }
  }

  /** The rows of `packed` are those at the ascending positions `at`, which are exactly the
      positions that are folded into no other; a row without a chain is left as it was, and a
      tail has its chain folded into it, the tail last. */
  ghost predicate StayAt(batch: seq<Turn>, width: nat, packed: seq<Turn>, at: seq<nat>) {
    && |at| == |packed| && (forall i, j :: 0 <= i < j < |at| ==> at[i] < at[j])
    && (forall x: nat :: x in at <==> x < |batch| && forall k :: k in PackMap(batch) ==> x !in PackMap(batch)[k])
    && (forall i :: 0 <= i < |at| && at[i] < |batch| && at[i] !in PackMap(batch) ==> packed[i] == batch[at[i]])
    && (forall i :: 0 <= i < |at| && at[i] in PackMap(batch) ==>
          var chain := PackMap(batch)[at[i]] + [at[i]];
          && InBatch(batch, chain) && Foldable(RowsOf(batch, chain), width)
          && packed[i] == Folded(RowsOf(batch, chain), width))
  }

  lemma RowsStay(batch: seq<Turn>, width: nat)
    requires batch != [] && ChainsFoldable(batch, PackMap(batch), width)
    ensures exists at :: StayAt(batch, width, Pack(batch, width, false), at)
  {
    hide PackMap, Folded, Foldable, RowsOf;
    var chains := PackMap(batch);
    var dropped := Prefixes(chains);
    var at := Kept(|batch|, dropped);
    KeptAscends(|batch|, dropped);
    forall x: nat
      ensures x in at <==> x < |batch| && forall k :: k in chains ==> x !in chains[k]
    {
      if x < |batch| && x !in dropped {
        KeptHolds(|batch|, dropped, x);
      }
    }
    assert StayAt(batch, width, Pack(batch, width, false), at);
  }

  /** Under group_level the same rows stay, and only their scales change. */
  lemma GroupLevelScales(batch: seq<Turn>, width: nat, i: nat, p: nat)
    requires batch != [] && ChainsFoldable(batch, PackMap(batch), width)
    requires i < |Pack(batch, width, false)| && p < |Pack(batch, width, false)[i].scale|
    ensures var rows, scaled := Pack(batch, width, false), Pack(batch, width, true);
      && |scaled| == |rows| && |scaled[i].scale| == |rows[i].scale|
      && scaled[i] == rows[i].(scale := scaled[i].scale)
      && scaled[i].scale[p] == rows[i].scale[p] * ((|rows| as real) / (|batch| as real))
  {
    hide PackMap, PackedRows;
  }

  /** Output rows number the input rows minus the folded ones. */
  lemma PackedRowCount(batch: seq<Turn>, width: nat)
    requires batch != [] && ChainsFoldable(batch, PackMap(batch), width)
    ensures |Pack(batch, width, false)| == |Pack(batch, width, true)| == |batch| - |Prefixes(PackMap(batch))|
  {
    PackMapOk(batch);
    var chains := PackMap(batch);
    forall x | x in Prefixes(chains)
      ensures x < |batch|
    {
      var k :| k in chains && x in chains[k];
      var i :| 0 <= i < |chains[k]| && chains[k][i] == x;
      assert (chains[k] + [k])[i] == x;
      assert ChainOk(batch, chains[k] + [k]);
    }
    KeptCount(|batch|, Prefixes(chains));
  }

  /** Position p carries the same token history, advantage and log-prob in both rows. */
  ghost predicate SameToken(row: Turn, turn: Turn, width: nat, p: nat)
    requires p < width && Shaped(row, width) && Shaped(turn, width)
  {
    && row.ids[..p + 1] == turn.ids[..p + 1]
    && row.adv[p] == turn.adv[p] && row.prevLogp[p] == turn.prevLogp[p]
  }

  /** Every response token of every turn of a clean chain is a response token of the
      packed row of the chain's tail, with its own turn's advantage and log-prob behind
      the same tokens; and the packed row has no other response token. */
  lemma PackedTokens(batch: seq<Turn>, width: nat, k: nat, p: nat)
    requires AllBuilt(batch, width) && CleanLinks(batch, PackMap(batch))
    requires k in PackMap(batch) && p < width
    ensures k < |batch| && ChainsFoldable(batch, PackMap(batch), width)
    ensures var c, row := PackMap(batch)[k] + [k], PackedRow(batch, PackMap(batch), width, k);
      && InBatch(batch, c) && Shaped(row, width) && AllBuilt(batch, width)
      && (forall i :: 0 <= i < |c| && batch[c[i]].mask[p] ==> row.mask[p] && SameToken(row, batch[c[i]], width, p))
      && (row.mask[p] ==> exists i :: 0 <= i < |c| && batch[c[i]].mask[p])
  {
    hide PackMap;
    PackMapFoldable(batch, width);
    var c := PackMap(batch)[k] + [k];
    assert ChainOk(batch, c) && c[|c| - 1] == k;
    CleanRows(batch, c, width);
    var ts := RowsOf(batch, c);
    var row := PackedRow(batch, PackMap(batch), width, k);
    assert row == Folded(ts, width);
    forall i | 0 <= i < |c| && batch[c[i]].mask[p]
      ensures row.mask[p] && SameToken(row, batch[c[i]], width, p)
    {
      assert ts[i] == batch[c[i]];
      TokenKept(ts, width, i, p);
    }
    if AnyMask(ts, width)[p] {
      var i :| 0 <= i < |ts| && ts[i].mask[p];
      assert batch[c[i]].mask[p];
    }
  }
}
