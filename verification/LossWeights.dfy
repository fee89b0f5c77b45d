/**
 What the loss scales weigh once `agent_scale` and `turn_scale` have run on rows whose
 scales start as ones on response tokens: each agent of a trajectory 1 / A, each
 trajectory one, and under `turn_level` each token of an agent alike, so that the row means
 of a trajectory add up to the average over its agents of their token means.
 */
module LossWeights {
  import opened Sequences
  import opened Turns
  import opened LossScales
  import Grouping

  // ----- Sums over groups -----

  lemma {:induction false} ConstantSum(s: seq<real>, v: real)
    requires forall i :: 0 <= i < |s| ==> s[i] == v
    ensures RSum(s) == Mul(|s| as real, v)
  {
    if s != [] {
      ConstantSum(s[1..], v);
      assert |s| as real == 1.0 + (|s[1..]| as real);
      assert Mul(1.0 + (|s[1..]| as real), v) == v + Mul(|s[1..]| as real, v);
    }
  }

  function GroupSums(w: seq<real>, labels: seq<int>, items: seq<nat>, keys: seq<int>): (sums: seq<real>)
    requires Grouping.Labelled(labels, items) && |w| == |labels|
    ensures |sums| == |keys|
  {
    seq(|keys|, j requires 0 <= j < |keys| => RSum(Picked(w, Grouping.Members(labels, items, keys[j]))))
  }

  lemma SumsWithoutLast(w: seq<real>, labels: seq<int>, items: seq<nat>, keys: seq<int>, j: nat)
    requires Grouping.Labelled(labels, items) && |w| == |labels| && items != [] && j < |keys|
    ensures var x := items[|items| - 1];
      GroupSums(w, labels, items, keys)[j]
      == GroupSums(w, labels, items[..|items| - 1], keys)[j] + if labels[x] == keys[j] then w[x] else 0.0
  {
    var n := |items| - 1;
    if labels[items[n]] == keys[j] {
      PickedLast(w, Grouping.Members(labels, items[..n], keys[j]), items[n]);
    } else {
      assert Grouping.Members(labels, items, keys[j]) == Grouping.Members(labels, items[..n], keys[j]);
    }
  }

  /** The group sums add up to the sum over all items. */
  lemma {:induction false} GroupSumsTotal(w: seq<real>, labels: seq<int>, items: seq<nat>)
    requires Grouping.Labelled(labels, items) && |w| == |labels|
    ensures RSum(GroupSums(w, labels, items, Grouping.Keys(labels, items))) == RSum(Picked(w, items))
  {
    if items != [] {
      var n := |items| - 1;
      var x, before, keys := items[n], items[..n], Grouping.Keys(labels, items[..n]);
      GroupSumsTotal(w, labels, before);
      assert items == before + [x];
      PickedLast(w, before, x);
      if labels[x] in keys {
        KnownKey(w, labels, items, keys);
      } else {
        NewKey(w, labels, items, keys);
      }
    }
  }

  lemma KnownKey(w: seq<real>, labels: seq<int>, items: seq<nat>, keys: seq<int>)
    requires Grouping.Labelled(labels, items) && |w| == |labels| && items != []
    requires Distinct(keys) && labels[items[|items| - 1]] in keys
    ensures RSum(GroupSums(w, labels, items, keys))
         == RSum(GroupSums(w, labels, items[..|items| - 1], keys)) + w[items[|items| - 1]]
  {
    hide Grouping.Members, Picked, RSum, GroupSums, Grouping.Keys;
    var n := |items| - 1;
    var x := items[n];
    var j :| 0 <= j < |keys| && keys[j] == labels[x];
    var s := GroupSums(w, labels, items[..n], keys);
    SumsKnown(w, labels, items, keys, j);
    RSumUpdate(s, j, s[j] + w[x]);
  }

  lemma SumsKnown(w: seq<real>, labels: seq<int>, items: seq<nat>, keys: seq<int>, j: nat)
    requires Grouping.Labelled(labels, items) && |w| == |labels| && items != []
    requires Distinct(keys) && j < |keys| && labels[items[|items| - 1]] == keys[j]
    ensures var s := GroupSums(w, labels, items[..|items| - 1], keys);
      GroupSums(w, labels, items, keys) == s[j := s[j] + w[items[|items| - 1]]]
  {
    hide GroupSums;
    forall i | 0 <= i < |keys|
      ensures GroupSums(w, labels, items, keys)[i]
           == GroupSums(w, labels, items[..|items| - 1], keys)[i] + if i == j then w[items[|items| - 1]] else 0.0
    {
      SumsWithoutLast(w, labels, items, keys, i);
    }
  }

  lemma NewKeySum(w: seq<real>, labels: seq<int>, items: seq<nat>)
    requires Grouping.Labelled(labels, items) && |w| == |labels| && items != []
    requires labels[items[|items| - 1]] !in Grouping.Keys(labels, items[..|items| - 1])
    ensures RSum(Picked(w, Grouping.Members(labels, items, labels[items[|items| - 1]]))) == w[items[|items| - 1]]
  {
    var n := |items| - 1;
    var x := items[n];
    MembersHaveKey(labels, items[..n], labels[x]);
    assert Grouping.Members(labels, items, labels[x]) == [] + [x];
    PickedLast(w, [], x);
  }

  lemma SumsBeforeNewKey(w: seq<real>, labels: seq<int>, items: seq<nat>, keys: seq<int>)
    requires Grouping.Labelled(labels, items) && |w| == |labels| && items != []
    requires labels[items[|items| - 1]] !in keys
    ensures GroupSums(w, labels, items, keys) == GroupSums(w, labels, items[..|items| - 1], keys)
  {
    hide GroupSums;
    forall j | 0 <= j < |keys|
      ensures GroupSums(w, labels, items, keys)[j] == GroupSums(w, labels, items[..|items| - 1], keys)[j]
    {
      SumsWithoutLast(w, labels, items, keys, j);
    }
  }

  lemma SumsAppend(w: seq<real>, labels: seq<int>, items: seq<nat>, keys: seq<int>, k: int)
    requires Grouping.Labelled(labels, items) && |w| == |labels|
    ensures GroupSums(w, labels, items, keys + [k])
         == GroupSums(w, labels, items, keys) + [RSum(Picked(w, Grouping.Members(labels, items, k)))]
  {
  }

  lemma NewKey(w: seq<real>, labels: seq<int>, items: seq<nat>, keys: seq<int>)
    requires Grouping.Labelled(labels, items) && |w| == |labels| && items != []
    requires labels[items[|items| - 1]] !in keys && keys == Grouping.Keys(labels, items[..|items| - 1])
    ensures RSum(GroupSums(w, labels, items, keys + [labels[items[|items| - 1]]]))
         == RSum(GroupSums(w, labels, items[..|items| - 1], keys)) + w[items[|items| - 1]]
  {
    var x := items[|items| - 1];
    NewKeySum(w, labels, items);
    hide Grouping.Members, Picked, Grouping.Keys, RSum, GroupSums;
    SumsAppend(w, labels, items, keys, labels[x]);
    SumsBeforeNewKey(w, labels, items, keys);
    RSumAppend(GroupSums(w, labels, items, keys), w[x]);
  }

  lemma MembersHaveKey(labels: seq<int>, items: seq<nat>, k: int)
    requires Grouping.Labelled(labels, items)
    ensures Grouping.Members(labels, items, k) != [] ==> k in Grouping.Keys(labels, items)
  {
    var m := Grouping.Members(labels, items, k);
    if m != [] {
      assert m[0] in items;
      var i :| 0 <= i < |items| && items[i] == m[0];
      assert labels[items[i]] == k;
    }
  }

  // ----- Weights -----

  function AgentWeights(turns: seq<Turn>): (w: seq<real>)
    ensures |w| == |turns|
  {
    seq(|turns|, i requires 0 <= i < |turns| => AgentFactor(turns, i))
  }

  /** After `turn_scale` has multiplied on top of `agent_scale`. */
  function TurnWeights(turns: seq<Turn>): (w: seq<real>)
    requires AllCounted(turns)
    ensures |w| == |turns|
  {
    seq(|turns|, i requires 0 <= i < |turns| => Mul(AgentFactor(turns, i), TurnFactor(turns, i)))
  }

  /** One over the number of agents of a trajectory. */
  function AgentShare(turns: seq<Turn>, traj: int): real
    requires Agents(turns, traj) != []
  {
    Quot(1.0, |Agents(turns, traj)| as real)
  }

  lemma AgentHasTurns(turns: seq<Turn>, traj: int, agent: int)
    requires agent in Agents(turns, traj)
    ensures AgentTurns(turns, traj, agent) != []
  {
    var all := TrajTurns(turns, traj);
    var i :| 0 <= i < |all| && AgentLabels(turns)[all[i]] == agent;
    assert all[i] in all;
    assert all[i] in AgentTurns(turns, traj, agent);
  }

  lemma TimesQuotient(a: real, t: real)
    requires t > 0.0
    ensures Mul(t, Quot(a, t)) == a
  {
  }

  /** `agent_scale` gives every agent of a trajectory the same total weight 1 / A. */
  lemma AgentTotal(turns: seq<Turn>, traj: int, agent: int)
    requires agent in Agents(turns, traj)
    ensures RSum(Picked(AgentWeights(turns), AgentTurns(turns, traj, agent))) == AgentShare(turns, traj)
  {
    var idxs := AgentTurns(turns, traj, agent);
    AgentHasTurns(turns, traj, agent);
    var share := Quot(AgentShare(turns, traj), |idxs| as real);
    forall n | 0 <= n < |idxs|
      ensures Picked(AgentWeights(turns), idxs)[n] == share
    {
      SameAgent(turns, traj, agent, n);
    }
    hide AgentTurns, Agents, AgentWeights;
    ConstantSum(Picked(AgentWeights(turns), idxs), share);
    TimesQuotient(AgentShare(turns, traj), |idxs| as real);
  }

  lemma SharesAddUp(sums: seq<real>, share: real, n: real)
    requires n == |sums| as real && n > 0.0 && share == Quot(1.0, n)
    requires forall j :: 0 <= j < |sums| ==> sums[j] == share
    ensures RSum(sums) == 1.0
  {
    ConstantSum(sums, share);
    TimesQuotient(1.0, n);
  }

  /** Any weights that give every agent 1 / A give the trajectory one. */
  lemma TrajTotal(turns: seq<Turn>, traj: int, w: seq<real>)
    requires |w| == |turns| && Agents(turns, traj) != []
    requires forall agent :: agent in Agents(turns, traj) ==>
      RSum(Picked(w, AgentTurns(turns, traj, agent))) == AgentShare(turns, traj)
    ensures RSum(Picked(w, TrajTurns(turns, traj))) == 1.0
  {
    var agents := Agents(turns, traj);
    var sums := GroupSums(w, AgentLabels(turns), TrajTurns(turns, traj), agents);
    GroupSumsTotal(w, AgentLabels(turns), TrajTurns(turns, traj));
    forall j | 0 <= j < |sums|
      ensures sums[j] == AgentShare(turns, traj)
    {
      assert agents[j] in agents;
    }
    hide GroupSums, TrajTurns, AgentTurns, Picked, RSum;
    SharesAddUp(sums, AgentShare(turns, traj), |agents| as real);
  }

  /** Every trajectory weighs one after `agent_scale`. */
  lemma AgentScaleConserves(turns: seq<Turn>, traj: int)
    requires Agents(turns, traj) != []
    ensures RSum(Picked(AgentWeights(turns), TrajTurns(turns, traj))) == 1.0
  {
    forall agent | agent in Agents(turns, traj)
      ensures RSum(Picked(AgentWeights(turns), AgentTurns(turns, traj, agent))) == AgentShare(turns, traj)
    {
      AgentTotal(turns, traj, agent);
    }
    hide AgentWeights, AgentShare, Agents, AgentTurns, TrajTurns;
    TrajTotal(turns, traj, AgentWeights(turns));
  }

  /** (a / T) * (T * c / C) == c * (a / C). */
  lemma WeightOfTurn(a: real, t: real, c: real, all: real)
    requires t > 0.0 && all > 0.0
    ensures Mul(Quot(a, t), Quot(t * c, all)) == Mul(c, Quot(a, all))
  {
    assert (a / t) * t == a;
    assert (t * c) / all == t * (c / all);
    assert Mul(Quot(a, t), Quot(t * c, all)) == ((a / t) * t) * (c / all);
    assert c * (a / all) == a * (c / all);
  }

  lemma WeightOfCounts(a: real, t: nat, c: nat, all: nat)
    requires t > 0 && all > 0
    ensures Mul(Quot(a, t as real), Quot((t * c) as real, all as real)) == Mul(c as real, Quot(a, all as real))
  {
    assert (t * c) as real == (t as real) * (c as real);
    hide Mul, Quot;
    WeightOfTurn(a, t as real, c as real, all as real);
  }

  function RealCounts(turns: seq<Turn>): (r: seq<real>)
    ensures |r| == |turns|
  {
    seq(|turns|, i requires 0 <= i < |turns| => Count(turns[i].mask) as real)
  }

  lemma {:induction false} RealCountsTotal(turns: seq<Turn>, idxs: seq<nat>)
    requires forall i :: 0 <= i < |idxs| ==> idxs[i] < |turns|
    ensures RSum(Picked(RealCounts(turns), idxs)) == CountOver(TokenCounts(turns), idxs) as real
  {
    if idxs != [] {
      RealCountsTotal(turns, idxs[1..]);
      assert Picked(RealCounts(turns), idxs)[1..] == Picked(RealCounts(turns), idxs[1..]);
    }
  }

  /** An agent's weight per response token: 1 / A over the agent's token count. */
  function TokenWeight(turns: seq<Turn>, traj: int, agent: int): real
    requires Agents(turns, traj) != [] && CountOver(TokenCounts(turns), AgentTurns(turns, traj, agent)) > 0
  {
    Quot(AgentShare(turns, traj), CountOver(TokenCounts(turns), AgentTurns(turns, traj, agent)) as real)
  }

  /** `turn_scale` makes a turn's weight proportional to its response tokens. */
  lemma TurnWeightIs(turns: seq<Turn>, traj: int, agent: int, n: nat)
    requires AllCounted(turns) && n < |AgentTurns(turns, traj, agent)|
    ensures var idx := AgentTurns(turns, traj, agent)[n];
      && Agents(turns, traj) != [] && CountOver(TokenCounts(turns), AgentTurns(turns, traj, agent)) > 0
      && TurnWeights(turns)[idx] == Mul(Count(turns[idx].mask) as real, TokenWeight(turns, traj, agent))
  {
    var idxs := AgentTurns(turns, traj, agent);
    var idx := idxs[n];
    FactorInGroup(AgentLevel, turns, traj, agent, n);
    FactorInGroup(TurnLevel, turns, traj, agent, n);
    hide AgentTurns, Agents, CountOver, AgentFactor, TurnFactor, Mul, Quot;
    WeightOfCounts(AgentShare(turns, traj), |idxs|, TokenCounts(turns)[idx], CountOver(TokenCounts(turns), idxs));
  }

  /** ... and keeps every agent's total at 1 / A. */
  lemma TurnTotal(turns: seq<Turn>, traj: int, agent: int)
    requires AllCounted(turns) && agent in Agents(turns, traj)
    ensures RSum(Picked(TurnWeights(turns), AgentTurns(turns, traj, agent))) == AgentShare(turns, traj)
  {
    var idxs := AgentTurns(turns, traj, agent);
    AgentHasTurns(turns, traj, agent);
    TurnWeightIs(turns, traj, agent, 0);
    var w := TokenWeight(turns, traj, agent);
    forall n | 0 <= n < |idxs|
      ensures Picked(TurnWeights(turns), idxs)[n] == Scaled(Picked(RealCounts(turns), idxs), w)[n]
    {
      TurnWeightIs(turns, traj, agent, n);
    }
    assert Picked(TurnWeights(turns), idxs) == Scaled(Picked(RealCounts(turns), idxs), w);
    RSumScaled(Picked(RealCounts(turns), idxs), w);
    RealCountsTotal(turns, idxs);
    hide Picked, RealCounts, TurnWeights, AgentTurns, Agents, CountOver, TokenCounts, Scaled, AgentShare;
    TimesQuotient(AgentShare(turns, traj), CountOver(TokenCounts(turns), idxs) as real);
  }

  lemma TurnScaleConserves(turns: seq<Turn>, traj: int)
    requires AllCounted(turns) && Agents(turns, traj) != []
    ensures RSum(Picked(TurnWeights(turns), TrajTurns(turns, traj))) == 1.0
  {
    forall agent | agent in Agents(turns, traj)
      ensures RSum(Picked(TurnWeights(turns), AgentTurns(turns, traj, agent))) == AgentShare(turns, traj)
    {
      TurnTotal(turns, traj, agent);
    }
    hide TurnWeights, AgentShare, Agents, AgentTurns, TrajTurns;
    TrajTotal(turns, traj, TurnWeights(turns));
  }

  // ----- The objective of a trajectory -----

  /** Ones on response tokens, zeros elsewhere: the scales before any scale function. */
  function Ones(mask: seq<bool>): (s: seq<real>)
    ensures |s| == |mask|
  {
    seq(|mask|, p requires 0 <= p < |mask| => if mask[p] then 1.0 else 0.0)
  }

  /** The turn with the scales `agent_scale` and `turn_scale` leave. */
  function FullyScaled(turns: seq<Turn>, i: nat): Turn
    requires i < |turns| && AllCounted(turns)
  {
    turns[i].(scale := Scaled(Scaled(Ones(turns[i].mask), AgentFactor(turns, i)), TurnFactor(turns, i)))
  }

  function TokenLosses(t: Turn, loss: Loss): (v: seq<real>)
    requires Shaped(t, |t.ids|)
    ensures |v| == |t.ids|
  {
    seq(|t.ids|, p requires 0 <= p < |t.ids| => if t.mask[p] then TokenLoss(t, loss, p) else 0.0)
  }

  ghost predicate AllShaped(turns: seq<Turn>) {
    AllCounted(turns) && forall i :: 0 <= i < |turns| ==> Shaped(turns[i], |turns[i].ids|)
  }

  /** Per turn, the sum of its response tokens' losses. */
  function LossSums(turns: seq<Turn>, loss: Loss): (r: seq<real>)
    requires AllShaped(turns)
    ensures |r| == |turns|
  {
    seq(|turns|, i requires 0 <= i < |turns| => RSum(TokenLosses(turns[i], loss)))
  }

  function ScaledMeans(turns: seq<Turn>, loss: Loss): (r: seq<real>)
    requires AllShaped(turns)
    ensures |r| == |turns|
  {
    seq(|turns|, i requires 0 <= i < |turns| => RowMean(FullyScaled(turns, i), loss))
  }

  lemma OneTimes(f: real, g: real, l: real)
    ensures Mul(Mul(Mul(1.0, f), g), l) == Mul(l, Mul(f, g))
  {
    assert (1.0 * f * g) * l == l * (f * g);
  }

  lemma CancelCount(s: real, c: real, w: real)
    requires c > 0.0
    ensures Mul(s, Mul(c, w)) / c == Mul(s, w)
  {
    assert s * (c * w) == (s * w) * c;
  }

  lemma FullyScaledContribution(turns: seq<Turn>, loss: Loss, i: nat)
    requires AllShaped(turns) && i < |turns|
    ensures Contribution(FullyScaled(turns, i), loss)
         == Scaled(TokenLosses(turns[i], loss), Mul(AgentFactor(turns, i), TurnFactor(turns, i)))
  {
    var t, f, g := turns[i], AgentFactor(turns, i), TurnFactor(turns, i);
    var row, w := FullyScaled(turns, i), Mul(AgentFactor(turns, i), TurnFactor(turns, i));
    hide AgentFactor, TurnFactor, AllCounted;
    forall p | 0 <= p < |t.ids|
      ensures Contribution(row, loss)[p] == Scaled(TokenLosses(t, loss), w)[p]
    {
      assert row.ids == t.ids && TokenLoss(row, loss, p) == TokenLoss(t, loss, p);
      OneTimes(f, g, TokenLoss(t, loss, p));
      assert Mul(0.0, w) == 0.0;
    }
  }

  /** A fully scaled turn's row mean: its token losses times the agent's token weight. */
  lemma FullyScaledMean(turns: seq<Turn>, traj: int, agent: int, n: nat, loss: Loss)
    requires AllShaped(turns) && n < |AgentTurns(turns, traj, agent)|
    ensures Agents(turns, traj) != [] && CountOver(TokenCounts(turns), AgentTurns(turns, traj, agent)) > 0
    ensures var idx := AgentTurns(turns, traj, agent)[n];
      ScaledMeans(turns, loss)[idx] == Mul(LossSums(turns, loss)[idx], TokenWeight(turns, traj, agent))
  {
    var idx := AgentTurns(turns, traj, agent)[n];
    TurnWeightIs(turns, traj, agent, n);
    FullyScaledContribution(turns, loss, idx);
    var w := Mul(AgentFactor(turns, idx), TurnFactor(turns, idx));
    assert w == TurnWeights(turns)[idx];
    hide AgentFactor, TurnFactor, TurnWeights, Contribution, TokenLosses, Mul, TokenWeight, AgentTurns, CountOver,
      TokenCounts, Agents;
    RSumScaled(TokenLosses(turns[idx], loss), w);
    CancelCount(RSum(TokenLosses(turns[idx], loss)), Count(turns[idx].mask) as real, TokenWeight(turns, traj, agent));
  }

  /** The mean loss over all response tokens of an agent. */
  function TokenMean(turns: seq<Turn>, traj: int, agent: int, loss: Loss): real
    requires AllShaped(turns) && CountOver(TokenCounts(turns), AgentTurns(turns, traj, agent)) > 0
  {
    Quot(RSum(Picked(LossSums(turns, loss), AgentTurns(turns, traj, agent))),
         CountOver(TokenCounts(turns), AgentTurns(turns, traj, agent)) as real)
  }

  lemma ShareOfMean(s: real, a: real, c: real)
    requires c > 0.0
    ensures Mul(s, Quot(a, c)) == Mul(Quot(s, c), a)
  {
  }

  /** An agent's row means add up to 1 / A of its token mean. */
  lemma AgentObjective(turns: seq<Turn>, traj: int, agent: int, loss: Loss)
    requires AllShaped(turns) && agent in Agents(turns, traj)
    ensures CountOver(TokenCounts(turns), AgentTurns(turns, traj, agent)) > 0
    ensures RSum(Picked(ScaledMeans(turns, loss), AgentTurns(turns, traj, agent)))
         == Mul(TokenMean(turns, traj, agent, loss), AgentShare(turns, traj))
  {
    hide ScaledMeans, LossSums, AgentTurns, Agents, CountOver, TokenCounts, AgentShare, AllShaped;
    var idxs := AgentTurns(turns, traj, agent);
    AgentHasTurns(turns, traj, agent);
    FullyScaledMean(turns, traj, agent, 0, loss);
    var w := TokenWeight(turns, traj, agent);
    forall n | 0 <= n < |idxs|
      ensures Picked(ScaledMeans(turns, loss), idxs)[n] == Scaled(Picked(LossSums(turns, loss), idxs), w)[n]
    {
      FullyScaledMean(turns, traj, agent, n, loss);
    }
    assert Picked(ScaledMeans(turns, loss), idxs) == Scaled(Picked(LossSums(turns, loss), idxs), w);
    hide Picked, Scaled, Mul, RSum;
    RSumScaled(Picked(LossSums(turns, loss), idxs), w);
    ShareOfMean(RSum(Picked(LossSums(turns, loss), idxs)), AgentShare(turns, traj),
      CountOver(TokenCounts(turns), idxs) as real);
  }

  function TokenMeans(turns: seq<Turn>, traj: int, loss: Loss): (m: seq<real>)
    requires AllShaped(turns)
    requires forall agent :: agent in Agents(turns, traj) ==>
      CountOver(TokenCounts(turns), AgentTurns(turns, traj, agent)) > 0
    ensures |m| == |Agents(turns, traj)|
  {
    var agents := Agents(turns, traj);
    seq(|agents|, j requires 0 <= j < |agents| && agents[j] in agents => TokenMean(turns, traj, agents[j], loss))
  }

  lemma AgentsHaveTokens(turns: seq<Turn>, traj: int)
    requires AllCounted(turns)
    ensures forall agent :: agent in Agents(turns, traj) ==>
      CountOver(TokenCounts(turns), AgentTurns(turns, traj, agent)) > 0
  {
    forall agent | agent in Agents(turns, traj)
      ensures CountOver(TokenCounts(turns), AgentTurns(turns, traj, agent)) > 0
    {
      AgentHasTurns(turns, traj, agent);
      SameAgent(turns, traj, agent, 0);
    }
  }

  /** The row means of a trajectory add up to the average over its agents of their token
      means: every token of an agent counts alike, every agent counts alike. */
  lemma TrajObjective(turns: seq<Turn>, traj: int, loss: Loss)
    requires AllShaped(turns) && Agents(turns, traj) != []
    ensures forall agent :: agent in Agents(turns, traj) ==>
      CountOver(TokenCounts(turns), AgentTurns(turns, traj, agent)) > 0
    ensures RSum(Picked(ScaledMeans(turns, loss), TrajTurns(turns, traj)))
         == Mul(RSum(TokenMeans(turns, traj, loss)), AgentShare(turns, traj))
  {
    var agents, w := Agents(turns, traj), ScaledMeans(turns, loss);
    AgentsHaveTokens(turns, traj);
    GroupSumsTotal(w, AgentLabels(turns), TrajTurns(turns, traj));
    var sums := GroupSums(w, AgentLabels(turns), TrajTurns(turns, traj), agents);
    forall j | 0 <= j < |agents|
      ensures sums[j] == Scaled(TokenMeans(turns, traj, loss), AgentShare(turns, traj))[j]
    {
      assert agents[j] in agents;
      AgentObjective(turns, traj, agents[j], loss);
    }
    assert sums == Scaled(TokenMeans(turns, traj, loss), AgentShare(turns, traj));
    RSumScaled(TokenMeans(turns, traj, loss), AgentShare(turns, traj));
  }
}
