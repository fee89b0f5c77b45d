/**
 The loss-scale functions: `group_level`, `agent_level` and `turn_level`. The guards force
 that order; the scales they leave weigh every trajectory by one, every agent of a
 trajectory alike, and every token of an agent alike.
 */
module LossScales {
  import opened Sequences
  import opened Turns
  import Grouping

  datatype Level = GroupLevel | AgentLevel | TurnLevel

  // ----- Grouping by trajectory and agent -----

  function TrajLabels(turns: seq<Turn>): (labels: seq<int>)
    ensures |labels| == |turns|
  {
    seq(|turns|, i requires 0 <= i < |turns| => turns[i].traj)
  }

  function AgentLabels(turns: seq<Turn>): (labels: seq<int>)
    ensures |labels| == |turns|
  {
    seq(|turns|, i requires 0 <= i < |turns| => turns[i].agent)
  }

  function TrajTurns(turns: seq<Turn>, traj: int): (idxs: seq<nat>)
    ensures Grouping.Labelled(AgentLabels(turns), idxs)
  {
    Grouping.Members(TrajLabels(turns), Iota(|turns|), traj)
  }

  /** The agents of a trajectory, each once. */
  function Agents(turns: seq<Turn>, traj: int): seq<int> {
    Grouping.Keys(AgentLabels(turns), TrajTurns(turns, traj))
  }

  function AgentTurns(turns: seq<Turn>, traj: int, agent: int): (idxs: seq<nat>)
    ensures forall i :: 0 <= i < |idxs| ==> idxs[i] < |turns|
  {
    Grouping.Members(AgentLabels(turns), TrajTurns(turns, traj), agent)
  }

  function TokenCounts(turns: seq<Turn>): (counts: seq<nat>)
    ensures |counts| == |turns|
  {
    seq(|turns|, i requires 0 <= i < |turns| => Count(turns[i].mask))
  }

  function CountOver(counts: seq<nat>, idxs: seq<nat>): nat
    requires forall i :: 0 <= i < |idxs| ==> idxs[i] < |counts|
  {
    if idxs == [] then 0 else counts[idxs[0]] + CountOver(counts, idxs[1..])
  }

  lemma TurnIsListed(turns: seq<Turn>, i: nat)
    requires i < |turns|
    ensures i in TrajTurns(turns, turns[i].traj) && i in AgentTurns(turns, turns[i].traj, turns[i].agent)
    ensures turns[i].agent in Agents(turns, turns[i].traj)
  {
    assert Iota(|turns|)[i] == i && i in Iota(|turns|);
    var idxs := TrajTurns(turns, turns[i].traj);
    var j :| 0 <= j < |idxs| && idxs[j] == i;
    assert AgentLabels(turns)[idxs[j]] == turns[i].agent;
  }

  /** 1 / A / T: A agents in the turn's trajectory, T turns of its agent. */
  function AgentFactor(turns: seq<Turn>, i: nat): real
    requires i < |turns|
  {
    TurnIsListed(turns, i);
    Quot(Quot(1.0, |Agents(turns, turns[i].traj)| as real), |AgentTurns(turns, turns[i].traj, turns[i].agent)| as real)
  }

  ghost predicate AllCounted(turns: seq<Turn>) {
    forall i :: 0 <= i < |turns| ==> Count(turns[i].mask) > 0
  }

  lemma {:induction false} CountOverPositive(counts: seq<nat>, idxs: seq<nat>, x: nat)
    requires forall i :: 0 <= i < |idxs| ==> idxs[i] < |counts|
    requires x in idxs && counts[x] > 0
    ensures CountOver(counts, idxs) > 0
  {
    if idxs[0] != x {
      CountOverPositive(counts, idxs[1..], x);
    }
  }

  /** T * c / C: c response tokens in the turn, C in all turns of its agent. */
  function TurnFactor(turns: seq<Turn>, i: nat): real
    requires i < |turns| && AllCounted(turns)
  {
    TurnIsListed(turns, i);
    var idxs := AgentTurns(turns, turns[i].traj, turns[i].agent);
    CountOverPositive(TokenCounts(turns), idxs, i);
    Quot((|idxs| * TokenCounts(turns)[i]) as real, CountOver(TokenCounts(turns), idxs) as real)
  }

  lemma AgentTurnsDistinct(turns: seq<Turn>, traj: int, agent: int)
    ensures Distinct(TrajTurns(turns, traj)) && Distinct(AgentTurns(turns, traj, agent))
  {
    Grouping.MembersDistinct(TrajLabels(turns), Iota(|turns|), traj);
    Grouping.MembersDistinct(AgentLabels(turns), TrajTurns(turns, traj), agent);
  }

  lemma SameAgent(turns: seq<Turn>, traj: int, agent: int, n: nat)
    requires n < |AgentTurns(turns, traj, agent)|
    ensures var idx := AgentTurns(turns, traj, agent)[n];
      && turns[idx].traj == traj && turns[idx].agent == agent
      && |Agents(turns, traj)| > 0 && |AgentTurns(turns, traj, agent)| > 0
      && (Count(turns[idx].mask) > 0 ==> CountOver(TokenCounts(turns), AgentTurns(turns, traj, agent)) > 0)
  {
    var idxs := AgentTurns(turns, traj, agent);
    assert AgentLabels(turns)[idxs[n]] == agent;
    var all := TrajTurns(turns, traj);
    assert idxs[n] in all;
    var j :| 0 <= j < |all| && all[j] == idxs[n];
    assert TrajLabels(turns)[all[j]] == traj;
    TurnIsListed(turns, idxs[n]);
    if Count(turns[idxs[n]].mask) > 0 {
      CountOverPositive(TokenCounts(turns), idxs, idxs[n]);
    }
  }

  // ----- The code -----

  /** The shared scaling context. */
  class Context {
    var folding: seq<Level>

    constructor ()
      ensures folding == []
    {
      folding := [];
    }

    /** The four histories the guards let through. */
    ghost predicate Ordered()
      reads this
    {
      || folding == []
      || folding == [GroupLevel]
      || folding == [GroupLevel, AgentLevel]
      || folding == [GroupLevel, AgentLevel, TurnLevel]
    }
  }

  /** Only the turn factors divide by token counts. */
  ghost predicate Scalable(level: Level, turns: seq<Turn>) {
    level == TurnLevel ==> AllCounted(turns)
  }

  /** `after` has the scales at idxs multiplied by their turns' factors, and no others. */
  ghost predicate ScaledOn(before: seq<seq<real>>, after: seq<seq<real>>, idxs: seq<nat>, level: Level,
                           turns: seq<Turn>)
    requires Scalable(level, turns)
  {
    && |before| == |after| == |turns|
    && forall i :: 0 <= i < |turns| ==>
         after[i] == if i in idxs then Scaled(before[i], Factor(level, turns, i)) else before[i]
  }

  function Factor(level: Level, turns: seq<Turn>, i: nat): real
    requires i < |turns| && Scalable(level, turns)
  {
    if level == TurnLevel then TurnFactor(turns, i) else AgentFactor(turns, i)
  }

  /** `group_scale`: false stands for the failing assert, which changes nothing. */
  method GroupScale(context: Context, advantages: array<seq<real>>, dpWorldSize: nat, globalBatchSize: real)
    returns (ok: bool)
    requires context.Ordered() && globalBatchSize != 0.0
    modifies context, advantages
    ensures context.Ordered() && ok == (old(context.folding) == [])
    ensures context.folding == old(context.folding) + if ok then [GroupLevel] else []
    ensures var factor := ((advantages.Length * dpWorldSize) as real) / globalBatchSize;
      forall i :: 0 <= i < advantages.Length ==>
        advantages[i] == if ok then Scaled(old(advantages[i]), factor) else old(advantages[i])
  {
    if GroupLevel in context.folding {
      return false;
    }
    context.folding := context.folding + [GroupLevel];
    var factor := ((advantages.Length * dpWorldSize) as real) / globalBatchSize;
    for n := 0 to advantages.Length
      invariant context.folding == old(context.folding) + [GroupLevel]
      invariant forall i :: 0 <= i < advantages.Length ==>
        advantages[i] == if i < n then Scaled(old(advantages[i]), factor) else old(advantages[i])
    {
      advantages[n] := Scaled(advantages[n], factor);
    }
    return true;
  }

  lemma FactorInGroup(level: Level, turns: seq<Turn>, traj: int, agent: int, n: nat)
    requires Scalable(level, turns) && n < |AgentTurns(turns, traj, agent)|
    ensures var idxs := AgentTurns(turns, traj, agent);
      && |Agents(turns, traj)| > 0 && |idxs| > 0
      && (level == TurnLevel ==> CountOver(TokenCounts(turns), idxs) > 0)
      && Factor(level, turns, idxs[n]) ==
         if level == TurnLevel then Quot((|idxs| * TokenCounts(turns)[idxs[n]]) as real,
           CountOver(TokenCounts(turns), idxs) as real)
         else Quot(Quot(1.0, |Agents(turns, traj)| as real), |idxs| as real)
  {
    SameAgent(turns, traj, agent, n);
  }

  /** The innermost loop, over the turns of one agent. */
  method ScaleAgent(level: Level, turns: seq<Turn>, traj: int, agent: int, numAgents: nat, idxs: seq<nat>,
                    scales: array<seq<real>>)
    requires Scalable(level, turns) && scales.Length == |turns|
    requires numAgents == |Agents(turns, traj)| && idxs == AgentTurns(turns, traj, agent)
    modifies scales
    ensures ScaledOn(old(scales[..]), scales[..], idxs, level, turns)
  {
    hide AgentTurns, Agents, Factor, Scalable, CountOver, TokenCounts, Scaled;
    AgentTurnsDistinct(turns, traj, agent);
    ghost var before := scales[..];
    for n := 0 to |idxs|
      invariant ScaledOn(before, scales[..], idxs[..n], level, turns)
    {
      var idx := idxs[n];
      FactorInGroup(level, turns, traj, agent, n);
      var factor := if level == TurnLevel
        then Quot((|idxs| * TokenCounts(turns)[idx]) as real, CountOver(TokenCounts(turns), idxs) as real)
        else Quot(Quot(1.0, numAgents as real), |idxs| as real);
      scales[idx] := Scaled(scales[idx], factor);
      assert idx !in idxs[..n] && idxs[..n + 1] == idxs[..n] + [idx];
    }
    assert idxs[..|idxs|] == idxs;
  }

  lemma ScaledNowhere(before: seq<seq<real>>, level: Level, turns: seq<Turn>)
    requires Scalable(level, turns) && |before| == |turns|
    ensures ScaledOn(before, before, [], level, turns)
  {
  }

  lemma ScaledTwice(b0: seq<seq<real>>, b1: seq<seq<real>>, b2: seq<seq<real>>, done: seq<nat>, idxs: seq<nat>,
                    level: Level, turns: seq<Turn>)
    requires Scalable(level, turns) && forall x :: x in idxs ==> x !in done
    requires ScaledOn(b0, b1, done, level, turns) && ScaledOn(b1, b2, idxs, level, turns)
    ensures ScaledOn(b0, b2, done + idxs, level, turns)
  {
    hide Scalable, Factor, Scaled;
    assert forall i: nat :: i in done + idxs <==> i in done || i in idxs;
  }

  lemma AgentMembers(turns: seq<Turn>, traj: int, agent: int)
    ensures forall i: nat :: i in AgentTurns(turns, traj, agent) <==>
      i < |turns| && turns[i].traj == traj && turns[i].agent == agent
  {
    forall i: nat
      ensures i in AgentTurns(turns, traj, agent) <==> i < |turns| && turns[i].traj == traj && turns[i].agent == agent
    {
      if i in AgentTurns(turns, traj, agent) {
        var n :| 0 <= n < |AgentTurns(turns, traj, agent)| && AgentTurns(turns, traj, agent)[n] == i;
        SameAgent(turns, traj, agent, n);
      } else if i < |turns| {
        TurnIsListed(turns, i);
      }
    }
  }

  lemma TrajMembers(turns: seq<Turn>, traj: int)
    ensures forall i: nat :: i in TrajTurns(turns, traj) <==> i < |turns| && turns[i].traj == traj
  {
    forall i: nat
      ensures i in TrajTurns(turns, traj) <==> i < |turns| && turns[i].traj == traj
    {
      if i in TrajTurns(turns, traj) {
        var n :| 0 <= n < |TrajTurns(turns, traj)| && TrajTurns(turns, traj)[n] == i;
        assert TrajLabels(turns)[TrajTurns(turns, traj)[n]] == traj;
      } else if i < |turns| {
        TurnIsListed(turns, i);
      }
    }
  }

  /** The body of the loop over trajectories. */
  method ScaleTraj(level: Level, turns: seq<Turn>, traj: int, trajIdxs: seq<nat>, scales: array<seq<real>>)
    requires Scalable(level, turns) && scales.Length == |turns| && trajIdxs == TrajTurns(turns, traj)
    modifies scales
    ensures ScaledOn(old(scales[..]), scales[..], trajIdxs, level, turns)
  {
    hide Scalable, ScaledOn;
    var agents, groups := Grouping.GroupBy(AgentLabels(turns), trajIdxs);
    assert forall j :: 0 <= j < |agents| ==> agents[j] in agents;
    ScaleAgents(level, turns, traj, agents, groups, scales);
  }

  /** `done` lists the turns of these agents of the trajectory. */
  ghost predicate Visited(turns: seq<Turn>, traj: int, agents: seq<int>, done: seq<nat>) {
    forall i: nat :: i in done <==> i < |turns| && turns[i].traj == traj && turns[i].agent in agents
  }

  lemma VisitedGrows(turns: seq<Turn>, traj: int, agents: seq<int>, done: seq<nat>, agent: int)
    requires Visited(turns, traj, agents, done) && agent !in agents
    ensures Visited(turns, traj, agents + [agent], done + AgentTurns(turns, traj, agent))
    ensures forall x :: x in AgentTurns(turns, traj, agent) ==> x !in done
  {
    AgentMembers(turns, traj, agent);
  }

  lemma VisitedAll(turns: seq<Turn>, traj: int, done: seq<nat>)
    requires Visited(turns, traj, Agents(turns, traj), done)
    ensures forall i: nat :: i in done <==> i in TrajTurns(turns, traj)
  {
    AllAgents(turns, traj);
    TrajMembers(turns, traj);
  }

  /** The loop over the agents of one trajectory. */
  method ScaleAgents(level: Level, turns: seq<Turn>, traj: int, agents: seq<int>, groups: map<int, seq<nat>>,
                     scales: array<seq<real>>)
    requires Scalable(level, turns) && scales.Length == |turns| && agents == Agents(turns, traj)
    requires forall j :: 0 <= j < |agents| ==>
      agents[j] in groups && groups[agents[j]] == AgentTurns(turns, traj, agents[j])
    modifies scales
    ensures ScaledOn(old(scales[..]), scales[..], TrajTurns(turns, traj), level, turns)
  {
    ghost var before := scales[..];
    ghost var done: seq<nat> := [];
    ScaledNowhere(before, level, turns);
    AgentsDistinct(turns, traj);
    assert Visited(turns, traj, [], []);
    hide Scalable, ScaledOn, AgentTurns, TrajTurns, Agents, Visited, Factor, Scaled;
    for a := 0 to |agents|
      invariant ScaledOn(before, scales[..], done, level, turns)
      invariant Visited(turns, traj, agents[..a], done)
    {
      assert agents[a] !in agents[..a];
      assert agents[..a + 1] == agents[..a] + [agents[a]];
      done := ScaleNextAgent(level, turns, traj, agents, a, groups[agents[a]], scales, before, done);
    }
    assert agents[..|agents|] == agents;
    VisitedAll(turns, traj, done);
    SameMembers(before, scales[..], done, TrajTurns(turns, traj), level, turns);
  }

  /** One agent more of the trajectory. */
  method ScaleNextAgent(level: Level, turns: seq<Turn>, traj: int, agents: seq<int>, a: nat, idxs: seq<nat>,
                        scales: array<seq<real>>, ghost before: seq<seq<real>>, ghost done: seq<nat>)
    returns (ghost more: seq<nat>)
    requires Scalable(level, turns) && scales.Length == |turns| && agents == Agents(turns, traj)
    requires a < |agents| && agents[a] !in agents[..a] && idxs == AgentTurns(turns, traj, agents[a])
    requires ScaledOn(before, scales[..], done, level, turns) && Visited(turns, traj, agents[..a], done)
    modifies scales
    ensures ScaledOn(before, scales[..], more, level, turns)
    ensures Visited(turns, traj, agents[..a] + [agents[a]], more)
  {
    hide Scalable, ScaledOn, AgentTurns, Agents, Visited, Factor, Scaled;
    VisitedGrows(turns, traj, agents[..a], done, agents[a]);
    ghost var mid := scales[..];
    ScaleAgent(level, turns, traj, agents[a], |agents|, idxs, scales);
    ScaledTwice(before, mid, scales[..], done, idxs, level, turns);
    more := done + idxs;
  }

  lemma AgentsDistinct(turns: seq<Turn>, traj: int)
    ensures Distinct(Agents(turns, traj))
  {
  }

  lemma AllAgents(turns: seq<Turn>, traj: int)
    ensures forall i :: 0 <= i < |turns| && turns[i].traj == traj ==> turns[i].agent in Agents(turns, traj)
  {
    forall i | 0 <= i < |turns| && turns[i].traj == traj
      ensures turns[i].agent in Agents(turns, traj)
    {
      TurnIsListed(turns, i);
    }
  }

  function AllOf(turns: seq<Turn>, trajs: seq<int>): (idxs: seq<nat>)
    ensures forall i: nat :: i in idxs <==> i < |turns| && turns[i].traj in trajs
  {
    AllUpTo(turns, trajs, |turns|)
  }

  function AllUpTo(turns: seq<Turn>, trajs: seq<int>, n: nat): (idxs: seq<nat>)
    requires n <= |turns|
    ensures forall i: nat :: i in idxs <==> i < n && turns[i].traj in trajs
  {
    if n == 0 then [] else AllUpTo(turns, trajs, n - 1) + if turns[n - 1].traj in trajs then [n - 1] else []
  }

  lemma SameMembers(b0: seq<seq<real>>, b1: seq<seq<real>>, xs: seq<nat>, ys: seq<nat>, level: Level, turns: seq<Turn>)
    requires Scalable(level, turns) && ScaledOn(b0, b1, xs, level, turns)
    requires forall i: nat :: i in xs <==> i in ys
    ensures ScaledOn(b0, b1, ys, level, turns)
  {
  }

  method GroupTrajs(turns: seq<Turn>) returns (trajs: seq<int>, groups: map<int, seq<nat>>)
    ensures Distinct(trajs) && forall i :: 0 <= i < |turns| ==> turns[i].traj in trajs
    ensures forall j :: 0 <= j < |trajs| ==> trajs[j] in groups && groups[trajs[j]] == TrajTurns(turns, trajs[j])
  {
    trajs, groups := Grouping.GroupBy(TrajLabels(turns), Iota(|turns|));
    AllTrajs(turns, trajs);
    hide Grouping.Keys, Grouping.Members, TrajLabels;
    assert forall j :: 0 <= j < |trajs| ==> trajs[j] in trajs;
  }

  /** The loops shared by `agent_scale` and `turn_scale`. */
  method ScaleAll(level: Level, turns: seq<Turn>, scales: array<seq<real>>)
    requires Scalable(level, turns) && scales.Length == |turns|
    modifies scales
    ensures forall i :: 0 <= i < |turns| ==> scales[i] == Scaled(old(scales[i]), Factor(level, turns, i))
  {
    var trajs, groups := GroupTrajs(turns);
    ghost var before := scales[..];
    ScaleTrajs(level, turns, trajs, groups, scales);
    ScaledEverywhere(before, scales[..], trajs, level, turns);
  }

  lemma ScaledEverywhere(before: seq<seq<real>>, after: seq<seq<real>>, trajs: seq<int>, level: Level, turns: seq<Turn>)
    requires Scalable(level, turns) && ScaledOn(before, after, AllOf(turns, trajs), level, turns)
    requires forall i :: 0 <= i < |turns| ==> turns[i].traj in trajs
    ensures forall i :: 0 <= i < |turns| ==> after[i] == Scaled(before[i], Factor(level, turns, i))
  {
    hide Scalable, Scaled, Factor, AllOf;
    assert forall i :: 0 <= i < |turns| ==> i in AllOf(turns, trajs);
  }

  lemma AllTrajs(turns: seq<Turn>, trajs: seq<int>)
    requires trajs == Grouping.Keys(TrajLabels(turns), Iota(|turns|))
    ensures forall i :: 0 <= i < |turns| ==> turns[i].traj in trajs
  {
    forall i | 0 <= i < |turns|
      ensures turns[i].traj in trajs
    {
      assert TrajLabels(turns)[Iota(|turns|)[i]] == turns[i].traj;
    }
  }

  /** The loop over the trajectories. */
  method ScaleTrajs(level: Level, turns: seq<Turn>, trajs: seq<int>, groups: map<int, seq<nat>>,
                    scales: array<seq<real>>)
    requires Scalable(level, turns) && scales.Length == |turns| && Distinct(trajs)
    requires forall j :: 0 <= j < |trajs| ==> trajs[j] in groups && groups[trajs[j]] == TrajTurns(turns, trajs[j])
    modifies scales
    ensures ScaledOn(old(scales[..]), scales[..], AllOf(turns, trajs), level, turns)
  {
    ghost var before := scales[..];
    ghost var done: seq<nat> := [];
    ScaledNowhere(before, level, turns);
    hide Scalable, ScaledOn, TrajTurns;
    for t := 0 to |trajs|
      invariant ScaledOn(before, scales[..], done, level, turns)
      invariant forall i: nat :: i in done <==> i < |turns| && turns[i].traj in trajs[..t]
    {
      assert trajs[t] !in trajs[..t];
      var idxs := groups[trajs[t]];
      TrajMembers(turns, trajs[t]);
      ghost var mid := scales[..];
      ScaleTraj(level, turns, trajs[t], idxs, scales);
      ScaledTwice(before, mid, scales[..], done, idxs, level, turns);
      done := done + idxs;
      assert trajs[..t + 1] == trajs[..t] + [trajs[t]];
    }
    assert trajs[..|trajs|] == trajs;
    SameMembers(before, scales[..], done, AllOf(turns, trajs), level, turns);
  }

  method AgentScale(context: Context, turns: seq<Turn>, scales: array<seq<real>>) returns (ok: bool)
    requires context.Ordered() && scales.Length == |turns|
    modifies context, scales
    ensures context.Ordered() && ok == (old(context.folding) == [GroupLevel])
    ensures context.folding == old(context.folding) + if ok then [AgentLevel] else []
    ensures forall i :: 0 <= i < |turns| ==>
      scales[i] == if ok then Scaled(old(scales[i]), AgentFactor(turns, i)) else old(scales[i])
  {
    if !(GroupLevel in context.folding && AgentLevel !in context.folding) {
      return false;
    }
    context.folding := context.folding + [AgentLevel];
    ScaleAll(AgentLevel, turns, scales);
    return true;
  }

  method TurnScale(context: Context, turns: seq<Turn>, scales: array<seq<real>>) returns (ok: bool)
    requires context.Ordered() && AllCounted(turns) && scales.Length == |turns|
    modifies context, scales
    ensures context.Ordered() && ok == (old(context.folding) == [GroupLevel, AgentLevel])
    ensures context.folding == old(context.folding) + if ok then [TurnLevel] else []
    ensures forall i :: 0 <= i < |turns| ==>
      scales[i] == if ok then Scaled(old(scales[i]), TurnFactor(turns, i)) else old(scales[i])
  {
    if !(GroupLevel in context.folding && AgentLevel in context.folding && TurnLevel !in context.folding) {
      return false;
    }
    context.folding := context.folding + [TurnLevel];
    ScaleAll(TurnLevel, turns, scales);
    return true;
  }
}
