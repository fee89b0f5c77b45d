/**
 Generalized advantage estimation over one batch column: the backward loop against the
 discounted sums it stands for.
 */
module Gae {
  import opened Sequences

  function Pow(x: real, n: nat): real {
    if n == 0 then 1.0 else Pow(x, n - 1) * x
  }

  /** The terms t..e-1, the k-th weighted by x to the k-t. */
  function Discounted(x: real, terms: seq<real>, t: nat, e: nat): real
    requires t <= e <= |terms|
    decreases e
  {
    if t == e then 0.0 else Discounted(x, terms, t, e - 1) + Pow(x, e - 1 - t) * terms[e - 1]
  }

  /** Where the episode of step t ends: the first done flag after t, else the last flag. */
  function EpisodeEnd(dones: seq<bool>, t: nat): (e: nat)
    requires t + 1 < |dones|
    ensures t < e < |dones|
    ensures forall k :: t < k < e ==> !dones[k]
    ensures e == |dones| - 1 || dones[e]
    decreases |dones| - t
  {
    if t + 2 == |dones| || dones[t + 1] then t + 1 else EpisodeEnd(dones, t + 1)
  }

  /** `~done` as a factor. */
  function Alive(done: bool): real {
    if done then 0.0 else 1.0
  }

  datatype Inputs = Inputs(rewards: seq<real>, dones: seq<bool>, values: Option<seq<real>>, gamma: real, lambda: real) {
    /** One more done flag and one more value than rewards. */
    predicate Valid() {
      |dones| == |rewards| + 1 && (values.Some? ==> |values.value| == |rewards| + 1)
    }

    /** Without a critic both factors are 1. */
    function Gamma(): real {
      if values.None? then 1.0 else gamma
    }

    function Lambda(): real {
      if values.None? then 1.0 else lambda
    }

    /** How much of the next step's advantage counts. */
    function Factor(): real {
      Gamma() * Lambda()
    }

    /** The temporal difference of a step, or just its reward without a critic. */
    function Delta(t: nat): real
      requires Valid() && t < |rewards|
    {
      if values.None? then rewards[t]
      else rewards[t] + gamma * values.value[t + 1] * Alive(dones[t + 1]) - values.value[t]
    }

    function Deltas(): (d: seq<real>)
      requires Valid()
      ensures |d| == |rewards| && forall t :: 0 <= t < |d| ==> d[t] == Delta(t)
    {
      seq(|rewards|, t requires 0 <= t < |rewards| => Delta(t))
    }

    /** The advantage by definition: the discounted differences up to the episode's end. */
    function Advantage(t: nat): real
      requires Valid() && t < |rewards|
    {
      Discounted(Factor(), Deltas(), t, EpisodeEnd(dones, t))
    }
  }

  lemma {:induction false} DiscountedFirst(x: real, terms: seq<real>, t: nat, e: nat)
    requires t < e <= |terms|
    ensures Discounted(x, terms, t, e) == terms[t] + x * Discounted(x, terms, t + 1, e)
    decreases e
  {
    if e == t + 1 {
      assert Discounted(x, terms, t, t) == 0.0;
    } else {
      DiscountedFirst(x, terms, t, e - 1);
      assert Pow(x, e - 1 - t) == Pow(x, e - 2 - t) * x;
      Distribute(x, Discounted(x, terms, t + 1, e - 1), Pow(x, e - 2 - t), terms[e - 1]);
    }
  }

  lemma Distribute(x: real, a: real, p: real, b: real)
    ensures x * (a + p * b) == x * a + (p * x) * b
  {
  }

  /** One backward step from the next step's advantage. */
  lemma AdvantageStep(g: Inputs, t: nat)
    requires g.Valid() && t < |g.rewards|
    ensures g.Advantage(t) == g.Delta(t)
      + g.Factor() * Alive(g.dones[t + 1]) * if t + 1 < |g.rewards| then g.Advantage(t + 1) else 0.0
  {
    hide Inputs.Factor, Inputs.Delta, Inputs.Gamma, Inputs.Lambda, Alive;
    var x, e := g.Factor(), EpisodeEnd(g.dones, t);
    DiscountedFirst(x, g.Deltas(), t, e);
    var next, rest := if t + 1 < |g.rewards| then g.Advantage(t + 1) else 0.0, Discounted(x, g.Deltas(), t + 1, e);
    AliveFactor(x, g.dones[t + 1], next);
    AliveFactor(x, g.dones[t + 1], rest);
    assert g.dones[t + 1] ==> rest == 0.0;
    assert !g.dones[t + 1] ==> rest == next;
  }

  lemma AliveFactor(x: real, done: bool, y: real)
    ensures x * Alive(done) * y == if done then 0.0 else x * y
    ensures y == 0.0 ==> x * y == 0.0
  {
  }

  /** With a critic: the one-step difference, and gamma times lambda of the next step's
      advantage, both cut at a done flag. */
  lemma AdvantageWithCritic(g: Inputs, t: nat)
    requires g.Valid() && t < |g.rewards| && g.values.Some?
    ensures var alive, v := if g.dones[t + 1] then 0.0 else 1.0, g.values.value;
      g.Advantage(t) == g.rewards[t] + g.gamma * v[t + 1] * alive - v[t]
        + g.gamma * g.lambda * alive * if t + 1 < |g.rewards| then g.Advantage(t + 1) else 0.0
  {
    hide Inputs.Advantage;
    AdvantageStep(g, t);
  }

  /** Without a critic: the rewards up to the done flag, whatever gamma and lambda are. */
  lemma AdvantageWithoutCritic(g: Inputs, t: nat)
    requires g.Valid() && t < |g.rewards| && g.values.None?
    ensures g.Advantage(t) == g.rewards[t]
      + if !g.dones[t + 1] && t + 1 < |g.rewards| then g.Advantage(t + 1) else 0.0
    ensures forall gamma: real, lambda: real :: g.(gamma := gamma, lambda := lambda).Advantage(t) == g.Advantage(t)
  {
    AdvantageStep(g, t);
    forall gamma: real, lambda: real
      ensures g.(gamma := gamma, lambda := lambda).Advantage(t) == g.Advantage(t)
    {
      var h := g.(gamma := gamma, lambda := lambda);
      assert h.Deltas() == g.Deltas();
    }
  }

  /** At lambda 0 only the one-step difference is left. */
  lemma AdvantageAtLambdaZero(g: Inputs, t: nat)
    requires g.Valid() && t < |g.rewards| && g.values.Some? && g.lambda == 0.0
    ensures g.Advantage(t)
         == g.rewards[t] + (if g.dones[t + 1] then 0.0 else g.gamma * g.values.value[t + 1]) - g.values.value[t]
  {
    hide Inputs.Advantage;
    AdvantageWithCritic(g, t);
  }

  /** The recursion of the loop, in the rewards, values and flags themselves. */
  ghost predicate StepByStep(g: Inputs, a: seq<real>)
    requires g.Valid() && |a| == |g.rewards|
  {
    forall t :: 0 <= t < |a| ==> a[t] == OneStep(g, t, if t + 1 < |a| then a[t + 1] else 0.0)
  }

  /** The advantage of step t when the next step's is `later`. */
  ghost function OneStep(g: Inputs, t: nat, later: real): real
    requires g.Valid() && t < |g.rewards|
  {
    if g.values.None? then g.rewards[t] + (if g.dones[t + 1] then 0.0 else later)
    else
      var alive, v := if g.dones[t + 1] then 0.0 else 1.0, g.values.value;
      g.rewards[t] + g.gamma * v[t + 1] * alive - v[t] + g.gamma * g.lambda * alive * later
  }

  /** Advantages by definition follow one another by the recursion. */
  lemma StepsHold(g: Inputs, a: seq<real>)
    requires g.Valid() && |a| == |g.rewards| && forall t :: 0 <= t < |a| ==> a[t] == g.Advantage(t)
    ensures StepByStep(g, a)
  {
    hide Inputs.Advantage, OneStep;
    forall t | 0 <= t < |a|
      ensures a[t] == OneStep(g, t, if t + 1 < |a| then a[t + 1] else 0.0)
    {
      StepHolds(g, t);
    }
  }

  lemma StepHolds(g: Inputs, t: nat)
    requires g.Valid() && t < |g.rewards|
    ensures g.Advantage(t) == OneStep(g, t, if t + 1 < |g.rewards| then g.Advantage(t + 1) else 0.0)
  {
    hide Inputs.Advantage;
    if g.values.Some? {
      AdvantageWithCritic(g, t);
    } else {
      AdvantageWithoutCritic(g, t);
    }
  }

  /** One round of the backward loop. */
  method BackwardStep(g: Inputs, step: nat, gae: real) returns (next: real)
    requires g.Valid() && step < |g.rewards|
    requires gae == if step + 1 < |g.rewards| then g.Advantage(step + 1) else 0.0
    ensures next == g.Advantage(step)
  {
    hide Inputs.Advantage;
    AdvantageStep(g, step);
    var delta := if g.values.None? then g.rewards[step]
                 else g.rewards[step] + g.gamma * g.values.value[step + 1] * Alive(g.dones[step + 1])
                      - g.values.value[step];
    next := delta + g.Gamma() * g.Lambda() * Alive(g.dones[step + 1]) * gae;
  }

  /** The backward loop computes every advantage by its definition, and each return as the
      advantage plus the value. */
  method ComputeGae(g: Inputs) returns (advantages: seq<real>, returns_: seq<real>)
    requires g.Valid()
    ensures |advantages| == |returns_| == |g.rewards|
    ensures forall t :: 0 <= t < |g.rewards| ==> advantages[t] == g.Advantage(t)
    ensures forall t :: 0 <= t < |g.rewards| ==>
      returns_[t] == g.Advantage(t) + if g.values.Some? then g.values.value[t] else 0.0
    ensures StepByStep(g, advantages)
  {
    hide Inputs.Advantage, StepByStep;
    var n := |g.rewards|;
    var gae: real, step: nat := 0.0, n;
    returns_ := seq(n, i => 0.0);
    while step > 0
      invariant step <= n && |returns_| == n
      invariant gae == if step < n then g.Advantage(step) else 0.0
      invariant forall t :: step <= t < n ==>
        returns_[t] == g.Advantage(t) + if g.values.Some? then g.values.value[t] else 0.0
    {
      step := step - 1;
      gae := BackwardStep(g, step, gae);
      returns_ := returns_[step := if g.values.None? then gae else gae + g.values.value[step]];
    }
    advantages := if g.values.Some? then seq(n, t requires 0 <= t < n => returns_[t] - g.values.value[t]) else returns_;
    StepsHold(g, advantages);
  }

  // ----- What the definition gives -----

  lemma {:induction false} DiscountedAgrees(x: real, a: seq<real>, b: seq<real>, t: nat, e: nat)
    requires t <= e <= |a| && e <= |b| && forall k :: t <= k < e ==> a[k] == b[k]
    ensures Discounted(x, a, t, e) == Discounted(x, b, t, e)
    decreases e
  {
    if t < e {
      DiscountedAgrees(x, a, b, t, e - 1);
    }
  }

  /** Two inputs, both with a critic or both without, that agree from t up to a done flag. */
  predicate AgreeUpTo(g: Inputs, h: Inputs, t: nat, e: nat)
    requires g.Valid() && h.Valid() && t < e <= |g.rewards| && e <= |h.rewards|
  {
    && (g.values.Some? <==> h.values.Some?) && g.Gamma() == h.Gamma() && g.Lambda() == h.Lambda()
    && (forall k :: t <= k < e ==> g.rewards[k] == h.rewards[k])
    && (g.values.Some? ==> forall k :: t <= k < e ==> g.values.value[k] == h.values.value[k])
    && (forall k :: t < k <= e ==> (g.dones[k] <==> h.dones[k]))
  }

  lemma AliveFactorLast(x: real, y: real, done: bool)
    ensures x * y * Alive(done) == if done then 0.0 else x * y
  {
  }

  /** Nothing behind the done flag of the episode counts: neither rewards, nor values, nor
      even the value at the flag. */
  lemma LaterStepsDoNotCount(g: Inputs, h: Inputs, t: nat)
    requires g.Valid() && h.Valid() && t < |g.rewards| && t < |h.rewards|
    requires g.dones[EpisodeEnd(g.dones, t)] && EpisodeEnd(g.dones, t) <= |h.rewards|
    requires AgreeUpTo(g, h, t, EpisodeEnd(g.dones, t))
    ensures g.Advantage(t) == h.Advantage(t)
  {
    var e := EpisodeEnd(g.dones, t);
    assert EpisodeEnd(h.dones, t) == e;
    assert h.Factor() == g.Factor();
    forall k | t <= k < e
      ensures g.Deltas()[k] == h.Deltas()[k]
    {
      if g.values.Some? {
        AliveFactorLast(g.gamma, g.values.value[k + 1], g.dones[k + 1]);
        AliveFactorLast(h.gamma, h.values.value[k + 1], h.dones[k + 1]);
      }
    }
    DiscountedAgrees(g.Factor(), g.Deltas(), h.Deltas(), t, e);
  }

  /** At lambda 1 the values telescope: the return is the discounted rewards of the episode
      and, if it was cut off without a done flag, the discounted value at the cut. */
  lemma TelescopesAtLambdaOne(g: Inputs, t: nat)
    requires g.Valid() && t < |g.rewards| && g.values.Some? && g.lambda == 1.0
    ensures var e := EpisodeEnd(g.dones, t);
      g.Advantage(t) + g.values.value[t]
      == Discounted(g.gamma, g.rewards, t, e) + Pow(g.gamma, e - t) * g.values.value[e] * Alive(g.dones[e])
  {
    Telescopes(g, t, EpisodeEnd(g.dones, t));
    assert g.Factor() == g.gamma;
  }

  lemma {:induction false} Telescopes(g: Inputs, t: nat, e: nat)
    requires g.Valid() && t < e <= |g.rewards| && g.values.Some? && forall k :: t < k < e ==> !g.dones[k]
    ensures Discounted(g.gamma, g.Deltas(), t, e) + g.values.value[t]
         == Discounted(g.gamma, g.rewards, t, e) + Pow(g.gamma, e - t) * g.values.value[e] * Alive(g.dones[e])
    decreases e
  {
    hide Discounted, Pow, EpisodeEnd;
    var d, v, p := g.Deltas(), g.values.value, Pow(g.gamma, e - 1 - t);
    DiscountedLast(g.gamma, d, t, e);
    DiscountedLast(g.gamma, g.rewards, t, e);
    PowNext(g.gamma, e - 1 - t);
    var soFar, rewards := Discounted(g.gamma, d, t, e - 1), Discounted(g.gamma, g.rewards, t, e - 1);
    if e == t + 1 {
      TimesOne(p, v[t], 1.0);
    } else {
      Telescopes(g, t, e - 1);
      TimesOne(1.0, p * v[e - 1], Alive(g.dones[e - 1]));
    }
    assert soFar + v[t] == rewards + p * v[e - 1];
    TelescopeStep(soFar, rewards, p, Pow(g.gamma, e - t), g.gamma, d[e - 1], g.rewards[e - 1], v[e], Alive(g.dones[e]),
                  v[e - 1], v[t]);
  }

  lemma TimesOne(one: real, x: real, alive: real)
    requires one == 1.0 && alive == 1.0
    ensures one * x == x && x * alive == x
  {
  }

  lemma DiscountedLast(x: real, terms: seq<real>, t: nat, e: nat)
    requires t < e <= |terms|
    ensures Discounted(x, terms, t, e) == Discounted(x, terms, t, e - 1) + Pow(x, e - 1 - t) * terms[e - 1]
    ensures Discounted(x, terms, t, t) == 0.0
  {
  }

  lemma PowNext(x: real, n: nat)
    ensures Pow(x, n + 1) == Pow(x, n) * x && Pow(x, 0) == 1.0
  {
  }

  lemma TelescopeStep(d: real, s: real, p: real, q: real, gamma: real, delta: real, r: real, next: real, alive: real,
                      v: real, first: real)
    requires d + first == s + p * v && q == p * gamma && delta == r + gamma * next * alive - v
    ensures d + p * delta + first == s + p * r + q * next * alive
  {
    assert p * delta == p * r + p * (gamma * next * alive) - p * v;
  }

  // ----- Scores -----

  lemma ScoreIsEpisodeReward(g: Inputs)
    requires g.Valid() && g.values.None?
    ensures g.rewards != [] ==> g.Advantage(0) == Discounted(1.0, g.rewards, 0, EpisodeEnd(g.dones, 0))
  {
    assert g.Deltas() == g.rewards;
  }

  /** `calculate_scores` for one batch column: the first step's undiscounted episode reward,
      which is what the critic-free return of step 0 is. */
  method CalculateScore(g: Inputs) returns (score: real)
    requires g.Valid() && g.values.None?
    ensures score == if g.rewards == [] then 0.0 else g.Advantage(0)
    ensures g.rewards != [] ==> score == Discounted(1.0, g.rewards, 0, EpisodeEnd(g.dones, 0))
  {
    hide Discounted, EpisodeEnd;
    var n := |g.rewards|;
    score := 0.0;
    var step: nat := n;
    while step > 0
      invariant step <= n && score == if step < n then g.Advantage(step) else 0.0
    {
      step := step - 1;
      AdvantageStep(g, step);
      score := score * Alive(g.dones[step + 1]);
      score := score + g.rewards[step];
    }
    ScoreIsEpisodeReward(g);
  }
}
