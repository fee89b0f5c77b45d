/**
 Rows of a multi-turn training batch and the objective the actor reduces: per row, the
 response-masked mean of loss scale times per-token loss, summed over the rows.
 */
module Turns {
  import opened Sequences

  /** One row. `ids`, `mask` (the response mask), `prevLogp`, `adv` and `scale` all have
      the padded sequence length; `traj` is the rollout the turn belongs to, `agent` the
      sub-trajectory inside it. */
  datatype Turn = Turn(
    traj: int,
    agent: int,
    ids: seq<int>,
    mask: seq<bool>,
    promptLen: nat,
    responseLen: nat,
    prevLogp: seq<real>,
    adv: seq<real>,
    scale: seq<real>,
    reward: real)

  /** A causal per-token loss: it may look at the tokens up to and including the one it
      scores, and at that token's advantage and previous log-prob. */
  type Loss = (seq<int>, real, real) -> real

  ghost predicate Shaped(t: Turn, width: nat) {
    |t.ids| == |t.mask| == |t.prevLogp| == |t.adv| == |t.scale| == width
  }

  function End(t: Turn): nat {
    t.promptLen + t.responseLen
  }

  /** The response mask `_get_attention_masks_and_position_ids` builds. */
  function ResponseMask(promptLen: nat, responseLen: nat, width: nat): (mask: seq<bool>)
    ensures |mask| == width
  {
    seq(width, p => promptLen <= p < promptLen + responseLen)
  }

  /** A row as `to_actor_batch` builds it, with at least one response token. */
  ghost predicate Built(t: Turn, width: nat) {
    && Shaped(t, width)
    && t.responseLen > 0 && End(t) <= width
    && t.mask == ResponseMask(t.promptLen, t.responseLen, width)
  }

  // ----- Sums -----

  function RSum(s: seq<real>): real {
    if s == [] then 0.0 else s[0] + RSum(s[1..])
  }

  lemma {:induction false} RSumConcat(a: seq<real>, b: seq<real>)
    ensures RSum(a + b) == RSum(a) + RSum(b)
  {
    if a == [] {
      assert a + b == b;
    } else {
      assert (a + b)[1..] == a[1..] + b;
      RSumConcat(a[1..], b);
    }
  }

  lemma RSumAppend(s: seq<real>, x: real)
    ensures RSum(s + [x]) == RSum(s) + x
  {
    RSumConcat(s, [x]);
    assert RSum([x]) == x + RSum([]);
  }

  /** Changing one summand changes the sum by as much. */
  lemma {:induction false} RSumUpdate(s: seq<real>, i: nat, x: real)
    requires i < |s|
    ensures RSum(s[i := x]) == RSum(s) - s[i] + x
  {
    if i == 0 {
      assert s[0 := x][1..] == s[1..];
    } else {
      RSumUpdate(s[1..], i - 1, x);
      assert s[i := x][1..] == s[1..][i - 1 := x];
    }
  }

  function Picked(w: seq<real>, c: seq<nat>): (r: seq<real>)
    requires forall i :: 0 <= i < |c| ==> c[i] < |w|
    ensures |r| == |c|
  {
    seq(|c|, i requires 0 <= i < |c| => w[c[i]])
  }

  lemma PickedLast(w: seq<real>, c: seq<nat>, k: nat)
    requires k < |w| && forall i :: 0 <= i < |c| ==> c[i] < |w|
    ensures RSum(Picked(w, c + [k])) == RSum(Picked(w, c)) + w[k]
  {
    assert Picked(w, c + [k]) == Picked(w, c) + [w[k]];
    RSumAppend(Picked(w, c), w[k]);
  }

  /** Products of reals under a name, so that proofs can treat them as opaque values. */
  function Mul(a: real, b: real): real {
    a * b
  }

  function Quot(a: real, b: real): real
    requires b != 0.0
  {
    a / b
  }

  function Scaled(s: seq<real>, c: real): (r: seq<real>)
    ensures |r| == |s|
  {
    seq(|s|, i requires 0 <= i < |s| => Mul(s[i], c))
  }

  lemma {:induction false} RSumScaled(s: seq<real>, c: real)
    ensures RSum(Scaled(s, c)) == Mul(RSum(s), c)
  {
    if s != [] {
      forall i | 0 <= i < |s| - 1
        ensures Scaled(s, c)[1..][i] == Scaled(s[1..], c)[i]
      {
        assert s[1..][i] == s[i + 1];
      }
      assert Scaled(s, c)[1..] == Scaled(s[1..], c);
      RSumScaled(s[1..], c);
      assert (s[0] + RSum(s[1..])) * c == s[0] * c + RSum(s[1..]) * c;
    }
  }

  lemma {:induction false} RSumNonNegative(s: seq<real>)
    requires forall i :: 0 <= i < |s| ==> s[i] >= 0.0
    ensures RSum(s) >= 0.0
    ensures forall i :: 0 <= i < |s| ==> s[i] <= RSum(s)
  {
    if s != [] {
      RSumNonNegative(s[1..]);
      forall i | 0 <= i < |s|
        ensures s[i] <= RSum(s)
      {
        assert i > 0 ==> s[i] == s[1..][i - 1];
      }
    }
  }

  lemma {:induction false} CountPositive(mask: seq<bool>, p: nat)
    requires p < |mask| && mask[p]
    ensures Count(mask) > 0
  {
    if p > 0 {
      CountPositive(mask[1..], p - 1);
    }
  }

  lemma BuiltCounts(t: Turn, width: nat)
    requires Built(t, width)
    ensures Count(t.mask) > 0
  {
    CountPositive(t.mask, t.promptLen);
  }

  function And(a: seq<bool>, b: seq<bool>): (r: seq<bool>)
    requires |a| == |b|
    ensures |r| == |a|
  {
    seq(|a|, p requires 0 <= p < |a| => a[p] && b[p])
  }

  lemma {:induction false} NoneCounted(mask: seq<bool>)
    requires forall p :: 0 <= p < |mask| ==> !mask[p]
    ensures Count(mask) == 0
  {
    if mask != [] {
      NoneCounted(mask[1..]);
    }
  }

  // ----- The objective -----

  function TokenLoss(t: Turn, loss: Loss, p: nat): real
    requires p < |t.ids| == |t.adv| == |t.prevLogp|
  {
    loss(t.ids[..p + 1], t.adv[p], t.prevLogp[p])
  }

  /** Loss scale times token loss on response tokens, nothing elsewhere. */
  function Contribution(t: Turn, loss: Loss): (c: seq<real>)
    requires Shaped(t, |t.ids|)
    ensures |c| == |t.ids|
  {
    seq(|t.ids|, p requires 0 <= p < |t.ids| => if t.mask[p] then Mul(t.scale[p], TokenLoss(t, loss, p)) else 0.0)
  }

  function RowMean(t: Turn, loss: Loss): real
    requires Shaped(t, |t.ids|) && Count(t.mask) > 0
  {
    RSum(Contribution(t, loss)) / (Count(t.mask) as real)
  }

  lemma DivideTimes(a: real, c: real)
    requires c > 0.0
    ensures Mul(a / c, c) == a
  {
  }

  lemma SameQuotient(a: real, b: real, c: real)
    requires c > 0.0 && Mul(a, c) == Mul(b, c)
    ensures a == b
  {
  }

  lemma CrossProducts(x: real, m: real, c: real, f: real, n: real)
    requires Mul(m, c) == x && Mul(f, c) == n
    ensures Mul(x, f) == Mul(m, n)
  {
    assert (m * c) * f == m * (f * c);
  }

  lemma MeanTimesCount(t: Turn, loss: Loss)
    requires Shaped(t, |t.ids|) && Count(t.mask) > 0
    ensures Mul(RowMean(t, loss), Count(t.mask) as real) == RSum(Contribution(t, loss))
  {
    hide Contribution, RSum, Count, Mul;
    DivideTimes(RSum(Contribution(t, loss)), Count(t.mask) as real);
  }

  ghost predicate Reducible(rows: seq<Turn>) {
    forall i :: 0 <= i < |rows| ==> Shaped(rows[i], |rows[i].ids|) && Count(rows[i].mask) > 0
  }

  function RowMeans(rows: seq<Turn>, loss: Loss): (means: seq<real>)
    requires Reducible(rows)
    ensures |means| == |rows|
  {
    seq(|rows|, i requires 0 <= i < |rows| => RowMean(rows[i], loss))
  }

  function Objective(rows: seq<Turn>, loss: Loss): real
    requires Reducible(rows)
  {
    RSum(RowMeans(rows, loss))
  }
}
