/**
 What one folded row of `pack_traj_batch` carries, and why folding leaves the objective
 alone: each response token keeps its own turn's advantage and log-prob, and the rescaled
 loss scales make the row mean of the folded row the sum of the turns' row means.
 */
module RowFolding {
  import opened Sequences
  import opened Turns

  /** The turns of one chain, prefixes first, the suffix last. */
  ghost predicate Foldable(ts: seq<Turn>, width: nat) {
    && ts != []
    && (forall i :: 0 <= i < |ts| ==> Shaped(ts[i], width) && Count(ts[i].mask) > 0)
    && ts[0].promptLen <= End(ts[|ts| - 1])
  }

  function Column(vs: seq<seq<real>>, p: nat): (c: seq<real>)
    requires forall i :: 0 <= i < |vs| ==> p < |vs[i]|
    ensures |c| == |vs|
  {
    seq(|vs|, i requires 0 <= i < |vs| => vs[i][p])
  }

  /** `torch.stack(vs).sum(dim=0)`. */
  function AddAll(vs: seq<seq<real>>, width: nat): (s: seq<real>)
    requires forall i :: 0 <= i < |vs| ==> |vs[i]| == width
    ensures |s| == width
  {
    seq(width, p requires 0 <= p < width => RSum(Column(vs, p)))
  }

  /** `masked_fill(~mask, 0)`. */
  function Masked(v: seq<real>, mask: seq<bool>): (r: seq<real>)
    requires |v| == |mask|
    ensures |r| == |v|
  {
    seq(|v|, p requires 0 <= p < |v| => if mask[p] then v[p] else 0.0)
  }

  function TotalCount(ts: seq<Turn>): nat {
    if ts == [] then 0 else Count(ts[0].mask) + TotalCount(ts[1..])
  }

  function AnyMask(ts: seq<Turn>, width: nat): (mask: seq<bool>)
    requires forall i :: 0 <= i < |ts| ==> |ts[i].mask| == width
    ensures |mask| == width
  {
    seq(width, p requires 0 <= p < width => exists i :: 0 <= i < |ts| && ts[i].mask[p])
  }

  /** The factor on a member's loss scales: all response tokens over its own. */
  function Factor(ts: seq<Turn>, i: nat): real
    requires i < |ts| && Count(ts[i].mask) > 0
  {
    (TotalCount(ts) as real) / (Count(ts[i].mask) as real)
  }

  function MaskedLogps(ts: seq<Turn>, width: nat): (vs: seq<seq<real>>)
    requires forall i :: 0 <= i < |ts| ==> Shaped(ts[i], width)
    ensures |vs| == |ts| && forall i :: 0 <= i < |vs| ==> |vs[i]| == width
  {
    seq(|ts|, i requires 0 <= i < |ts| && Shaped(ts[i], width) => Masked(ts[i].prevLogp, ts[i].mask))
  }

  function MaskedAdvs(ts: seq<Turn>, width: nat): (vs: seq<seq<real>>)
    requires forall i :: 0 <= i < |ts| ==> Shaped(ts[i], width)
    ensures |vs| == |ts| && forall i :: 0 <= i < |vs| ==> |vs[i]| == width
  {
    seq(|ts|, i requires 0 <= i < |ts| && Shaped(ts[i], width) => Masked(ts[i].adv, ts[i].mask))
  }

  function RescaledScales(ts: seq<Turn>, width: nat): (vs: seq<seq<real>>)
    requires forall i :: 0 <= i < |ts| ==> Shaped(ts[i], width) && Count(ts[i].mask) > 0
    ensures |vs| == |ts| && forall i :: 0 <= i < |vs| ==> |vs[i]| == width
  {
    seq(|ts|, i requires 0 <= i < |ts| && Shaped(ts[i], width) && Count(ts[i].mask) > 0 =>
      Scaled(Masked(ts[i].scale, ts[i].mask), Factor(ts, i)))
  }

  function Folded(ts: seq<Turn>, width: nat): (row: Turn)
    requires Foldable(ts, width)
    ensures Shaped(row, width)
  {
    var suffix := ts[|ts| - 1];
    suffix.(
      prevLogp := AddAll(MaskedLogps(ts, width), width),
      adv := AddAll(MaskedAdvs(ts, width), width),
      scale := AddAll(RescaledScales(ts, width), width),
      mask := AnyMask(ts, width),
      promptLen := ts[0].promptLen,
      responseLen := End(suffix) - ts[0].promptLen)
  }

  /** The folded row runs from the first turn's prompt to the last turn's end, and is the last
      turn's row in everything that is not merged. */
  lemma FoldedSpan(ts: seq<Turn>, width: nat)
    requires Foldable(ts, width)
    ensures var row, last := Folded(ts, width), ts[|ts| - 1];
      && row.promptLen == ts[0].promptLen
      && row.promptLen + row.responseLen == last.promptLen + last.responseLen
      && row.ids == last.ids && row.traj == last.traj && row.agent == last.agent && row.reward == last.reward
  {
  }

  /** Outside all responses nothing is scored and nothing weighs. */
  lemma FoldedOutside(ts: seq<Turn>, width: nat, p: nat)
    requires Foldable(ts, width) && p < width && forall i :: 0 <= i < |ts| ==> !ts[i].mask[p]
    ensures var row := Folded(ts, width);
      !row.mask[p] && row.adv[p] == row.prevLogp[p] == row.scale[p] == 0.0
  {
    AllZero(Column(MaskedLogps(ts, width), p));
    AllZero(Column(MaskedAdvs(ts, width), p));
    forall i | 0 <= i < |ts|
      ensures Column(RescaledScales(ts, width), p)[i] == 0.0
    {
      assert Mul(0.0, Factor(ts, i)) == 0.0;
    }
    AllZero(Column(RescaledScales(ts, width), p));
  }

  /** Two turns folded: at every position the values of the turns that respond there are added,
      each scale raised by all response tokens over its own turn's. */
  lemma PairFolded(ts: seq<Turn>, width: nat, p: nat)
    requires Foldable(ts, width) && |ts| == 2 && p < width
    ensures var row, a, b := Folded(ts, width), ts[0], ts[1];
      && (row.mask[p] <==> a.mask[p] || b.mask[p])
      && row.adv[p] == (if a.mask[p] then a.adv[p] else 0.0) + (if b.mask[p] then b.adv[p] else 0.0)
      && row.prevLogp[p] == (if a.mask[p] then a.prevLogp[p] else 0.0) + (if b.mask[p] then b.prevLogp[p] else 0.0)
      && row.scale[p] == (if a.mask[p] then Mul(a.scale[p], Share(a, b)) else 0.0)
                         + (if b.mask[p] then Mul(b.scale[p], Share(b, a)) else 0.0)
  {
    hide Count, TotalCount, Factor, Share, RSum, Mul;
    PairSum(Column(MaskedLogps(ts, width), p));
    PairSum(Column(MaskedAdvs(ts, width), p));
    PairSum(Column(RescaledScales(ts, width), p));
    PairShares(ts);
    NothingScaled(Factor(ts, 0));
    NothingScaled(Factor(ts, 1));
  }

  function Share(own: Turn, other: Turn): real
    requires Count(own.mask) > 0
  {
    ((Count(own.mask) + Count(other.mask)) as real) / (Count(own.mask) as real)
  }

  lemma PairShares(ts: seq<Turn>)
    requires |ts| == 2 && Count(ts[0].mask) > 0 && Count(ts[1].mask) > 0
    ensures Factor(ts, 0) == Share(ts[0], ts[1]) && Factor(ts, 1) == Share(ts[1], ts[0])
  {
    hide Count;
    assert TotalCount(ts[1..]) == Count(ts[1].mask) + TotalCount(ts[1..][1..]);
  }

  lemma NothingScaled(c: real)
    ensures Mul(0.0, c) == 0.0
  {
  }

  lemma PairSum(s: seq<real>)
    requires |s| == 2
    ensures RSum(s) == s[0] + s[1]
  {
    assert RSum(s[1..]) == s[1] + RSum(s[1..][1..]);
  }

  // ----- Disjoint turns -----

  ghost predicate Disjoint(ts: seq<Turn>, width: nat)
    requires forall i :: 0 <= i < |ts| ==> |ts[i].mask| == width
  {
    forall i, j, p :: 0 <= i < j < |ts| && 0 <= p < width ==> !(ts[i].mask[p] && ts[j].mask[p])
  }

  /** Up to its last response token every member has the suffix's tokens. */
  ghost predicate TokensAgree(ts: seq<Turn>, width: nat)
    requires Foldable(ts, width)
  {
    forall i, p :: 0 <= i < |ts| && 0 <= p < width && ts[i].mask[p] ==>
      ts[i].ids[..p + 1] == ts[|ts| - 1].ids[..p + 1]
  }

  lemma {:induction false} AllZero(s: seq<real>)
    requires forall i :: 0 <= i < |s| ==> s[i] == 0.0
    ensures RSum(s) == 0.0
  {
    if s != [] {
      AllZero(s[1..]);
    }
  }

  lemma {:induction false} OnlyOne(s: seq<real>, i: nat)
    requires i < |s| && forall j :: 0 <= j < |s| && j != i ==> s[j] == 0.0
    ensures RSum(s) == s[i]
  {
    if i == 0 {
      AllZero(s[1..]);
    } else {
      OnlyOne(s[1..], i - 1);
    }
  }

  lemma OwnerValue(vs: seq<seq<real>>, width: nat, i: nat, p: nat)
    requires forall j :: 0 <= j < |vs| ==> |vs[j]| == width
    requires i < |vs| && p < width && forall j :: 0 <= j < |vs| && j != i ==> vs[j][p] == 0.0
    ensures AddAll(vs, width)[p] == vs[i][p]
  {
    OnlyOne(Column(vs, p), i);
  }

  /** Each response token of a member keeps that member's advantage and log-prob, its
      tokens so far, and its loss scale times the member's factor. */
  lemma TokenKept(ts: seq<Turn>, width: nat, i: nat, p: nat)
    requires Foldable(ts, width) && Disjoint(ts, width) && TokensAgree(ts, width)
    requires i < |ts| && p < width && ts[i].mask[p]
    ensures var row := Folded(ts, width);
      && row.mask[p] && row.adv[p] == ts[i].adv[p] && row.prevLogp[p] == ts[i].prevLogp[p]
      && row.ids[..p + 1] == ts[i].ids[..p + 1] && row.scale[p] == Mul(ts[i].scale[p], Factor(ts, i))
  {
    assert forall j :: 0 <= j < |ts| && j != i ==> !ts[j].mask[p];
    assert Mul(0.0, 0.0) == 0.0 && forall j :: 0 <= j < |ts| && j != i ==> Mul(0.0, Factor(ts, j)) == 0.0;
    hide AddAll, Factor, Mul;
    OwnerValue(MaskedLogps(ts, width), width, i, p);
    OwnerValue(MaskedAdvs(ts, width), width, i, p);
    OwnerValue(RescaledScales(ts, width), width, i, p);
  }

  // ----- The row mean -----

  lemma {:induction false} RSumPlus(a: seq<real>, b: seq<real>, c: seq<real>)
    requires |a| == |b| == |c| && forall p :: 0 <= p < |a| ==> c[p] == a[p] + b[p]
    ensures RSum(c) == RSum(a) + RSum(b)
  {
    if a != [] {
      RSumPlus(a[1..], b[1..], c[1..]);
    }
  }

  function Totals(vs: seq<seq<real>>): (t: seq<real>)
    ensures |t| == |vs|
  {
    seq(|vs|, i requires 0 <= i < |vs| => RSum(vs[i]))
  }

  /** Adding up a stack by columns or by rows is the same. */
  lemma {:induction false} AddAllTotal(vs: seq<seq<real>>, width: nat)
    requires forall i :: 0 <= i < |vs| ==> |vs[i]| == width
    ensures RSum(AddAll(vs, width)) == RSum(Totals(vs))
  {
    if vs == [] {
      AllZero(AddAll(vs, width));
    } else {
      AddAllTotal(vs[1..], width);
      assert Totals(vs)[1..] == Totals(vs[1..]);
      forall p | 0 <= p < width
        ensures AddAll(vs, width)[p] == vs[0][p] + AddAll(vs[1..], width)[p]
      {
        assert Column(vs, p)[1..] == Column(vs[1..], p);
      }
      RSumPlus(vs[0], AddAll(vs[1..], width), AddAll(vs, width));
    }
  }

  function ScaledContributions(ts: seq<Turn>, loss: Loss, width: nat): (vs: seq<seq<real>>)
    requires forall i :: 0 <= i < |ts| ==> Shaped(ts[i], width) && Count(ts[i].mask) > 0
    ensures |vs| == |ts| && forall i :: 0 <= i < |vs| ==> |vs[i]| == width
  {
    seq(|ts|, i requires 0 <= i < |ts| && Shaped(ts[i], width) && Count(ts[i].mask) > 0 =>
      Scaled(Contribution(ts[i], loss), Factor(ts, i)))
  }

  lemma Reorder(a: real, f: real, l: real)
    ensures Mul(Mul(a, f), l) == Mul(Mul(a, l), f)
  {
  }

  lemma FoldedAtToken(ts: seq<Turn>, loss: Loss, width: nat, i: nat, p: nat)
    requires Foldable(ts, width) && Disjoint(ts, width) && TokensAgree(ts, width)
    requires i < |ts| && p < width && ts[i].mask[p]
    ensures Contribution(Folded(ts, width), loss)[p] == AddAll(ScaledContributions(ts, loss, width), width)[p]
  {
    TokenKept(ts, width, i, p);
    assert forall j :: 0 <= j < |ts| && j != i ==> !ts[j].mask[p];
    assert forall j :: 0 <= j < |ts| && j != i ==> Mul(0.0, Factor(ts, j)) == 0.0;
    hide Folded, AddAll, Factor, Mul;
    OwnerValue(ScaledContributions(ts, loss, width), width, i, p);
    Reorder(ts[i].scale[p], Factor(ts, i), TokenLoss(ts[i], loss, p));
  }

  lemma FoldedElsewhere(ts: seq<Turn>, loss: Loss, width: nat, p: nat)
    requires Foldable(ts, width)
    requires p < width && forall i :: 0 <= i < |ts| ==> !ts[i].mask[p]
    ensures Contribution(Folded(ts, width), loss)[p] == AddAll(ScaledContributions(ts, loss, width), width)[p]
  {
    assert !Folded(ts, width).mask[p];
    hide Folded, Factor;
    AllZero(Column(ScaledContributions(ts, loss, width), p));
  }

  lemma FoldedContribution(ts: seq<Turn>, loss: Loss, width: nat)
    requires Foldable(ts, width) && Disjoint(ts, width) && TokensAgree(ts, width)
    ensures Contribution(Folded(ts, width), loss) == AddAll(ScaledContributions(ts, loss, width), width)
  {
    hide Folded, AddAll, ScaledContributions;
    forall p | 0 <= p < width
      ensures Contribution(Folded(ts, width), loss)[p] == AddAll(ScaledContributions(ts, loss, width), width)[p]
    {
      if i :| 0 <= i < |ts| && ts[i].mask[p] {
        FoldedAtToken(ts, loss, width, i, p);
      } else {
        FoldedElsewhere(ts, loss, width, p);
      }
    }
  }

  function Or(a: seq<bool>, b: seq<bool>): (r: seq<bool>)
    requires |a| == |b|
    ensures |r| == |a|
  {
    seq(|a|, p requires 0 <= p < |a| => a[p] || b[p])
  }

  lemma {:induction false} CountOrAnd(a: seq<bool>, b: seq<bool>)
    requires |a| == |b|
    ensures Count(Or(a, b)) + Count(And(a, b)) == Count(a) + Count(b)
  {
    if a != [] {
      assert Or(a, b)[1..] == Or(a[1..], b[1..]);
      assert And(a, b)[1..] == And(a[1..], b[1..]);
      CountOrAnd(a[1..], b[1..]);
    }
  }

  /** The union counts at most the sum of the counts: exactly it when the turns are
      disjoint, less when two of them share a position. */
  lemma {:induction false} CountUnion(ts: seq<Turn>, width: nat)
    requires forall i :: 0 <= i < |ts| ==> |ts[i].mask| == width
    ensures Count(AnyMask(ts, width)) <= TotalCount(ts)
    ensures Count(AnyMask(ts, width)) == TotalCount(ts) <==> Disjoint(ts, width)
  {
    if ts == [] {
      NoneCounted(AnyMask(ts, width));
    } else {
      var first, others := ts[0].mask, AnyMask(ts[1..], width);
      CountUnion(ts[1..], width);
      UnionStep(ts, width);
      CountOrAnd(first, others);
      DisjointStep(ts, width);
    }
  }

  lemma UnionStep(ts: seq<Turn>, width: nat)
    requires ts != [] && forall i :: 0 <= i < |ts| ==> |ts[i].mask| == width
    ensures AnyMask(ts, width) == Or(ts[0].mask, AnyMask(ts[1..], width))
  {
    forall p | 0 <= p < width
      ensures AnyMask(ts, width)[p] == Or(ts[0].mask, AnyMask(ts[1..], width))[p]
    {
      if i :| 0 < i < |ts| && ts[i].mask[p] {
        assert ts[1..][i - 1].mask[p];
      }
    }
  }

  lemma DisjointStep(ts: seq<Turn>, width: nat)
    requires ts != [] && forall i :: 0 <= i < |ts| ==> |ts[i].mask| == width
    ensures Disjoint(ts, width) <==>
      Disjoint(ts[1..], width) && Count(And(ts[0].mask, AnyMask(ts[1..], width))) == 0
  {
    var both := And(ts[0].mask, AnyMask(ts[1..], width));
    if Disjoint(ts, width) {
      NoneCounted(both);
    } else if Disjoint(ts[1..], width) {
      var i, j, p :| 0 <= i < j < |ts| && 0 <= p < width && ts[i].mask[p] && ts[j].mask[p];
      assert ts[1..][j - 1].mask[p];
      assert i == 0;
      CountPositive(both, p);
    }
  }

  function MeansOf(ts: seq<Turn>, loss: Loss, width: nat): (m: seq<real>)
    requires forall i :: 0 <= i < |ts| ==> Shaped(ts[i], width) && Count(ts[i].mask) > 0
    ensures |m| == |ts|
  {
    seq(|ts|, i requires 0 <= i < |ts| && Shaped(ts[i], width) && Count(ts[i].mask) > 0 => RowMean(ts[i], loss))
  }

  lemma FactorTimesCount(ts: seq<Turn>, i: nat)
    requires i < |ts| && Count(ts[i].mask) > 0
    ensures Mul(Factor(ts, i), Count(ts[i].mask) as real) == TotalCount(ts) as real
  {
    hide Count, TotalCount, Mul;
    DivideTimes(TotalCount(ts) as real, Count(ts[i].mask) as real);
  }

  lemma RescaledTotal(ts: seq<Turn>, loss: Loss, width: nat, i: nat)
    requires i < |ts| && Shaped(ts[i], width) && Count(ts[i].mask) > 0
    ensures RSum(Scaled(Contribution(ts[i], loss), Factor(ts, i))) == Mul(RowMean(ts[i], loss), TotalCount(ts) as real)
  {
    hide Contribution, Scaled, RSum, Count, TotalCount, RowMean, Factor, Mul;
    RSumScaled(Contribution(ts[i], loss), Factor(ts, i));
    MeanTimesCount(ts[i], loss);
    FactorTimesCount(ts, i);
    CrossProducts(RSum(Contribution(ts[i], loss)), RowMean(ts[i], loss), Count(ts[i].mask) as real,
                  Factor(ts, i), TotalCount(ts) as real);
  }

  /** The stacked contributions add up to the total count times the sum of row means. */
  lemma StackedTotal(ts: seq<Turn>, loss: Loss, width: nat)
    requires forall i :: 0 <= i < |ts| ==> Shaped(ts[i], width) && Count(ts[i].mask) > 0
    ensures RSum(AddAll(ScaledContributions(ts, loss, width), width))
         == Mul(RSum(MeansOf(ts, loss, width)), TotalCount(ts) as real)
  {
    hide Contribution, Factor, RowMean, AddAll, TotalCount, RSum, Mul;
    var vs, n := ScaledContributions(ts, loss, width), TotalCount(ts) as real;
    AddAllTotal(vs, width);
    forall i | 0 <= i < |ts|
      ensures Totals(vs)[i] == Scaled(MeansOf(ts, loss, width), n)[i]
    {
      RescaledTotal(ts, loss, width, i);
      assert Scaled(MeansOf(ts, loss, width), n)[i] == Mul(RowMean(ts[i], loss), n);
    }
    assert Totals(vs) == Scaled(MeansOf(ts, loss, width), n);
    RSumScaled(MeansOf(ts, loss, width), n);
  }

  lemma FoldedCount(ts: seq<Turn>, width: nat)
    requires Foldable(ts, width)
    ensures 0 < Count(Folded(ts, width).mask) <= TotalCount(ts)
    ensures Count(Folded(ts, width).mask) == TotalCount(ts) <==> Disjoint(ts, width)
  {
    CountUnion(ts, width);
    var p := SomePosition(ts[0].mask);
    CountPositive(AnyMask(ts, width), p);
  }

  lemma {:induction false} SomePosition(mask: seq<bool>) returns (p: nat)
    requires Count(mask) > 0
    ensures p < |mask| && mask[p]
  {
    if mask[0] {
      p := 0;
    } else {
      p := SomePosition(mask[1..]);
      p := p + 1;
    }
  }

  lemma DisjointCount(ts: seq<Turn>, width: nat)
    requires Foldable(ts, width) && Disjoint(ts, width)
    ensures Count(Folded(ts, width).mask) == TotalCount(ts) > 0
  {
    FoldedCount(ts, width);
  }

  /** Folding disjoint turns leaves the sum of row means alone, for every causal loss. */
  lemma FoldKeepsMean(ts: seq<Turn>, loss: Loss, width: nat)
    requires Foldable(ts, width) && Disjoint(ts, width) && TokensAgree(ts, width)
    ensures Count(Folded(ts, width).mask) > 0
    ensures RowMean(Folded(ts, width), loss) == RSum(MeansOf(ts, loss, width))
  {
    FoldedContribution(ts, loss, width);
    StackedTotal(ts, loss, width);
    DisjointCount(ts, width);
    hide Folded, AddAll, ScaledContributions, MeansOf, Contribution, RowMean, TotalCount, Count, RSum, Mul;
    MeanTimesCount(Folded(ts, width), loss);
    SameQuotient(RowMean(Folded(ts, width), loss), RSum(MeansOf(ts, loss, width)), TotalCount(ts) as real);
  }
}
