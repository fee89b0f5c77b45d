/** `down_sample_batch`: which sequences of each group survive, and how they regroup. */
module DownSampling {
  import opened Sequences
  import opened Arithmetic

  // ----- Groups -----

  /** Where group u starts. */
  function First(u: nat, size: nat): nat {
    u * size
  }

  /** `i // max(1, group_size)`. */
  function UidOf(i: nat, size: nat): nat
    requires size > 0
  {
    i / size
  }

  lemma UidRange(i: nat, u: nat, size: nat)
    requires size > 0
    ensures First(u + 1, size) == First(u, size) + size
    ensures UidOf(i, size) == u <==> First(u, size) <= i < First(u + 1, size)
  {
    assert i == UidOf(i, size) * size + i % size;
    if First(u, size) <= i < First(u + 1, size) {
      assert i == u * size + (i - u * size);
      DivModUnique(i, size, u, i - u * size);
    }
  }

  /** The indices of group u, in order; the last group may be short. */
  function Group(total: nat, u: nat, size: nat): (idxs: seq<nat>)
    requires First(u, size) <= total
    ensures |idxs| == Min(size, total - First(u, size))
    ensures forall k :: 0 <= k < |idxs| ==> idxs[k] == First(u, size) + k
  {
    seq(Min(size, total - First(u, size)), k requires 0 <= k => First(u, size) + k)
  }

  lemma InGroup(total: nat, u: nat, size: nat, i: nat)
    requires size > 0 && First(u, size) <= total
    ensures i in Group(total, u, size) <==> i < total && UidOf(i, size) == u
  {
    UidRange(i, u, size);
    hide First, UidOf;
    var g := Group(total, u, size);
    if i < total && First(u, size) <= i < First(u, size) + size {
      assert g[i - First(u, size)] == i;
    }
  }

  // ----- The choice within a group -----

  datatype Config = Config(downSampleToN: int, rocErrorRatio: bool, rocAnswerFormat: bool, minZero: int,
                           minNonZero: int)

  /** An index of the batch with its penalty. */
  datatype Pair = Pair(index: nat, penalty: real)

  /** `round(a / b)`: to the nearest, halves to the even side. */
  function Round(a: nat, b: nat): nat
    requires b > 0
  {
    var q, r := a / b, a % b;
    if 2 * r < b || (2 * r == b && q % 2 == 0) then q else q + 1
  }

  /** q is the whole number nearest to a / b, the even one of two. */
  predicate Nearest(q: int, a: nat, b: nat) {
    && 2 * a - b <= 2 * q * b <= 2 * a + b
    && (2 * q * b == 2 * a - b || 2 * q * b == 2 * a + b ==> q % 2 == 0)
  }

  lemma RoundIsNearest(a: nat, b: nat)
    requires b > 0
    ensures Nearest(Round(a, b), a, b)
  {
    var q, r := a / b, a % b;
    assert a == q * b + r;
    assert 2 * q * b == 2 * (q * b) && 2 * (q + 1) * b == 2 * (q * b) + 2 * b;
  }

  lemma NearestIsOne(p: int, q: int, a: nat, b: nat)
    requires b > 0 && Nearest(p, a, b) && Nearest(q, a, b)
    ensures p == q
  {
    NotApart(p, q, a, b);
    NotApart(q, p, a, b);
  }

  lemma NotApart(p: int, q: int, a: nat, b: nat)
    requires b > 0 && Nearest(p, a, b) && Nearest(q, a, b)
    ensures p >= q
  {
    if p < q {
      MulMonotone(p + 1, q, 2 * b);
      assert (p + 1) * (2 * b) == 2 * p * b + 2 * b && q * (2 * b) == 2 * q * b;
      assert 2 * p * b == 2 * a - b && 2 * q * b == 2 * a + b;
      assert (q - p) * (2 * b) == 1 * (2 * b);
      ProductOrder(q - p, 2, 2 * b);
      assert false;
    }
  }

  /** Python's `s[:k]`. */
  function Prefix<T>(s: seq<T>, k: int): (r: seq<T>)
    ensures 0 <= k <= |s| ==> |r| == k
  {
    if k < 0 then s[..Max(0, |s| + k)] else s[..Min(k, |s|)]
  }

  function InsertPair(x: Pair, s: seq<Pair>): (r: seq<Pair>)
    ensures multiset(r) == multiset(s) + multiset{x}
  {
    if s == [] || x.penalty <= s[0].penalty then [x] + s
    else
      assert s == [s[0]] + s[1..];
      [s[0]] + InsertPair(x, s[1..])
  }

  /** A stable sort by penalty. */
  function SortPairs(s: seq<Pair>): (r: seq<Pair>)
    ensures multiset(r) == multiset(s)
  {
    if s == [] then []
    else
      assert s == [s[0]] + s[1..];
      InsertPair(s[0], SortPairs(s[1..]))
  }

  ghost predicate Ordered(s: seq<Pair>) {
    forall i, j :: 0 <= i < j < |s| ==> s[i].penalty <= s[j].penalty
  }

  lemma {:induction false} InsertOrders(x: Pair, s: seq<Pair>)
    requires Ordered(s)
    ensures Ordered(InsertPair(x, s))
    ensures InsertPair(x, s)[0] == x || (s != [] && InsertPair(x, s)[0] == s[0])
  {
    if s != [] && !(x.penalty <= s[0].penalty) {
      InsertOrders(x, s[1..]);
    }
  }

  lemma {:induction false} SortOrders(s: seq<Pair>)
    ensures Ordered(SortPairs(s))
  {
    if s != [] {
      SortOrders(s[1..]);
      InsertOrders(s[0], SortPairs(s[1..]));
    }
  }

  function Indices(s: seq<Pair>): (r: seq<nat>)
    ensures |r| == |s| && forall k :: 0 <= k < |r| ==> r[k] == s[k].index
  {
    seq(|s|, k requires 0 <= k < |s| => s[k].index)
  }

  /** The pairs of a group whose reward is positive, or is not. */
  function PairsOf(idxs: seq<nat>, rewards: seq<real>, penalties: seq<real>, positive: bool): seq<Pair>
    requires forall k :: 0 <= k < |idxs| ==> idxs[k] < |rewards| && idxs[k] < |penalties|
  {
    if idxs == [] then []
    else
      (if (rewards[idxs[0]] > 0.0) == positive then [Pair(idxs[0], penalties[idxs[0]])] else [])
      + PairsOf(idxs[1..], rewards, penalties, positive)
  }

  /** How many of the zero-reward and of the other sequences to take: in proportion, unless
      a configured minimum asks for more. Either can come out negative or too large. */
  function Quotas(zeros: nat, nonZeros: nat, n: int, minZero: int, minNonZero: int): (int, int)
    requires zeros + nonZeros > 0 && n >= 0
  {
    var z0 := Round(zeros * n, zeros + nonZeros);
    var nz0 := Round(nonZeros * n, zeros + nonZeros);
    var (z1, nz1) := if z0 <= Min(minZero, zeros) then (Min(minZero, zeros), n - Min(minZero, zeros)) else (z0, nz0);
    if nz1 <= Min(minNonZero, nonZeros) then (n - Min(minNonZero, nonZeros), Min(minNonZero, nonZeros)) else (z1, nz1)
  }

  /** Each quota is its side's share of n, to the nearest, unless a minimum takes effect: the
      minimum of the others when their share is no more, with the rest for the rewarded, and
      then the minimum of the rewarded when they would get no more, with the rest for the others. */
  lemma QuotasMean(zeros: nat, nonZeros: nat, n: int, minZero: int, minNonZero: int, zShare: int, nzShare: int)
    requires zeros + nonZeros > 0 && n >= 0
    requires Nearest(zShare, zeros * n, zeros + nonZeros) && Nearest(nzShare, nonZeros * n, zeros + nonZeros)
    ensures var (z, nz) := Quotas(zeros, nonZeros, n, minZero, minNonZero);
      var (mz, mnz) := (Min(minZero, zeros), Min(minNonZero, nonZeros));
      && (zShare > mz && nzShare > mnz ==> z == zShare && nz == nzShare)
      && (zShare <= mz && n - mz > mnz ==> z == mz && nz == n - mz)
      && (zShare <= mz && n - mz <= mnz ==> z == n - mnz && nz == mnz)
      && (zShare > mz && nzShare <= mnz ==> z == n - mnz && nz == mnz)
  {
    hide Round, Nearest;
    OneNearest(zShare, zeros * n, zeros + nonZeros);
    OneNearest(nzShare, nonZeros * n, zeros + nonZeros);
  }

  lemma OneNearest(share: int, a: nat, b: nat)
    requires b > 0 && Nearest(share, a, b)
    ensures Round(a, b) == share
  {
    RoundIsNearest(a, b);
    NearestIsOne(share, Round(a, b), a, b);
  }

  /** The best of the rewarded and the first of the others; the overall best when the quotas
      do not make n. */
  function ChooseIn(idxs: seq<nat>, rewards: seq<real>, penalties: seq<real>, cfg: Config): seq<nat>
    requires idxs != [] && cfg.downSampleToN > 0
    requires forall k :: 0 <= k < |idxs| ==> idxs[k] < |rewards| && idxs[k] < |penalties|
  {
    PairsCover(idxs, rewards, penalties);
    var zero := PairsOf(idxs, rewards, penalties, false);
    var nonZero := SortPairs(PairsOf(idxs, rewards, penalties, true));
    SortKeepsLength(PairsOf(idxs, rewards, penalties, true));
    var (zQuota, nzQuota) := Quotas(|zero|, |nonZero|, cfg.downSampleToN, cfg.minZero, cfg.minNonZero);
    var chosen := Indices(Prefix(nonZero, nzQuota)) + Indices(Prefix(zero, zQuota));
    if |chosen| != cfg.downSampleToN then Indices(Prefix(SortPairs(nonZero + zero), cfg.downSampleToN)) else chosen
  }

  lemma SortKeepsLength(s: seq<Pair>)
    ensures |SortPairs(s)| == |s|
  {
    assert |multiset(SortPairs(s))| == |multiset(s)|;
  }

  /** Every index of the group is in exactly one of the two lists. */
  lemma {:induction false} PairsCover(idxs: seq<nat>, rewards: seq<real>, penalties: seq<real>)
    requires forall k :: 0 <= k < |idxs| ==> idxs[k] < |rewards| && idxs[k] < |penalties|
    ensures var zero, nonZero := PairsOf(idxs, rewards, penalties, false), PairsOf(idxs, rewards, penalties, true);
      && |zero| + |nonZero| == |idxs|
      && multiset(Indices(nonZero)) + multiset(Indices(zero)) == multiset(idxs)
  {
    hide Indices, PairsOf;
    PairsStep(idxs, rewards, penalties, false);
    PairsStep(idxs, rewards, penalties, true);
    if idxs == [] {
      NoIndices();
    } else {
      PairsCover(idxs[1..], rewards, penalties);
      assert idxs == [idxs[0]] + idxs[1..];
      CoverGrows(PairsOf(idxs[1..], rewards, penalties, false), PairsOf(idxs[1..], rewards, penalties, true), idxs[1..],
                 Pair(idxs[0], penalties[idxs[0]]), rewards[idxs[0]] > 0.0);
    }
  }

  lemma CoverGrows(zero: seq<Pair>, nonZero: seq<Pair>, rest: seq<nat>, x: Pair, positive: bool)
    requires |zero| + |nonZero| == |rest|
    requires multiset(Indices(nonZero)) + multiset(Indices(zero)) == multiset(rest)
    ensures var z, nz := (if positive then [] else [x]) + zero, (if positive then [x] else []) + nonZero;
      && |z| + |nz| == |rest| + 1
      && multiset(Indices(nz)) + multiset(Indices(z)) == multiset([x.index] + rest)
  {
    hide Indices;
    assert [] + zero == zero && [] + nonZero == nonZero;
    ConsMultiset(x.index, rest);
    IndicesCons(x, zero);
    IndicesCons(x, nonZero);
    OneSideGrows(multiset(Indices(nonZero)), multiset(Indices(zero)), multiset(rest), x.index);
  }

  lemma NoIndices()
    ensures Indices([]) == []
  {
  }

  lemma PairsStep(idxs: seq<nat>, rewards: seq<real>, penalties: seq<real>, positive: bool)
    requires forall k :: 0 <= k < |idxs| ==> idxs[k] < |rewards| && idxs[k] < |penalties|
    ensures PairsOf(idxs, rewards, penalties, positive) ==
      if idxs == [] then []
      else
        (if rewards[idxs[0]] > 0.0 <==> positive then [Pair(idxs[0], penalties[idxs[0]])] else [])
        + PairsOf(idxs[1..], rewards, penalties, positive)
  {
  }

  lemma IndicesCons(x: Pair, s: seq<Pair>)
    ensures multiset(Indices([x] + s)) == multiset(Indices(s)) + multiset{x.index}
  {
    ConsMultiset(x.index, Indices(s));
    assert Indices([x] + s) == [x.index] + Indices(s);
  }

  lemma OneSideGrows(a: multiset<nat>, b: multiset<nat>, c: multiset<nat>, x: nat)
    requires a + b == c
    ensures (a + multiset{x}) + b == c + multiset{x} && a + (b + multiset{x}) == c + multiset{x}
  {
  }

  lemma IndicesConcat(a: seq<Pair>, b: seq<Pair>)
    ensures Indices(a + b) == Indices(a) + Indices(b)
  {
  }

  lemma IndicesRemove(s: seq<Pair>, j: nat)
    requires j < |s|
    ensures multiset(Indices(s)) == multiset(Indices(RemoveAt(s, j))) + multiset{s[j].index}
  {
    RemoveAtMultiset(Indices(s), j);
    assert RemoveAt(Indices(s), j) == Indices(RemoveAt(s, j));
  }

  lemma CancelOne(a: multiset<Pair>, b: multiset<Pair>, x: Pair)
    requires a + multiset{x} == b + multiset{x}
    ensures a == b
  {
    assert a == (a + multiset{x}) - multiset{x};
    assert b == (b + multiset{x}) - multiset{x};
  }

  lemma {:induction false} IndicesPermute(a: seq<Pair>, b: seq<Pair>)
    requires multiset(a) == multiset(b)
    ensures multiset(Indices(a)) == multiset(Indices(b))
    decreases |a|
  {
    if a == [] {
      assert |multiset(b)| == 0;
    } else {
      hide Indices, RemoveAt;
      var j := PermutationSource(a, b, 0);
      RemoveAtMultiset(a, 0);
      RemoveAtMultiset(b, j);
      CancelOne(multiset(RemoveAt(a, 0)), multiset(RemoveAt(b, j)), a[0]);
      IndicesPermute(RemoveAt(a, 0), RemoveAt(b, j));
      IndicesRemove(a, 0);
      IndicesRemove(b, j);
    }
  }

  lemma PrefixFits<T>(s: seq<T>, k: int) returns (rest: seq<T>)
    ensures s == Prefix(s, k) + rest
  {
    rest := s[|Prefix(s, k)|..];
  }

  /** What is drawn from a list without repeats has no repeats. */
  lemma DrawnDistinct(c: seq<nat>, rest: seq<nat>, idxs: seq<nat>)
    requires multiset(c) + multiset(rest) == multiset(idxs) && Distinct(idxs)
    ensures Distinct(c) && forall x: nat :: x in c ==> x in idxs
  {
    forall x: nat | x in c
      ensures x in idxs
    {
      assert x in multiset(c);
      assert x in multiset(idxs);
    }
    DistinctCounts(idxs);
    forall i, j | 0 <= i < j < |c|
      ensures c[i] != c[j]
    {
      assert c[i] in idxs;
      RepeatedTwice(c, i, j);
    }
  }

  /** Whatever the quotas, exactly n different indices of a larger group are chosen. */
  lemma ChoosesExactly(idxs: seq<nat>, rewards: seq<real>, penalties: seq<real>, cfg: Config)
    requires |idxs| > cfg.downSampleToN > 0 && Distinct(idxs)
    requires forall k :: 0 <= k < |idxs| ==> idxs[k] < |rewards| && idxs[k] < |penalties|
    ensures var c := ChooseIn(idxs, rewards, penalties, cfg);
      |c| == cfg.downSampleToN && Distinct(c) && forall x: nat :: x in c ==> x in idxs
  {
    hide Quotas, PairsOf, Prefix, Indices, SortPairs, Distinct;
    PairsCover(idxs, rewards, penalties);
    var zero, pos := PairsOf(idxs, rewards, penalties, false), PairsOf(idxs, rewards, penalties, true);
    var nonZero := SortPairs(pos);
    SortKeepsLength(pos);
    IndicesPermute(nonZero, pos);
    var (zQuota, nzQuota) := Quotas(|zero|, |nonZero|, cfg.downSampleToN, cfg.minZero, cfg.minNonZero);
    PrefixesDistinct(nonZero, zero, nzQuota, zQuota, idxs);
    OverallDistinct(nonZero, zero, cfg.downSampleToN, idxs);
  }

  /** The minimum of rewarded sequences is always asked for, the minimum of the others unless
      the former overrides it, and whenever a minimum takes effect the quotas make n. */
  lemma QuotasMeetMinima(zeros: nat, nonZeros: nat, n: int, minZero: int, minNonZero: int)
    requires zeros + nonZeros > 0 && n >= 0
    ensures var (z, nz) := Quotas(zeros, nonZeros, n, minZero, minNonZero);
      && nz >= Min(minNonZero, nonZeros)
      && (nz > Min(minNonZero, nonZeros) ==> z >= Min(minZero, zeros))
      && (nz == Min(minNonZero, nonZeros) || z == Min(minZero, zeros) ==> z + nz == n)
  {
    hide Round;
  }

  /** When the quotas fit and make n, the rewarded part is the lowest-penalty prefix of the
      sorted rewarded sequences and the rest the first of the others, in batch order. */
  lemma QuotaChoice(idxs: seq<nat>, rewards: seq<real>, penalties: seq<real>, cfg: Config)
    requires idxs != [] && cfg.downSampleToN > 0
    requires forall k :: 0 <= k < |idxs| ==> idxs[k] < |rewards| && idxs[k] < |penalties|
    ensures var zero, pos := PairsOf(idxs, rewards, penalties, false), PairsOf(idxs, rewards, penalties, true);
      var nonZero := SortPairs(pos);
      && |zero| + |nonZero| > 0 && Ordered(nonZero) && multiset(nonZero) == multiset(pos)
      && var (z, nz) := Quotas(|zero|, |nonZero|, cfg.downSampleToN, cfg.minZero, cfg.minNonZero);
         0 <= z <= |zero| && 0 <= nz <= |nonZero| && z + nz == cfg.downSampleToN ==>
           ChooseIn(idxs, rewards, penalties, cfg) == Indices(nonZero[..nz]) + Indices(zero[..z])
  {
    hide Quotas, PairsOf, SortPairs, Indices, Ordered;
    PairsCover(idxs, rewards, penalties);
    SortKeepsLength(PairsOf(idxs, rewards, penalties, true));
    SortOrders(PairsOf(idxs, rewards, penalties, true));
  }

  /** Otherwise, when the two slices do not make n, it is the n lowest penalties overall. */
  lemma FallbackChoice(idxs: seq<nat>, rewards: seq<real>, penalties: seq<real>, cfg: Config)
    requires |idxs| > cfg.downSampleToN > 0
    requires forall k :: 0 <= k < |idxs| ==> idxs[k] < |rewards| && idxs[k] < |penalties|
    ensures var zero, pos := PairsOf(idxs, rewards, penalties, false), PairsOf(idxs, rewards, penalties, true);
      && |zero| + |pos| == |idxs|
      && var (z, nz) := Quotas(|zero|, |pos|, cfg.downSampleToN, cfg.minZero, cfg.minNonZero);
         var all := SortPairs(SortPairs(pos) + zero);
         && |all| == |idxs| && Ordered(all) && multiset(all) == multiset(pos) + multiset(zero)
         && (SliceLength(nz, |pos|) + SliceLength(z, |zero|) != cfg.downSampleToN ==>
               ChooseIn(idxs, rewards, penalties, cfg) == Indices(all[..cfg.downSampleToN]))
  {
    hide Quotas, PairsOf, SortPairs, Indices, Ordered;
    PairsCover(idxs, rewards, penalties);
    var zero, pos := PairsOf(idxs, rewards, penalties, false), PairsOf(idxs, rewards, penalties, true);
    SortKeepsLength(pos);
    SortKeepsLength(SortPairs(pos) + zero);
    SortOrders(SortPairs(pos) + zero);
  }

  /** How long the first k of m are in Python; a negative k leaves off the last -k. */
  function SliceLength(k: int, m: nat): int {
    if k < 0 then Max(0, m + k) else Min(k, m)
  }

  /** The pairs are those of the group with the sign asked for. */
  lemma {:induction false} PairsMean(idxs: seq<nat>, rewards: seq<real>, penalties: seq<real>, positive: bool)
    requires forall k :: 0 <= k < |idxs| ==> idxs[k] < |rewards| && idxs[k] < |penalties|
    ensures forall x :: x in PairsOf(idxs, rewards, penalties, positive) <==>
      x.index in idxs && x.penalty == penalties[x.index] && (rewards[x.index] > 0.0 <==> positive)
  {
    hide PairsOf;
    PairsStep(idxs, rewards, penalties, positive);
    if idxs != [] {
      assert idxs == [idxs[0]] + idxs[1..];
      PairsMean(idxs[1..], rewards, penalties, positive);
    }
  }

  /** They come in the order of the group. */
  lemma {:induction false} PairsInOrder(idxs: seq<nat>, rewards: seq<real>, penalties: seq<real>, positive: bool)
    requires forall k :: 0 <= k < |idxs| ==> idxs[k] < |rewards| && idxs[k] < |penalties|
    requires Increasing(idxs)
    ensures Increasing(Indices(PairsOf(idxs, rewards, penalties, positive)))
  {
    hide PairsOf, Increasing;
    PairsStep(idxs, rewards, penalties, positive);
    EmptyIncreases();
    if idxs != [] {
      IncreasingTail(idxs);
      PairsInOrder(idxs[1..], rewards, penalties, positive);
      PairsMean(idxs[1..], rewards, penalties, positive);
      var rest := PairsOf(idxs[1..], rewards, penalties, positive);
      assert [] + rest == rest;
      PrependIncreases(Pair(idxs[0], penalties[idxs[0]]), rest);
    }
  }

  lemma PrependIncreases(x: Pair, rest: seq<Pair>)
    requires Increasing(Indices(rest)) && forall y :: y in rest ==> x.index < y.index
    ensures Increasing(Indices([x] + rest))
  {
    var r := [x] + rest;
    assert forall i :: 0 < i < |r| ==> r[i] == rest[i - 1] && rest[i - 1] in rest && Indices(rest)[i - 1] == r[i].index;
  }

  ghost predicate Increasing(s: seq<nat>) {
    forall i, j :: 0 <= i < j < |s| ==> s[i] < s[j]
  }

  lemma IncreasingTail(s: seq<nat>)
    requires s != [] && Increasing(s)
    ensures Increasing(s[1..]) && forall y :: y in s[1..] ==> s[0] < y
  {
  }

  /** Those of one penalty, in order. */
  function WithPenalty(s: seq<Pair>, p: real): seq<Pair> {
    if s == [] then [] else (if s[0].penalty == p then [s[0]] else []) + WithPenalty(s[1..], p)
  }

  lemma WithPenaltyCons(x: Pair, s: seq<Pair>, p: real)
    ensures WithPenalty([x] + s, p) == (if x.penalty == p then [x] else []) + WithPenalty(s, p)
  {
  }

  lemma {:induction false} InsertIsStable(x: Pair, s: seq<Pair>, p: real)
    ensures WithPenalty(InsertPair(x, s), p) == (if x.penalty == p then [x] else []) + WithPenalty(s, p)
  {
    hide WithPenalty;
    WithPenaltyCons(x, s, p);
    if s != [] && x.penalty > s[0].penalty {
      InsertIsStable(x, s[1..], p);
      assert s == [s[0]] + s[1..];
      WithPenaltyCons(s[0], s[1..], p);
      WithPenaltyCons(s[0], InsertPair(x, s[1..]), p);
    }
  }

  /** Sorting keeps the order among equal penalties. */
  lemma {:induction false} SortIsStable(s: seq<Pair>, p: real)
    ensures WithPenalty(SortPairs(s), p) == WithPenalty(s, p)
  {
    if s != [] {
      SortIsStable(s[1..], p);
      InsertIsStable(s[0], SortPairs(s[1..]), p);
    }
  }

  lemma PrefixesDistinct(nonZero: seq<Pair>, zero: seq<Pair>, nz: int, z: int, idxs: seq<nat>)
    requires multiset(Indices(nonZero)) + multiset(Indices(zero)) == multiset(idxs) && Distinct(idxs)
    ensures var c := Indices(Prefix(nonZero, nz)) + Indices(Prefix(zero, z));
      Distinct(c) && forall x: nat :: x in c ==> x in idxs
  {
    hide Prefix, Indices, Distinct;
    var restNz := PrefixFits(nonZero, nz);
    var restZ := PrefixFits(zero, z);
    IndicesConcat(Prefix(nonZero, nz), restNz);
    IndicesConcat(Prefix(zero, z), restZ);
    DrawnDistinct(Indices(Prefix(nonZero, nz)) + Indices(Prefix(zero, z)), Indices(restNz) + Indices(restZ), idxs);
  }

  lemma OverallDistinct(nonZero: seq<Pair>, zero: seq<Pair>, n: nat, idxs: seq<nat>)
    requires multiset(Indices(nonZero)) + multiset(Indices(zero)) == multiset(idxs) && Distinct(idxs) && n < |idxs|
    requires |zero| + |nonZero| == |idxs|
    ensures var c := Indices(Prefix(SortPairs(nonZero + zero), n));
      |c| == n && Distinct(c) && forall x: nat :: x in c ==> x in idxs
  {
    hide Indices, Distinct, SortPairs;
    var all := SortPairs(nonZero + zero);
    SortKeepsLength(nonZero + zero);
    IndicesPermute(all, nonZero + zero);
    IndicesConcat(nonZero, zero);
    var rest := PrefixFits(all, n);
    IndicesConcat(Prefix(all, n), rest);
    DrawnDistinct(Indices(Prefix(all, n)), Indices(rest), idxs);
  }

  // ----- Masks -----

  /** What group u keeps: nothing of a short group, all of an exact one, n of a larger one. */
  function KeptOf(total: nat, u: nat, size: nat, rewards: seq<real>, penalties: seq<real>, cfg: Config): seq<nat>
    requires First(u, size) <= total && |rewards| == |penalties| == total && cfg.downSampleToN > 0
  {
    var g := Group(total, u, size);
    if |g| < cfg.downSampleToN then []
    else if |g| == cfg.downSampleToN then g
    else ChooseIn(g, rewards, penalties, cfg)
  }

  /** Each group contributes nothing or exactly n different ones of its own sequences. */
  lemma KeepsAllOrNothing(total: nat, u: nat, size: nat, rewards: seq<real>, penalties: seq<real>, cfg: Config)
    requires First(u, size) <= total && |rewards| == |penalties| == total && cfg.downSampleToN > 0
    ensures var kept := KeptOf(total, u, size, rewards, penalties, cfg);
      && (kept == [] || |kept| == cfg.downSampleToN)
      && (|Group(total, u, size)| >= cfg.downSampleToN ==> |kept| == cfg.downSampleToN)
      && Distinct(kept) && forall x: nat :: x in kept ==> x in Group(total, u, size)
  {
    var g := Group(total, u, size);
    if |g| > cfg.downSampleToN {
      ChoosesExactly(g, rewards, penalties, cfg);
    }
  }

  /** Both penalties, as far as switched on. */
  function Penalty(errW: real, fmtW: real, cfg: Config): real {
    (if cfg.rocErrorRatio then errW else 0.0) + (if cfg.rocAnswerFormat then fmtW else 0.0)
  }

  /** What is switched on counts, and nothing else. */
  lemma PenaltyMeans(errW: real, fmtW: real, cfg: Config)
    ensures cfg.rocErrorRatio && cfg.rocAnswerFormat ==> Penalty(errW, fmtW, cfg) == errW + fmtW
    ensures cfg.rocErrorRatio && !cfg.rocAnswerFormat ==> Penalty(errW, fmtW, cfg) == errW
    ensures !cfg.rocErrorRatio && cfg.rocAnswerFormat ==> Penalty(errW, fmtW, cfg) == fmtW
    ensures !cfg.rocErrorRatio && !cfg.rocAnswerFormat ==> Penalty(errW, fmtW, cfg) == 0.0
  {
  }

  function Penalties(errW: seq<real>, fmtW: seq<real>, cfg: Config): (p: seq<real>)
    requires |errW| == |fmtW|
    ensures |p| == |errW| && forall i :: 0 <= i < |p| ==> p[i] == Penalty(errW[i], fmtW[i], cfg)
  {
    seq(|errW|, i requires 0 <= i < |errW| => Penalty(errW[i], fmtW[i], cfg))
  }

  /** Within the first `upTo` sequences the mask is on exactly where the group keeps. */
  ghost predicate MaskOk(mask: seq<bool>, upTo: nat, size: nat, rewards: seq<real>, penalties: seq<real>, cfg: Config)
    requires size > 0 && |rewards| == |penalties| == |mask| && cfg.downSampleToN > 0 && upTo <= |mask|
  {
    && (forall i :: 0 <= i < upTo ==> (mask[i] <==> InKept(i, |mask|, size, rewards, penalties, cfg)))
    && (forall i :: upTo <= i < |mask| ==> !mask[i])
  }

  ghost predicate InKept(i: nat, total: nat, size: nat, rewards: seq<real>, penalties: seq<real>, cfg: Config)
    requires size > 0 && |rewards| == |penalties| == total && cfg.downSampleToN > 0 && i < total
  {
    UidRange(i, UidOf(i, size), size);
    i in KeptOf(total, UidOf(i, size), size, rewards, penalties, cfg)
  }

  method SetTrue(mask: seq<bool>, at: seq<nat>) returns (after: seq<bool>)
    requires forall k :: 0 <= k < |at| ==> at[k] < |mask|
    ensures |after| == |mask| && forall i: nat :: i < |mask| ==> (after[i] <==> mask[i] || i in at)
  {
    after := mask;
    var k := 0;
    while k < |at|
      invariant k <= |at| && |after| == |mask|
      invariant forall i: nat :: i < |mask| ==> (after[i] <==> mask[i] || i in at[..k])
    {
      after := after[at[k] := true];
      k := k + 1;
    }
    assert at[..k] == at;
  }

  lemma MaskGrows(mask: seq<bool>, after: seq<bool>, u: nat, size: nat, rewards: seq<real>, penalties: seq<real>,
                  cfg: Config)
    requires size > 0 && |rewards| == |penalties| == |mask| == |after| && cfg.downSampleToN > 0
      && First(u, size) < |mask|
    requires MaskOk(mask, First(u, size), size, rewards, penalties, cfg)
    requires forall i: nat :: i < |mask| ==>
      (after[i] <==> mask[i] || i in KeptOf(|mask|, u, size, rewards, penalties, cfg))
    ensures MaskOk(after, Min(First(u + 1, size), |mask|), size, rewards, penalties, cfg)
  {
    var total, hi := |mask|, Min(First(u + 1, size), |mask|);
    UidRange(0, u, size);
    KeepsAllOrNothing(total, u, size, rewards, penalties, cfg);
    hide KeptOf, First, UidOf, Group;
    forall i: nat | i < total
      ensures i < hi ==> (after[i] <==> InKept(i, total, size, rewards, penalties, cfg))
      ensures i >= hi ==> !after[i]
    {
      UidRange(i, u, size);
      InGroup(total, u, size, i);
    }
  }

  /** None when a group must be thinned out and no penalty is switched on. */
  method WeightedGroupChoice(size: nat, rewards: seq<real>, errW: seq<real>, fmtW: seq<real>, cfg: Config)
    returns (out: Option<seq<bool>>)
    requires size > 0 && |rewards| == |errW| == |fmtW|
    ensures cfg.downSampleToN <= 0 ==>
      out.Some? && |out.value| == |rewards| && forall i :: 0 <= i < |rewards| ==> out.value[i]
    ensures cfg.downSampleToN > 0 && out.Some? ==>
      |out.value| == |rewards| && MaskOk(out.value, |rewards|, size, rewards, Penalties(errW, fmtW, cfg), cfg)
    ensures out.None? <==>
      cfg.downSampleToN > 0 && !cfg.rocErrorRatio && !cfg.rocAnswerFormat && Min(size, |rewards|) > cfg.downSampleToN
  {
    hide KeptOf;
    var total := |rewards|;
    if cfg.downSampleToN <= 0 {
      return Some(seq(total, i => true));
    }
    var penalties := Penalties(errW, fmtW, cfg);
    var mask := seq(total, i => false);
    var u := 0;
    assert First(0, size) == 0;
    hide First, MaskOk, Penalties;
    MaskStarts(mask, size, rewards, penalties, cfg);
    while First(u, size) < total
      invariant |mask| == total && MaskOk(mask, Min(First(u, size), total), size, rewards, penalties, cfg)
      invariant u > 0 && !cfg.rocErrorRatio && !cfg.rocAnswerFormat ==> Min(size, total) <= cfg.downSampleToN
      invariant First(u, size) >= 0
      decreases total - First(u, size)
    {
      UidRange(0, u, size);
      var idxs := Group(total, u, size);
      if |idxs| > cfg.downSampleToN && !cfg.rocErrorRatio && !cfg.rocAnswerFormat {
        return None;
      }
      KeepsAllOrNothing(total, u, size, rewards, penalties, cfg);
      var kept := KeptOf(total, u, size, rewards, penalties, cfg);
      assert forall k :: 0 <= k < |kept| ==> kept[k] in kept;
      var after := SetTrue(mask, kept);
      MaskGrows(mask, after, u, size, rewards, penalties, cfg);
      mask, u := after, u + 1;
    }
    return Some(mask);
  }

  lemma MaskStarts(mask: seq<bool>, size: nat, rewards: seq<real>, penalties: seq<real>, cfg: Config)
    requires size > 0 && |rewards| == |penalties| == |mask| && cfg.downSampleToN > 0
    requires forall i :: 0 <= i < |mask| ==> !mask[i]
    ensures MaskOk(mask, 0, size, rewards, penalties, cfg)
  {
  }

  function Abs(x: real): real {
    if x < 0.0 then -x else x
  }

  /** `torch.allclose` of one pair, with its default tolerances. */
  predicate Close(a: real, b: real) {
    Abs(a - b) <= 0.00000001 + 0.00001 * Abs(b)
  }

  predicate Uniform(idxs: seq<nat>, rewards: seq<real>)
    requires forall k :: 0 <= k < |idxs| ==> idxs[k] < |rewards|
  {
    forall k :: 0 <= k < |idxs| ==> Close(rewards[idxs[0]], rewards[idxs[k]])
  }

  /** The mask is off exactly on the groups whose rewards are all equal. */
  ghost predicate RejectOk(mask: seq<bool>, groups: nat, size: nat, rewards: seq<real>)
    requires size > 0 && |mask| == |rewards|
  {
    forall i: nat :: i < |mask| ==> (mask[i] <==> UidOf(i, size) >= groups || !GroupUniform(i, size, rewards))
  }

  predicate GroupUniform(i: nat, size: nat, rewards: seq<real>)
    requires size > 0 && i < |rewards|
  {
    UidRange(i, UidOf(i, size), size);
    Uniform(Group(|rewards|, UidOf(i, size), size), rewards)
  }

  /** b is within the tolerance of a: a hundred-millionth, and a hundred-thousandth of b. */
  predicate Within(a: real, b: real) {
    var tolerance := 0.00000001 + 0.00001 * if b < 0.0 then -b else b;
    b - tolerance <= a <= b + tolerance
  }

  lemma CloseMeans(a: real, b: real)
    ensures Close(a, b) <==> Within(a, b)
  {
  }

  /** A group is uniform when every reward of it is close to its first. */
  lemma UniformMeans(i: nat, size: nat, rewards: seq<real>)
    requires size > 0 && i < |rewards|
    ensures (i / size) * size <= i
    ensures GroupUniform(i, size, rewards) <==>
      forall j: nat :: j < |rewards| && j / size == i / size ==> Within(rewards[(i / size) * size], rewards[j])
  {
    UidRange(i, i / size, size);
    var u, g := i / size, Group(|rewards|, i / size, size);
    assert u == UidOf(i, size) && g[0] == u * size;
    hide Close, Within, Group;
    forall j: nat | j < |rewards|
      ensures j in g <==> j / size == u
      ensures Close(rewards[g[0]], rewards[j]) <==> Within(rewards[g[0]], rewards[j])
    {
      InGroup(|rewards|, u, size, j);
      CloseMeans(rewards[g[0]], rewards[j]);
    }
    AllInGroup(g, rewards);
  }

  lemma AllInGroup(g: seq<nat>, rewards: seq<real>)
    requires forall k :: 0 <= k < |g| ==> g[k] < |rewards|
    ensures g != [] ==> (Uniform(g, rewards) <==> forall j: nat :: j in g ==> Close(rewards[g[0]], rewards[j]))
  {
    hide Close;
    assert forall k :: 0 <= k < |g| ==> g[k] in g;
  }

  lemma RejectGrows(mask: seq<bool>, after: seq<bool>, u: nat, size: nat, rewards: seq<real>)
    requires size > 0 && |mask| == |after| == |rewards| && First(u, size) < |mask| && RejectOk(mask, u, size, rewards)
    requires var g := Group(|mask|, u, size);
      forall i: nat :: i < |mask| ==> (after[i] <==> mask[i] && !(Uniform(g, rewards) && i in g))
    ensures RejectOk(after, u + 1, size, rewards)
  {
    hide First, UidOf, Group, Uniform;
    forall i: nat | i < |mask|
      ensures after[i] <==> UidOf(i, size) >= u + 1 || !GroupUniform(i, size, rewards)
    {
      InGroup(|mask|, u, size, i);
    }
  }

  lemma RejectEnds(mask: seq<bool>, u: nat, size: nat, rewards: seq<real>)
    requires size > 0 && |mask| == |rewards| && First(u, size) >= |mask| && RejectOk(mask, u, size, rewards)
    ensures forall i :: 0 <= i < |mask| ==> (mask[i] <==> !GroupUniform(i, size, rewards))
  {
    hide GroupUniform;
    forall i: nat | i < |mask|
      ensures UidOf(i, size) < u
    {
      UidRange(i, UidOf(i, size), size);
      if UidOf(i, size) >= u {
        MulMonotone(u, UidOf(i, size), size);
      }
    }
  }

  method SetFalse(mask: seq<bool>, at: seq<nat>) returns (after: seq<bool>)
    requires forall k :: 0 <= k < |at| ==> at[k] < |mask|
    ensures |after| == |mask| && forall i: nat :: i < |mask| ==> (after[i] <==> mask[i] && i !in at)
  {
    after := mask;
    var k := 0;
    while k < |at|
      invariant k <= |at| && |after| == |mask|
      invariant forall i: nat :: i < |mask| ==> (after[i] <==> mask[i] && i !in at[..k])
    {
      after := after[at[k] := false];
      k := k + 1;
    }
    assert at[..k] == at;
  }

  method RejectEqualReward(size: nat, rewards: seq<real>) returns (mask: seq<bool>)
    requires size > 0
    ensures |mask| == |rewards|
    ensures forall i :: 0 <= i < |mask| ==> (mask[i] <==> !GroupUniform(i, size, rewards))
  {
    var total := |rewards|;
    mask := seq(total, i => true);
    var u := 0;
    assert First(0, size) == 0 && RejectOk(mask, 0, size, rewards);
    hide First, RejectOk, UidOf;
    while First(u, size) < total
      invariant |mask| == total && RejectOk(mask, u, size, rewards)
      decreases total - First(u, size)
    {
      UidRange(0, u, size);
      var idxs, before := Group(total, u, size), mask;
      if Uniform(idxs, rewards) {
        mask := SetFalse(mask, idxs);
      }
      hide Uniform;
      RejectGrows(before, mask, u, size, rewards);
      u := u + 1;
    }
    RejectEnds(mask, u, size, rewards);
  }

  // ----- Survivors -----

  /** The positions of [lo, hi) where the mask is on. */
  function Between(mask: seq<bool>, lo: nat, hi: nat): (p: seq<nat>)
    requires lo <= hi <= |mask|
    decreases hi
  {
    if lo == hi then [] else Between(mask, lo, hi - 1) + if mask[hi - 1] then [hi - 1] else []
  }

  lemma {:induction false} BetweenMembers(mask: seq<bool>, lo: nat, hi: nat)
    requires lo <= hi <= |mask|
    ensures forall x: nat :: x in Between(mask, lo, hi) <==> lo <= x < hi && mask[x]
    ensures Distinct(Between(mask, lo, hi))
    decreases hi
  {
    if lo < hi {
      BetweenMembers(mask, lo, hi - 1);
    }
  }

  lemma {:induction false} BetweenIncreases(mask: seq<bool>, lo: nat, hi: nat)
    requires lo <= hi <= |mask|
    ensures Increasing(Between(mask, lo, hi))
    decreases hi
  {
    hide Increasing;
    if lo == hi {
      EmptyIncreases();
    } else {
      BetweenIncreases(mask, lo, hi - 1);
      BetweenMembers(mask, lo, hi - 1);
      AppendIncreases(Between(mask, lo, hi - 1), hi - 1);
      assert Between(mask, lo, hi - 1) + [] == Between(mask, lo, hi - 1);
    }
  }

  lemma EmptyIncreases()
    ensures Increasing([])
  {
  }

  lemma AppendIncreases(s: seq<nat>, x: nat)
    requires Increasing(s) && forall y: nat :: y in s ==> y < x
    ensures Increasing(s + [x])
  {
    assert forall i :: 0 <= i < |s| ==> s[i] in s;
  }

  lemma {:induction false} BetweenJoins(mask: seq<bool>, lo: nat, mid: nat, hi: nat)
    requires lo <= mid <= hi <= |mask|
    ensures Between(mask, lo, hi) == Between(mask, lo, mid) + Between(mask, mid, hi)
    decreases hi
  {
    if mid < hi {
      BetweenJoins(mask, lo, mid, hi - 1);
    }
  }

  lemma NoMembers(s: seq<nat>)
    requires forall x: nat :: x !in s
    ensures s == []
  {
    assert forall x: nat :: x in multiset(s) ==> x in s;
    assert multiset(s) == multiset{};
    assert |s| == |multiset(s)|;
  }

  lemma {:induction false} SameMembers(a: seq<nat>, b: seq<nat>)
    requires Distinct(a) && Distinct(b) && forall x: nat :: x in a <==> x in b
    ensures |a| == |b|
    decreases |a|
  {
    if a == [] {
      NoMembers(b);
    } else {
      assert a[0] in b;
      var j :| 0 <= j < |b| && b[j] == a[0];
      RemoveMember(a, 0);
      RemoveMember(b, j);
      SameMembers(RemoveAt(a, 0), RemoveAt(b, j));
    }
  }

  lemma RemoveMember(s: seq<nat>, j: nat)
    requires j < |s| && Distinct(s)
    ensures Distinct(RemoveAt(s, j)) && forall x: nat :: x in RemoveAt(s, j) <==> x in s && x != s[j]
  {
    var r := RemoveAt(s, j);
    forall x: nat | x in s && x != s[j]
      ensures x in r
    {
      var i :| 0 <= i < |s| && s[i] == x;
      assert r[if i < j then i else i - 1] == x;
    }
  }

  /** The final mask: kept by the choice, in a group whose rewards differ (if asked for). */
  ghost predicate FinalOk(mask: seq<bool>, size: nat, rewards: seq<real>, penalties: seq<real>, cfg: Config,
                          rejectEqual: bool)
    requires size > 0 && |rewards| == |penalties| == |mask| && cfg.downSampleToN > 0
  {
    forall i: nat :: i < |mask| ==>
      (mask[i] <==>
        InKept(i, |mask|, size, rewards, penalties, cfg) && !(rejectEqual && GroupUniform(i, size, rewards)))
  }

  function GroupEnd(u: nat, size: nat, total: nat): nat {
    Min(First(u, size), total)
  }

  lemma GroupEndsMeet(u: nat, size: nat, total: nat)
    requires size > 0
    ensures GroupEnd(u, size, total) <= GroupEnd(u + 1, size, total) <= total
    ensures GroupEnd(0, size, total) == 0
  {
    UidRange(0, u, size);
  }

  /** A group's survivors: none, or exactly n of one group. */
  lemma GroupSurvives(mask: seq<bool>, u: nat, size: nat, rewards: seq<real>, penalties: seq<real>, cfg: Config,
                      rejectEqual: bool)
    requires size > 0 && |rewards| == |penalties| == |mask| && cfg.downSampleToN > 0
    requires FinalOk(mask, size, rewards, penalties, cfg, rejectEqual)
    ensures GroupEnd(u, size, |mask|) <= GroupEnd(u + 1, size, |mask|)
    ensures var s := Between(mask, GroupEnd(u, size, |mask|), GroupEnd(u + 1, size, |mask|));
      && (s == [] || |s| == cfg.downSampleToN)
      && forall x: nat :: x in s ==> UidOf(x, size) == u
  {
    var total := |mask|;
    var lo, hi := GroupEnd(u, size, total), GroupEnd(u + 1, size, total);
    GroupEndsMeet(u, size, total);
    BetweenMembers(mask, lo, hi);
    var s := Between(mask, lo, hi);
    if First(u, size) < total {
      KeepsAllOrNothing(total, u, size, rewards, penalties, cfg);
      var kept := KeptOf(total, u, size, rewards, penalties, cfg);
      UidRange(lo, u, size);
      hide KeptOf, Between, UidOf, Distinct, GroupUniform;
      forall x: nat | x < total
        ensures x in s <==> x in kept && !(rejectEqual && GroupUniform(lo, size, rewards))
        ensures x in s ==> UidOf(x, size) == u
      {
        UidRange(x, u, size);
        InGroup(total, u, size, x);
        SameUniform(x, lo, size, rewards);
      }
      hide FinalOk;
      if rejectEqual && GroupUniform(lo, size, rewards) {
        NoMembers(s);
      } else {
        SameMembers(s, kept);
      }
    }
  }

  lemma SameUniform(i: nat, j: nat, size: nat, rewards: seq<real>)
    requires size > 0 && i < |rewards| && j < |rewards|
    ensures UidOf(i, size) == UidOf(j, size) ==> (GroupUniform(i, size, rewards) <==> GroupUniform(j, size, rewards))
  {
  }

  /** The survivors of the first u groups, group by group. */
  ghost function Blocks(mask: seq<bool>, u: nat, size: nat): seq<seq<nat>>
    requires size > 0
  {
    if u == 0 then []
    else
      GroupEndsMeet(u - 1, size, |mask|);
      var s := Between(mask, GroupEnd(u - 1, size, |mask|), GroupEnd(u, size, |mask|));
      Blocks(mask, u - 1, size) + if s == [] then [] else [s]
  }

  ghost predicate BlocksOk(blocks: seq<seq<nat>>, n: nat, size: nat)
    requires size > 0
  {
    forall b :: 0 <= b < |blocks| ==> |blocks[b]| == n && OneGroup(blocks[b], size)
  }

  ghost predicate OneGroup(s: seq<nat>, size: nat)
    requires size > 0
  {
    forall x: nat, y: nat :: x in s && y in s ==> UidOf(x, size) == UidOf(y, size)
  }

  lemma BlocksGrow(blocks: seq<seq<nat>>, s: seq<nat>, n: nat, size: nat)
    requires size > 0 && BlocksOk(blocks, n, size) && (s == [] || |s| == n) && OneGroup(s, size)
    ensures var more := blocks + if s == [] then [] else [s];
      BlocksOk(more, n, size) && Flatten<nat>(more) == Flatten<nat>(blocks) + s
  {
    hide UidOf;
    if s == [] {
      assert blocks + [] == blocks;
      assert Flatten<nat>(blocks) + [] == Flatten<nat>(blocks);
    } else {
      FlattenConcat<nat>(blocks, [s]);
      assert Flatten<nat>([s]) == s;
    }
  }

  lemma {:induction false} SurvivorsInBlocks(mask: seq<bool>, u: nat, size: nat, rewards: seq<real>,
                                             penalties: seq<real>, cfg: Config, rejectEqual: bool)
    requires size > 0 && |rewards| == |penalties| == |mask| && cfg.downSampleToN > 0
    requires FinalOk(mask, size, rewards, penalties, cfg, rejectEqual)
    ensures GroupEnd(u, size, |mask|) <= |mask|
    ensures Flatten<nat>(Blocks(mask, u, size)) == Between(mask, 0, GroupEnd(u, size, |mask|))
    ensures BlocksOk(Blocks(mask, u, size), cfg.downSampleToN, size)
  {
    hide Blocks, FinalOk, GroupEnd, UidOf, Between, BlocksOk, Flatten, OneGroup;
    GroupEndsMeet(if u == 0 then 0 else u - 1, size, |mask|);
    if u == 0 {
      NoBlocks(mask, size, cfg.downSampleToN);
    } else {
      var lo, hi := GroupEnd(u - 1, size, |mask|), GroupEnd(u, size, |mask|);
      var before, s := Blocks(mask, u - 1, size), Between(mask, lo, hi);
      BlocksNext(mask, u - 1, size);
      SurvivorsInBlocks(mask, u - 1, size, rewards, penalties, cfg, rejectEqual);
      GroupSurvives(mask, u - 1, size, rewards, penalties, cfg, rejectEqual);
      BetweenJoins(mask, 0, lo, hi);
      GroupsShare(s, u - 1, size);
      BlocksGrow(before, s, cfg.downSampleToN, size);
    }
  }

  lemma NoBlocks(mask: seq<bool>, size: nat, n: nat)
    requires size > 0
    ensures Flatten<nat>(Blocks(mask, 0, size)) == [] == Between(mask, 0, 0)
    ensures BlocksOk(Blocks(mask, 0, size), n, size)
  {
  }

  lemma BlocksNext(mask: seq<bool>, u: nat, size: nat)
    requires size > 0
    ensures GroupEnd(u, size, |mask|) <= GroupEnd(u + 1, size, |mask|) <= |mask|
    ensures var s := Between(mask, GroupEnd(u, size, |mask|), GroupEnd(u + 1, size, |mask|));
      Blocks(mask, u + 1, size) == Blocks(mask, u, size) + if s == [] then [] else [s]
  {
    hide GroupEnd;
    GroupEndsMeet(u, size, |mask|);
  }

  lemma GroupsShare(s: seq<nat>, u: nat, size: nat)
    requires size > 0 && forall x: nat :: x in s ==> UidOf(x, size) == u
    ensures OneGroup(s, size)
  {
    hide UidOf;
  }

  lemma LastGroupEnd(n: nat, size: nat)
    requires size > 0
    ensures GroupEnd(n, size, n) == n
  {
    MulMonotone(1, size, n);
    assert First(n, size) >= n;
  }

  /** Every block of n consecutive survivors comes from one original group. */
  ghost predicate Regrouped(survivors: seq<nat>, n: nat, size: nat)
    requires n > 0 && size > 0
  {
    && |survivors| % n == 0
    && forall i: nat, j: nat :: i < |survivors| && j < |survivors| && UidOf(i, n) == UidOf(j, n) ==>
         UidOf(survivors[i], size) == UidOf(survivors[j], size)
  }

  lemma {:induction false} BlockIndex(blocks: seq<seq<nat>>, n: nat, size: nat, i: nat)
    requires n > 0 && size > 0 && BlocksOk(blocks, n, size) && i < |Flatten<nat>(blocks)|
    ensures UidOf(i, n) < |blocks| && Flatten<nat>(blocks)[i] in blocks[UidOf(i, n)]
    ensures |Flatten<nat>(blocks)| % n == 0
  {
    var rest := Flatten<nat>(blocks[1..]);
    assert forall b :: 0 <= b < |blocks[1..]| ==> blocks[1..][b] == blocks[b + 1];
    assert Flatten<nat>(blocks) == blocks[0] + rest;
    if |rest| == 0 {
      DivModUnique(i, n, 0, i);
      DivModUnique(n, n, 1, 0);
    } else if i < n {
      BlockIndex(blocks[1..], n, size, 0);
      DivModUnique(i, n, 0, i);
      AddBlock(|rest|, n);
    } else {
      BlockIndex(blocks[1..], n, size, i - n);
      AddBlock(|rest|, n);
      AddBlock(i - n, n);
      assert UidOf(i, n) == UidOf(i - n, n) + 1;
    }
  }

  lemma AddBlock(x: nat, n: nat)
    requires n > 0
    ensures (x + n) / n == x / n + 1 && (x + n) % n == x % n
  {
    assert x == (x / n) * n + x % n;
    assert x + n == (x / n + 1) * n + x % n;
    DivModUnique(x + n, n, x / n + 1, x % n);
  }

  lemma BlocksRegroup(blocks: seq<seq<nat>>, n: nat, size: nat)
    requires n > 0 && size > 0 && BlocksOk(blocks, n, size)
    ensures Regrouped(Flatten<nat>(blocks), n, size)
  {
    var s := Flatten<nat>(blocks);
    if s != [] {
      BlockIndex(blocks, n, size, 0);
    }
    hide UidOf;
    forall i: nat, j: nat | i < |s| && j < |s| && UidOf(i, n) == UidOf(j, n)
      ensures UidOf(s[i], size) == UidOf(s[j], size)
    {
      BlockIndex(blocks, n, size, i);
      BlockIndex(blocks, n, size, j);
      assert OneGroup(blocks[UidOf(i, n)], size);
    }
  }

  lemma SurvivorsRegroup(mask: seq<bool>, size: nat, rewards: seq<real>, penalties: seq<real>, cfg: Config,
                         rejectEqual: bool)
    requires size > 0 && |rewards| == |penalties| == |mask| && cfg.downSampleToN > 0
    requires FinalOk(mask, size, rewards, penalties, cfg, rejectEqual)
    ensures Regrouped(Between(mask, 0, |mask|), cfg.downSampleToN, size)
  {
    hide FinalOk, GroupEnd, Between, Blocks, BlocksOk, Regrouped, Flatten;
    SurvivorsInBlocks(mask, |mask|, size, rewards, penalties, cfg, rejectEqual);
    LastGroupEnd(|mask|, size);
    BlocksRegroup(Blocks(mask, |mask|, size), cfg.downSampleToN, size);
  }

  /** The surviving positions, in order, and the new group size. None when a group must be
      thinned out and no penalty is switched on. For n > 0 the survivors regroup: n by n
      they come from one original group each. */
  method DownSample(groupSize: int, rewards: seq<real>, errW: seq<real>, fmtW: seq<real>, cfg: Config,
                    rejectEqual: bool)
    returns (out: Option<seq<nat>>, newGroupSize: int)
    requires |rewards| == |errW| == |fmtW|
    ensures newGroupSize == if cfg.downSampleToN > 0 && out.Some? then cfg.downSampleToN else groupSize
    ensures out.None? <==> cfg.downSampleToN > 0 && !cfg.rocErrorRatio && !cfg.rocAnswerFormat
                           && Min(Max(1, groupSize), |rewards|) > cfg.downSampleToN
    ensures out.Some? && cfg.downSampleToN > 0 ==> Regrouped(out.value, cfg.downSampleToN, Max(1, groupSize))
    ensures out.Some? ==> (forall i, j :: 0 <= i < j < |out.value| ==> out.value[i] < out.value[j])
    ensures out.Some? ==> Distinct(out.value) && forall i: nat :: i in out.value ==> i < |rewards|
    ensures out.Some? ==> forall i: nat :: i < |rewards| ==>
      (i in out.value <==>
        && (cfg.downSampleToN > 0 ==> InKept(i, |rewards|, Max(1, groupSize), rewards, Penalties(errW, fmtW, cfg), cfg))
        && !(rejectEqual && GroupUniform(i, Max(1, groupSize), rewards)))
  {
    hide InKept, GroupUniform, Penalties, Between, Regrouped, Distinct;
    var size := Max(1, groupSize);
    newGroupSize := groupSize;
    var mask1: seq<bool>;
    if rejectEqual {
      mask1 := RejectEqualReward(size, rewards);
    } else {
      mask1 := seq(|rewards|, i => true);
    }
    var mask2 := WeightedGroupChoice(size, rewards, errW, fmtW, cfg);
    if mask2.None? {
      return None, groupSize;
    }
    var mask := seq(|rewards|, i requires 0 <= i < |rewards| => mask1[i] && mask2.value[i]);
    BetweenMembers(mask, 0, |mask|);
    BetweenIncreases(mask, 0, |mask|);
    if cfg.downSampleToN > 0 {
      newGroupSize := cfg.downSampleToN;
      SurvivorsRegroup(mask, size, rewards, Penalties(errW, fmtW, cfg), cfg, rejectEqual);
    }
    out := Some(Between(mask, 0, |mask|));
  }
}
