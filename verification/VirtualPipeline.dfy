/**
 `split_dynamic_batch_size`: the virtual pipeline asks for a number of micro-batches that is
 a multiple of its stage group, rounds the starting count up to one, and then asserts that
 the loop has ended at one. The rounding happens before the retries, each of which adds a
 single micro-batch.
 */
module VirtualPipeline {
  import opened Sequences
  import opened MicroBatching
  import opened PartitionFunction
  import Arithmetic
  import BinPacking
  import LongestApart

  ghost predicate PipelineInput(ranks: seq<Rank>, budget: nat, vppSize: Option<nat>, stage: nat) {
    && ranks != [] && (forall r :: 0 <= r < |ranks| ==> RankOk(ranks[r], budget))
    && (vppSize.Some? && vppSize.value > 1 ==> stage > 0)
  }

  /** The counts all ranks start from. */
  ghost function StartOf(ranks: seq<Rank>, budget: nat, divisor: nat): (start: seq<nat>)
    ensures |start| == |ranks|
  {
    seq(|ranks|, r requires 0 <= r < |ranks| => StartCount(LocalCounts(ranks, budget), r, 0, true, divisor))
  }

  // ----- The code -----

  /** None when an assert fires on some rank. */
  method SplitDynamicBatchSize(ranks: seq<Rank>, cpWorldSize: nat, vppSize: Option<nat>, maxTokens: nat, stage: nat)
    returns (counts: Option<seq<nat>>, micro: seq<seq<seq<nat>>>)
    requires PipelineInput(ranks, maxTokens * cpWorldSize, vppSize, stage)
    ensures counts.Some? ==> CutAs(ranks, counts.value, micro)
    ensures var budget := maxTokens * cpWorldSize;
      var divisor := if vppSize.Some? && vppSize.value > 1 then stage else 0;
      var start := StartOf(ranks, budget, divisor);
      && (counts.Some? <==> exists d: nat :: EndsAt(ranks, start, budget, d) && (divisor > 0 ==> d % divisor == 0))
      && (counts.Some? ==> exists d: nat :: EndsAt(ranks, start, budget, d) && counts.value == Raised(start, d))
  {
    hide EndsAt, CutAs, StartCount, LocalCounts, Enough, LoadWithin, Retry, AllWithin, RoomForAll;
    var budget, divisor := maxTokens * cpWorldSize, if vppSize.Some? && vppSize.value > 1 then stage else 0;
    var start, end;
    start, end, micro := GetIteratorDynamic(ranks, budget, true, 0, divisor);
    assert start == StartOf(ranks, budget, divisor);
    StartsDivide(ranks, budget, divisor);
    EndOfLoop(ranks, start, budget);
    if end.None? {
      return None, [];
    }
    ghost var d: nat :| EndsAt(ranks, start, budget, d) && end.value == Raised(start, d);
    LoopEndsOnce(ranks, start, budget, d);
    if divisor > 0 && exists r :: 0 <= r < |ranks| && !Arithmetic.Divides(divisor, end.value[r]) {
      RaisedDivides(start, d, divisor);
      return None, [];
    }
    if divisor > 0 {
      RaisedDivides(start, d, divisor);
    }
    return end, micro;
  }

  // ----- When the assert holds -----

  lemma SameRest(a: nat, d: nat, m: nat)
    requires m > 0 && a % m == 0
    ensures (a + d) % m == d % m
  {
    Arithmetic.DivModUnique(a + d, m, a / m + d / m, d % m) by {
      assert a == (a / m) * m && d == (d / m) * m + d % m;
      assert (a / m + d / m) * m == (a / m) * m + (d / m) * m;
    }
  }

  lemma RaisedDivides(start: seq<nat>, d: nat, m: nat)
    requires m > 0 && forall r :: 0 <= r < |start| ==> start[r] % m == 0
    ensures forall r :: 0 <= r < |start| ==> (Arithmetic.Divides(m, Raised(start, d)[r]) <==> d % m == 0)
  {
    forall r | 0 <= r < |start|
      ensures Arithmetic.Divides(m, Raised(start, d)[r]) <==> d % m == 0
    {
      SameRest(start[r], d, m);
    }
  }

  lemma StartsDivide(ranks: seq<Rank>, budget: nat, divisor: nat)
    ensures divisor > 0 ==> forall r :: 0 <= r < |ranks| ==> StartOf(ranks, budget, divisor)[r] % divisor == 0
  {
    hide StartCount, LocalCounts;
    forall r | 0 <= r < |ranks| && divisor > 0
      ensures StartOf(ranks, budget, divisor)[r] % divisor == 0
    {
      StartMeans(ranks, budget, r, 0, true, divisor);
    }
  }

  lemma EndOfLoop(ranks: seq<Rank>, start: seq<nat>, budget: nat)
    requires RetryInput(ranks, start, budget)
    ensures var end := Retry(ranks, start, budget);
      && (end.Some? <==> exists d: nat :: EndsAt(ranks, start, budget, d))
      && (end.Some? ==> exists d: nat :: EndsAt(ranks, start, budget, d) && end.value == Raised(start, d))
  {
    hide Retry, AllFit;
    RetryMeans(ranks, start, budget);
  }

  lemma LoopEndsOnce(ranks: seq<Rank>, start: seq<nat>, budget: nat, d: nat)
    requires |start| == |ranks| && EndsAt(ranks, start, budget, d)
    ensures forall e: nat :: EndsAt(ranks, start, budget, e) ==> e == d
  {
    hide AllFit;
  }

  /** One rank that holds c sequences or more and whose c budgets hold its total plus c - 1
      times its longest sequence. */
  ghost predicate Roomy(rank: Rank, c: nat, budget: nat) {
    && 0 < c <= |rank.lens| && rank.tokens == rank.lens
    && Sum(rank.lens) + (c - 1) * Longest(rank.lens) <= c * budget
  }

  /** When every rank has that room at the start, the loop ends at once, so the assert holds. */
  lemma RoomyStart(ranks: seq<Rank>, budget: nat, divisor: nat)
    requires forall r :: 0 <= r < |ranks| ==> Roomy(ranks[r], StartOf(ranks, budget, divisor)[r], budget)
    ensures var start := StartOf(ranks, budget, divisor);
      EndsAt(ranks, start, budget, 0) && Raised(start, 0) == start
  {
    hide StartOf, Fits;
    var start := StartOf(ranks, budget, divisor);
    assert Raised(start, 0) == start;
    forall r | 0 <= r < |ranks|
      ensures Fits(ranks[r], start[r], budget)
    {
      RoomyCutFits(ranks[r], start[r], budget);
    }
  }

  // ----- A batch with which it fails -----

  const LENS: seq<nat> := [3, 3, 2, 2, 2]

  lemma Opens(bins: BinPacking.Bins, idx: nat, len: nat, next: BinPacking.Bins)
    requires |bins.groups| == |bins.room| && forall g :: 0 <= g < |bins.room| ==> bins.room[g] < len
    requires next == BinPacking.Bins(bins.groups + [[idx]], bins.room + [6 - len])
    ensures BinPacking.Place(bins, idx, len, 6) == next
  {
    BinPacking.PlaceFitsBest(bins, idx, len, 6);
  }

  lemma Joins(bins: BinPacking.Bins, idx: nat, len: nat, g: nat, group: seq<nat>, next: BinPacking.Bins)
    requires |bins.groups| == |bins.room| && g < |bins.room| && bins.room[g] >= len
    requires forall h :: 0 <= h < |bins.room| && h != g ==> bins.room[h] < len
    requires group == bins.groups[g] + [idx]
    requires next == BinPacking.Bins(bins.groups[g := group], bins.room[g := bins.room[g] - len])
    ensures BinPacking.Place(bins, idx, len, 6) == next
  {
    BinPacking.PlaceFitsBest(bins, idx, len, 6);
  }

  lemma PackNext(order: seq<nat>, n: nat)
    requires n < |order| && forall i :: 0 <= i < |order| ==> order[i] < 5
    ensures BinPacking.PackFirst(LENS, order, 0, 6) == BinPacking.Bins([], [])
    ensures BinPacking.PackFirst(LENS, order, n + 1, 6)
         == BinPacking.Place(BinPacking.PackFirst(LENS, order, n, 6), order[n], LENS[order[n]], 6)
  {
  }

  const ORDER: seq<nat> := [0, 1, 2, 3, 4]

  lemma PackedThree()
    ensures BinPacking.PackFirst(LENS, ORDER, 3, 6) == BinPacking.Bins([[0, 1], [2]], [0, 4])
  {
    hide BinPacking.PackFirst, BinPacking.Place;
    PackNext(ORDER, 0);
    Opens(BinPacking.Bins([], []), 0, 3, BinPacking.Bins([[0]], [3]));
    PackNext(ORDER, 1);
    Joins(BinPacking.Bins([[0]], [3]), 1, 3, 0, [0, 1], BinPacking.Bins([[0, 1]], [0]));
    PackNext(ORDER, 2);
    Opens(BinPacking.Bins([[0, 1]], [0]), 2, 2, BinPacking.Bins([[0, 1], [2]], [0, 4]));
  }

  lemma PackedFive()
    ensures BinPacking.PackFirst(LENS, ORDER, 5, 6) == BinPacking.Bins([[0, 1], [2, 3, 4]], [0, 0])
  {
    hide BinPacking.PackFirst, BinPacking.Place;
    PackedThree();
    PackNext(ORDER, 3);
    Joins(BinPacking.Bins([[0, 1], [2]], [0, 4]), 3, 2, 1, [2, 3], BinPacking.Bins([[0, 1], [2, 3]], [0, 2]));
    PackNext(ORDER, 4);
    Joins(BinPacking.Bins([[0, 1], [2, 3]], [0, 2]), 4, 2, 1, [2, 3, 4],
          BinPacking.Bins([[0, 1], [2, 3, 4]], [0, 0]));
  }

  /** Packing finds the two full bins. */
  lemma PackedInTwo()
    ensures |BinPacking.BfdPartitions(LENS, 6)| == 2
  {
    hide BinPacking.PackFirst, BinPacking.Place, BinPacking.LongestFirst;
    OrderIs();
    PackedFive();
  }

  lemma OrderIs()
    ensures BinPacking.LongestFirst(LENS, 0) == ORDER
  {
    assert BinPacking.LongestFirst(LENS, 5) == [];
    assert BinPacking.LongestFirst(LENS, 4) == [4];
    assert BinPacking.LongestFirst(LENS, 3) == [3, 4];
    assert BinPacking.LongestFirst(LENS, 2) == [2, 3, 4];
    assert BinPacking.LongestFirst(LENS, 1) == [1, 2, 3, 4];
  }

  lemma {:induction false} LoadOf(p: seq<nat>)
    requires forall x :: 0 <= x < |p| ==> p[x] < 5
    ensures Load(LENS, p) == 2 * |p| + multiset(p)[0] + multiset(p)[1]
  {
    if p != [] {
      LoadOf(p[1..]);
      assert p == [p[0]] + p[1..];
    }
  }

  /** With the two long sequences apart, one of two partitions has three sequences and load 7. */
  lemma TwoPartsOver(a: seq<nat>, b: seq<nat>)
    requires multiset(a + b) == multiset(Iota(5))
    requires !(0 in a && 1 in a) && !(0 in b && 1 in b)
    ensures forall x :: 0 <= x < |a| ==> a[x] < 5
    ensures forall x :: 0 <= x < |b| ==> b[x] < 5
    ensures Load(LENS, a) > 6 || Load(LENS, b) > 6
  {
    hide Load, Iota;
    assert multiset(a + b) == multiset(a) + multiset(b) == multiset(b) + multiset(a);
    IndicesBelow(a, b);
    IndicesBelow(b, a);
    LoadOf(a);
    LoadOf(b);
    OnceEach(a, b);
    OneOver(|a|, |b|, multiset(a)[0], multiset(a)[1], multiset(b)[0], multiset(b)[1]);
  }

  lemma OneOver(na: nat, nb: nat, a0: nat, a1: nat, b0: nat, b1: nat)
    requires na + nb == 5 && a0 + b0 == 1 && a1 + b1 == 1
    requires !(a0 > 0 && a1 > 0) && !(b0 > 0 && b1 > 0)
    ensures 2 * na + a0 + a1 > 6 || 2 * nb + b0 + b1 > 6
  {
  }

  lemma IndicesBelow(a: seq<nat>, b: seq<nat>)
    requires multiset(a) + multiset(b) == multiset(Iota(5))
    ensures forall x :: 0 <= x < |a| ==> a[x] < 5
  {
    forall x | 0 <= x < |a|
      ensures a[x] < 5
    {
      assert a[x] in multiset(Iota(5));
    }
  }

  lemma OnceEach(a: seq<nat>, b: seq<nat>)
    requires multiset(a + b) == multiset(Iota(5))
    ensures multiset(a)[0] + multiset(b)[0] == 1 && multiset(a)[1] + multiset(b)[1] == 1
    ensures |a| + |b| == 5
  {
    assert Iota(5) == [0, 1, 2, 3, 4];
    assert multiset([0, 1, 2, 3, 4])[0] == 1 && multiset([0, 1, 2, 3, 4])[1] == 1;
    assert multiset(a + b) == multiset(a) + multiset(b);
    assert |a + b| == |multiset(a + b)|;
  }

  lemma CutInTwoIsOver()
    ensures !Fits(Rank(LENS, LENS), 2, 6)
  {
    hide Cut, BalancedPartitions, Covers;
    var ps := Cut(LENS, 2);
    var i, j := LongestApart.TwoLongestApart(LENS, 2);
    LongOnes(i, j);
    CutIs(LENS, 2);
    assert !(0 in ps[0] && 1 in ps[0]) && !(0 in ps[1] && 1 in ps[1]);
    CutCoversTwo(ps[0], ps[1]);
    TwoPartsOver(ps[0], ps[1]);
  }

  lemma CutIs(lens: seq<nat>, k: nat)
    requires 0 < k <= |lens|
    ensures Cut(lens, k) == BalancedPartitions(lens, k, false)
  {
  }

  lemma CutCoversTwo(a: seq<nat>, b: seq<nat>)
    requires Cut(LENS, 2)[0] == a && Cut(LENS, 2)[1] == b
    ensures multiset(a + b) == multiset(Iota(5))
  {
    hide Cut, Iota;
    CutCovers(LENS, 2);
    FlattenTwo(a, b);
    assert Cut(LENS, 2) == [a, b];
  }

  lemma FlattenTwo(a: seq<nat>, b: seq<nat>)
    ensures Flatten([a, b]) == a + b
  {
    assert [a, b][1..] == [b] && [b][1..] == [];
    assert Flatten([b]) == b + Flatten<nat>([]);
  }

  lemma LongOnes(i: nat, j: nat)
    requires i < 5 && j < 5 && i != j && LENS[j] <= LENS[i]
    requires forall x :: 0 <= x < 5 && x != i ==> LENS[x] <= LENS[j]
    ensures (i == 0 && j == 1) || (i == 1 && j == 0)
  {
    if i != 0 {
      assert LENS[0] <= LENS[j];
    } else {
      assert LENS[1] <= LENS[j];
    }
  }

  /** One rank with sequences of 3, 3, 2, 2 and 2 tokens, a budget of 6 and two stages per
      group: packing fills two bins, but the cut into two puts the two long sequences apart,
      so that one micro-batch has 7 tokens. The loop ends with three. */
  lemma DivisibilityLost()
    ensures var ranks := [Rank(LENS, LENS)];
      && PipelineInput(ranks, 6, Some(2), 2) && AllWithin(ranks, 6)
      && StartOf(ranks, 6, 2) == [2] && EndsAt(ranks, [2], 6, 1) && Raised([2], 1) == [3]
  {
    hide Fits, RankOk, AllWithin, StartOf, Cuttable, Sum, Longest;
    var rank, ranks := Rank(LENS, LENS), [Rank(LENS, LENS)];
    LensWithin();
    StartIsTwo();
    CutInTwoIsOver();
    RoomyCutFits(rank, 3, 6);
    assert ranks[0] == rank;
    assert AllFit(ranks, [3], 6) && !Fits(ranks[0], [2][0], 6);
    assert Raised([2], 0) == [2] && Raised([2], 1) == [3];
    assert EndsAt(ranks, [2], 6, 1);
  }

  lemma LensWithin()
    ensures var rank := Rank(LENS, LENS);
      && RankOk(rank, 6) && AllWithin([rank], 6) && Cuttable(rank, 3)
      && Sum(LENS) == 12 && Longest(LENS) == 3
  {
    assert LENS[1..] == [3, 2, 2, 2] && LENS[2..] == [2, 2, 2];
  }

  lemma StartIsTwo()
    ensures StartOf([Rank(LENS, LENS)], 6, 2) == [2]
  {
    hide StartCount, LocalCounts, BinPacking.BfdPartitions;
    PackedInTwo();
    var ranks := [Rank(LENS, LENS)];
    StartMeans(ranks, 6, 0, 0, true, 2);
    assert Enough(ranks, 6, 0, 0, true, 2, 2);
  }
}
