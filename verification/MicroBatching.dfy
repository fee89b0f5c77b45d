/**
 The dict branch of `get_iterator_dynamic`: every data-parallel rank cuts its batch
 into the same number of micro-batches, and the ranks retry together with one more
 until no micro-batch of any rank is over the token budget. All ranks are modelled
 side by side; an all-reduce is a function of what every rank contributes.
 */
module MicroBatching {
  import opened Sequences
  import opened PartitionFunction
  import Arithmetic
  import BinPacking
  import KarmarkarKarp

  /** One rank's batch: per sequence the attention-mask sum that guides the cut, and
      prompt plus response length that the budget check adds up. */
  datatype Rank = Rank(lens: seq<nat>, tokens: seq<nat>)

  ghost predicate RankOk(rank: Rank, budget: nat) {
    && |rank.tokens| == |rank.lens| > 0
    && forall i :: 0 <= i < |rank.lens| ==> rank.lens[i] <= budget
  }

  // ----- Collectives -----

  function AllReduceMax(counts: seq<nat>): (m: nat)
    requires counts != []
    ensures m in counts && forall i :: 0 <= i < |counts| ==> counts[i] <= m
  {
    if |counts| == 1 then counts[0]
    else
      var rest := AllReduceMax(counts[1..]);
      assert forall i :: 0 < i < |counts| ==> counts[i] == counts[1..][i - 1];
      Arithmetic.Max(counts[0], rest)
  }

  /** ReduceOp.MIN over 0/1 flags. */
  predicate AllReduceMin(valid: seq<bool>) {
    forall i :: 0 <= i < |valid| ==> valid[i]
  }

  // ----- What is computed -----

  /** The k micro-batches a rank with these lengths cuts its batch into. */
  function Cut(lens: seq<nat>, k: nat): (ps: seq<seq<nat>>)
    requires 0 < k <= |lens|
    ensures |ps| == k
    ensures forall i, x :: 0 <= i < k && 0 <= x < |ps[i]| ==> ps[i][x] < |lens|
  {
    BalancedPartitionsOk(lens, k, false);
    BalancedPartitions(lens, k, false)
  }

  ghost predicate Cuttable(rank: Rank, k: nat) {
    0 < k <= |rank.lens| == |rank.tokens|
  }

  ghost predicate FitsUpTo(rank: Rank, k: nat, n: nat, budget: nat) {
    Cuttable(rank, k) && n <= k && forall i :: 0 <= i < n ==> Load(rank.tokens, Cut(rank.lens, k)[i]) <= budget
  }

  /** This rank holds at least k sequences and a cut into k micro-batches has none over
      the budget. */
  ghost predicate Fits(rank: Rank, k: nat, budget: nat) {
    FitsUpTo(rank, k, k, budget)
  }

  /** Some rank fails the assert that it holds at least as many sequences as parts. */
  predicate TooMany(ranks: seq<Rank>, counts: seq<nat>)
    requires |counts| == |ranks|
  {
    exists r :: 0 <= r < |ranks| && counts[r] > |ranks[r].lens|
  }

  ghost predicate AllFit(ranks: seq<Rank>, counts: seq<nat>, budget: nat)
    requires |counts| == |ranks|
  {
    forall r :: 0 <= r < |ranks| ==> Fits(ranks[r], counts[r], budget)
  }

  function Bump(counts: seq<nat>): (next: seq<nat>)
    ensures |next| == |counts|
  {
    seq(|counts|, r requires 0 <= r < |counts| => counts[r] + 1)
  }

  ghost predicate RetryInput(ranks: seq<Rank>, counts: seq<nat>, budget: nat) {
    && |counts| == |ranks| > 0
    && forall r :: 0 <= r < |ranks| ==> RankOk(ranks[r], budget) && counts[r] > 0
  }

  /** The counts with which the loop ends, or None when a rank's assert fires. */
  ghost function Retry(ranks: seq<Rank>, counts: seq<nat>, budget: nat): (end: Option<seq<nat>>)
    requires RetryInput(ranks, counts, budget)
    ensures end.Some? ==> |end.value| == |ranks|
    decreases |ranks[0].lens| + 1 - counts[0]
  {
    if TooMany(ranks, counts) then None
    else if AllFit(ranks, counts, budget) then Some(counts)
    else Retry(ranks, Bump(counts), budget)
  }

  // ----- The code -----

  method CutBatch(lens: seq<nat>, k: nat) returns (ps: seq<seq<nat>>)
    requires 0 < k <= |lens|
    ensures ps == Cut(lens, k)
  {
    ps := KarmarkarKarp.GetSeqlenBalancedPartitions(lens, k, false);
  }

  /** One rank's share of a round: cut, and stop at the first micro-batch over budget. */
  method CutAndCheck(rank: Rank, k: nat, budget: nat) returns (micro: seq<seq<nat>>, valid: bool)
    requires Cuttable(rank, k)
    ensures valid <==> Fits(rank, k, budget)
    ensures valid ==> micro == Cut(rank.lens, k)
  {
    hide Cut;
    var partitions := CutBatch(rank.lens, k);
    micro, valid := [], true;
    for i := 0 to k
      invariant micro == partitions[..i] && FitsUpTo(rank, k, i, budget)
    {
      micro := micro + [partitions[i]];
      if Load(rank.tokens, partitions[i]) > budget {
        valid := false;
        return;
      }
    }
  }

  ghost predicate CutAs(ranks: seq<Rank>, counts: seq<nat>, micro: seq<seq<seq<nat>>>) {
    && |micro| == |counts| == |ranks|
    && forall r :: 0 <= r < |ranks| ==> Cuttable(ranks[r], counts[r]) && micro[r] == Cut(ranks[r].lens, counts[r])
  }

  /** One round on all ranks. */
  method CutAll(ranks: seq<Rank>, counts: seq<nat>, budget: nat) returns (micro: seq<seq<seq<nat>>>, valid: bool)
    requires |counts| == |ranks| && forall r :: 0 <= r < |ranks| ==> Cuttable(ranks[r], counts[r])
    ensures valid <==> AllFit(ranks, counts, budget)
    ensures valid ==> CutAs(ranks, counts, micro)
  {
    hide Cut, Fits;
    micro := [];
    var flags: seq<bool> := [];
    for r := 0 to |ranks|
      invariant |micro| == |flags| == r
      invariant forall q :: 0 <= q < r ==> (flags[q] <==> Fits(ranks[q], counts[q], budget))
      invariant forall q :: 0 <= q < r && flags[q] ==> micro[q] == Cut(ranks[q].lens, counts[q])
    {
      var cut, fits := CutAndCheck(ranks[r], counts[r], budget);
      micro, flags := micro + [cut], flags + [fits];
    }
    valid := AllReduceMin(flags);
  }

  method RetryInLockstep(ranks: seq<Rank>, start: seq<nat>, budget: nat)
    returns (end: Option<seq<nat>>, micro: seq<seq<seq<nat>>>)
    requires RetryInput(ranks, start, budget)
    ensures end == Retry(ranks, start, budget)
    ensures end.Some? ==> CutAs(ranks, end.value, micro)
  {
    var counts := start;
    while true
      invariant RetryInput(ranks, counts, budget)
      invariant Retry(ranks, counts, budget) == Retry(ranks, start, budget)
      decreases |ranks[0].lens| + 1 - counts[0]
    {
      if TooMany(ranks, counts) {
        return None, [];
      }
      var valid;
      micro, valid := CutAll(ranks, counts, budget);
      if valid {
        return Some(counts), micro;
      }
      counts := Bump(counts);
    }
  }

  /** The count the ranks start from: the packing estimate, at least the pipeline
      minimum, the maximum over ranks when synchronised, rounded up when asked. */
  function StartCount(local: seq<nat>, r: nat, atLeast: nat, synchronised: bool, dividedBy: nat): nat
    requires r < |local|
  {
    var mine := seq(|local|, q requires 0 <= q < |local| => Arithmetic.Max(atLeast, local[q]) as nat);
    var count := if synchronised then AllReduceMax(mine) else mine[r];
    if dividedBy == 0 then count else ((count + dividedBy - 1) / dividedBy) * dividedBy
  }

  /** n micro-batches are a multiple of `dividedBy` when there is one, at least the minimum, at
      least as many as packing the rank's own sequences takes and, synchronised, every rank's. */
  ghost predicate Enough(ranks: seq<Rank>, budget: nat, r: nat, atLeast: nat, synchronised: bool, dividedBy: nat,
                         n: nat)
    requires r < |ranks|
  {
    && (dividedBy > 0 ==> n % dividedBy == 0) && atLeast <= n
    && |BinPacking.BfdPartitions(ranks[r].lens, budget)| <= n
    && (synchronised ==> forall q :: 0 <= q < |ranks| ==> |BinPacking.BfdPartitions(ranks[q].lens, budget)| <= n)
  }

  /** The starting count is the least that is enough. */
  lemma StartMeans(ranks: seq<Rank>, budget: nat, r: nat, atLeast: nat, synchronised: bool, dividedBy: nat)
    requires r < |ranks|
    ensures var start := StartCount(LocalCounts(ranks, budget), r, atLeast, synchronised, dividedBy);
      && Enough(ranks, budget, r, atLeast, synchronised, dividedBy, start)
      && forall n: nat :: Enough(ranks, budget, r, atLeast, synchronised, dividedBy, n) ==> start <= n
  {
    hide BinPacking.BfdPartitions;
    var local := LocalCounts(ranks, budget);
    var start := StartCount(local, r, atLeast, synchronised, dividedBy);
    StartIsEnough(local, r, atLeast, synchronised, dividedBy);
    assert forall q :: 0 <= q < |ranks| ==> local[q] == |BinPacking.BfdPartitions(ranks[q].lens, budget)|;
    forall n: nat | Enough(ranks, budget, r, atLeast, synchronised, dividedBy, n)
      ensures start <= n
    {
      StartIsLeast(local, r, atLeast, synchronised, dividedBy, n);
    }
  }

  lemma StartIsEnough(local: seq<nat>, r: nat, atLeast: nat, synchronised: bool, dividedBy: nat)
    requires r < |local|
    ensures var start := StartCount(local, r, atLeast, synchronised, dividedBy);
      && (dividedBy > 0 ==> start % dividedBy == 0) && atLeast <= start && local[r] <= start
      && (synchronised ==> forall q :: 0 <= q < |local| ==> local[q] <= start)
  {
    var mine := seq(|local|, q requires 0 <= q < |local| => Arithmetic.Max(atLeast, local[q]) as nat);
    assert forall q :: 0 <= q < |local| ==> atLeast <= mine[q] && local[q] <= mine[q];
    var count := if synchronised then AllReduceMax(mine) else mine[r];
    assert mine[r] <= count;
    if dividedBy > 0 {
      Arithmetic.RoundUp(count, dividedBy);
    }
  }

  lemma StartIsLeast(local: seq<nat>, r: nat, atLeast: nat, synchronised: bool, dividedBy: nat, n: nat)
    requires r < |local| && (dividedBy > 0 ==> n % dividedBy == 0) && atLeast <= n && local[r] <= n
    requires synchronised ==> forall q :: 0 <= q < |local| ==> local[q] <= n
    ensures StartCount(local, r, atLeast, synchronised, dividedBy) <= n
  {
    var mine := seq(|local|, q requires 0 <= q < |local| => Arithmetic.Max(atLeast, local[q]) as nat);
    assert synchronised ==> forall m :: m in mine ==> m <= n;
    var count := if synchronised then AllReduceMax(mine) else mine[r];
    if dividedBy > 0 {
      RoundUpWithin(count, dividedBy, n);
    }
  }

  /** All ranks together. `atLeast` and `dividedBy` are 0 for the arguments left None. */
  method GetIteratorDynamic(ranks: seq<Rank>, budget: nat, synchronised: bool, atLeast: nat, dividedBy: nat)
    returns (start: seq<nat>, end: Option<seq<nat>>, micro: seq<seq<seq<nat>>>)
    requires ranks != [] && forall r :: 0 <= r < |ranks| ==> RankOk(ranks[r], budget)
    ensures RetryInput(ranks, start, budget) && end == Retry(ranks, start, budget)
    ensures synchronised ==> start == Same(start[0], |ranks|)
    ensures forall r :: 0 <= r < |ranks| ==>
      start[r] == StartCount(LocalCounts(ranks, budget), r, atLeast, synchronised, dividedBy)
    ensures forall r :: 0 <= r < |ranks| ==>
      && Enough(ranks, budget, r, atLeast, synchronised, dividedBy, start[r])
      && forall n: nat :: Enough(ranks, budget, r, atLeast, synchronised, dividedBy, n) ==> start[r] <= n
    ensures end.Some? ==> CutAs(ranks, end.value, micro)
    ensures end.Some? ==> forall r :: 0 <= r < |ranks| ==>
      && |micro[r]| == end.value[r] && Covers(micro[r], |ranks[r].lens|)
      && forall i :: 0 <= i < |micro[r]| ==> micro[r][i] != [] && LoadWithin(ranks[r].tokens, micro[r][i], budget)
    ensures end.Some? ==> exists d: nat :: end.value == Raised(start, d) && EndsAt(ranks, start, budget, d)
    ensures end.None? ==> forall d: nat :: !AllFit(ranks, Raised(start, d), budget)
    ensures synchronised && RoomForAll(ranks, atLeast, dividedBy, |ranks[0].lens|) ==>
      && (end.Some? <==> AllWithin(ranks, budget))
      && (end.Some? ==> start[0] <= end.value[0] <= |ranks[0].lens| && end.value == Same(end.value[0], |ranks|))
  {
    hide Retry, StartCount, LocalCounts, Enough;
    start := StartCounts(ranks, budget, synchronised, atLeast, dividedBy);
    end, micro := RetryInLockstep(ranks, start, budget);
    RetryMeans(ranks, start, budget);
    if end.Some? {
      CutsAreGood(ranks, end.value, micro, budget);
    }
    if synchronised && RoomForAll(ranks, atLeast, dividedBy, |ranks[0].lens|) {
      DynamicTermination(ranks, start, budget, atLeast, dividedBy, |ranks[0].lens|);
    }
  }

  method PackLocally(ranks: seq<Rank>, budget: nat) returns (local: seq<nat>)
    requires forall r :: 0 <= r < |ranks| ==> RankOk(ranks[r], budget)
    ensures local == LocalCounts(ranks, budget)
  {
    hide BinPacking.BfdPartitions;
    local := [];
    for r := 0 to |ranks|
      invariant local == LocalCounts(ranks, budget)[..r]
    {
      assert RankOk(ranks[r], budget);
      var packed := BinPacking.GetSeqlenBfdPartitions(ranks[r].lens, budget);
      local := local + [|packed.value|];
    }
  }

  lemma SameStart(local: seq<nat>, r: nat, q: nat, atLeast: nat, dividedBy: nat)
    requires r < |local| && q < |local|
    ensures StartCount(local, r, atLeast, true, dividedBy) == StartCount(local, q, atLeast, true, dividedBy)
  {
  }

  method StartCounts(ranks: seq<Rank>, budget: nat, synchronised: bool, atLeast: nat, dividedBy: nat)
    returns (start: seq<nat>)
    requires forall r :: 0 <= r < |ranks| ==> RankOk(ranks[r], budget)
    ensures |start| == |ranks|
    ensures forall r :: 0 <= r < |ranks| ==> start[r] > 0
    ensures synchronised && ranks != [] ==> start == Same(start[0], |ranks|)
    ensures forall r :: 0 <= r < |ranks| ==>
      start[r] == StartCount(LocalCounts(ranks, budget), r, atLeast, synchronised, dividedBy)
    ensures forall r :: 0 <= r < |ranks| ==>
      && Enough(ranks, budget, r, atLeast, synchronised, dividedBy, start[r])
      && forall n: nat :: Enough(ranks, budget, r, atLeast, synchronised, dividedBy, n) ==> start[r] <= n
  {
    hide LocalCounts, StartCount, Enough;
    var local := PackLocally(ranks, budget);
    start := [];
    for r := 0 to |ranks|
      invariant |start| == r
      invariant synchronised ==> forall q :: 0 <= q < r ==> start[q] == start[0]
      invariant forall q :: 0 <= q < r ==>
        start[q] == StartCount(local, q, atLeast, synchronised, dividedBy) && start[q] > 0
    {
      StartPositive(ranks, budget, r, atLeast, synchronised, dividedBy);
      SameStart(local, r, 0, atLeast, dividedBy);
      start := start + [StartCount(local, r, atLeast, synchronised, dividedBy)];
    }
    forall r | 0 <= r < |ranks|
      ensures Enough(ranks, budget, r, atLeast, synchronised, dividedBy, start[r])
      ensures forall n: nat :: Enough(ranks, budget, r, atLeast, synchronised, dividedBy, n) ==> start[r] <= n
    {
      StartMeans(ranks, budget, r, atLeast, synchronised, dividedBy);
    }
  }

  function LocalCounts(ranks: seq<Rank>, budget: nat): (local: seq<nat>)
    ensures |local| == |ranks|
  {
    seq(|ranks|, r requires 0 <= r < |ranks| => |BinPacking.BfdPartitions(ranks[r].lens, budget)|)
  }

  lemma StartPositive(ranks: seq<Rank>, budget: nat, r: nat, atLeast: nat, synchronised: bool, dividedBy: nat)
    requires r < |ranks| && forall q :: 0 <= q < |ranks| ==> RankOk(ranks[q], budget)
    ensures StartCount(LocalCounts(ranks, budget), r, atLeast, synchronised, dividedBy) > 0
  {
    assert RankOk(ranks[r], budget);
    BinPacking.BinsAtMostSequences(ranks[r].lens, budget);
    hide BinPacking.BfdPartitions;
    CountPositive(LocalCounts(ranks, budget), r, atLeast, synchronised, dividedBy);
  }

  lemma CountPositive(local: seq<nat>, r: nat, atLeast: nat, synchronised: bool, dividedBy: nat)
    requires r < |local| && local[r] > 0
    ensures StartCount(local, r, atLeast, synchronised, dividedBy) > 0
  {
    var mine := seq(|local|, q requires 0 <= q < |local| => Arithmetic.Max(atLeast, local[q]) as nat);
    assert mine[r] > 0;
    var count := if synchronised then AllReduceMax(mine) else mine[r];
    if dividedBy > 0 {
      Arithmetic.RoundUp(count, dividedBy);
    }
  }

  // ----- What it guarantees -----

  function Same(k: nat, n: nat): (counts: seq<nat>)
    ensures |counts| == n
  {
    seq(n, r => k)
  }

  /** With one count on all ranks: no rank holds fewer than k sequences, and every
      micro-batch of every rank is within the budget. */
  ghost predicate Works(ranks: seq<Rank>, k: nat, budget: nat) {
    forall r :: 0 <= r < |ranks| ==> Fits(ranks[r], k, budget)
  }

  lemma SameCounts(ranks: seq<Rank>, k: nat, budget: nat)
    ensures AllFit(ranks, Same(k, |ranks|), budget) <==> Works(ranks, k, budget)
    ensures TooMany(ranks, Same(k, |ranks|)) <==> exists r :: 0 <= r < |ranks| && k > |ranks[r].lens|
    ensures Bump(Same(k, |ranks|)) == Same(k + 1, |ranks|)
  {
    var counts := Same(k, |ranks|);
    assert forall r :: 0 <= r < |ranks| ==> counts[r] == k;
  }

  /** Every count d higher. */
  function Raised(counts: seq<nat>, d: nat): (r: seq<nat>)
    ensures |r| == |counts| && forall q :: 0 <= q < |r| ==> r[q] == counts[q] + d
  {
    seq(|counts|, q requires 0 <= q < |counts| => counts[q] + d)
  }

  /** After d failed rounds all cuts fit, and they did not before. */
  ghost predicate EndsAt(ranks: seq<Rank>, start: seq<nat>, budget: nat, d: nat)
    requires |start| == |ranks|
  {
    && AllFit(ranks, Raised(start, d), budget)
    && forall e: nat :: e < d ==> !AllFit(ranks, Raised(start, e), budget)
  }

  lemma RaisedNext(counts: seq<nat>, d: nat)
    ensures Raised(counts, 0) == counts && Raised(Bump(counts), d) == Raised(counts, d + 1)
  {
  }

  lemma FitMeansRoom(ranks: seq<Rank>, counts: seq<nat>, budget: nat, d: nat)
    requires |counts| == |ranks| && AllFit(ranks, Raised(counts, d), budget)
    ensures !TooMany(ranks, counts)
  {
    forall r | 0 <= r < |ranks|
      ensures counts[r] <= |ranks[r].lens|
    {
      FitsMeansCuttable(ranks[r], Raised(counts, d)[r], budget);
    }
  }

  /** Whatever the ranks start from, the loop ends after the first round in which all cuts
      fit, each rank having added one per failed round, and fails when there is none. */
  lemma {:induction false} RetryMeans(ranks: seq<Rank>, start: seq<nat>, budget: nat)
    requires RetryInput(ranks, start, budget)
    ensures var end := Retry(ranks, start, budget);
      && (end.Some? ==> exists d: nat :: end.value == Raised(start, d) && EndsAt(ranks, start, budget, d))
      && (end.None? ==> forall d: nat :: !AllFit(ranks, Raised(start, d), budget))
    decreases |ranks[0].lens| + 1 - start[0]
  {
    hide AllFit;
    RaisedNext(start, 0);
    if d: nat :| AllFit(ranks, Raised(start, d), budget) {
      FitMeansRoom(ranks, start, budget, d);
    }
    if !TooMany(ranks, start) && !AllFit(ranks, start, budget) {
      RetryMeans(ranks, Bump(start), budget);
      var end := Retry(ranks, Bump(start), budget);
      if end.Some? {
        var d: nat :| end.value == Raised(Bump(start), d) && EndsAt(ranks, Bump(start), budget, d);
        EndsLater(ranks, start, budget, d);
      } else {
        forall d: nat
          ensures !AllFit(ranks, Raised(start, d), budget)
        {
          if d > 0 {
            RaisedNext(start, d - 1);
          }
        }
      }
    } else if !TooMany(ranks, start) {
      assert EndsAt(ranks, start, budget, 0);
    }
  }

  lemma EndsLater(ranks: seq<Rank>, start: seq<nat>, budget: nat, d: nat)
    requires |start| == |ranks| && !AllFit(ranks, start, budget) && EndsAt(ranks, Bump(start), budget, d)
    ensures Raised(Bump(start), d) == Raised(start, d + 1) && EndsAt(ranks, start, budget, d + 1)
  {
    hide AllFit;
    RaisedNext(start, d);
    forall e: nat | e < d + 1
      ensures !AllFit(ranks, Raised(start, e), budget)
    {
      RaisedNext(start, if e > 0 then e - 1 else 0);
    }
  }

  /** The sequences at these indices hold at most that many tokens. */
  ghost predicate LoadWithin(tokens: seq<nat>, p: seq<nat>, budget: nat) {
    (forall x :: 0 <= x < |p| ==> p[x] < |tokens|) && Load(tokens, p) <= budget
  }

  /** Cuts that fit put every sequence into exactly one non-empty micro-batch within budget. */
  lemma CutsAreGood(ranks: seq<Rank>, counts: seq<nat>, micro: seq<seq<seq<nat>>>, budget: nat)
    requires |counts| == |ranks| && CutAs(ranks, counts, micro) && AllFit(ranks, counts, budget)
    ensures forall r :: 0 <= r < |ranks| ==>
      && |micro[r]| == counts[r] && Covers(micro[r], |ranks[r].lens|)
      && forall i :: 0 <= i < |micro[r]| ==> micro[r][i] != [] && LoadWithin(ranks[r].tokens, micro[r][i], budget)
  {
    hide Cut;
    forall r | 0 <= r < |ranks|
      ensures |micro[r]| == counts[r] && Covers(micro[r], |ranks[r].lens|)
      ensures forall i :: 0 <= i < |micro[r]| ==> micro[r][i] != [] && LoadWithin(ranks[r].tokens, micro[r][i], budget)
    {
      assert Fits(ranks[r], counts[r], budget);
      CutCovers(ranks[r].lens, counts[r]);
    }
  }

  /** The ranks leave in lockstep: all with the same count, the least one from the
      start on that works for all of them, reached before any rank's assert fires. */
  lemma {:induction false} RetryFindsLeast(ranks: seq<Rank>, k: nat, budget: nat, best: nat)
    requires RetryInput(ranks, Same(k, |ranks|), budget)
    requires k <= best && Works(ranks, best, budget)
    requires forall c :: k <= c < best ==> !Works(ranks, c, budget)
    ensures Retry(ranks, Same(k, |ranks|), budget) == Some(Same(best, |ranks|))
    decreases best - k
  {
    SameCounts(ranks, k, budget);
    assert forall r :: 0 <= r < |ranks| ==> Fits(ranks[r], best, budget);
    if k < best {
      RetryFindsLeast(ranks, k + 1, budget, best);
    }
  }

  /** Conversely, it ends normally only with a common count that works. */
  lemma {:induction false} RetryOnlyWorking(ranks: seq<Rank>, k: nat, budget: nat) returns (best: nat)
    requires RetryInput(ranks, Same(k, |ranks|), budget)
    requires Retry(ranks, Same(k, |ranks|), budget).Some?
    ensures k <= best && Works(ranks, best, budget)
    ensures forall c :: k <= c < best ==> !Works(ranks, c, budget)
    ensures Retry(ranks, Same(k, |ranks|), budget) == Some(Same(best, |ranks|))
    decreases |ranks[0].lens| + 1 - k
  {
    hide Cut;
    SameCounts(ranks, k, budget);
    if Works(ranks, k, budget) {
      best := k;
    } else {
      best := RetryOnlyWorking(ranks, k + 1, budget);
    }
  }

  lemma {:induction false} LeastWorking(ranks: seq<Rank>, k: nat, budget: nat, some: nat) returns (best: nat)
    requires k <= some && Works(ranks, some, budget)
    ensures k <= best <= some && Works(ranks, best, budget)
    ensures forall c :: k <= c < best ==> !Works(ranks, c, budget)
    decreases some - k
  {
    hide Works;
    if Works(ranks, k, budget) {
      best := k;
    } else {
      best := LeastWorking(ranks, k + 1, budget, some);
    }
  }

  lemma {:induction false} AllSingletons(ps: seq<seq<nat>>)
    requires forall i :: 0 <= i < |ps| ==> ps[i] != []
    requires |Flatten<nat>(ps)| == |ps|
    ensures forall i :: 0 <= i < |ps| ==> |ps[i]| == 1
  {
    if ps != [] {
      BinPacking.NonEmptyLists(ps[1..]);
      AllSingletons(ps[1..]);
      assert forall i :: 0 < i < |ps| ==> ps[i] == ps[1..][i - 1];
    }
  }

  /** Cut into as many parts as it has sequences, a batch has one sequence per part. */
  lemma FinestCutFits(rank: Rank, budget: nat)
    requires Cuttable(rank, |rank.lens|)
    requires forall i :: 0 <= i < |rank.tokens| ==> rank.tokens[i] <= budget
    ensures Fits(rank, |rank.lens|, budget)
  {
    hide Cut;
    var n := |rank.lens|;
    var ps := Cut(rank.lens, n);
    CutCovers(rank.lens, n);
    PermutationIsBijection(Flatten<nat>(ps), n);
    AllSingletons(ps);
    forall i | 0 <= i < n
      ensures Load(rank.tokens, ps[i]) <= budget
    {
      assert Load(rank.tokens, ps[i]) == rank.tokens[ps[i][0]] + Load(rank.tokens, ps[i][1..]);
    }
  }

  lemma CutCovers(lens: seq<nat>, k: nat)
    requires 0 < k <= |lens|
    ensures Covers(Cut(lens, k), |lens|)
    ensures forall i :: 0 <= i < k ==> Cut(lens, k)[i] != []
  {
    BalancedPartitionsOk(lens, k, false);
  }

  lemma {:induction false} InSomeList(ps: seq<seq<nat>>, x: nat) returns (i: nat, j: nat)
    requires x in Flatten<nat>(ps)
    ensures i < |ps| && j < |ps[i]| && ps[i][j] == x
  {
    if x in ps[0] {
      i := 0;
      j :| 0 <= j < |ps[0]| && ps[0][j] == x;
    } else {
      i, j := InSomeList(ps[1..], x);
      i := i + 1;
    }
  }

  /** A single sequence over the budget leaves no cut that fits. */
  lemma LongSequenceNeverFits(rank: Rank, k: nat, budget: nat, x: nat)
    requires Cuttable(rank, k) && x < |rank.tokens| && rank.tokens[x] > budget
    ensures !Fits(rank, k, budget)
  {
    CutCovers(rank.lens, k);
    hide Cut;
    var ps := Cut(rank.lens, k);
    PermutationIsBijection(Flatten<nat>(ps), |rank.lens|);
    var i, j := InSomeList(ps, x);
    BinPacking.LoadRemoveAt(rank.tokens, ps[i], j);
  }

  /** When all ranks hold n sequences and start from the same count, at most n, the loop
      ends without a failing assert exactly when no single sequence is over the budget,
      and then with at most n micro-batches. */
  lemma LockstepTermination(ranks: seq<Rank>, k: nat, budget: nat, n: nat)
    requires RetryInput(ranks, Same(k, |ranks|), budget) && k <= n
    requires forall r :: 0 <= r < |ranks| ==> |ranks[r].lens| == n
    ensures var end := Retry(ranks, Same(k, |ranks|), budget);
      && (end.Some? <==>
            forall r, x :: 0 <= r < |ranks| && 0 <= x < n ==> ranks[r].tokens[x] <= budget)
      && (end.Some? ==> k <= end.value[0] <= n && end.value == Same(end.value[0], |ranks|))
  {
    hide Retry, Fits;
    assert k == Same(k, |ranks|)[0];
    assert forall r :: 0 <= r < |ranks| ==> RankOk(ranks[r], budget);
    if forall r, x :: 0 <= r < |ranks| && 0 <= x < n ==> ranks[r].tokens[x] <= budget {
      forall r | 0 <= r < |ranks|
        ensures Fits(ranks[r], n, budget)
      {
        FinestCutFits(ranks[r], budget);
      }
      var best := LeastWorking(ranks, k, budget, n);
      RetryFindsLeast(ranks, k, budget, best);
    } else if Retry(ranks, Same(k, |ranks|), budget).Some? {
      var r, x :| 0 <= r < |ranks| && 0 <= x < n && ranks[r].tokens[x] > budget;
      var best := RetryOnlyWorking(ranks, k, budget);
      assert Fits(ranks[r], best, budget);
      FitsMeansCuttable(ranks[r], best, budget);
      LongSequenceNeverFits(ranks[r], best, budget, x);
      assert false;
    }
  }

  /** No sequence of any rank is over the budget. */
  ghost predicate AllWithin(ranks: seq<Rank>, budget: nat) {
    forall r, x :: 0 <= r < |ranks| && 0 <= x < |ranks[r].tokens| ==> ranks[r].tokens[x] <= budget
  }

  /** Every rank holds n sequences, and neither the pipeline minimum nor the rounding asks
      for more micro-batches than that. */
  ghost predicate RoomForAll(ranks: seq<Rank>, atLeast: nat, dividedBy: nat, n: nat) {
    && (forall r :: 0 <= r < |ranks| ==> |ranks[r].lens| == n)
    && atLeast <= n && (dividedBy == 0 || Arithmetic.Divides(dividedBy, n))
  }

  lemma RoundUpWithin(count: nat, d: nat, n: nat)
    requires d > 0 && Arithmetic.Divides(d, n) && count <= n
    ensures ((count + d - 1) / d) * d <= n
  {
    var q, m := (count + d - 1) / d, n / d;
    assert n == m * d;
    Arithmetic.RoundUp(count, d);
    assert q * d < (m + 1) * d by {
      assert (m + 1) * d == m * d + d;
    }
    Arithmetic.ProductOrder(q, m + 1, d);
    Arithmetic.MulMonotone(q, m, d);
  }

  /** Packing never opens more bins than there are sequences, so the start is within n. */
  lemma StartAtMost(ranks: seq<Rank>, budget: nat, r: nat, atLeast: nat, synchronised: bool, dividedBy: nat, n: nat)
    requires r < |ranks| && (forall q :: 0 <= q < |ranks| ==> RankOk(ranks[q], budget))
    requires RoomForAll(ranks, atLeast, dividedBy, n)
    ensures StartCount(LocalCounts(ranks, budget), r, atLeast, synchronised, dividedBy) <= n
  {
    var local := LocalCounts(ranks, budget);
    forall q | 0 <= q < |ranks|
      ensures local[q] <= n
    {
      assert RankOk(ranks[q], budget);
      BinPacking.BinsAtMostSequences(ranks[q].lens, budget);
    }
    CountAtMost(local, r, atLeast, synchronised, dividedBy, n);
  }

  lemma CountAtMost(local: seq<nat>, r: nat, atLeast: nat, synchronised: bool, dividedBy: nat, n: nat)
    requires r < |local| && (forall q :: 0 <= q < |local| ==> local[q] <= n)
    requires atLeast <= n && (dividedBy == 0 || Arithmetic.Divides(dividedBy, n))
    ensures StartCount(local, r, atLeast, synchronised, dividedBy) <= n
  {
    var mine := seq(|local|, q requires 0 <= q < |local| => Arithmetic.Max(atLeast, local[q]) as nat);
    assert forall m :: m in mine ==> m <= n;
    var count := if synchronised then AllReduceMax(mine) else mine[r];
    if dividedBy > 0 {
      RoundUpWithin(count, dividedBy, n);
    }
  }

  /** From the packed start on: synchronised ranks with n sequences each end the retry
      loop, with one count of at most n, exactly when no sequence is over the budget. */
  lemma DynamicTermination(ranks: seq<Rank>, start: seq<nat>, budget: nat, atLeast: nat, dividedBy: nat, n: nat)
    requires ranks != [] && forall r :: 0 <= r < |ranks| ==> RankOk(ranks[r], budget)
    requires RoomForAll(ranks, atLeast, dividedBy, n)
    requires RetryInput(ranks, start, budget) && start == Same(start[0], |ranks|)
    requires start[0] == StartCount(LocalCounts(ranks, budget), 0, atLeast, true, dividedBy)
    ensures var end := Retry(ranks, start, budget);
      && (end.Some? <==> AllWithin(ranks, budget))
      && (end.Some? ==> start[0] <= end.value[0] <= n && end.value == Same(end.value[0], |ranks|))
  {
    hide Retry, StartCount, LocalCounts;
    StartAtMost(ranks, budget, 0, atLeast, true, dividedBy, n);
    LockstepTermination(ranks, start[0], budget, n);
    assert forall r :: 0 <= r < |ranks| ==> RankOk(ranks[r], budget) && |ranks[r].tokens| == n;
  }

  lemma FitsMeansCuttable(rank: Rank, k: nat, budget: nat)
    requires Fits(rank, k, budget)
    ensures Cuttable(rank, k)
  {
  }

  /** Balance makes a cut fit as soon as k budgets hold the total plus (k - 1) times
      the longest sequence. */
  lemma RoomyCutFits(rank: Rank, k: nat, budget: nat)
    requires Cuttable(rank, k) && rank.tokens == rank.lens
    requires Sum(rank.lens) + (k - 1) * Longest(rank.lens) <= k * budget
    ensures Fits(rank, k, budget)
  {
    hide Cut;
    forall i | 0 <= i < k
      ensures Load(rank.tokens, Cut(rank.lens, k)[i]) <= budget
    {
      CutLoad(rank.lens, k, i);
      Arithmetic.ProductAtMost(Load(rank.lens, Cut(rank.lens, k)[i]), budget, k);
    }
  }

  lemma CutLoad(lens: seq<nat>, k: nat, i: nat)
    requires 0 < k <= |lens| && i < k
    ensures k * Load(lens, Cut(lens, k)[i]) <= Sum(lens) + (k - 1) * Longest(lens)
  {
    BalancedPartitionsOk(lens, k, false);
  }

  lemma {:induction false} LongestWithin(lens: seq<nat>, budget: nat)
    requires forall i :: 0 <= i < |lens| ==> lens[i] <= budget
    ensures Longest(lens) <= budget
  {
    if lens != [] {
      LongestWithin(lens[1..], budget);
    }
  }

  /** Every further part adds a budget and needs at most one more longest sequence. */
  lemma MoreRoom(total: int, longest: int, budget: int, k: nat, m: nat)
    requires 0 < k <= m && longest <= budget && total + (k - 1) * longest <= k * budget
    ensures total + (m - 1) * longest <= m * budget
  {
    Arithmetic.MulMonotone(longest, budget, m - k);
    assert (m - 1) * longest == (k - 1) * longest + (m - k) * longest;
    assert m * budget == k * budget + (m - k) * budget;
  }

  /** The ranks need no more micro-batches than the larger of the start and any k at
      which every rank's k budgets hold its total plus (k - 1) times its longest. */
  lemma LockstepBound(ranks: seq<Rank>, start: nat, budget: nat, k: nat)
    requires RetryInput(ranks, Same(start, |ranks|), budget) && k > 0
    requires forall r :: 0 <= r < |ranks| ==>
      && ranks[r].tokens == ranks[r].lens && Arithmetic.Max(start, k) <= |ranks[r].lens|
      && Sum(ranks[r].lens) + (k - 1) * Longest(ranks[r].lens) <= k * budget
    ensures exists best :: (
      && start <= best <= Arithmetic.Max(start, k)
      && Retry(ranks, Same(start, |ranks|), budget) == Some(Same(best, |ranks|)))
  {
    hide Retry, Fits, Longest, Sum;
    assert start == Same(start, |ranks|)[0];
    var m := Arithmetic.Max(start, k);
    forall r | 0 <= r < |ranks|
      ensures Fits(ranks[r], m, budget)
    {
      assert RankOk(ranks[r], budget);
      LongestWithin(ranks[r].lens, budget);
      MoreRoom(Sum(ranks[r].lens), Longest(ranks[r].lens), budget, k, m);
      RoomyCutFits(ranks[r], m, budget);
    }
    var best := LeastWorking(ranks, start, budget, m);
    RetryFindsLeast(ranks, start, budget, best);
  }
}
