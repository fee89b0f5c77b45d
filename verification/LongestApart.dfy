/**
 A property of the differencing method that its balance bound does not give: cut into two
 or more partitions, the two longest sequences never share one. The first round takes
 exactly their two states and puts them on opposite ends, and no later merge brings two
 sets of one state together.
 */
module LongestApart {
  import opened Sequences
  import opened Differencing
  import opened PartitionFunction
  import Arithmetic

  // ----- Two items in a pool -----

  /** Neither item is in any set of the state. */
  ghost predicate Free(s: Parts, x: Item, y: Item) {
    forall m :: 0 <= m < |s| ==> x !in s[m].items && y !in s[m].items
  }

  /** No set of the state holds both. */
  ghost predicate Split(s: Parts, x: Item, y: Item) {
    forall m :: 0 <= m < |s| ==> !(x in s[m].items && y in s[m].items)
  }

  /** Every state keeps the two items in different sets, and at most one state holds any. */
  ghost predicate PoolSplit(pool: seq<Parts>, x: Item, y: Item) {
    && (forall p :: 0 <= p < |pool| ==> Split(pool[p], x, y))
    && forall p, q :: 0 <= p < q < |pool| ==> Free(pool[p], x, y) || Free(pool[q], x, y)
  }

  /** A set of the merged state is a set of one state together with one of the other. */
  lemma MergedFrom(a: Parts, b: Parts, m: nat) returns (i: nat)
    requires |a| == |b| && m < |a|
    ensures i < |a| && Merge(a, b)[m].items == a[i].items + b[|a| - 1 - i].items
  {
    hide Merge, Cross;
    MergePermutes(a, b);
    CrossAt(a, b);
    i := PermutationSource(Merge(a, b), Cross(a, b), m);
  }

  lemma MergeSplit(a: Parts, b: Parts, x: Item, y: Item)
    requires |a| == |b|
    requires Split(a, x, y) && Split(b, x, y) && (Free(a, x, y) || Free(b, x, y))
    ensures Split(Merge(a, b), x, y)
    ensures Free(a, x, y) && Free(b, x, y) ==> Free(Merge(a, b), x, y)
  {
    hide Merge;
    var s := Merge(a, b);
    forall m | 0 <= m < |s|
      ensures !(x in s[m].items && y in s[m].items)
      ensures Free(a, x, y) && Free(b, x, y) ==> x !in s[m].items && y !in s[m].items
    {
      var i := MergedFrom(a, b, m);
    }
  }

  /** Each position of the list after one was taken out, in the list before. */
  function Before(p: nat, i: nat): nat {
    if p < i then p else p + 1
  }

  /** Two states leave a pool, and one comes in that is free when both of them were. */
  lemma ReplaceSplit(pool: seq<Parts>, i: nat, r: nat, s: Parts, x: Item, y: Item)
    requires i < |pool| && r < |pool| - 1 && PoolSplit(pool, x, y)
    requires Split(s, x, y) && (Free(pool[i], x, y) && Free(pool[Before(r, i)], x, y) ==> Free(s, x, y))
    ensures PoolSplit(RemoveAt(RemoveAt(pool, i), r) + [s], x, y)
  {
    hide Split, Free;
    var j, left := Before(r, i), RemoveAt(RemoveAt(pool, i), r);
    forall p | 0 <= p < |left|
      ensures left[p] == pool[Before(Before(p, r), i)] && Split(left[p], x, y)
      ensures Free(left[p], x, y) || Free(s, x, y)
    {
      var at := Before(Before(p, r), i);
      FreePair(pool, at, i, x, y);
      FreePair(pool, at, j, x, y);
    }
    forall p, q | 0 <= p < q < |left|
      ensures Free(left[p], x, y) || Free(left[q], x, y)
    {
      FreePair(pool, Before(Before(p, r), i), Before(Before(q, r), i), x, y);
    }
  }

  lemma FreePair(pool: seq<Parts>, p: nat, q: nat, x: Item, y: Item)
    requires PoolSplit(pool, x, y) && p < |pool| && q < |pool| && p != q
    ensures Split(pool[p], x, y) && (Free(pool[p], x, y) || Free(pool[q], x, y))
  {
  }

  lemma StepSplit(pool: seq<Parts>, k: nat, x: Item, y: Item)
    requires |pool| > 1 && Proper(pool, k) && PoolSplit(pool, x, y)
    ensures PoolSplit(Step(pool, k), x, y)
  {
    hide Split, Free, LeastIndex, Merge, PoolSplit;
    var i := LeastIndex(pool, k);
    var r := LeastIndex(RemoveAt(pool, i), k);
    var j := Before(r, i);
    assert RemoveAt(pool, i)[r] == pool[j];
    FreePair(pool, i, j, x, y);
    FreePair(pool, j, i, x, y);
    MergeSplit(pool[i], pool[j], x, y);
    ReplaceSplit(pool, i, r, Merge(pool[i], pool[j]), x, y);
  }

  lemma {:induction false} RunSplit(pool: seq<Parts>, k: nat, x: Item, y: Item)
    requires pool != [] && Proper(pool, k) && PoolSplit(pool, x, y)
    ensures Split(Run(pool, k), x, y)
    decreases |pool|
  {
    hide Split, Free, Step;
    if |pool| > 1 {
      StepSplit(pool, k, x, y);
      RunSplit(Step(pool, k), k, x, y);
    }
  }

  // ----- The first round -----

  /** The state of a single item: the item alone in the first set. */
  ghost predicate Single(s: Parts, x: Item, k: nat) {
    && |s| == k > 0 && s[0].sum == x.val && s[0].items == [x]
    && forall m :: 0 < m < k ==> s[m] == EMPTY
  }

  lemma StateOfSingle(x: Item, k: nat)
    requires k > 0
    ensures Single(StateOf([x], k), x, k)
  {
    var u := StateSets([x], k);
    SortEmpties(u[1..]);
    assert SortDescending(u) == Insert(u[0], u[1..]);
  }

  lemma {:induction false} SortEmpties(s: Parts)
    requires forall m :: 0 <= m < |s| ==> s[m] == EMPTY
    ensures SortDescending(s) == s
  {
    if s != [] {
      SortEmpties(s[1..]);
    }
  }

  lemma {:induction false} SinglesAre(items: seq<Item>, k: nat)
    requires k > 0
    ensures |States(items, k, 1)| == |items|
    ensures forall p :: 0 <= p < |items| ==> Single(States(items, k, 1)[p], items[p], k)
  {
    hide Single, StateOf;
    if items != [] {
      StateOfSingle(items[0], k);
      SinglesAre(items[1..], k);
      assert items[..1] == [items[0]];
    }
  }

  /** Two single items, merged into two or more sets, are in different ones. */
  lemma MergeSingles(a: Parts, b: Parts, x: Item, y: Item, k: nat)
    requires k > 1 && Single(a, x, k) && Single(b, y, k) && x != y
    ensures Split(Merge(a, b), x, y)
  {
    hide Merge;
    var s := Merge(a, b);
    forall m | 0 <= m < |s|
      ensures !(x in s[m].items && y in s[m].items)
    {
      var i := MergedFrom(a, b, m);
      assert i > 0 ==> a[i].items == [];
      assert i < k - 1 ==> b[k - 1 - i].items == [];
    }
  }

  lemma SingleFree(s: Parts, z: Item, k: nat, x: Item, y: Item)
    requires Single(s, z, k) && z != x && z != y
    ensures Free(s, x, y)
  {
  }

  lemma FreeIsSplit(s: Parts, x: Item, y: Item)
    requires Free(s, x, y)
    ensures Split(s, x, y)
  {
  }

  lemma SingleSpread(s: Parts, x: Item, k: nat)
    requires k > 1 && Single(s, x, k)
    ensures s[0].sum - s[k - 1].sum == x.val
  {
  }

  /** The items of the two states the first round takes: no other is longer. */
  ghost predicate TwoLongest(items: seq<Item>, i: nat, j: nat) {
    && i < |items| && j < |items| && i != j && items[j].val <= items[i].val
    && forall p :: 0 <= p < |items| && p != i ==> items[p].val <= items[j].val
  }

  lemma FurthestIsLongest(pool: seq<Parts>, items: seq<Item>, k: nat, i: nat)
    requires k > 1 && Proper(pool, k) && i < |pool| == |items| && FurthestApart(pool, k, i)
    requires forall p :: 0 <= p < |pool| ==> Single(pool[p], items[p], k)
    ensures forall p :: 0 <= p < |items| ==> items[p].val <= items[i].val
  {
    hide Single, PartLess;
    forall p | 0 <= p < |items|
      ensures pool[p][0].sum - pool[p][k - 1].sum == items[p].val
    {
      SingleSpread(pool[p], items[p], k);
    }
  }

  /** What is left after two positions were taken out sits at neither of them. */
  lemma LeftFree(pool: seq<Parts>, items: seq<Item>, k: nat, i: nat, r: nat)
    requires i < |pool| == |items| && r < |pool| - 1 && Distinct(items)
    requires forall p :: 0 <= p < |pool| ==> Single(pool[p], items[p], k)
    ensures var left := RemoveAt(RemoveAt(pool, i), r);
      forall p :: 0 <= p < |left| ==> Free(left[p], items[i], items[Before(r, i)])
  {
    hide Single, Free;
    var j := Before(r, i);
    var left := RemoveAt(RemoveAt(pool, i), r);
    forall p | 0 <= p < |left|
      ensures Free(left[p], items[i], items[j])
    {
      var at := Before(Before(p, r), i);
      assert left[p] == pool[at] && at != i && at != j;
      SingleFree(pool[at], items[at], k, items[i], items[j]);
    }
  }

  lemma AppendSplit(left: seq<Parts>, s: Parts, x: Item, y: Item)
    requires Split(s, x, y) && forall p :: 0 <= p < |left| ==> Free(left[p], x, y)
    ensures PoolSplit(left + [s], x, y)
  {
    hide Free, Split;
    forall p | 0 <= p < |left|
      ensures Split(left[p], x, y)
    {
      FreeIsSplit(left[p], x, y);
    }
  }

  lemma RestLongest(items: seq<Item>, i: nat, r: nat)
    requires i < |items| && r < |items| - 1
    requires forall p :: 0 <= p < |items| ==> items[p].val <= items[i].val
    requires forall p :: 0 <= p < |items| - 1 ==> RemoveAt(items, i)[p].val <= RemoveAt(items, i)[r].val
    ensures RemoveAt(items, i)[r] == items[Before(r, i)]
    ensures TwoLongest(items, i, Before(r, i))
  {
    var others := RemoveAt(items, i);
    forall p | 0 <= p < |items| && p != i
      ensures items[p].val <= others[r].val
    {
      assert items[p] == others[if p < i then p else p - 1];
    }
  }

  lemma FirstRound(items: seq<Item>, k: nat) returns (i: nat, j: nat)
    requires k > 1 && |items| > 1 && Distinct(items)
    ensures i < |items| && j < |items| && TwoLongest(items, i, j)
    ensures Proper(States(items, k, 1), k) && |States(items, k, 1)| > 1
    ensures PoolSplit(Step(States(items, k, 1), k), items[i], items[j])
  {
    hide Single, Split, Free, Merge, States, Step, FurthestApart, TwoLongest, PoolSplit, Distinct;
    SinglesAre(items, k);
    var pool, r := States(items, k, 1), 0;
    i, r := StepTakesFurthest(pool, k);
    j := Before(r, i);
    var rest, others := RemoveAt(pool, i), RemoveAt(items, i);
    FurthestIsLongest(pool, items, k, i);
    FurthestIsLongest(rest, others, k, r);
    RestLongest(items, i, r);
    DistinctAt(items, i, j);
    MergeSingles(pool[i], rest[r], items[i], items[j], k);
    LeftFree(pool, items, k, i, r);
    AppendSplit(RemoveAt(rest, r), Merge(pool[i], rest[r]), items[i], items[j]);
  }

  lemma DistinctAt(items: seq<Item>, i: nat, j: nat)
    requires Distinct(items) && i < |items| && j < |items| && i != j
    ensures items[i] != items[j]
  {
  }

  // ----- The theorem -----

  /** Cut into two or more partitions, two longest sequences never share one. */
  lemma TwoLongestApart(lens: seq<nat>, k: nat) returns (i: nat, j: nat)
    requires k > 1 && |lens| > 1
    ensures i < |lens| && j < |lens| && i != j && lens[j] <= lens[i]
    ensures forall x :: 0 <= x < |lens| && x != i ==> lens[x] <= lens[j]
    ensures forall m :: 0 <= m < k ==>
      !(i in BalancedPartitions(lens, k, false)[m] && j in BalancedPartitions(lens, k, false)[m])
  {
    hide Split, TwoLongest, States, Step, Run, SortedItems, PoolSplit, Partitions, BalancedPartitions;
    var items := SortedItems(lens);
    SortedDistinct(lens);
    var a, b := FirstRound(items, k);
    i, j := items[a].idx, items[b].idx;
    LongestIndices(lens, a, b);
    RunSplit(Step(States(items, k, 1), k), k, items[a], items[b]);
    FinalIsRun(lens, k);
    FinalOk(lens, k, false);
    forall m | 0 <= m < k
      ensures !(i in BalancedPartitions(lens, k, false)[m] && j in BalancedPartitions(lens, k, false)[m])
    {
      PartHolds(lens, FinalState(lens, k, false), k, m, items[a]);
      PartHolds(lens, FinalState(lens, k, false), k, m, items[b]);
      SplitAt(FinalState(lens, k, false), items[a], items[b], m);
      SortedHolds(lens, k, m, i);
      SortedHolds(lens, k, m, j);
    }
  }

  lemma SortedHolds(lens: seq<nat>, k: nat, m: nat, x: nat)
    requires Splittable(|lens|, k, false) && m < k
    ensures x in BalancedPartitions(lens, k, false)[m] <==> x in PartitionsOf(FinalState(lens, k, false))[m]
  {
    SortIndicesSorts(Partitions(lens, k, false)[m]);
    assert x in BalancedPartitions(lens, k, false)[m] <==> x in multiset(BalancedPartitions(lens, k, false)[m]);
  }

  lemma SplitAt(s: Parts, x: Item, y: Item, m: nat)
    requires Split(s, x, y) && m < |s|
    ensures !(x in s[m].items && y in s[m].items)
  {
  }

  lemma SortedDistinct(lens: seq<nat>)
    ensures Distinct(SortedItems(lens))
  {
    hide SortedItems;
    SortedItemsSorts(lens);
  }

  /** Among the items of the list, the indices of two longest ones. */
  lemma LongestIndices(lens: seq<nat>, a: nat, b: nat)
    requires TwoLongest(SortedItems(lens), a, b)
    ensures var i, j := SortedItems(lens)[a].idx, SortedItems(lens)[b].idx;
      && i < |lens| && j < |lens| && i != j && lens[j] <= lens[i]
      && SortedItems(lens)[a].val == lens[i] && SortedItems(lens)[b].val == lens[j]
      && forall x :: 0 <= x < |lens| && x != i ==> lens[x] <= lens[j]
  {
    hide SortedItems;
    SortedItemsSorts(lens);
    var items := SortedItems(lens);
    forall x | 0 <= x < |lens| && x != items[a].idx
      ensures lens[x] <= items[b].val
    {
      assert AllItems(lens)[x] == Item(x, lens[x]);
      var p := PermutationSource(AllItems(lens), items, x);
    }
  }

  lemma FinalIsRun(lens: seq<nat>, k: nat)
    requires k > 0 && |lens| > 1
    ensures Proper(States(SortedItems(lens), k, 1), k) && |States(SortedItems(lens), k, 1)| > 1
    ensures FinalState(lens, k, false) == Run(Step(States(SortedItems(lens), k, 1), k), k)
  {
  }

  /** An index in a partition stands for its item in the set. */
  lemma PartHolds(lens: seq<nat>, s: Parts, k: nat, m: nat, x: Item)
    requires StateOk(s, k, lens) && m < k && x.idx < |lens| && x.val == lens[x.idx]
    ensures x.idx in PartitionsOf(s)[m] <==> x in s[m].items
  {
    assert PartOk(s[m], lens);
    var items := s[m].items;
    if x.idx in Indices(items) {
      var p :| 0 <= p < |items| && items[p].idx == x.idx;
      assert items[p] in items;
    }
    if x in items {
      var p :| 0 <= p < |items| && items[p] == x;
      assert Indices(items)[p] == x.idx;
    }
  }
}
