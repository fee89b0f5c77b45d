/**
 The function `karmarkar_karp` computes and what it guarantees, for all token counts:
 the partitions cover every index once, as many as possible are non-empty, and their
 loads differ by at most the longest sequence (with equal sizes, by at most the widest
 block of the sorted list). KarmarkarKarp.dfy proves the mutable code against it.
 */
module PartitionFunction {
  import opened Sequences
  import opened Differencing
  import Arithmetic

  // ----- The function computed -----

  predicate Earlier(a: Item, b: Item) {
    a.val < b.val || (a.val == b.val && a.idx <= b.idx)
  }

  function InsertItem(x: Item, s: seq<Item>): (r: seq<Item>)
    ensures |r| == |s| + 1
  {
    if s == [] || Earlier(x, s[0]) then [x] + s else [s[0]] + InsertItem(x, s[1..])
  }

  /** The items of lengths from index `from` on, in order of (length, index). */
  function SortedFrom(lens: seq<nat>, from: nat): (r: seq<Item>)
    requires from <= |lens|
    ensures |r| == |lens| - from
    decreases |lens| - from
  {
    if from == |lens| then [] else InsertItem(Item(from, lens[from]), SortedFrom(lens, from + 1))
  }

  function SortedItems(lens: seq<nat>): (r: seq<Item>)
    ensures |r| == |lens|
  {
    SortedFrom(lens, 0)
  }

  /** k sets, the first of which hold one of the items each. */
  function StateSets(items: seq<Item>, k: nat): (s: Parts)
    ensures |s| == k
  {
    seq(k, i requires 0 <= i => if i < |items| then Part(items[i].val, [items[i]]) else EMPTY)
  }

  function StateOf(items: seq<Item>, k: nat): (s: Parts)
    ensures |s| == k
  {
    SortDescending(StateSets(items, k))
  }

  /** How many items one initial state takes. */
  function Width(k: nat, equalSize: bool): nat {
    if equalSize then k else 1
  }

  predicate Splittable(n: nat, k: nat, equalSize: bool) {
    k > 0 && n > 0 && (equalSize ==> n % k == 0)
  }

  /** One state per `w` consecutive items. */
  function States(items: seq<Item>, k: nat, w: nat): (pool: seq<Parts>)
    requires w > 0 && |items| % w == 0
    ensures |pool| == |items| / w
    ensures forall i :: 0 <= i < |pool| ==> |pool[i]| == k
  {
    if items == [] then []
    else
      Arithmetic.DropBlock(|items|, w);
      [StateOf(items[..w], k)] + States(items[w..], k, w)
  }

  function FinalState(lens: seq<nat>, k: nat, equalSize: bool): (s: Parts)
    requires Splittable(|lens|, k, equalSize)
    ensures |s| == k
  {
    Quotients(|lens|, k, equalSize);
    Run(States(SortedItems(lens), k, Width(k, equalSize)), k)
  }

  lemma Quotients(n: nat, k: nat, equalSize: bool)
    requires Splittable(n, k, equalSize)
    ensures n % Width(k, equalSize) == 0 && n / Width(k, equalSize) > 0
  {
    Arithmetic.DropBlock(n, Width(k, equalSize));
  }

  function Indices(items: seq<Item>): (p: seq<nat>)
    ensures |p| == |items|
  {
    seq(|items|, i requires 0 <= i < |items| => items[i].idx)
  }

  function PartitionsOf(s: Parts): (p: seq<seq<nat>>)
    ensures |p| == |s|
  {
    seq(|s|, i requires 0 <= i < |s| => Indices(s[i].items))
  }

  function Partitions(lens: seq<nat>, k: nat, equalSize: bool): (p: seq<seq<nat>>)
    requires Splittable(|lens|, k, equalSize)
    ensures |p| == k
  {
    PartitionsOf(FinalState(lens, k, equalSize))
  }

  function Load(lens: seq<nat>, p: seq<nat>): nat
    requires forall i :: 0 <= i < |p| ==> p[i] < |lens|
  {
    if p == [] then 0 else lens[p[0]] + Load(lens, p[1..])
  }

  /** Every index below n sits in exactly one list. */
  ghost predicate Covers(ps: seq<seq<nat>>, n: nat) {
    multiset(Flatten(ps)) == multiset(Iota(n))
  }

  function AllItems(lens: seq<nat>): (items: seq<Item>)
    ensures |items| == |lens|
  {
    seq(|lens|, i requires 0 <= i < |lens| => Item(i, lens[i]))
  }

  ghost predicate Genuine(items: seq<Item>, lens: seq<nat>) {
    forall x :: x in items ==> x.idx < |lens| && x.val == lens[x.idx]
  }

  // ----- The sorted list -----

  ghost predicate Ascending(s: seq<Item>) {
    forall i, j :: 0 <= i <= j < |s| ==> s[i].val <= s[j].val
  }

  lemma {:induction false} InsertItemBounded(x: Item, s: seq<Item>, lo: nat)
    requires lo <= x.val && forall i :: 0 <= i < |s| ==> lo <= s[i].val
    ensures forall i :: 0 <= i <= |s| ==> lo <= InsertItem(x, s)[i].val
  {
    if s != [] && !Earlier(x, s[0]) {
      InsertItemBounded(x, s[1..], lo);
    }
  }

  lemma {:induction false} InsertItemAscends(x: Item, s: seq<Item>)
    requires Ascending(s)
    ensures Ascending(InsertItem(x, s))
  {
    if s != [] && !Earlier(x, s[0]) {
      InsertItemAscends(x, s[1..]);
      InsertItemBounded(x, s[1..], s[0].val);
    }
  }

  lemma {:induction false} InsertItemAdds(x: Item, s: seq<Item>)
    ensures multiset(InsertItem(x, s)) == multiset(s) + multiset{x}
  {
    if s != [] && !Earlier(x, s[0]) {
      InsertItemAdds(x, s[1..]);
      assert s == [s[0]] + s[1..];
    }
  }

  lemma {:induction false} SortedFromAscends(lens: seq<nat>, from: nat)
    requires from <= |lens|
    ensures Ascending(SortedFrom(lens, from))
    decreases |lens| - from
  {
    if from < |lens| {
      SortedFromAscends(lens, from + 1);
      InsertItemAscends(Item(from, lens[from]), SortedFrom(lens, from + 1));
    }
  }

  /** By length, equal lengths by index, as tuples (length, index) sort. */
  ghost predicate InOrder(s: seq<Item>) {
    forall i, j :: 0 <= i < j < |s| ==> Precedes(s[i], s[j])
  }

  predicate Precedes(a: Item, b: Item) {
    a.val < b.val || (a.val == b.val && a.idx < b.idx)
  }

  lemma PrependInOrder(x: Item, s: seq<Item>)
    requires InOrder(s) && forall y :: y in s ==> Precedes(x, y)
    ensures InOrder([x] + s)
  {
    var r := [x] + s;
    assert forall i :: 0 < i < |r| ==> r[i] == s[i - 1] && s[i - 1] in s;
  }

  lemma TailInOrder(s: seq<Item>)
    requires s != [] && InOrder(s)
    ensures InOrder(s[1..]) && forall y :: y in s[1..] ==> Precedes(s[0], y)
  {
  }

  lemma {:induction false} InsertInOrder(x: Item, s: seq<Item>)
    requires InOrder(s) && forall y :: y in s ==> x.idx < y.idx
    ensures InOrder(InsertItem(x, s)) && forall y :: y in InsertItem(x, s) <==> y == x || y in s
  {
    hide InOrder;
    if s != [] {
      assert s == [s[0]] + s[1..];
      TailInOrder(s);
    }
    if s == [] || Earlier(x, s[0]) {
      PrependInOrder(x, s);
    } else {
      InsertInOrder(x, s[1..]);
      PrependInOrder(s[0], InsertItem(x, s[1..]));
    }
  }

  lemma {:induction false} SortedFromInOrder(lens: seq<nat>, from: nat)
    requires from <= |lens|
    ensures InOrder(SortedFrom(lens, from)) && forall y :: y in SortedFrom(lens, from) ==> from <= y.idx
    decreases |lens| - from
  {
    hide InOrder, InsertItem;
    if from == |lens| {
      EmptyInOrder();
    } else {
      SortedFromInOrder(lens, from + 1);
      InsertInOrder(Item(from, lens[from]), SortedFrom(lens, from + 1));
    }
  }

  lemma EmptyInOrder()
    ensures InOrder([])
  {
  }

  function AllFrom(lens: seq<nat>, from: nat): seq<Item>
    requires from <= |lens|
    decreases |lens| - from
  {
    if from == |lens| then [] else [Item(from, lens[from])] + AllFrom(lens, from + 1)
  }

  lemma {:induction false} AllFromItems(lens: seq<nat>, from: nat)
    requires from <= |lens|
    ensures AllFrom(lens, from) == AllItems(lens)[from..]
    decreases |lens| - from
  {
    if from < |lens| {
      AllFromItems(lens, from + 1);
    }
  }

  lemma {:induction false} SortedFromHolds(lens: seq<nat>, from: nat)
    requires from <= |lens|
    ensures multiset(SortedFrom(lens, from)) == multiset(AllFrom(lens, from))
    decreases |lens| - from
  {
    if from < |lens| {
      SortedFromHolds(lens, from + 1);
      InsertItemAdds(Item(from, lens[from]), SortedFrom(lens, from + 1));
      ConsMultiset(Item(from, lens[from]), AllFrom(lens, from + 1));
    }
  }

  lemma SortedItemsSorts(lens: seq<nat>)
    ensures InOrder(SortedItems(lens))
    ensures Ascending(SortedItems(lens)) && Genuine(SortedItems(lens), lens)
    ensures multiset(SortedItems(lens)) == multiset(AllItems(lens))
  {
    SortedFromInOrder(lens, 0);
    SortedFromAscends(lens, 0);
    SortedFromHolds(lens, 0);
    AllFromItems(lens, 0);
    assert AllItems(lens)[0..] == AllItems(lens);
    forall x | x in SortedItems(lens)
      ensures x.idx < |lens| && x.val == lens[x.idx]
    {
      assert x in multiset(AllItems(lens));
    }
  }

  // ----- The initial states -----

  lemma {:induction false} StateSetsHeld(items: seq<Item>, k: nat)
    requires |items| <= k
    ensures Held(StateSets(items, k)) == items
    decreases k
  {
    if k > 0 {
      var rest := if items == [] then [] else items[1..];
      assert StateSets(items, k)[1..] == StateSets(rest, k - 1);
      StateSetsHeld(rest, k - 1);
    }
  }

  lemma StateSetsOk(items: seq<Item>, k: nat, lens: seq<nat>)
    requires 0 < |items| <= k && Genuine(items, lens)
    ensures forall i :: 0 <= i < k ==> PartOk(StateSets(items, k)[i], lens)
    ensures NonEmpty(StateSets(items, k)) == |items|
  {
    NonEmptyAtEnds(StateSets(items, k), |items|, 0);
    assert forall i :: 0 <= i < |items| ==> Values([items[i]]) == items[i].val + Values([]);
  }

  lemma StateOfOk(items: seq<Item>, k: nat, lens: seq<nat>)
    requires 0 < |items| <= k && Genuine(items, lens)
    ensures StateOk(StateOf(items, k), k, lens)
  {
    var u, s := StateSets(items, k), StateOf(items, k);
    StateSetsHeld(items, k);
    StateSetsOk(items, k, lens);
    SortDescendingSorts(u);
    SortHeld(u);
    assert |Held(s)| == |multiset(Held(s))| == |multiset(items)| == |items|;
    forall i | 0 <= i < k
      ensures PartOk(s[i], lens)
    {
      var j := PermutationSource(s, u, i);
    }
  }

  lemma StateOfHeld(items: seq<Item>, k: nat)
    requires |items| <= k
    ensures multiset(Held(StateOf(items, k))) == multiset(items)
  {
    StateSetsHeld(items, k);
    SortHeld(StateSets(items, k));
  }

  /** A single item spreads by its length (by nothing when k is 1); a full block of an
      ascending list by its last length minus its first. */
  lemma StateOfSpread(items: seq<Item>, k: nat)
    requires |items| in {1, k} && k > 0 && Ascending(items)
    ensures Spread(StateOf(items, k)) <= items[|items| - 1].val
    ensures |items| == k ==> Spread(StateOf(items, k)) <= items[k - 1].val - items[0].val
  {
    var u := StateSets(items, k);
    SortDescendingSorts(u);
    var i := PermutationSource(StateOf(items, k), u, 0);
    var j := PermutationSource(StateOf(items, k), u, k - 1);
  }

  lemma {:induction false} StatesOk(items: seq<Item>, k: nat, w: nat, lens: seq<nat>)
    requires k > 0 && w in {1, k} && |items| % w == 0 && Genuine(items, lens)
    ensures PoolOk(States(items, k, w), k, lens)
    ensures PoolHeld(States(items, k, w)) == multiset(items)
  {
    if items != [] {
      Arithmetic.DropBlock(|items|, w);
      assert items == items[..w] + items[w..];
      assert States(items, k, w) == [StateOf(items[..w], k)] + States(items[w..], k, w);
      StateOfOk(items[..w], k, lens);
      StateOfHeld(items[..w], k);
      hide States, StateOf, StateOk, Held;
      StatesOk(items[w..], k, w, lens);
    }
  }

  /** The largest difference within a block of w consecutive items. */
  function WidestBlock(items: seq<Item>, w: nat): int
    requires w > 0 && |items| % w == 0
  {
    if items == [] then 0
    else
      Arithmetic.DropBlock(|items|, w);
      Arithmetic.Max(items[w - 1].val - items[0].val, WidestBlock(items[w..], w))
  }

  function Longest(lens: seq<nat>): nat {
    if lens == [] then 0 else Arithmetic.Max(lens[0], Longest(lens[1..]))
  }

  lemma {:induction false} LongestBounds(lens: seq<nat>)
    ensures forall i :: 0 <= i < |lens| ==> lens[i] <= Longest(lens)
  {
    if lens != [] {
      LongestBounds(lens[1..]);
      assert forall i :: 0 < i < |lens| ==> lens[i] == lens[1..][i - 1];
    }
  }

  /** How far apart the loads of two partitions can be. */
  function Imbalance(lens: seq<nat>, k: nat, equalSize: bool): int
    requires Splittable(|lens|, k, equalSize)
  {
    if equalSize then WidestBlock(SortedItems(lens), k) else Longest(lens)
  }

  /** The equal-size bound is at most the longest length minus the shortest. */
  lemma {:induction false} WidestBlockWithin(items: seq<Item>, w: nat, lo: nat, hi: nat)
    requires w > 0 && |items| % w == 0 && lo <= hi
    requires forall i :: 0 <= i < |items| ==> lo <= items[i].val <= hi
    ensures WidestBlock(items, w) <= hi - lo
  {
    if items != [] {
      Arithmetic.DropBlock(|items|, w);
      WidestBlockWithin(items[w..], w, lo, hi);
    }
  }

  /** With equal sizes the bound is at most longest minus shortest, otherwise the longest. */
  lemma ImbalanceWithin(lens: seq<nat>, k: nat, equalSize: bool, lo: nat, hi: nat)
    requires Splittable(|lens|, k, equalSize)
    requires forall i :: 0 <= i < |lens| ==> lo <= lens[i] <= hi
    ensures Imbalance(lens, k, equalSize) <= if equalSize then hi - lo else hi
  {
    if equalSize {
      var sorted := SortedItems(lens);
      SortedItemsSorts(lens);
      assert forall i :: 0 <= i < |sorted| ==> sorted[i] in sorted;
      WidestBlockWithin(sorted, k, lo, hi);
    } else {
      LongestIn(lens);
    }
  }

  lemma {:induction false} LongestIn(lens: seq<nat>)
    requires lens != []
    ensures Longest(lens) in lens
  {
    if |lens| > 1 {
      LongestIn(lens[1..]);
    }
  }

  lemma {:induction false} SinglesSpread(items: seq<Item>, k: nat, bound: int)
    requires k > 0 && forall i :: 0 <= i < |items| ==> items[i].val <= bound
    ensures SpreadsWithin(States(items, k, 1), k, bound)
  {
    if items != [] {
      StateOfSpread(items[..1], k);
      SinglesSpread(items[1..], k, bound);
    }
  }

  lemma {:induction false} BlocksSpread(items: seq<Item>, k: nat, bound: int)
    requires k > 0 && |items| % k == 0 && Ascending(items) && WidestBlock(items, k) <= bound
    ensures SpreadsWithin(States(items, k, k), k, bound)
  {
    if items != [] {
      Arithmetic.DropBlock(|items|, k);
      StateOfSpread(items[..k], k);
      BlocksSpread(items[k..], k, bound);
    }
  }

  lemma InitialSpread(lens: seq<nat>, k: nat, equalSize: bool)
    requires Splittable(|lens|, k, equalSize)
    ensures |lens| % Width(k, equalSize) == 0
    ensures SpreadsWithin(States(SortedItems(lens), k, Width(k, equalSize)), k, Imbalance(lens, k, equalSize))
  {
    Quotients(|lens|, k, equalSize);
    SortedItemsSorts(lens);
    var sorted := SortedItems(lens);
    if equalSize {
      BlocksSpread(sorted, k, WidestBlock(sorted, k));
    } else {
      LongestBounds(lens);
      assert forall i :: 0 <= i < |sorted| ==> sorted[i] in sorted;
      SinglesSpread(sorted, k, Longest(lens));
    }
  }

  // ----- The heap's choices -----

  lemma {:induction false} StatesFilled(items: seq<Item>, k: nat, w: nat)
    requires k > 0 && w in {1, k} && |items| % w == 0
    ensures forall i :: 0 <= i < |States(items, k, w)| ==> Held(States(items, k, w)[i]) != []
  {
    if items != [] {
      Arithmetic.DropBlock(|items|, w);
      StateOfHeld(items[..w], k);
      assert items[..w][0] in multiset(items[..w]);
      StatesFilled(items[w..], k, w);
    }
  }

  lemma InitialApart(lens: seq<nat>, k: nat, equalSize: bool)
    requires Splittable(|lens|, k, equalSize)
    ensures |lens| % Width(k, equalSize) == 0
    ensures PoolOk(States(SortedItems(lens), k, Width(k, equalSize)), k, lens)
    ensures ItemsApart(States(SortedItems(lens), k, Width(k, equalSize)))
  {
    var items, w := SortedItems(lens), Width(k, equalSize);
    Quotients(|lens|, k, equalSize);
    SortedItemsSorts(lens);
    hide SortedItems, States, PoolOk, PoolHeld, Held, Ascending;
    StatesOk(items, k, w, lens);
    StatesFilled(items, k, w);
    AllItemsOnce(lens);
  }

  lemma AllItemsOnce(lens: seq<nat>)
    ensures forall x :: multiset(AllItems(lens))[x] <= 1
  {
    var all := AllItems(lens);
    assert forall i :: 0 <= i < |lens| ==> all[i].idx == i;
    DistinctCounts(all);
    forall x: Item
      ensures multiset(all)[x] <= 1
    {
      assert x in all <==> x in multiset(all);
    }
  }

  /** In every round of the loop both pops are determined: the pool has one minimal state,
      and so has what is left of it. */
  lemma PopsAreDetermined(lens: seq<nat>, k: nat, equalSize: bool, n: nat, i: nat, j: nat)
    requires Splittable(|lens|, k, equalSize) && |lens| % Width(k, equalSize) == 0
    requires n < |States(SortedItems(lens), k, Width(k, equalSize))|
    ensures var pool := PoolAfter(States(SortedItems(lens), k, Width(k, equalSize)), k, n);
      && pool != [] && Run(pool, k) == FinalState(lens, k, equalSize)
      && (i < |pool| && j < |pool| && Minimal(pool, k, i) && Minimal(pool, k, j) ==> i == j)
      && forall x :: 0 <= x < |pool| ==>
           var rest := RemoveAt(pool, x);
           Proper(rest, k) && (i < |rest| && j < |rest| && Minimal(rest, k, i) && Minimal(rest, k, j) ==> i == j)
  {
    hide Minimal, PoolOk, ItemsApart, PoolAfter, States, SortedItems;
    InitialApart(lens, k, equalSize);
    var start := States(SortedItems(lens), k, Width(k, equalSize));
    PoolAfterApart(start, k, lens, n);
    RunPassesPools(start, k, n);
    var pool := PoolAfter(start, k, n);
    if i < |pool| && j < |pool| && Minimal(pool, k, i) && Minimal(pool, k, j) {
      PopIsDetermined(pool, k, lens, i, j);
    }
    forall x | 0 <= x < |pool|
      ensures var rest := RemoveAt(pool, x);
        Proper(rest, k) && (i < |rest| && j < |rest| && Minimal(rest, k, i) && Minimal(rest, k, j) ==> i == j)
    {
      RestApart(pool, k, lens, x);
      var rest := RemoveAt(pool, x);
      if i < |rest| && j < |rest| && Minimal(rest, k, i) && Minimal(rest, k, j) {
        PopIsDetermined(rest, k, lens, i, j);
      }
    }
  }

  // ----- The final state -----

  lemma FinalOk(lens: seq<nat>, k: nat, equalSize: bool)
    requires Splittable(|lens|, k, equalSize)
    ensures StateOk(FinalState(lens, k, equalSize), k, lens)
    ensures multiset(Held(FinalState(lens, k, equalSize))) == multiset(AllItems(lens))
    ensures Spread(FinalState(lens, k, equalSize)) <= Imbalance(lens, k, equalSize)
  {
    var w := Width(k, equalSize);
    InitialSpread(lens, k, equalSize);
    Quotients(|lens|, k, equalSize);
    SortedItemsSorts(lens);
    StatesOk(SortedItems(lens), k, w, lens);
    RunKeeps(States(SortedItems(lens), k, w), k, lens, Imbalance(lens, k, equalSize));
  }

  lemma {:induction false} IndicesOfHeld(s: Parts)
    ensures Flatten(PartitionsOf(s)) == Indices(Held(s))
  {
    if s != [] {
      assert PartitionsOf(s)[1..] == PartitionsOf(s[1..]);
      IndicesOfHeld(s[1..]);
    }
  }

  lemma IndicesRemoveAt(a: seq<Item>, i: nat)
    requires i < |a|
    ensures multiset(Indices(a)) == multiset(Indices(RemoveAt(a, i))) + multiset{a[i].idx}
  {
    RemoveAtMultiset(Indices(a), i);
    assert RemoveAt(Indices(a), i) == Indices(RemoveAt(a, i));
  }

  lemma {:induction false} IndicesPermutation(a: seq<Item>, b: seq<Item>)
    requires multiset(a) == multiset(b)
    ensures multiset(Indices(a)) == multiset(Indices(b))
    decreases |a|
  {
    if a == [] {
      assert |multiset(b)| == 0;
    } else {
      var j := PermutationSource(a, b, 0);
      RemoveAtMultiset(a, 0);
      RemoveAtMultiset(b, j);
      assert multiset(RemoveAt(a, 0)) == multiset(a) - multiset{a[0]} == multiset(RemoveAt(b, j));
      IndicesPermutation(RemoveAt(a, 0), RemoveAt(b, j));
      IndicesRemoveAt(a, 0);
      IndicesRemoveAt(b, j);
    }
  }

  lemma {:induction false} LoadIsValues(lens: seq<nat>, items: seq<Item>)
    requires Genuine(items, lens)
    ensures forall i :: 0 <= i < |items| ==> Indices(items)[i] < |lens|
    ensures Load(lens, Indices(items)) == Values(items)
  {
    if items != [] {
      assert Indices(items)[1..] == Indices(items[1..]);
      LoadIsValues(lens, items[1..]);
      assert items[0] in items;
    }
    assert forall i :: 0 <= i < |items| ==> items[i] in items;
  }

  // ----- The theorems -----

  /** The partitions are k disjoint lists that together hold 0..n-1. */
  lemma PartitionsCover(lens: seq<nat>, k: nat, equalSize: bool)
    requires Splittable(|lens|, k, equalSize)
    ensures Covers(Partitions(lens, k, equalSize), |lens|)
  {
    var s := FinalState(lens, k, equalSize);
    FinalOk(lens, k, equalSize);
    IndicesOfHeld(s);
    IndicesPermutation(Held(s), AllItems(lens));
    assert Indices(AllItems(lens)) == Iota(|lens|);
  }

  /** Exactly min(n, k) of them are non-empty, whatever the lengths, zeros included. */
  lemma PartitionsFilled(lens: seq<nat>, k: nat, equalSize: bool)
    requires Splittable(|lens|, k, equalSize)
    ensures forall i :: 0 <= i < k ==> (Partitions(lens, k, equalSize)[i] != [] <==> i < |lens|)
  {
    var s := FinalState(lens, k, equalSize);
    FinalOk(lens, k, equalSize);
    NonEmptyFirst(s, lens);
    assert |Held(s)| == |multiset(Held(s))| == |AllItems(lens)|;
  }

  lemma LoadsAreSums(lens: seq<nat>, k: nat, equalSize: bool, i: nat)
    requires Splittable(|lens|, k, equalSize) && i < k
    ensures var p := Partitions(lens, k, equalSize)[i];
      && (forall j :: 0 <= j < |p| ==> p[j] < |lens|)
      && Load(lens, p) == FinalState(lens, k, equalSize)[i].sum
  {
    FinalOk(lens, k, equalSize);
    var part := FinalState(lens, k, equalSize)[i];
    assert PartOk(part, lens);
    LoadIsValues(lens, part.items);
  }

  /** Any two loads differ by at most the imbalance bound. */
  lemma PartitionsBalanced(lens: seq<nat>, k: nat, equalSize: bool, i: nat, j: nat)
    requires Splittable(|lens|, k, equalSize) && i < k && j < k
    ensures var ps := Partitions(lens, k, equalSize);
      && (forall x :: 0 <= x < |ps[i]| ==> ps[i][x] < |lens|)
      && (forall x :: 0 <= x < |ps[j]| ==> ps[j][x] < |lens|)
      && Load(lens, ps[i]) - Load(lens, ps[j]) <= Imbalance(lens, k, equalSize)
  {
    FinalOk(lens, k, equalSize);
    LoadsAreSums(lens, k, equalSize, i);
    LoadsAreSums(lens, k, equalSize, j);
    SumsDescend(FinalState(lens, k, equalSize));
  }

  /** The lists come by decreasing load. */
  lemma PartitionsDescend(lens: seq<nat>, k: nat, equalSize: bool, i: nat, j: nat)
    requires Splittable(|lens|, k, equalSize) && i <= j < k
    ensures var ps := Partitions(lens, k, equalSize);
      && (forall x :: 0 <= x < |ps[i]| ==> ps[i][x] < |lens|)
      && (forall x :: 0 <= x < |ps[j]| ==> ps[j][x] < |lens|)
      && Load(lens, ps[i]) >= Load(lens, ps[j])
  {
    FinalOk(lens, k, equalSize);
    LoadsAreSums(lens, k, equalSize, i);
    LoadsAreSums(lens, k, equalSize, j);
    SumsDescend(FinalState(lens, k, equalSize));
  }

  lemma {:induction false} ValuesRemoveAt(a: seq<Item>, i: nat)
    requires i < |a|
    ensures Values(a) == Values(RemoveAt(a, i)) + a[i].val
  {
    assert a == a[..i] + ([a[i]] + a[i + 1..]);
    ValuesConcat(a[..i], [a[i]] + a[i + 1..]);
    ValuesConcat(a[..i], a[i + 1..]);
    assert ([a[i]] + a[i + 1..])[1..] == a[i + 1..];
  }

  lemma {:induction false} ValuesPermutation(a: seq<Item>, b: seq<Item>)
    requires multiset(a) == multiset(b)
    ensures Values(a) == Values(b)
    decreases |a|
  {
    if a == [] {
      assert |multiset(b)| == 0;
    } else {
      var j := PermutationSource(a, b, 0);
      RemoveAtMultiset(a, 0);
      RemoveAtMultiset(b, j);
      assert multiset(RemoveAt(a, 0)) == multiset(a) - multiset{a[0]} == multiset(RemoveAt(b, j));
      ValuesPermutation(RemoveAt(a, 0), RemoveAt(b, j));
      ValuesRemoveAt(a, 0);
      ValuesRemoveAt(b, j);
    }
  }

  lemma {:induction false} AllValues(lens: seq<nat>, from: nat)
    requires from <= |lens|
    ensures Values(AllItems(lens)[from..]) == Sum(lens[from..])
    decreases |lens| - from
  {
    if from < |lens| {
      AllValues(lens, from + 1);
      assert lens[from..][1..] == lens[from + 1..];
      assert AllItems(lens)[from..] == [AllItems(lens)[from]] + AllItems(lens)[from + 1..];
    }
  }

  function Sums(s: Parts): (r: seq<int>)
    ensures |r| == |s|
  {
    seq(|s|, i requires 0 <= i < |s| => s[i].sum)
  }

  lemma {:induction false} SumsAreValues(s: Parts)
    requires forall i :: 0 <= i < |s| ==> s[i].sum == Values(s[i].items)
    ensures Sum(Sums(s)) == Values(Held(s))
  {
    if s != [] {
      assert Sums(s)[1..] == Sums(s[1..]);
      SumsAreValues(s[1..]);
      ValuesConcat(s[0].items, Held(s[1..]));
    }
  }

  lemma SpreadBound(s: Parts, i: nat, d: int)
    requires Descending(s) && i < |s| && Spread(s) <= d
    ensures |s| * s[i].sum <= Sum(Sums(s)) + (|s| - 1) * d
  {
    SumsDescend(s);
    SumSplit(Sums(s), i);
    var others := RemoveAt(Sums(s), i);
    forall j | 0 <= j < |others|
      ensures s[i].sum - d <= others[j]
    {
      assert s[i].sum <= s[0].sum && others[j] >= s[|s| - 1].sum;
    }
    SumAtLeast(others, s[i].sum - d);
    assert (s[i].sum - d) * (|s| - 1) + s[i].sum == |s| * s[i].sum - (|s| - 1) * d;
  }

  lemma TotalOfSums(lens: seq<nat>, k: nat, equalSize: bool)
    requires Splittable(|lens|, k, equalSize)
    ensures Sum(Sums(FinalState(lens, k, equalSize))) == Sum(lens)
  {
    var s := FinalState(lens, k, equalSize);
    FinalOk(lens, k, equalSize);
    assert forall j :: 0 <= j < k ==> PartOk(s[j], lens);
    SumsAreValues(s);
    ValuesPermutation(Held(s), AllItems(lens));
    AllValues(lens, 0);
    assert AllItems(lens)[0..] == AllItems(lens) && lens[0..] == lens;
  }

  /** k times any load is at most the grand total plus (k - 1) times the imbalance. */
  lemma LoadBound(lens: seq<nat>, k: nat, equalSize: bool, i: nat)
    requires Splittable(|lens|, k, equalSize) && i < k
    ensures var p := Partitions(lens, k, equalSize)[i];
      && (forall x :: 0 <= x < |p| ==> p[x] < |lens|)
      && k * Load(lens, p) <= Sum(lens) + (k - 1) * Imbalance(lens, k, equalSize)
  {
    FinalOk(lens, k, equalSize);
    TotalOfSums(lens, k, equalSize);
    SpreadBound(FinalState(lens, k, equalSize), i, Imbalance(lens, k, equalSize));
    LoadsAreSums(lens, k, equalSize, i);
  }

  lemma {:induction false} StatesUniform(items: seq<Item>, k: nat)
    requires k > 0 && |items| % k == 0
    ensures forall i :: 0 <= i < |items| / k ==> Uniform(States(items, k, k)[i])
  {
    if items != [] {
      Arithmetic.DropBlock(|items|, k);
      SortUniform(StateSets(items[..k], k));
      StatesUniform(items[k..], k);
    }
  }

  lemma {:induction false} UniformHeld(s: Parts, c: nat)
    requires forall i :: 0 <= i < |s| ==> |s[i].items| == c
    ensures |Held(s)| == |s| * c
  {
    if s != [] {
      UniformHeld(s[1..], c);
      assert |s| * c == c + |s[1..]| * c;
    }
  }

  /** With `equal_size`, all partitions hold n / k items. */
  lemma PartitionsEqual(lens: seq<nat>, k: nat, i: nat)
    requires Splittable(|lens|, k, true) && i < k
    ensures |Partitions(lens, k, true)[i]| * k == |lens|
  {
    var s := FinalState(lens, k, true);
    Quotients(|lens|, k, true);
    StatesUniform(SortedItems(lens), k);
    RunUniform(States(SortedItems(lens), k, k), k);
    FinalOk(lens, k, true);
    UniformHeld(s, |s[i].items|);
    assert |Held(s)| == |multiset(Held(s))| == |AllItems(lens)|;
    assert |s[i].items| * k == k * |s[i].items|;
  }

  // ----- get_seqlen_balanced_partitions -----

  function InsertIndex(x: nat, s: seq<nat>): (r: seq<nat>)
    ensures |r| == |s| + 1
  {
    if s == [] || x <= s[0] then [x] + s else [s[0]] + InsertIndex(x, s[1..])
  }

  /** `sorted(partition)`. */
  function SortIndices(s: seq<nat>): (r: seq<nat>)
    ensures |r| == |s|
  {
    if s == [] then [] else InsertIndex(s[0], SortIndices(s[1..]))
  }

  ghost predicate Increasing(s: seq<nat>) {
    forall i, j :: 0 <= i < j < |s| ==> s[i] <= s[j]
  }

  lemma {:induction false} InsertIndexSorts(x: nat, s: seq<nat>, lo: nat)
    requires Increasing(s) && lo <= x && forall i :: 0 <= i < |s| ==> lo <= s[i]
    ensures Increasing(InsertIndex(x, s))
    ensures forall i :: 0 <= i <= |s| ==> lo <= InsertIndex(x, s)[i]
  {
    if s != [] && x > s[0] {
      InsertIndexSorts(x, s[1..], s[0]);
    }
  }

  lemma {:induction false} InsertIndexAdds(x: nat, s: seq<nat>)
    ensures multiset(InsertIndex(x, s)) == multiset(s) + multiset{x}
  {
    if s != [] && x > s[0] {
      InsertIndexAdds(x, s[1..]);
      assert s == [s[0]] + s[1..];
    }
  }

  lemma {:induction false} SortIndicesSorts(s: seq<nat>)
    ensures Increasing(SortIndices(s))
    ensures multiset(SortIndices(s)) == multiset(s)
  {
    if s != [] {
      SortIndicesSorts(s[1..]);
      InsertIndexSorts(s[0], SortIndices(s[1..]), 0);
      InsertIndexAdds(s[0], SortIndices(s[1..]));
      assert s == [s[0]] + s[1..];
    }
  }

  function SortEach(ps: seq<seq<nat>>): (r: seq<seq<nat>>)
    ensures |r| == |ps|
  {
    seq(|ps|, i requires 0 <= i < |ps| => SortIndices(ps[i]))
  }

  function BalancedPartitions(lens: seq<nat>, k: nat, equalSize: bool): (ps: seq<seq<nat>>)
    requires Splittable(|lens|, k, equalSize)
    ensures |ps| == k
  {
    SortEach(Partitions(lens, k, equalSize))
  }

  lemma {:induction false} SortEachFlatten(ps: seq<seq<nat>>)
    ensures multiset(Flatten(SortEach(ps))) == multiset(Flatten(ps))
  {
    if ps != [] {
      assert SortEach(ps)[1..] == SortEach(ps[1..]);
      SortIndicesSorts(ps[0]);
      SortEachFlatten(ps[1..]);
    }
  }

  lemma {:induction false} LoadConcat(lens: seq<nat>, a: seq<nat>, b: seq<nat>)
    requires forall i :: 0 <= i < |a| ==> a[i] < |lens|
    requires forall i :: 0 <= i < |b| ==> b[i] < |lens|
    ensures Load(lens, a + b) == Load(lens, a) + Load(lens, b)
  {
    if a == [] {
      assert a + b == b;
    } else {
      assert (a + b)[1..] == a[1..] + b;
      LoadConcat(lens, a[1..], b);
    }
  }

  lemma {:induction false} LoadInsert(lens: seq<nat>, x: nat, s: seq<nat>)
    requires x < |lens| && forall i :: 0 <= i < |s| ==> s[i] < |lens|
    ensures forall i :: 0 <= i <= |s| ==> InsertIndex(x, s)[i] < |lens|
    ensures Load(lens, InsertIndex(x, s)) == lens[x] + Load(lens, s)
  {
    if s != [] && x > s[0] {
      LoadInsert(lens, x, s[1..]);
    }
  }

  lemma {:induction false} LoadSorted(lens: seq<nat>, s: seq<nat>)
    requires forall i :: 0 <= i < |s| ==> s[i] < |lens|
    ensures forall i :: 0 <= i < |s| ==> SortIndices(s)[i] < |lens|
    ensures Load(lens, SortIndices(s)) == Load(lens, s)
  {
    if s != [] {
      LoadSorted(lens, s[1..]);
      LoadInsert(lens, s[0], SortIndices(s[1..]));
    }
  }

  /** The result `get_seqlen_balanced_partitions` promises: k non-empty increasing
      lists that cover 0..n-1 once, any two loads within the imbalance bound of each
      other, no load above its share by more than that bound. */
  lemma BalancedPartitionsOk(lens: seq<nat>, k: nat, equalSize: bool)
    requires Splittable(|lens|, k, equalSize) && |lens| >= k
    ensures var ps := BalancedPartitions(lens, k, equalSize);
      && Covers(ps, |lens|)
      && (forall i :: 0 <= i < k ==> ps[i] != [] && Increasing(ps[i]))
      && (equalSize ==> forall i :: 0 <= i < k ==> |ps[i]| * k == |lens|)
      && (forall i, x :: 0 <= i < k && 0 <= x < |ps[i]| ==> ps[i][x] < |lens|)
      && (forall i, j :: 0 <= i < k && 0 <= j < k ==>
            Load(lens, ps[i]) - Load(lens, ps[j]) <= Imbalance(lens, k, equalSize))
      && (forall i :: 0 <= i < k ==>
            k * Load(lens, ps[i]) <= Sum(lens) + (k - 1) * Imbalance(lens, k, equalSize))
  {
    var raw, ps := Partitions(lens, k, equalSize), BalancedPartitions(lens, k, equalSize);
    PartitionsCover(lens, k, equalSize);
    SortEachFlatten(raw);
    PartitionsFilled(lens, k, equalSize);
    forall i | 0 <= i < k
      ensures Increasing(ps[i])
      ensures equalSize ==> |ps[i]| * k == |lens|
      ensures forall x :: 0 <= x < |ps[i]| ==> ps[i][x] < |lens|
      ensures k * Load(lens, ps[i]) <= Sum(lens) + (k - 1) * Imbalance(lens, k, equalSize)
    {
      SortIndicesSorts(raw[i]);
      LoadBound(lens, k, equalSize, i);
      LoadSorted(lens, raw[i]);
      if equalSize {
        PartitionsEqual(lens, k, i);
      }
    }
    forall i, j | 0 <= i < k && 0 <= j < k
      ensures Load(lens, ps[i]) - Load(lens, ps[j]) <= Imbalance(lens, k, equalSize)
    {
      PartitionsBalanced(lens, k, equalSize, i, j);
      LoadSorted(lens, raw[i]);
      LoadSorted(lens, raw[j]);
    }
  }

  // ----- get_reverse_idx -----

  function LastIndexOf(m: seq<nat>, x: nat): (r: Option<nat>)
    ensures r == None ==> x !in m
    ensures r.Some? ==> r.value < |m| && m[r.value] == x
  {
    if m == [] then None
    else if m[|m| - 1] == x then Some(|m| - 1)
    else LastIndexOf(m[..|m| - 1], x)
  }

  /** What `get_reverse_idx` leaves at position x: the last position written there, or
      the copied entry when nothing was. */
  function ReverseAt(m: seq<nat>, x: nat): nat
    requires x < |m|
  {
    match LastIndexOf(m, x)
    case None => m[x]
    case Some(i) => i
  }

  /** On a permutation, in particular on the flattened partitions, it is the inverse. */
  lemma ReverseIsInverse(m: seq<nat>)
    requires multiset(m) == multiset(Iota(|m|))
    ensures forall i :: 0 <= i < |m| ==> m[i] < |m| && ReverseAt(m, m[i]) == i
    ensures forall x :: 0 <= x < |m| ==> ReverseAt(m, x) < |m| && m[ReverseAt(m, x)] == x
  {
    PermutationIsBijection(m, |m|);
    forall i | 0 <= i < |m|
      ensures ReverseAt(m, m[i]) == i
    {
      var j := LastIndexOf(m, m[i]);
      assert m[i] in m;
      assert m[j.value] == m[i];
    }
  }
}
