/**
 `karmarkar_karp`, `get_seqlen_balanced_partitions` and `get_reverse_idx`: the
 mutable sets and states, the heap loop over them, and the checks made on the result.
 */
module KarmarkarKarp {
  import opened Sequences
  import opened Differencing
  import opened PartitionFunction

  // ----- The mutable sets and states -----

  class PartSet {
    var sum: nat
    var items: seq<Item>

    constructor ()
      ensures Value() == EMPTY
    {
      sum, items := 0, [];
    }

    function Value(): Part
      reads this
    {
      Part(sum, items)
    }

    method Add(idx: nat, val: nat)
      modifies this
      ensures Value() == Part(old(sum) + val, old(items) + [Item(idx, val)])
    {
      items := items + [Item(idx, val)];
      sum := sum + val;
    }

    method Merge(other: PartSet)
      requires other != this
      modifies this
      ensures Value() == Join(old(Value()), old(other.Value()))
    {
      for n := 0 to |other.items|
        invariant items == old(items) + other.items[..n]
        invariant sum == old(sum) + Values(other.items[..n])
      {
        var x := other.items[n];
        items := items + [x];
        sum := sum + x.val;
        assert other.items[..n + 1] == other.items[..n] + [x];
        ValuesConcat(other.items[..n], [x]);
        assert Values([x]) == x.val;
      }
      assert other.items[..|other.items|] == other.items;
    }
  }

  function SetValues(sets: seq<PartSet>): (v: Parts)
    reads sets
    ensures |v| == |sets| && forall i :: 0 <= i < |sets| ==> v[i] == sets[i].Value()
  {
    seq(|sets|, i requires 0 <= i < |sets| reads sets => sets[i].Value())
  }

  method InsertSet(x: PartSet, s: seq<PartSet>) returns (r: seq<PartSet>)
    ensures multiset(r) == multiset(s) + multiset{x}
    ensures SetValues(r) == Insert(x.Value(), SetValues(s))
  {
    var pos := 0;
    while pos < |s| && PartLess(x.Value(), s[pos].Value())
      invariant pos <= |s|
      invariant forall i :: 0 <= i < pos ==> PartLess(x.Value(), s[i].Value())
    {
      pos := pos + 1;
    }
    r := s[..pos] + [x] + s[pos..];
    InsertAt(x.Value(), SetValues(s), pos);
    InsertedOnce(s, pos, x);
  }

  lemma InsertedOnce<T>(s: seq<T>, pos: nat, x: T)
    requires pos <= |s|
    ensures multiset(s[..pos] + [x] + s[pos..]) == multiset(s) + multiset{x}
  {
    assert s == s[..pos] + s[pos..];
  }

  lemma NothingSorted()
    ensures SortDescending([]) == []
  {
  }

  lemma SortedNext(v: Parts, i: nat)
    requires i < |v|
    ensures SortDescending(v[i..]) == Insert(v[i], SortDescending(v[i + 1..]))
  {
    hide Insert;
    assert v[i..][1..] == v[i + 1..];
  }

  /** `sorted(sets, reverse=True)`. */
  method SortSets(sets: seq<PartSet>) returns (r: seq<PartSet>)
    ensures multiset(r) == multiset(sets)
    ensures SetValues(r) == SortDescending(SetValues(sets))
  {
    hide Insert, SortDescending;
    r := [];
    ghost var v := SetValues(sets);
    NothingSorted();
    for i := |sets| downto 0
      invariant multiset(r) == multiset(sets[i..])
      invariant SetValues(r) == SortDescending(v[i..])
    {
      assert sets[i..] == [sets[i]] + sets[i + 1..];
      SortedNext(v, i);
      ConsMultiset(sets[i], sets[i + 1..]);
      r := InsertSet(sets[i], r);
    }
    assert sets[0..] == sets && v[0..] == v;
  }

  method EmptySets(k: nat) returns (all: seq<PartSet>)
    ensures |all| == k && fresh(all) && Distinct(all)
    ensures SetValues(all) == StateSets([], k)
  {
    all := [];
    for i := 0 to k
      invariant |all| == i && fresh(all) && Distinct(all)
      invariant SetValues(all) == StateSets([], i)
    {
      var x := new PartSet();
      all := all + [x];
    }
  }

  /** `sets[i].add(...)` for the items in turn. */
  method AddEach(sets: seq<PartSet>, items: seq<Item>)
    requires Distinct(sets) && |items| <= |sets|
    requires SetValues(sets) == StateSets([], |sets|)
    modifies sets
    ensures SetValues(sets) == StateSets(items, |sets|)
  {
    for i := 0 to |items|
      invariant forall j :: 0 <= j < |sets| ==>
        sets[j].Value() == if j < i then Part(items[j].val, [items[j]]) else EMPTY
    {
      sets[i].Add(items[i].idx, items[i].val);
    }
  }

  /** `sets[i].merge(other.sets[k - 1 - i])` for each i in turn. */
  method MergeEach(mine: seq<PartSet>, theirs: seq<PartSet>)
    requires Distinct(mine) && |mine| == |theirs|
    requires forall x :: x in mine ==> x !in theirs
    modifies mine
    ensures SetValues(mine) == Cross(old(SetValues(mine)), old(SetValues(theirs)))
  {
    ghost var a, b, k := SetValues(mine), SetValues(theirs), |mine|;
    for i := 0 to |mine|
      invariant forall j :: 0 <= j < i ==> mine[j].Value() == Join(a[j], b[k - 1 - j])
      invariant forall j :: i <= j < k ==> mine[j].Value() == a[j]
      invariant forall j :: 0 <= j < k ==> theirs[j].Value() == b[j]
    {
      assert mine[i] in mine;
      mine[i].Merge(theirs[|mine| - 1 - i]);
    }
  }

  class State {
    const k: nat
    var sets: seq<PartSet>
    /** This object and the sets it owns: merging and sorting never exchange them for others. */
    ghost const repr: set<object>

    ghost predicate Valid()
      reads this
    {
      |sets| == k > 0 && Distinct(sets) && this in repr && forall x :: x in sets ==> x in repr
    }

    function Value(): Parts
      requires Valid()
      reads this, repr
    {
      SetValues(sets)
    }

    /** This state has k sets and `v` is what they hold. */
    ghost predicate Holds(k: nat, v: Parts)
      reads this, repr
    {
      Valid() && this.k == k && Value() == v
    }

    constructor (items: seq<Item>, k: nat)
      requires k > 0 && |items| in {1, k}
      ensures Holds(k, StateOf(items, k)) && fresh(repr)
    {
      hide StateSets, SortDescending;
      var all := EmptySets(k);
      AddEach(all, items);
      var sorted := SortSets(all);
      Permuted(all, sorted);
      ghost var mine: set<object> := set x | x in all;
      this.k, sets, repr := k, sorted, mine + {this};
    }

    method Merge(other: State)
      requires Valid() && other.Valid() && other.k == k && repr !! other.repr
      modifies repr
      ensures Holds(k, Differencing.Merge(old(Value()), old(other.Value())))
    {
      assert forall x :: x in sets ==> x in repr && x !in other.repr;
      MergeEach(sets, other.sets);
      ghost var mine := sets;
      sets := SortSets(sets);
      Permuted(mine, sets);
    }

    method GetPartitions() returns (partitions: seq<seq<nat>>)
      requires Valid()
      ensures partitions == PartitionsOf(Value())
    {
      partitions := [];
      for i := 0 to |sets|
        invariant partitions == PartitionsOf(Value())[..i]
      {
        var part: seq<nat> := [];
        for j := 0 to |sets[i].items|
          invariant part == Indices(sets[i].items)[..j]
        {
          part := part + [sets[i].items[j].idx];
        }
        assert part == PartitionsOf(Value())[i];
        partitions := partitions + [part];
      }
    }
  }

  // ----- The heap loop -----

  /** The states in the heap share no object, `owned` covers them all, and `pool` is
      what they hold. */
  ghost predicate PoolValid(pq: seq<State>, k: nat, pool: seq<Parts>, owned: set<object>)
    reads pq, owned
  {
    && |pool| == |pq| && k > 0
    && (forall i, j :: 0 <= i < j < |pq| ==> pq[i].repr !! pq[j].repr)
    && (forall i :: 0 <= i < |pq| ==> pq[i].repr <= owned && pq[i].Holds(k, pool[i]))
  }

  /** Where the heap keeps the state that `heappop` returns. */
  method LeastState(pq: seq<State>, k: nat, ghost pool: seq<Parts>, ghost owned: set<object>) returns (least: nat)
    requires pq != [] && PoolValid(pq, k, pool, owned)
    ensures Proper(pool, k) && least == LeastIndex(pool, k)
  {
    hide StateLess, LeastIndex;
    least := |pq| - 1;
    for i := |pq| - 1 downto 0
      invariant i <= least < |pq|
      invariant Proper(pool, k) && least == i + LeastIndex(pool[i..], k)
    {
      assert pq[i].Holds(k, pool[i]) && pq[least].Holds(k, pool[least]);
      LeastIndexNext(pool, k, i);
      if !StateLess(pq[least].Value(), pq[i].Value()) {
        least := i;
      }
    }
    assert pool[0..] == pool;
  }

  lemma LeastIndexNext(pool: seq<Parts>, k: nat, i: nat)
    requires i + 1 < |pool| && Proper(pool, k)
    ensures var j := i + 1 + LeastIndex(pool[i + 1..], k);
      i + LeastIndex(pool[i..], k) == if StateLess(pool[j], pool[i]) then j else i
  {
    assert pool[i..][1..] == pool[i + 1..];
    hide StateLess;
  }

  lemma PoolRemove(pq: seq<State>, k: nat, pool: seq<Parts>, owned: set<object>, i: nat)
    requires PoolValid(pq, k, pool, owned) && i < |pq|
    ensures PoolValid(RemoveAt(pq, i), k, RemoveAt(pool, i), owned - pq[i].repr)
    ensures pq[i].repr <= owned && pq[i].Holds(k, pool[i])
  {
  }

  lemma PoolAppend(pq: seq<State>, k: nat, pool: seq<Parts>, owned: set<object>, s: State, v: Parts)
    requires PoolValid(pq, k, pool, owned) && s.Holds(k, v)
    requires s.repr !! owned
    ensures PoolValid(pq + [s], k, pool + [v], owned + s.repr)
  {
    var more := pq + [s];
    assert forall i :: 0 <= i < |pq| ==> more[i] == pq[i] && pq[i].Holds(k, pool[i]);
    assert more[|pq|] == s;
  }

  lemma StatesStep(pool: seq<Parts>, items: seq<Item>, from: nat, k: nat, w: nat)
    requires w > 0 && from < |items| && (|items| - from) % w == 0
    ensures from + w <= |items| && (|items| - from - w) % w == 0
    ensures pool + States(items[from..], k, w)
         == pool + [StateOf(items[from..from + w], k)] + States(items[from + w..], k, w)
  {
    Arithmetic.DropBlock(|items| - from, w);
    assert items[from..][..w] == items[from..from + w];
    assert items[from..][w..] == items[from + w..];
  }

  method PushState(pq: seq<State>, k: nat, ghost pool: seq<Parts>, ghost owned: set<object>, items: seq<Item>)
    returns (next: seq<State>, ghost grown: set<object>)
    requires PoolValid(pq, k, pool, owned) && |items| in {1, k}
    ensures PoolValid(next, k, pool + [StateOf(items, k)], grown)
    ensures fresh(grown - owned)
  {
    var s := new State(items, k);
    PoolAppend(pq, k, pool, owned, s, StateOf(items, k));
    next, grown := pq + [s], owned + s.repr;
  }

  method InitialStates(sorted: seq<Item>, k: nat, w: nat) returns (pq: seq<State>, ghost owned: set<object>)
    requires k > 0 && w in {1, k} && |sorted| % w == 0
    ensures PoolValid(pq, k, States(sorted, k, w), owned)
    ensures fresh(owned)
  {
    pq, owned := [], {};
    ghost var pool: seq<Parts> := [];
    var offset := 0;
    while offset < |sorted|
      invariant 0 <= offset <= |sorted| && (|sorted| - offset) % w == 0
      invariant PoolValid(pq, k, pool, owned) && fresh(owned)
      invariant States(sorted, k, w) == pool + States(sorted[offset..], k, w)
    {
      StatesStep(pool, sorted, offset, k, w);
      var items := sorted[offset..offset + w];
      pq, owned := PushState(pq, k, pool, owned, items);
      pool := pool + [StateOf(items, k)];
      offset := offset + w;
    }
  }

  /** `heappop`. */
  method PopLeast(pq: seq<State>, k: nat, ghost pool: seq<Parts>, ghost owned: set<object>)
    returns (s: State, rest: seq<State>)
    requires pq != [] && PoolValid(pq, k, pool, owned)
    ensures Proper(pool, k) && s.repr <= owned && s.Holds(k, pool[LeastIndex(pool, k)])
    ensures PoolValid(rest, k, RemoveAt(pool, LeastIndex(pool, k)), owned - s.repr)
  {
    var i := LeastState(pq, k, pool, owned);
    s, rest := pq[i], RemoveAt(pq, i);
    PoolRemove(pq, k, pool, owned, i);
  }

  /** Pop two states, merge the second into the first, push the first back. */
  method MergeTwo(pq: seq<State>, k: nat, ghost pool: seq<Parts>, ghost owned: set<object>)
    returns (next: seq<State>, ghost kept: set<object>)
    requires |pq| > 1 && PoolValid(pq, k, pool, owned)
    modifies owned
    ensures Proper(pool, k) && PoolValid(next, k, Step(pool, k), kept) && kept <= owned
  {
    hide LeastIndex, Proper, Differencing.Merge;
    var state0, rest := PopLeast(pq, k, pool, owned);
    ghost var i := LeastIndex(pool, k);
    ghost var left := RemoveAt(pool, i);
    var state1, others := PopLeast(rest, k, left, owned - state0.repr);
    ghost var j := LeastIndex(left, k);
    state0.Merge(state1);
    kept := owned - state0.repr - state1.repr;
    PoolAppend(others, k, RemoveAt(left, j), kept, state0, Differencing.Merge(pool[i], left[j]));
    next, kept := others + [state0], kept + state0.repr;
  }

  method KarmarkarKarp(lens: seq<nat>, k: nat, equalSize: bool) returns (partitions: seq<seq<nat>>)
    requires Splittable(|lens|, k, equalSize)
    ensures partitions == Partitions(lens, k, equalSize)
  {
    var sorted := SortedItems(lens);
    Quotients(|lens|, k, equalSize);
    ghost var owned;
    var pq;
    pq, owned := InitialStates(sorted, k, Width(k, equalSize));
    ghost var pool := States(sorted, k, Width(k, equalSize));
    while |pq| > 1
      invariant pq != [] && Proper(pool, k) && PoolValid(pq, k, pool, owned) && fresh(owned)
      invariant Run(pool, k) == FinalState(lens, k, equalSize)
    {
      pq, owned := MergeTwo(pq, k, pool, owned);
      pool := Step(pool, k);
    }
    partitions := pq[0].GetPartitions();
    if equalSize {
      for i := 0 to |partitions| {
        PartitionsEqual(lens, k, i);
        assert |partitions[i]| * k == |lens|;
      }
    }
  }

  /** `_check_and_sort_partitions`: its asserts are the asserts of the body. */
  method CheckAndSortPartitions(partitions: seq<seq<nat>>, n: nat, k: nat) returns (sorted: seq<seq<nat>>)
    requires Covers(partitions, n) && |partitions| == k && forall i :: 0 <= i < k ==> partitions[i] != []
    ensures sorted == SortEach(partitions)
  {
    assert |partitions| == k;
    var seen: set<nat> := {};
    sorted := [];
    for i := 0 to |partitions|
      invariant sorted == SortEach(partitions)[..i]
      invariant seen == set x | x in Flatten(partitions[..i])
    {
      assert |partitions[i]| > 0;
      seen := seen + set x | x in partitions[i];
      sorted := sorted + [SortIndices(partitions[i])];
      assert partitions[..i + 1] == partitions[..i] + [partitions[i]];
      FlattenConcat(partitions[..i], [partitions[i]]);
      assert Flatten([partitions[i]]) == partitions[i];
    }
    assert partitions[..|partitions|] == partitions;
    PermutationIsBijection(Flatten(partitions), n);
    assert seen == (set x | x in Iota(n)) by {
      assert forall x :: x in seen <==> x in multiset(Flatten(partitions));
      assert forall x :: x in Iota(n) <==> x in multiset(Iota(n));
    }
  }

  method GetSeqlenBalancedPartitions(lens: seq<nat>, k: nat, equalSize: bool) returns (sorted: seq<seq<nat>>)
    requires Splittable(|lens|, k, equalSize) && |lens| >= k
    ensures sorted == BalancedPartitions(lens, k, equalSize)
  {
    var partitions := KarmarkarKarp(lens, k, equalSize);
    PartitionsFilled(lens, k, equalSize);
    PartitionsCover(lens, k, equalSize);
    sorted := CheckAndSortPartitions(partitions, |lens|, k);
  }

  lemma NothingWritten()
    ensures forall x: nat :: LastIndexOf([], x) == None
  {
  }

  lemma WrittenNext(m: seq<nat>, i: nat)
    requires i < |m|
    ensures forall x: nat :: LastIndexOf(m[..i + 1], x) == if m[i] == x then Some(i) else LastIndexOf(m[..i], x)
  {
    var longer := m[..i + 1];
    assert longer[..i] == m[..i] && longer[i] == m[i];
    forall x: nat
      ensures LastIndexOf(longer, x) == if m[i] == x then Some(i) else LastIndexOf(m[..i], x)
    {
    }
  }

  method GetReverseIdx(idxMap: seq<nat>) returns (reverse: array<nat>)
    requires forall i :: 0 <= i < |idxMap| ==> idxMap[i] < |idxMap|
    ensures fresh(reverse) && reverse.Length == |idxMap|
    ensures forall x :: 0 <= x < |idxMap| ==> reverse[x] == ReverseAt(idxMap, x)
  {
    hide LastIndexOf;
    reverse := new nat[|idxMap|](i requires 0 <= i < |idxMap| => idxMap[i]);
    NothingWritten();
    for i := 0 to |idxMap|
      invariant forall x :: 0 <= x < |idxMap| ==>
        reverse[x] == match LastIndexOf(idxMap[..i], x) case None => idxMap[x] case Some(j) => j
    {
      reverse[idxMap[i]] := i;
      WrittenNext(idxMap, i);
    }
    assert idxMap[..|idxMap|] == idxMap;
  }
}
