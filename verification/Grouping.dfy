/** Dictionaries of index lists, filled in one pass: the first loop of `pack_traj_batch`
    and of every loss-scale function. */
module Grouping {
  import opened Sequences

  ghost predicate Labelled(labels: seq<int>, items: seq<nat>) {
    forall i :: 0 <= i < |items| ==> items[i] < |labels|
  }

  /** The items with label k, in order. */
  function Members(labels: seq<int>, items: seq<nat>, k: int): (r: seq<nat>)
    requires Labelled(labels, items)
    ensures Labelled(labels, r) && forall i :: 0 <= i < |r| ==> labels[r[i]] == k && r[i] in items
    ensures forall x :: x in items && labels[x] == k ==> x in r
  {
    if items == [] then []
    else
      var x, n := items[|items| - 1], |items| - 1;
      assert items == items[..n] + [x];
      Members(labels, items[..n], k) + if labels[x] == k then [x] else []
  }

  /** The labels in order of first appearance. */
  function Keys(labels: seq<int>, items: seq<nat>): (keys: seq<int>)
    requires Labelled(labels, items)
    ensures forall k :: k in keys <==> exists i :: 0 <= i < |items| && labels[items[i]] == k
    ensures Distinct(keys)
  {
    if items == [] then []
    else
      var x, n := items[|items| - 1], |items| - 1;
      assert items == items[..n] + [x];
      var keys := Keys(labels, items[..n]);
      assert forall k :: (exists i :: 0 <= i < |items| && labels[items[i]] == k) <==> k in keys || k == labels[x] by {
        forall k | k in keys || k == labels[x]
          ensures exists i :: 0 <= i < |items| && labels[items[i]] == k
        {
          if k in keys {
            var i :| 0 <= i < n && labels[items[..n][i]] == k;
            assert labels[items[i]] == k;
          } else {
            assert labels[items[n]] == k;
          }
        }
      }
      if labels[x] in keys then keys else keys + [labels[x]]
  }

  lemma {:induction false} MembersDistinct(labels: seq<int>, items: seq<nat>, k: int)
    requires Labelled(labels, items) && Distinct(items)
    ensures Distinct(Members(labels, items, k))
  {
    if items != [] {
      var x, n := items[|items| - 1], |items| - 1;
      MembersDistinct(labels, items[..n], k);
      assert x !in items[..n];
    }
  }

  lemma KeysNext(labels: seq<int>, items: seq<nat>, n: nat)
    requires Labelled(labels, items) && n < |items|
    ensures var keys := Keys(labels, items[..n]);
      Keys(labels, items[..n + 1]) == if labels[items[n]] in keys then keys else keys + [labels[items[n]]]
  {
    assert items[..n + 1][..n] == items[..n];
  }

  lemma MembersNext(labels: seq<int>, items: seq<nat>, n: nat, k: int)
    requires Labelled(labels, items) && n < |items|
    ensures Members(labels, items[..n + 1], k)
         == Members(labels, items[..n], k) + if labels[items[n]] == k then [items[n]] else []
  {
    assert items[..n + 1][..n] == items[..n];
  }

  /** The dictionary after the first n items. */
  ghost predicate Grouped(labels: seq<int>, items: seq<nat>, n: nat, keys: seq<int>, groups: map<int, seq<nat>>)
    requires Labelled(labels, items) && n <= |items|
  {
    && keys == Keys(labels, items[..n])
    && (forall k :: k in groups <==> k in keys)
    && (forall k :: k in groups ==> groups[k] == Members(labels, items[..n], k))
  }

  lemma MembersHaveKeys(labels: seq<int>, items: seq<nat>, k: int)
    requires Labelled(labels, items)
    ensures Members(labels, items, k) != [] ==> k in Keys(labels, items)
  {
    var r := Members(labels, items, k);
    hide Members, Keys;
    if r != [] {
      assert r[0] in items;
    }
  }

  lemma GroupedFirst(labels: seq<int>, items: seq<nat>)
    requires Labelled(labels, items)
    ensures Grouped(labels, items, 0, [], map[])
  {
  }

  lemma GroupedAll(labels: seq<int>, items: seq<nat>, keys: seq<int>, groups: map<int, seq<nat>>)
    requires Labelled(labels, items) && Grouped(labels, items, |items|, keys, groups)
    ensures keys == Keys(labels, items) && forall k :: k in groups <==> k in keys
    ensures forall k :: k in groups ==> groups[k] == Members(labels, items, k)
  {
    assert items[..|items|] == items;
  }

  lemma GroupedNext(labels: seq<int>, items: seq<nat>, n: nat, keys: seq<int>, groups: map<int, seq<nat>>)
    requires Labelled(labels, items) && n < |items| && Grouped(labels, items, n, keys, groups)
    ensures var x, k := items[n], labels[items[n]];
      Grouped(labels, items, n + 1, if k in groups then keys else keys + [k],
              groups[k := (if k in groups then groups[k] else []) + [x]])
  {
    hide Keys, Members;
    var x, k := items[n], labels[items[n]];
    var next := groups[k := (if k in groups then groups[k] else []) + [x]];
    KeysNext(labels, items, n);
    MembersHaveKeys(labels, items[..n], k);
    forall l | l in next
      ensures next[l] == Members(labels, items[..n + 1], l)
    {
      MembersNext(labels, items, n, l);
    }
  }

  method GroupBy(labels: seq<int>, items: seq<nat>) returns (keys: seq<int>, groups: map<int, seq<nat>>)
    requires Labelled(labels, items)
    ensures keys == Keys(labels, items)
    ensures forall k :: k in groups <==> k in keys
    ensures forall k :: k in groups ==> groups[k] == Members(labels, items, k)
  {
    hide Keys, Members, Grouped;
    keys, groups := [], map[];
    GroupedFirst(labels, items);
    for n := 0 to |items|
      invariant Grouped(labels, items, n, keys, groups)
    {
      GroupedNext(labels, items, n, keys, groups);
      ghost var before := groups;
      var k := labels[items[n]];
      if k !in groups {
        groups := groups[k := []];
        keys := keys + [k];
      }
      groups := groups[k := groups[k] + [items[n]]];
      assert groups == before[k := (if k in before then before[k] else []) + [items[n]]];
    }
    GroupedAll(labels, items, keys, groups);
  }
}
