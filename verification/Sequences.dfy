/** Sequence facts shared by the other modules. */
module Sequences {

  datatype Option<+T> = None | Some(value: T)

  function Sum(s: seq<int>): int {
    if s == [] then 0 else s[0] + Sum(s[1..])
  }

  function Iota(n: nat): (s: seq<nat>)
    ensures |s| == n && forall i :: 0 <= i < n ==> s[i] == i
  {
    seq(n, i => i)
  }

  function Flatten<T>(ss: seq<seq<T>>): seq<T> {
    if ss == [] then [] else ss[0] + Flatten(ss[1..])
  }

  function RemoveAt<T>(s: seq<T>, i: nat): (r: seq<T>)
    requires i < |s|
    ensures |r| == |s| - 1
    ensures forall x :: 0 <= x < |r| ==> r[x] == if x < i then s[x] else s[x + 1]
  {
    s[..i] + s[i + 1..]
  }

  lemma {:induction false} SumConcat(a: seq<int>, b: seq<int>)
    ensures Sum(a + b) == Sum(a) + Sum(b)
  {
    if a == [] {
      assert a + b == b;
    } else {
      assert (a + b)[1..] == a[1..] + b;
      SumConcat(a[1..], b);
    }
  }

  lemma SumSplit(a: seq<int>, i: nat)
    requires i < |a|
    ensures Sum(a) == Sum(RemoveAt(a, i)) + a[i]
  {
    assert a == a[..i] + ([a[i]] + a[i + 1..]);
    SumConcat(a[..i], [a[i]] + a[i + 1..]);
    SumConcat(a[..i], a[i + 1..]);
    assert ([a[i]] + a[i + 1..])[1..] == a[i + 1..];
  }

  lemma {:induction false} FlattenConcat<T>(a: seq<seq<T>>, b: seq<seq<T>>)
    ensures Flatten(a + b) == Flatten(a) + Flatten(b)
  {
    if a == [] {
      assert a + b == b;
    } else {
      assert (a + b)[1..] == a[1..] + b;
      FlattenConcat(a[1..], b);
    }
  }

  lemma UnionAssociates<T>(a: multiset<T>, b: multiset<T>, c: multiset<T>)
    ensures a + (b + c) == (a + b) + c
  {
  }

  lemma ConsMultiset<T>(x: T, s: seq<T>)
    ensures multiset([x] + s) == multiset(s) + multiset{x}
  {
  }

  /** What holds x and a permutation of `later` is a permutation of x followed by `later`. */
  lemma ConsPermutes<T>(x: T, whole: seq<T>, rest: seq<T>, later: seq<T>)
    requires multiset(whole) == multiset(rest) + multiset{x} && multiset(rest) == multiset(later)
    ensures multiset(whole) == multiset([x] + later)
  {
    ConsMultiset(x, later);
  }

  /** Taking one element out of a sequence takes it out of its multiset. */
  lemma RemoveAtMultiset<T>(s: seq<T>, i: nat)
    requires i < |s|
    ensures multiset(s) == multiset(RemoveAt(s, i)) + multiset{s[i]}
  {
    assert s == s[..i] + [s[i]] + s[i + 1..];
  }

  /** Where an element of one permutation sits in the other. */
  lemma PermutationSource<T>(s: seq<T>, u: seq<T>, i: nat) returns (j: nat)
    requires multiset(s) == multiset(u) && i < |s|
    ensures j < |u| && u[j] == s[i]
  {
    assert s[i] in multiset(u);
    j :| 0 <= j < |u| && u[j] == s[i];
  }

  /** A permutation of 0..n-1 has no repetition and hits every index. */
  lemma PermutationIsBijection(p: seq<nat>, n: nat)
    requires multiset(p) == multiset(Iota(n))
    ensures |p| == n
    ensures forall i :: 0 <= i < n ==> p[i] < n
    ensures forall i, j :: 0 <= i < j < n ==> p[i] != p[j]
    ensures forall x :: 0 <= x < n ==> x in p
  {
    var s := Iota(n);
    assert |p| == |multiset(p)| == |multiset(s)| == n;
    forall i | 0 <= i < n
      ensures p[i] < n
    {
      assert p[i] in multiset(p);
      assert p[i] in multiset(s);
    }
    forall i, j | 0 <= i < j < n
      ensures p[i] != p[j]
    {
      IotaOnce(n, p[i]);
      RepeatedTwice(p, i, j);
    }
    forall x | 0 <= x < n
      ensures x in p
    {
      assert s[x] in multiset(s);
      assert x in multiset(p);
    }
  }

  /** How many entries are set. */
  function Count(mask: seq<bool>): nat {
    if mask == [] then 0 else (if mask[0] then 1 else 0) + Count(mask[1..])
  }

  lemma RepeatedTwice<T>(s: seq<T>, i: nat, j: nat)
    requires i < j < |s|
    ensures s[i] == s[j] ==> multiset(s)[s[i]] >= 2
  {
    assert s == s[..i] + [s[i]] + s[i + 1..j] + [s[j]] + s[j + 1..];
  }

  ghost predicate Distinct<T>(s: seq<T>) {
    forall i, j :: 0 <= i < j < |s| ==> s[i] != s[j]
  }

  lemma {:induction false} DistinctCounts<T>(s: seq<T>)
    requires Distinct(s)
    ensures forall x :: x in s ==> multiset(s)[x] == 1
  {
    if s != [] {
      assert s == [s[0]] + s[1..];
      DistinctCounts(s[1..]);
      assert s[0] !in s[1..];
    }
  }

  lemma DistinctPermutation<T>(s: seq<T>, t: seq<T>)
    requires Distinct(s) && multiset(s) == multiset(t)
    ensures Distinct(t)
  {
    DistinctCounts(s);
    forall i, j | 0 <= i < j < |t|
      ensures t[i] != t[j]
    {
      RepeatedTwice(t, i, j);
      assert t[i] in multiset(s);
    }
  }

  lemma Permuted<T>(s: seq<T>, t: seq<T>)
    requires Distinct(s) && multiset(s) == multiset(t)
    ensures Distinct(t) && |t| == |s| && forall x :: x in t <==> x in s
  {
    DistinctPermutation(s, t);
    assert |multiset(s)| == |s| && |multiset(t)| == |t|;
    assert forall x :: x in t <==> x in multiset(t);
    assert forall x :: x in s <==> x in multiset(s);
  }

  lemma {:induction false} SumAtLeast(s: seq<int>, lo: int)
    requires forall i :: 0 <= i < |s| ==> lo <= s[i]
    ensures lo * |s| <= Sum(s)
  {
    if s != [] {
      SumAtLeast(s[1..], lo);
      assert lo * |s| == lo * |s[1..]| + lo;
    }
  }

  lemma {:induction false} IotaOnce(n: nat, x: nat)
    ensures multiset(Iota(n))[x] == if x < n then 1 else 0
  {
    if n > 0 {
      assert Iota(n) == Iota(n - 1) + [n - 1];
      IotaOnce(n - 1, x);
    } else {
      assert Iota(0) == [];
    }
  }
}
