/**
 The index arithmetic of sampling: cumulative ends, bucketing a global sample index into a
 trajectory and a row of it, and reading the same row out of a concatenation.
 */
module WindowLookup {
  import opened Sequences

  /** Total of the first i counts. */
  function Before(counts: seq<nat>, i: nat): (n: nat)
    requires i <= |counts|
    ensures i == 0 ==> n == 0
  {
    if i == 0 then 0 else Before(counts, i - 1) + counts[i - 1]
  }

  lemma {:induction false} BeforeMonotone(counts: seq<nat>, i: nat, j: nat)
    requires i <= j <= |counts|
    ensures Before(counts, i) <= Before(counts, j)
    decreases j - i
  {
    if i < j {
      BeforeMonotone(counts, i, j - 1);
    }
  }

  /** `ends` are the cumulative ends of `counts`. */
  ghost predicate EndsOk(counts: seq<nat>, ends: seq<nat>) {
    |ends| == |counts| && forall i :: 0 <= i < |ends| ==> ends[i] == Before(counts, i + 1)
  }

  /** `torch.bucketize` with `right=True`: how many ends are at most v. */
  function Bucketize(ends: seq<nat>, v: nat): (b: nat)
    ensures b <= |ends|
  {
    if ends == [] || v < ends[0] then 0 else 1 + Bucketize(ends[1..], v)
  }

  lemma {:induction false} BucketizeBound(ends: seq<nat>, v: nat)
    ensures forall i :: 0 <= i < Bucketize(ends, v) ==> ends[i] <= v
    ensures Bucketize(ends, v) < |ends| ==> v < ends[Bucketize(ends, v)]
  {
    if ends != [] && v >= ends[0] {
      BucketizeBound(ends[1..], v);
      assert forall i :: 0 < i < |ends| ==> ends[i] == ends[1..][i - 1];
    }
  }

  /** The starts: a zero followed by all ends but the last. */
  function StartOf(ends: seq<nat>, b: nat): nat
    requires b < |ends|
  {
    ([0] + ends[..|ends| - 1])[b]
  }

  /** A sample below the total falls into exactly one trajectory, at a row it has. */
  lemma BucketHolds(counts: seq<nat>, ends: seq<nat>, v: nat)
    requires EndsOk(counts, ends) && v < Before(counts, |counts|)
    ensures var b := Bucketize(ends, v);
      && b < |counts| && StartOf(ends, b) == Before(counts, b)
      && Before(counts, b) <= v < Before(counts, b) + counts[b]
  {
    BucketizeBound(ends, v);
    var b := Bucketize(ends, v);
    assert |counts| > 0 && ends[|ends| - 1] == Before(counts, |counts|);
  }

  function Lengths<T>(parts: seq<seq<T>>): (lens: seq<nat>)
    ensures |lens| == |parts|
    ensures forall i :: 0 <= i < |lens| ==> lens[i] == |parts[i]|
  {
    seq(|parts|, i requires 0 <= i < |parts| => |parts[i]|)
  }

  lemma {:induction false} BeforeTail(counts: seq<nat>, i: nat)
    requires 0 < i <= |counts|
    ensures Before(counts, i) == counts[0] + Before(counts[1..], i - 1)
  {
    if i > 1 {
      BeforeTail(counts, i - 1);
    }
  }

  /** Row l of part b is row Before(b) + l of the concatenation. */
  lemma {:induction false} ConcatRow<T>(parts: seq<seq<T>>, b: nat, l: nat)
    requires b < |parts| && l < |parts[b]|
    ensures Before(Lengths(parts), b) + l < |Flatten(parts)|
    ensures Flatten(parts)[Before(Lengths(parts), b) + l] == parts[b][l]
  {
    if b > 0 {
      ConcatRow(parts[1..], b - 1, l);
      BeforeTail(Lengths(parts), b);
      assert Lengths(parts)[1..] == Lengths(parts[1..]);
    }
  }

  lemma {:induction false} ConcatLength<T>(parts: seq<seq<T>>)
    ensures |Flatten(parts)| == Before(Lengths(parts), |parts|)
  {
    if parts != [] {
      ConcatLength(parts[1..]);
      BeforeTail(Lengths(parts), |parts|);
      assert Lengths(parts)[1..] == Lengths(parts[1..]);
    }
  }

  /** Bucketing a sample and reading that trajectory's row is the same as reading the
      concatenation of all trajectories at the sample. */
  lemma LookupRefines<T>(parts: seq<seq<T>>, ends: seq<nat>, v: nat)
    requires EndsOk(Lengths(parts), ends) && v < Before(Lengths(parts), |parts|)
    ensures var b := Bucketize(ends, v);
      && b < |parts| && StartOf(ends, b) <= v < StartOf(ends, b) + |parts[b]|
      && v < |Flatten(parts)| && Flatten(parts)[v] == parts[b][v - StartOf(ends, b)]
  {
    BucketHolds(Lengths(parts), ends, v);
    ConcatLength(parts);
    var b := Bucketize(ends, v);
    ConcatRow(parts, b, v - StartOf(ends, b));
  }

  // ----- Masks -----

  /** The batch positions where the mask has the given value, in order. */
  function Positions(mask: seq<bool>, value: bool): (p: seq<nat>)
    ensures forall i :: 0 <= i < |p| ==> p[i] < |mask| && mask[p[i]] == value
  {
    if mask == [] then []
    else
      var before := Positions(mask[..|mask| - 1], value);
      if mask[|mask| - 1] == value then before + [|mask| - 1] else before
  }

  lemma {:induction false} PositionsFind(mask: seq<bool>, value: bool, i: nat)
    requires i < |mask| && mask[i] == value
    ensures i in Positions(mask, value)
  {
    if i < |mask| - 1 {
      PositionsFind(mask[..|mask| - 1], value, i);
    }
  }

  lemma {:induction false} PositionsDistinct(mask: seq<bool>, value: bool)
    ensures Distinct(Positions(mask, value))
  {
    if mask != [] {
      PositionsDistinct(mask[..|mask| - 1], value);
    }
  }

  /** Hits and misses together name every batch row exactly once. */
  lemma {:induction false} MaskSplits(mask: seq<bool>)
    ensures multiset(Positions(mask, true)) + multiset(Positions(mask, false)) == multiset(Iota(|mask|))
  {
    if mask == [] {
      assert Iota(0) == [];
    } else {
      var front := mask[..|mask| - 1];
      MaskSplits(front);
      assert Iota(|mask|) == Iota(|front|) + [|front|];
    }
  }

  // ----- Misses -----

  /** Insertion into a sorted list without repeats. */
  function InsertSorted(x: nat, s: seq<nat>): (r: seq<nat>)
    ensures forall y: nat :: y in r <==> y == x || y in s
  {
    if s == [] || x < s[0] then [x] + s
    else if x == s[0] then s
    else [s[0]] + InsertSorted(x, s[1..])
  }

  /** `torch.unique`: the values in ascending order, each once. */
  function Unique(s: seq<nat>): (r: seq<nat>)
    ensures forall y: nat :: y in r <==> y in s
  {
    if s == [] then [] else InsertSorted(s[0], Unique(s[1..]))
  }

  ghost predicate Ascending(s: seq<nat>) {
    forall i, j :: 0 <= i < j < |s| ==> s[i] < s[j]
  }

  lemma {:induction false} InsertAscends(x: nat, s: seq<nat>)
    requires Ascending(s)
    ensures Ascending(InsertSorted(x, s))
  {
    if s != [] && s[0] < x {
      InsertAscends(x, s[1..]);
      var r := InsertSorted(x, s[1..]);
      assert forall i :: 0 <= i < |r| ==> r[i] in r;
      assert forall y: nat :: y in s[1..] ==> s[0] < y;
    } else if s != [] && x < s[0] {
      assert forall i :: 0 <= i < |s| ==> s[0] <= s[i];
    }
  }

  lemma {:induction false} UniqueAscends(s: seq<nat>)
    ensures Ascending(Unique(s))
  {
    if s != [] {
      UniqueAscends(s[1..]);
      InsertAscends(s[0], Unique(s[1..]));
    }
  }
}
