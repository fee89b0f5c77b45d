/**
 The k-way largest differencing method on plain values: what a state of k sorted
 sets is, how two states merge, and in which order the heap hands them out. The
 classes in KarmarkarKarp.dfy are proved to compute exactly `Run`; the theorems
 about balance, coverage and non-emptiness are proved here once.
 */
module Differencing {
  import opened Sequences
  import Arithmetic

  datatype Item = Item(idx: nat, val: nat)

  /** The value of one `Set`: its running sum and its items in insertion order. */
  datatype Part = Part(sum: nat, items: seq<Item>)

  const EMPTY := Part(0, [])

  /** The value of one `State`: its k sets. */
  type Parts = seq<Part>

  function Values(items: seq<Item>): nat {
    if items == [] then 0 else items[0].val + Values(items[1..])
  }

  function Join(p: Part, q: Part): Part {
    Part(p.sum + Values(q.items), p.items + q.items)
  }

  // ----- The orders -----

  predicate ItemLess(a: Item, b: Item) {
    a.idx < b.idx || (a.idx == b.idx && a.val < b.val)
  }

  /** Lexicographic order of item lists. */
  predicate ItemsLess(a: seq<Item>, b: seq<Item>) {
    if a == [] || b == [] then a == [] && b != []
    else if a[0] == b[0] then ItemsLess(a[1..], b[1..])
    else ItemLess(a[0], b[0])
  }

  /** `Set.__lt__`: by sum, then by number of items, then by the items themselves. */
  predicate PartLess(p: Part, q: Part) {
    if p.sum != q.sum then p.sum < q.sum
    else if |p.items| != |q.items| then |p.items| < |q.items|
    else ItemsLess(p.items, q.items)
  }

  ghost predicate Descending(s: Parts) {
    forall i, j :: 0 <= i < j < |s| ==> !PartLess(s[i], s[j])
  }

  function Spread(s: Parts): int
    requires s != []
  {
    s[0].sum - s[|s| - 1].sum
  }

  /** `State.__lt__`: larger spread first, then larger first set. */
  predicate StateLess(a: Parts, b: Parts)
    requires a != [] && b != []
  {
    if Spread(a) != Spread(b) then Spread(a) > Spread(b) else PartLess(b[0], a[0])
  }

  lemma {:induction false} ItemsLessOrder(a: seq<Item>, b: seq<Item>, c: seq<Item>)
    ensures !(ItemsLess(a, b) && ItemsLess(b, a))
    ensures !ItemsLess(a, b) && !ItemsLess(b, a) ==> a == b
    ensures !ItemsLess(a, b) && !ItemsLess(b, c) ==> !ItemsLess(a, c)
    decreases |a| + |b| + |c|
  {
    if a != [] && b != [] && a[0] == b[0] {
      ItemsLessOrder(a[1..], b[1..], if c == [] then [] else c[1..]);
    } else if a != [] && c != [] && a[0] == c[0] {
      ItemsLessOrder(a[1..], if b == [] then [] else b[1..], c[1..]);
    }
    assert a != [] ==> a == [a[0]] + a[1..];
    assert b != [] ==> b == [b[0]] + b[1..];
  }

  /** `Set.__lt__` is a strict total order on values. */
  lemma PartLessOrder(a: Part, b: Part, c: Part)
    ensures !(PartLess(a, b) && PartLess(b, a))
    ensures !PartLess(a, b) && !PartLess(b, a) ==> a == b
    ensures !PartLess(a, b) && !PartLess(b, c) ==> !PartLess(a, c)
  {
    ItemsLessOrder(a.items, b.items, c.items);
  }

  predicate FirstDiffer(a: seq<Item>, b: seq<Item>, n: nat) {
    n < |a| == |b| && a[..n] == b[..n] && a[n] != b[n]
  }

  /** What decides between two sets: the smaller sum is less, among equal sums the fewer
      items, and then the first items that differ, by index and length. */
  lemma PartLessMeans(p: Part, q: Part, n: nat)
    ensures p.sum < q.sum ==> PartLess(p, q)
    ensures p.sum == q.sum && |p.items| < |q.items| ==> PartLess(p, q)
    ensures p.sum == q.sum && FirstDiffer(p.items, q.items, n) ==>
      var x, y := p.items[n], q.items[n];
      PartLess(p, q) <==> x.idx < y.idx || (x.idx == y.idx && x.val < y.val)
  {
    if FirstDiffer(p.items, q.items, n) {
      FirstDifference(p.items, q.items, n);
    }
  }

  lemma {:induction false} FirstDifference(a: seq<Item>, b: seq<Item>, n: nat)
    requires FirstDiffer(a, b, n)
    ensures ItemsLess(a, b) <==> a[n].idx < b[n].idx || (a[n].idx == b[n].idx && a[n].val < b[n].val)
  {
    if n > 0 {
      assert a[0] == a[..n][0] == b[..n][0] == b[0];
      assert a[1..][..n - 1] == a[..n][1..] == b[..n][1..] == b[1..][..n - 1];
      FirstDifference(a[1..], b[1..], n - 1);
    }
  }

  // ----- sorted(..., reverse=True) -----

  function Insert(x: Part, s: Parts): (r: Parts)
    ensures |r| == |s| + 1
  {
    if s == [] || !PartLess(x, s[0]) then [x] + s else [s[0]] + Insert(x, s[1..])
  }

  /** `x` goes right before the first element it is not less than. */
  lemma {:induction false} InsertAt(x: Part, s: Parts, pos: nat)
    requires pos <= |s| && forall i :: 0 <= i < pos ==> PartLess(x, s[i])
    requires pos < |s| ==> !PartLess(x, s[pos])
    ensures Insert(x, s) == s[..pos] + [x] + s[pos..]
  {
    if pos > 0 {
      InsertAt(x, s[1..], pos - 1);
    }
  }

  function SortDescending(s: Parts): (r: Parts)
    ensures |r| == |s|
  {
    if s == [] then [] else Insert(s[0], SortDescending(s[1..]))
  }

  lemma {:induction false} InsertKeepsOrder(x: Part, s: Parts)
    requires Descending(s)
    ensures Descending(Insert(x, s))
    ensures multiset(Insert(x, s)) == multiset(s) + multiset{x}
  {
    if s == [] {
    } else if !PartLess(x, s[0]) {
      forall j | 0 <= j < |s|
        ensures !PartLess(x, s[j])
      {
        PartLessOrder(x, s[0], s[j]);
      }
    } else {
      var r := Insert(x, s[1..]);
      InsertKeepsOrder(x, s[1..]);
      assert s == [s[0]] + s[1..];
      PartLessOrder(x, s[0], x);
      forall j | 0 <= j < |r|
        ensures !PartLess(s[0], r[j])
      {
        assert r[j] in multiset(r);
        assert r[j] == x || r[j] in s[1..];
      }
    }
  }

  lemma {:induction false} SortDescendingSorts(s: Parts)
    ensures Descending(SortDescending(s))
    ensures multiset(SortDescending(s)) == multiset(s)
  {
    if s != [] {
      SortDescendingSorts(s[1..]);
      InsertKeepsOrder(s[0], SortDescending(s[1..]));
      assert s == [s[0]] + s[1..];
    }
  }

  // ----- What a state holds -----

  /** All items of a state, set after set. */
  function Held(s: Parts): seq<Item> {
    if s == [] then [] else s[0].items + Held(s[1..])
  }

  function NonEmpty(s: Parts): (r: nat)
    ensures r <= |s|
  {
    if s == [] then 0 else (if s[0].items == [] then 0 else 1) + NonEmpty(s[1..])
  }

  lemma {:induction false} InsertHeld(x: Part, s: Parts)
    ensures multiset(Held(Insert(x, s))) == multiset(x.items) + multiset(Held(s))
    ensures NonEmpty(Insert(x, s)) == NonEmpty([x] + s)
  {
    if s == [] || !PartLess(x, s[0]) {
      assert ([x] + s)[1..] == s;
    } else {
      InsertHeld(x, s[1..]);
      assert ([x] + s)[1..] == s;
      assert ([x] + s[1..])[1..] == s[1..];
      assert ([s[0]] + Insert(x, s[1..]))[1..] == Insert(x, s[1..]);
    }
  }

  lemma {:induction false} SortHeld(s: Parts)
    ensures multiset(Held(SortDescending(s))) == multiset(Held(s))
    ensures NonEmpty(SortDescending(s)) == NonEmpty(s)
  {
    if s != [] {
      var r := SortDescending(s[1..]);
      SortHeld(s[1..]);
      InsertHeld(s[0], r);
      assert ([s[0]] + r)[1..] == r;
    }
  }

  ghost predicate PartOk(p: Part, lens: seq<nat>) {
    && p.sum == Values(p.items)
    && forall x :: x in p.items ==> x.idx < |lens| && x.val == lens[x.idx]
  }

  /** Every reachable state: k sets in decreasing order, with true sums, of which
      exactly min(m, k) are non-empty when the state holds m items. */
  ghost predicate StateOk(s: Parts, k: nat, lens: seq<nat>) {
    && |s| == k > 0
    && Descending(s)
    && (forall i :: 0 <= i < k ==> PartOk(s[i], lens))
    && NonEmpty(s) == Arithmetic.Min(|Held(s)|, k)
  }

  /** In decreasing order the non-empty sets come first: an empty set is the least
      value of the order, also among sets whose items all have length zero. */
  lemma {:induction false} NonEmptyFirst(s: Parts, lens: seq<nat>)
    requires Descending(s) && forall i :: 0 <= i < |s| ==> PartOk(s[i], lens)
    ensures forall i :: 0 <= i < |s| ==> (s[i].items != [] <==> i < NonEmpty(s))
  {
    if s != [] {
      NonEmptyFirst(s[1..], lens);
      assert forall i :: 0 < i < |s| ==> s[i] == s[1..][i - 1];
      assert forall i :: 0 < i < |s| && s[0].items == [] ==> s[i].items == [] by {
        assert forall i :: 0 < i < |s| ==> !PartLess(s[0], s[i]);
      }
    }
  }

  lemma {:induction false} NonEmptyAtEnds(u: Parts, x: nat, y: nat)
    requires x <= |u| && y <= |u|
    requires forall i :: 0 <= i < |u| ==> (u[i].items != [] <==> i < x || |u| - y <= i)
    ensures NonEmpty(u) == Arithmetic.Min(|u|, x + y)
  {
    if u != [] {
      var t := u[1..];
      assert forall i :: 0 <= i < |t| ==> t[i] == u[i + 1];
      NonEmptyAtEnds(t, if x > 0 then x - 1 else 0, Arithmetic.Min(y, |t|));
    }
  }

  lemma {:induction false} ValuesConcat(a: seq<Item>, b: seq<Item>)
    ensures Values(a + b) == Values(a) + Values(b)
  {
    if a == [] {
      assert a + b == b;
    } else {
      assert (a + b)[1..] == a[1..] + b;
      ValuesConcat(a[1..], b);
    }
  }

  // ----- Merging two states -----

  /** Set i of one state joins set k-1-i of the other. */
  function Cross(a: Parts, b: Parts): (u: Parts)
    requires |a| == |b|
    ensures |u| == |a|
  {
    seq(|a|, i requires 0 <= i < |a| => Join(a[i], b[|a| - 1 - i]))
  }

  function Merge(a: Parts, b: Parts): (s: Parts)
    requires |a| == |b|
    ensures |s| == |a|
  {
    SortDescending(Cross(a, b))
  }

  lemma {:induction false} CrossHeld(a: Parts, b: Parts)
    requires |a| == |b|
    ensures multiset(Held(Cross(a, b))) == multiset(Held(a)) + multiset(Held(b))
  {
    hide Held, Cross;
    HeldFirst(Cross(a, b));
    HeldFirst(a);
    HeldFirst(b);
    if a != [] {
      CrossFirst(a, b);
      HeldLast(b);
      CrossHeld(a[1..], b[..|a| - 1]);
    }
  }

  lemma CrossFirst(a: Parts, b: Parts)
    requires |a| == |b| > 0
    ensures Cross(a, b)[0].items == a[0].items + b[|a| - 1].items
    ensures Cross(a, b)[1..] == Cross(a[1..], b[..|a| - 1])
  {
  }

  lemma HeldFirst(s: Parts)
    ensures Held(s) == if s == [] then [] else s[0].items + Held(s[1..])
  {
  }

  lemma HeldLast(s: Parts)
    requires s != []
    ensures Held(s) == Held(s[..|s| - 1]) + s[|s| - 1].items
  {
    var k := |s| - 1;
    assert s == s[..k] + [s[k]];
    HeldConcat(s[..k], [s[k]]);
    HeldFirst([s[k]]);
    HeldFirst([]);
    hide Held;
  }

  lemma {:induction false} HeldConcat(a: Parts, b: Parts)
    ensures Held(a + b) == Held(a) + Held(b)
  {
    if a == [] {
      assert a + b == b;
    } else {
      assert (a + b)[1..] == a[1..] + b;
      HeldConcat(a[1..], b);
    }
  }

  lemma CrossOk(a: Parts, b: Parts, k: nat, lens: seq<nat>)
    requires StateOk(a, k, lens) && StateOk(b, k, lens)
    ensures var u := Cross(a, b);
      && (forall i :: 0 <= i < k ==> PartOk(u[i], lens) && u[i].sum == a[i].sum + b[k - 1 - i].sum)
      && NonEmpty(u) == Arithmetic.Min(|Held(u)|, k)
  {
    var u := Cross(a, b);
    forall i | 0 <= i < k
      ensures PartOk(u[i], lens)
      ensures u[i].sum == a[i].sum + b[k - 1 - i].sum
    {
      assert PartOk(a[i], lens) && PartOk(b[k - 1 - i], lens);
      JoinOk(a[i], b[k - 1 - i], lens);
    }
    CrossNonEmpty(a, b, k, lens);
  }

  lemma JoinOk(p: Part, q: Part, lens: seq<nat>)
    requires PartOk(p, lens) && PartOk(q, lens)
    ensures PartOk(Join(p, q), lens)
  {
    ValuesConcat(p.items, q.items);
  }

  lemma StateCounts(s: Parts, k: nat, lens: seq<nat>)
    requires StateOk(s, k, lens)
    ensures |s| == k && NonEmpty(s) == Arithmetic.Min(|Held(s)|, k)
    ensures forall i :: 0 <= i < k ==> (s[i].items != [] <==> i < NonEmpty(s))
  {
    hide NonEmpty, Held, PartOk, PartLess;
    NonEmptyFirst(s, lens);
  }

  lemma CrossHeldCount(a: Parts, b: Parts)
    requires |a| == |b|
    ensures |Held(Cross(a, b))| == |Held(a)| + |Held(b)|
  {
    hide Held, Cross;
    CrossHeld(a, b);
    assert |Held(Cross(a, b))| == |multiset(Held(Cross(a, b)))|;
  }

  /** The first sets of one state and the last of the other are the non-empty ones. */
  lemma CrossNonEmpty(a: Parts, b: Parts, k: nat, lens: seq<nat>)
    requires StateOk(a, k, lens) && StateOk(b, k, lens)
    ensures NonEmpty(Cross(a, b)) == Arithmetic.Min(|Held(Cross(a, b))|, k)
  {
    hide StateOk, Held, NonEmpty, Cross;
    StateCounts(a, k, lens);
    StateCounts(b, k, lens);
    CrossHeldCount(a, b);
    var u := Cross(a, b);
    CrossAt(a, b);
    NonEmptyAtEnds(u, NonEmpty(a), NonEmpty(b));
  }

  lemma MergeHeld(a: Parts, b: Parts)
    requires |a| == |b|
    ensures multiset(Held(Merge(a, b))) == multiset(Held(a)) + multiset(Held(b))
  {
    CrossHeld(a, b);
    SortHeld(Cross(a, b));
  }

  lemma MergeOk(a: Parts, b: Parts, k: nat, lens: seq<nat>)
    requires StateOk(a, k, lens) && StateOk(b, k, lens)
    ensures StateOk(Merge(a, b), k, lens)
  {
    var u, s := Cross(a, b), Merge(a, b);
    CrossOk(a, b, k, lens);
    SortDescendingSorts(u);
    SortHeld(u);
    assert |Held(s)| == |multiset(Held(s))| == |multiset(Held(u))| == |Held(u)|;
    forall i | 0 <= i < k
      ensures PartOk(s[i], lens)
    {
      assert s[i] in multiset(u);
    }
  }

  /** The difference of two sets of the unsorted merge: a difference within one state
      minus a difference within the other, both non-negative. */
  lemma CrossSpread(a: Parts, b: Parts, i: nat, j: nat)
    requires |a| == |b| && i < |a| && j < |a|
    requires Descending(a) && Descending(b)
    ensures var k := |a|;
      var d := (a[i].sum + b[k - 1 - i].sum) - (a[j].sum + b[k - 1 - j].sum);
      d <= Spread(a) || d <= Spread(b)
  {
    SumsDescend(a);
    SumsDescend(b);
  }

  /** A merged spread is no larger than the larger of the two spreads. */
  lemma MergePermutes(a: Parts, b: Parts)
    requires |a| == |b|
    ensures multiset(Merge(a, b)) == multiset(Cross(a, b))
  {
    hide Cross, SortDescending;
    SortDescendingSorts(Cross(a, b));
  }

  lemma CrossAt(a: Parts, b: Parts)
    requires |a| == |b|
    ensures forall i :: 0 <= i < |a| ==> Cross(a, b)[i] == Join(a[i], b[|a| - 1 - i])
  {
  }

  lemma MergeSpread(a: Parts, b: Parts)
    requires |a| == |b| > 0 && Descending(a) && Descending(b)
    requires forall i :: 0 <= i < |b| ==> b[i].sum == Values(b[i].items)
    ensures Spread(Merge(a, b)) <= Spread(a) || Spread(Merge(a, b)) <= Spread(b)
  {
    hide Cross, SortDescending, Merge, Values;
    var u, s := Cross(a, b), Merge(a, b);
    MergePermutes(a, b);
    CrossAt(a, b);
    var i := PermutationSource(s, u, 0);
    var j := PermutationSource(s, u, |a| - 1);
    CrossSpread(a, b, i, j);
  }

  lemma SumsDescend(s: Parts)
    requires Descending(s)
    ensures forall i, j :: 0 <= i <= j < |s| ==> s[i].sum >= s[j].sum
  {
    forall i, j | 0 <= i <= j < |s|
      ensures s[i].sum >= s[j].sum
    {
      assert i < j ==> !PartLess(s[i], s[j]);
    }
  }

  /** All sets hold equally many items. */
  ghost predicate Uniform(s: Parts) {
    forall i, j :: 0 <= i < |s| && 0 <= j < |s| ==> |s[i].items| == |s[j].items|
  }

  lemma SortUniform(u: Parts)
    requires Uniform(u)
    ensures Uniform(SortDescending(u))
  {
    var s := SortDescending(u);
    SortDescendingSorts(u);
    forall i | 0 <= i < |s|
      ensures s[i] in u
    {
      assert s[i] in multiset(s);
    }
  }

  lemma MergeUniform(a: Parts, b: Parts)
    requires |a| == |b| && Uniform(a) && Uniform(b)
    ensures Uniform(Merge(a, b))
  {
    SortUniform(Cross(a, b));
  }

  // ----- The heap loop -----

  predicate Proper(pool: seq<Parts>, k: nat) {
    k > 0 && forall i :: 0 <= i < |pool| ==> |pool[i]| == k
  }

  ghost predicate Minimal(pool: seq<Parts>, k: nat, i: nat)
    requires Proper(pool, k) && i < |pool|
  {
    forall j :: 0 <= j < |pool| ==> !StateLess(pool[j], pool[i])
  }

  lemma StateLessOrder(a: Parts, b: Parts, c: Parts)
    requires a != [] && b != [] && c != []
    ensures !(StateLess(a, b) && StateLess(b, a))
    ensures !StateLess(a, b) && !StateLess(b, c) ==> !StateLess(a, c)
  {
    PartLessOrder(c[0], b[0], a[0]);
    PartLessOrder(a[0], b[0], a[0]);
  }

  /** The index heapq would pop: no state is less than the one there. */
  function LeastIndex(pool: seq<Parts>, k: nat): (i: nat)
    requires pool != [] && Proper(pool, k)
    ensures i < |pool|
  {
    if |pool| == 1 then 0
    else
      var j := LeastIndex(pool[1..], k) + 1;
      if StateLess(pool[j], pool[0]) then j else 0
  }

  lemma {:induction false} LeastIndexMinimal(pool: seq<Parts>, k: nat)
    requires pool != [] && Proper(pool, k)
    ensures Minimal(pool, k, LeastIndex(pool, k))
  {
    if |pool| == 1 {
      StateLessOrder(pool[0], pool[0], pool[0]);
    } else {
      LeastIndexMinimal(pool[1..], k);
      var j := LeastIndex(pool[1..], k) + 1;
      StateLessOrder(pool[0], pool[j], pool[0]);
      StateLessOrder(pool[0], pool[0], pool[0]);
      forall i | 1 <= i < |pool|
        ensures !StateLess(pool[i], pool[LeastIndex(pool, k)])
      {
        assert pool[i] == pool[1..][i - 1];
        StateLessOrder(pool[i], pool[j], pool[0]);
      }
    }
  }

  /** Pop the least state, pop the next, push their merge. */
  function Step(pool: seq<Parts>, k: nat): (next: seq<Parts>)
    requires Proper(pool, k) && |pool| > 1
    ensures |next| == |pool| - 1 && Proper(next, k)
  {
    var i := LeastIndex(pool, k);
    var rest := RemoveAt(pool, i);
    var j := LeastIndex(rest, k);
    RemoveAt(rest, j) + [Merge(pool[i], rest[j])]
  }

  /** The state at i is one whose largest and smallest sums are furthest apart, and among
      those one whose largest set is no smaller than theirs. */
  ghost predicate FurthestApart(pool: seq<Parts>, k: nat, i: nat)
    requires Proper(pool, k) && i < |pool|
  {
    forall j :: 0 <= j < |pool| ==>
      var here, there := pool[i][0].sum - pool[i][k - 1].sum, pool[j][0].sum - pool[j][k - 1].sum;
      here >= there && (here == there ==> !PartLess(pool[i][0], pool[j][0]))
  }

  /** A round takes the state furthest apart out of the pool, then the one furthest apart in
      what is left, and puts back the first merged with the second. */
  lemma StepTakesFurthest(pool: seq<Parts>, k: nat) returns (i: nat, j: nat)
    requires Proper(pool, k) && |pool| > 1
    ensures i < |pool| && Proper(RemoveAt(pool, i), k) && j < |pool| - 1
    ensures FurthestApart(pool, k, i) && FurthestApart(RemoveAt(pool, i), k, j)
    ensures Step(pool, k) == RemoveAt(RemoveAt(pool, i), j) + [Merge(pool[i], RemoveAt(pool, i)[j])]
  {
    i := LeastIndex(pool, k);
    j := LeastIndex(RemoveAt(pool, i), k);
    LeastIsFurthest(pool, k);
    LeastIsFurthest(RemoveAt(pool, i), k);
  }

  lemma LeastIsFurthest(pool: seq<Parts>, k: nat)
    requires pool != [] && Proper(pool, k)
    ensures FurthestApart(pool, k, LeastIndex(pool, k))
  {
    hide LeastIndex, PartLess;
    LeastIndexMinimal(pool, k);
  }

  /** Merging joins the i-th largest set of one state with the i-th smallest of the other,
      own items first, and puts the joined sets in decreasing order. */
  lemma MergeJoins(a: Parts, b: Parts)
    requires |a| == |b|
    ensures Descending(Merge(a, b))
    ensures multiset(Merge(a, b)) == multiset(seq(|a|, i requires 0 <= i < |a| =>
              Part(a[i].sum + Values(b[|a| - 1 - i].items), a[i].items + b[|a| - 1 - i].items)))
  {
    var joined := seq(|a|, i requires 0 <= i < |a| =>
      Part(a[i].sum + Values(b[|a| - 1 - i].items), a[i].items + b[|a| - 1 - i].items));
    assert joined == Cross(a, b);
    SortDescendingSorts(Cross(a, b));
  }

  /** Repeat until one state is left. */
  function Run(pool: seq<Parts>, k: nat): (s: Parts)
    requires pool != [] && Proper(pool, k)
    ensures |s| == k
    decreases |pool|
  {
    if |pool| == 1 then pool[0] else Run(Step(pool, k), k)
  }

  ghost function PoolHeld(pool: seq<Parts>): multiset<Item> {
    if pool == [] then multiset{} else multiset(Held(pool[0])) + PoolHeld(pool[1..])
  }

  lemma {:induction false} PoolHeldConcat(a: seq<Parts>, b: seq<Parts>)
    ensures PoolHeld(a + b) == PoolHeld(a) + PoolHeld(b)
  {
    if a == [] {
      assert a + b == b;
    } else {
      assert (a + b)[1..] == a[1..] + b;
      PoolHeldConcat(a[1..], b);
    }
  }

  lemma {:induction false} PoolHeldRemoveAt(pool: seq<Parts>, i: nat)
    requires i < |pool|
    ensures PoolHeld(pool) == PoolHeld(RemoveAt(pool, i)) + multiset(Held(pool[i]))
  {
    if i == 0 {
      assert RemoveAt(pool, 0) == pool[1..];
    } else {
      var rest := RemoveAt(pool[1..], i - 1);
      PoolHeldRemoveAt(pool[1..], i - 1);
      assert RemoveAt(pool, i) == [pool[0]] + rest;
      UnionAssociates(multiset(Held(pool[0])), PoolHeld(rest), multiset(Held(pool[i])));
    }
  }

  ghost predicate PoolOk(pool: seq<Parts>, k: nat, lens: seq<nat>) {
    forall i :: 0 <= i < |pool| ==> StateOk(pool[i], k, lens)
  }

  /** What holds of every state, and of the one that replaces two, holds of them all. */
  lemma ReplaceTwo(pool: seq<Parts>, i: nat, j: nat, s: Parts, P: Parts -> bool)
    requires i < |pool| && j < |pool| - 1 && P(s)
    requires forall x :: 0 <= x < |pool| ==> P(pool[x])
    ensures var next := RemoveAt(RemoveAt(pool, i), j) + [s];
      forall x :: 0 <= x < |next| ==> P(next[x])
  {
  }

  lemma StepOk(pool: seq<Parts>, k: nat, lens: seq<nat>)
    requires |pool| > 1 && Proper(pool, k) && PoolOk(pool, k, lens)
    ensures PoolOk(Step(pool, k), k, lens)
  {
    var i := LeastIndex(pool, k);
    var j := LeastIndex(RemoveAt(pool, i), k);
    var merged := Merge(pool[i], RemoveAt(pool, i)[j]);
    MergeOk(pool[i], RemoveAt(pool, i)[j], k, lens);
    ReplaceTwo(pool, i, j, merged, s => StateOk(s, k, lens));
  }

  lemma StepHeld(pool: seq<Parts>, k: nat)
    requires |pool| > 1 && Proper(pool, k)
    ensures PoolHeld(Step(pool, k)) == PoolHeld(pool)
  {
    hide LeastIndex, Merge, Held, PoolHeld;
    var i := LeastIndex(pool, k);
    var rest := RemoveAt(pool, i);
    var j := LeastIndex(rest, k);
    MergeHeld(pool[i], rest[j]);
    Exchange(pool, i, j, Merge(pool[i], rest[j]));
  }

  /** Two states leave the pool and one that holds what both held comes in. */
  lemma Exchange(pool: seq<Parts>, i: nat, j: nat, s: Parts)
    requires i < |pool| && j < |pool| - 1
    requires multiset(Held(s)) == multiset(Held(pool[i])) + multiset(Held(RemoveAt(pool, i)[j]))
    ensures PoolHeld(RemoveAt(RemoveAt(pool, i), j) + [s]) == PoolHeld(pool)
  {
    PoolHeldRemoveAt(pool, i);
    PoolHeldRemoveAt(RemoveAt(pool, i), j);
    PoolHeldAppend(RemoveAt(RemoveAt(pool, i), j), s);
  }

  lemma PoolHeldAppend(pool: seq<Parts>, s: Parts)
    ensures PoolHeld(pool + [s]) == PoolHeld(pool) + multiset(Held(s))
  {
    PoolHeldConcat(pool, [s]);
    assert PoolHeld([s]) == multiset(Held(s)) + PoolHeld([]);
  }

  ghost predicate SpreadsWithin(pool: seq<Parts>, k: nat, bound: int)
    requires Proper(pool, k)
  {
    forall i :: 0 <= i < |pool| ==> Spread(pool[i]) <= bound
  }

  lemma StepSpread(pool: seq<Parts>, k: nat, lens: seq<nat>, bound: int)
    requires |pool| > 1 && Proper(pool, k) && PoolOk(pool, k, lens) && SpreadsWithin(pool, k, bound)
    ensures SpreadsWithin(Step(pool, k), k, bound)
  {
    hide LeastIndex, Merge, StateOk, Spread;
    var i := LeastIndex(pool, k);
    var j := LeastIndex(RemoveAt(pool, i), k);
    var a, b := pool[i], RemoveAt(pool, i)[j];
    OkMergeSpread(a, b, k, lens);
    ReplaceTwo(pool, i, j, Merge(a, b), s => s != [] && Spread(s) <= bound);
  }

  lemma OkMergeSpread(a: Parts, b: Parts, k: nat, lens: seq<nat>)
    requires StateOk(a, k, lens) && StateOk(b, k, lens)
    ensures Spread(Merge(a, b)) <= Spread(a) || Spread(Merge(a, b)) <= Spread(b)
  {
    assert forall i :: 0 <= i < k ==> PartOk(b[i], lens);
    MergeSpread(a, b);
  }

  /** The whole loop keeps every item, the state invariant and any bound on the spread. */
  lemma {:induction false} RunKeeps(pool: seq<Parts>, k: nat, lens: seq<nat>, bound: int)
    requires pool != [] && Proper(pool, k) && PoolOk(pool, k, lens) && SpreadsWithin(pool, k, bound)
    ensures StateOk(Run(pool, k), k, lens)
    ensures multiset(Held(Run(pool, k))) == PoolHeld(pool)
    ensures Spread(Run(pool, k)) <= bound
    decreases |pool|
  {
    if |pool| == 1 {
      assert PoolHeld(pool) == multiset(Held(pool[0])) + PoolHeld([]);
    } else {
      StepOk(pool, k, lens);
      StepHeld(pool, k);
      StepSpread(pool, k, lens, bound);
      RunKeeps(Step(pool, k), k, lens, bound);
    }
  }

  lemma {:induction false} RunUniform(pool: seq<Parts>, k: nat)
    requires pool != [] && Proper(pool, k)
    requires forall i :: 0 <= i < |pool| ==> Uniform(pool[i])
    ensures Uniform(Run(pool, k))
    decreases |pool|
  {
    if |pool| > 1 {
      var i := LeastIndex(pool, k);
      var rest := RemoveAt(pool, i);
      MergeUniform(pool[i], rest[LeastIndex(rest, k)]);
      RunUniform(Step(pool, k), k);
    }
  }

  /** Every item is held by one state only, and no state is empty. */
  ghost predicate ItemsApart(pool: seq<Parts>) {
    && (forall x :: PoolHeld(pool)[x] <= 1)
    && forall i :: 0 <= i < |pool| ==> Held(pool[i]) != []
  }

  lemma StepApart(pool: seq<Parts>, k: nat)
    requires |pool| > 1 && Proper(pool, k) && ItemsApart(pool)
    ensures ItemsApart(Step(pool, k))
  {
    hide Held, Merge, PoolHeld;
    var i := LeastIndex(pool, k);
    var j := LeastIndex(RemoveAt(pool, i), k);
    var a, b := pool[i], RemoveAt(pool, i)[j];
    MergeHeld(a, b);
    assert Held(a)[0] in multiset(Held(a)) && Held(a)[0] in multiset(Held(Merge(a, b)));
    ReplaceTwo(pool, i, j, Merge(a, b), s => Held(s) != []);
    StepHeld(pool, k);
  }

  /** The pool after n rounds of the loop. */
  function PoolAfter(pool: seq<Parts>, k: nat, n: nat): (r: seq<Parts>)
    requires n < |pool| && Proper(pool, k)
    ensures |r| == |pool| - n && Proper(r, k)
    decreases n
  {
    if n == 0 then pool else PoolAfter(Step(pool, k), k, n - 1)
  }

  lemma {:induction false} RunPassesPools(pool: seq<Parts>, k: nat, n: nat)
    requires n < |pool| && Proper(pool, k)
    ensures Run(PoolAfter(pool, k, n), k) == Run(pool, k)
    decreases n
  {
    hide Step, Proper;
    if n > 0 {
      RunPassesPools(Step(pool, k), k, n - 1);
    }
  }

  lemma {:induction false} PoolAfterApart(pool: seq<Parts>, k: nat, lens: seq<nat>, n: nat)
    requires n < |pool| && Proper(pool, k) && PoolOk(pool, k, lens) && ItemsApart(pool)
    ensures PoolOk(PoolAfter(pool, k, n), k, lens) && ItemsApart(PoolAfter(pool, k, n))
    decreases n
  {
    hide PoolOk, ItemsApart, Step, StateOk;
    if n > 0 {
      StepOk(pool, k, lens);
      StepApart(pool, k);
      PoolAfterApart(Step(pool, k), k, lens, n - 1);
    }
  }

  lemma RestApart(pool: seq<Parts>, k: nat, lens: seq<nat>, i: nat)
    requires i < |pool| && Proper(pool, k) && PoolOk(pool, k, lens) && ItemsApart(pool)
    ensures Proper(RemoveAt(pool, i), k) && PoolOk(RemoveAt(pool, i), k, lens) && ItemsApart(RemoveAt(pool, i))
  {
    hide StateOk, Held, PoolHeld;
    PoolHeldRemoveAt(pool, i);
    var rest := RemoveAt(pool, i);
    forall x: Item
      ensures PoolHeld(rest)[x] <= 1
    {
      assert PoolHeld(pool)[x] <= 1;
    }
  }

  /** The heap has no freedom: with every item in one state only and no state empty,
      two minimal states are the same state, so `heappop` is determined. */
  lemma PopIsDetermined(pool: seq<Parts>, k: nat, lens: seq<nat>, i: nat, j: nat)
    requires Proper(pool, k) && PoolOk(pool, k, lens)
    requires ItemsApart(pool)
    requires i < |pool| && j < |pool| && Minimal(pool, k, i) && Minimal(pool, k, j)
    ensures i == j
  {
    PartLessOrder(pool[i][0], pool[j][0], pool[i][0]);
    assert !StateLess(pool[i], pool[j]) && !StateLess(pool[j], pool[i]);
    NonEmptyFirst(pool[i], lens);
    var x := pool[i][0].items[0];
    FirstHeld(pool[i]);
    FirstHeld(pool[j]);
    if i < j {
      SharedTwice(pool, i, j, x);
    } else if j < i {
      SharedTwice(pool, j, i, x);
    }
  }

  lemma FirstHeld(s: Parts)
    requires s != [] && s[0].items != []
    ensures s[0].items[0] in Held(s)
  {
    assert Held(s)[0] == s[0].items[0];
  }

  lemma SharedTwice(pool: seq<Parts>, i: nat, j: nat, x: Item)
    requires i < j < |pool| && x in Held(pool[i]) && x in Held(pool[j])
    ensures PoolHeld(pool)[x] >= 2
  {
    PoolHeldRemoveAt(pool, j);
    var rest := RemoveAt(pool, j);
    assert rest[i] == pool[i];
    PoolHeldRemoveAt(rest, i);
  }
}
