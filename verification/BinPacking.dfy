/** `get_seqlen_BFD_partitions`: best-fit-decreasing packing under a token budget. */
module BinPacking {
  import opened Sequences
  import opened PartitionFunction
  import Arithmetic

  datatype Result<+T> = Ok(value: T) | ValueError

  // ----- The packing as a function -----

  function InsertLonger(lens: seq<nat>, x: nat, s: seq<nat>): (r: seq<nat>)
    requires x < |lens| && forall i :: 0 <= i < |s| ==> s[i] < |lens|
    ensures |r| == |s| + 1 && forall i :: 0 <= i < |r| ==> r[i] < |lens|
  {
    if s == [] || lens[x] >= lens[s[0]] then [x] + s else [s[0]] + InsertLonger(lens, x, s[1..])
  }

  /** The indices from `from` on, by decreasing length, equal lengths in index order. */
  function LongestFirst(lens: seq<nat>, from: nat): (order: seq<nat>)
    requires from <= |lens|
    ensures |order| == |lens| - from && forall i :: 0 <= i < |order| ==> order[i] < |lens|
    decreases |lens| - from
  {
    if from == |lens| then [] else InsertLonger(lens, from, LongestFirst(lens, from + 1))
  }

  /** The groups so far and the capacity each has left. */
  datatype Bins = Bins(groups: seq<seq<nat>>, room: seq<int>)

  /** The group the inner loop settles on among the first n: the tightest fit, and the
      first of equally tight ones. */
  function BestGroup(room: seq<int>, n: nat, len: nat): (best: Option<nat>)
    requires n <= |room|
    ensures best == None ==> forall g :: 0 <= g < n ==> room[g] < len
    ensures best.Some? ==> best.value < n && room[best.value] >= len
    ensures best.Some? ==> forall g :: 0 <= g < n && room[g] >= len ==>
      room[best.value] <= room[g] && (g < best.value ==> room[best.value] < room[g])
  {
    if n == 0 then None
    else
      var best := BestGroup(room, n - 1, len);
      if room[n - 1] >= len && (best == None || room[n - 1] < room[best.value]) then Some(n - 1) else best
  }

  function Place(bins: Bins, idx: nat, len: nat, cap: int): (next: Bins)
    requires |bins.groups| == |bins.room|
    ensures |next.groups| == |next.room|
  {
    match BestGroup(bins.room, |bins.room|, len)
    case Some(g) =>
      Bins(bins.groups[g := bins.groups[g] + [idx]], bins.room[g := bins.room[g] - len])
    case None =>
      Bins(bins.groups + [[idx]], bins.room + [cap - len])
  }

  function PackFirst(lens: seq<nat>, order: seq<nat>, n: nat, cap: int): (bins: Bins)
    requires n <= |order| && forall i :: 0 <= i < |order| ==> order[i] < |lens|
    ensures |bins.groups| == |bins.room|
  {
    if n == 0 then Bins([], [])
    else Place(PackFirst(lens, order, n - 1, cap), order[n - 1], lens[order[n - 1]], cap)
  }

  /** Best fit: the sequence joins the group that it leaves least room in, the first of those,
      and opens a new one exactly when it fits nowhere. */
  lemma PlaceFitsBest(bins: Bins, idx: nat, len: nat, cap: int)
    requires |bins.groups| == |bins.room|
    ensures var next := Place(bins, idx, len, cap);
      if forall g :: 0 <= g < |bins.room| ==> bins.room[g] < len then
        next.groups == bins.groups + [[idx]] && next.room == bins.room + [cap - len]
      else exists g :: (
        && 0 <= g < |bins.room| && bins.room[g] >= len
        && (forall h :: 0 <= h < |bins.room| && bins.room[h] >= len ==>
              bins.room[g] <= bins.room[h] && (h < g ==> bins.room[g] < bins.room[h]))
        && next.groups == bins.groups[g := bins.groups[g] + [idx]]
        && next.room == bins.room[g := bins.room[g] - len])
  {
    hide BestGroup;
  }

  predicate TooLong(lens: seq<nat>, cap: int) {
    exists i :: 0 <= i < |lens| && lens[i] > cap
  }

  function BfdPartitions(lens: seq<nat>, cap: int): seq<seq<nat>> {
    var order := LongestFirst(lens, 0);
    PackFirst(lens, order, |order|, cap).groups
  }

  // ----- The code -----

  method FindBestGroup(room: seq<int>, len: nat) returns (best: int)
    ensures best == match BestGroup(room, |room|, len) case None => -1 case Some(g) => g
  {
    best := -1;
    var minRemaining: Option<int> := None;
    for g := 0 to |room|
      invariant best == match BestGroup(room, g, len) case None => -1 case Some(b) => b
      invariant minRemaining == if best == -1 then None else Some(room[best] - len)
    {
      if room[g] >= len {
        var remaining := room[g] - len;
        if minRemaining == None || remaining < minRemaining.value {
          minRemaining := Some(remaining);
          best := g;
        }
      }
    }
  }

  /** One round of the outer loop: into the tightest group, or a new one. */
  method PlaceNext(groups: seq<seq<nat>>, room: seq<int>, idx: nat, len: nat, cap: int)
    returns (nextGroups: seq<seq<nat>>, nextRoom: seq<int>)
    requires |groups| == |room|
    ensures Bins(nextGroups, nextRoom) == Place(Bins(groups, room), idx, len, cap)
  {
    var best := FindBestGroup(room, len);
    if best != -1 {
      nextGroups, nextRoom := groups[best := groups[best] + [idx]], room[best := room[best] - len];
    } else {
      nextGroups, nextRoom := groups + [[idx]], room + [cap - len];
    }
  }

  lemma PackFirstEmpty(lens: seq<nat>, order: seq<nat>, cap: int)
    requires forall i :: 0 <= i < |order| ==> order[i] < |lens|
    ensures PackFirst(lens, order, 0, cap) == Bins([], []) && Flatten<nat>([]) == []
  {
  }

  lemma BfdAsserts(lens: seq<nat>, cap: int)
    requires !TooLong(lens, cap)
    ensures var ps := BfdPartitions(lens, cap);
      && (forall i, x :: 0 <= i < |ps| && 0 <= x < |ps[i]| ==> ps[i][x] < |lens|)
      && (forall i :: 0 <= i < |ps| ==> Load(lens, ps[i]) <= cap)
      && Distinct(Flatten(ps)) && |Flatten(ps)| == |lens|
  {
    BfdOk(lens, cap);
    hide BfdPartitions, Flatten, Load;
    PermutationIsBijection(Flatten<nat>(BfdPartitions(lens, cap)), |lens|);
  }

  /** The asserts of the source on the result are the asserts of the body. */
  method GetSeqlenBfdPartitions(lens: seq<nat>, cap: int) returns (result: Result<seq<seq<nat>>>)
    ensures result == if TooLong(lens, cap) then ValueError else Ok(BfdPartitions(lens, cap))
  {
    if TooLong(lens, cap) {
      return ValueError;
    }
    hide PackFirst, LongestFirst, TooLong;
    var order := LongestFirst(lens, 0);
    var partitions: seq<seq<nat>>, room: seq<int> := [], [];
    PackFirstEmpty(lens, order, cap);
    for n := 0 to |order|
      invariant Bins(partitions, room) == PackFirst(lens, order, n, cap)
    {
      PackFirstNext(lens, order, n, cap);
      partitions, room := PlaceNext(partitions, room, order[n], lens[order[n]], cap);
    }
    BfdAsserts(lens, cap);
    assert partitions == BfdPartitions(lens, cap);
    hide BfdPartitions, Flatten, Load, Distinct;
    for i := 0 to |partitions| {
      assert Load(lens, partitions[i]) <= cap;
    }
    assert Distinct(Flatten(partitions)) && |Flatten(partitions)| == |lens|;
    return Ok(partitions);
  }

  // ----- What it guarantees -----

  lemma {:induction false} InsertLongerAdds(lens: seq<nat>, x: nat, s: seq<nat>)
    requires x < |lens| && forall i :: 0 <= i < |s| ==> s[i] < |lens|
    ensures multiset(InsertLonger(lens, x, s)) == multiset(s) + multiset{x}
  {
    if s != [] && lens[x] < lens[s[0]] {
      InsertLongerAdds(lens, x, s[1..]);
      assert s == [s[0]] + s[1..];
    }
  }

  /** By decreasing length, equal lengths by increasing index. */
  ghost predicate ByLength(lens: seq<nat>, s: seq<nat>)
    requires forall i :: 0 <= i < |s| ==> s[i] < |lens|
  {
    forall i, j :: 0 <= i < j < |s| ==> Sooner(lens, s[i], s[j])
  }

  predicate Sooner(lens: seq<nat>, x: nat, y: nat)
    requires x < |lens| && y < |lens|
  {
    lens[x] > lens[y] || (lens[x] == lens[y] && x < y)
  }

  lemma ByLengthTail(lens: seq<nat>, s: seq<nat>)
    requires s != [] && (forall i :: 0 <= i < |s| ==> s[i] < |lens|) && ByLength(lens, s)
    ensures ByLength(lens, s[1..]) && forall y :: y in s[1..] ==> Sooner(lens, s[0], y)
  {
  }

  lemma PrependOrders(lens: seq<nat>, x: nat, s: seq<nat>)
    requires x < |lens| && (forall i :: 0 <= i < |s| ==> s[i] < |lens|) && ByLength(lens, s)
    requires forall y :: y in s ==> y < |lens| && Sooner(lens, x, y)
    ensures ByLength(lens, [x] + s)
  {
    var r := [x] + s;
    assert forall i :: 0 < i < |r| ==> r[i] == s[i - 1] && s[i - 1] in s;
  }

  lemma {:induction false} InsertLongerOrders(lens: seq<nat>, x: nat, s: seq<nat>)
    requires x < |lens| && (forall i :: 0 <= i < |s| ==> x < s[i] < |lens|) && ByLength(lens, s)
    ensures ByLength(lens, InsertLonger(lens, x, s))
    ensures forall y :: y in InsertLonger(lens, x, s) <==> y == x || y in s
  {
    hide ByLength;
    if s != [] {
      assert s == [s[0]] + s[1..];
      ByLengthTail(lens, s);
    }
    if s != [] && lens[x] < lens[s[0]] {
      InsertLongerOrders(lens, x, s[1..]);
      PrependOrders(lens, s[0], InsertLonger(lens, x, s[1..]));
    } else {
      PrependOrders(lens, x, s);
    }
  }

  lemma {:induction false} LongestFirstOrders(lens: seq<nat>, from: nat)
    requires from <= |lens|
    ensures ByLength(lens, LongestFirst(lens, from))
    ensures forall i :: 0 <= i < |LongestFirst(lens, from)| ==> from <= LongestFirst(lens, from)[i]
    decreases |lens| - from
  {
    if from < |lens| {
      var all, rest := LongestFirst(lens, from), LongestFirst(lens, from + 1);
      assert all == InsertLonger(lens, from, rest);
      hide LongestFirst, InsertLonger, ByLength;
      LongestFirstOrders(lens, from + 1);
      InsertLongerOrders(lens, from, rest);
      assert forall i :: 0 <= i < |all| ==> all[i] in all;
    }
  }

  function Range(from: nat, n: nat): seq<nat>
    requires from <= n
    decreases n - from
  {
    if from == n then [] else [from] + Range(from + 1, n)
  }

  lemma {:induction false} RangeIsIota(from: nat, n: nat)
    requires from <= n
    ensures Range(from, n) == Iota(n)[from..]
    decreases n - from
  {
    if from < n {
      RangeIsIota(from + 1, n);
    }
  }

  lemma LongestFirstHolds(lens: seq<nat>, from: nat)
    requires from <= |lens|
    ensures multiset(LongestFirst(lens, from)) == multiset(Range(from, |lens|))
    ensures ByLength(lens, LongestFirst(lens, from))
  {
    LongestFirstOrders(lens, from);
    LongestFirstPermutes(lens, from);
    hide LongestFirst, Range, ByLength;
  }

  lemma {:induction false} LongestFirstPermutes(lens: seq<nat>, from: nat)
    requires from <= |lens|
    ensures multiset(LongestFirst(lens, from)) == multiset(Range(from, |lens|))
    decreases |lens| - from
  {
    hide LongestFirst, InsertLonger, Range;
    LongestFirstStep(lens, from);
    if from < |lens| {
      var rest, later := LongestFirst(lens, from + 1), Range(from + 1, |lens|);
      LongestFirstPermutes(lens, from + 1);
      InsertLongerAdds(lens, from, rest);
      ConsPermutes(from, InsertLonger(lens, from, rest), rest, later);
    }
  }

  lemma LongestFirstStep(lens: seq<nat>, from: nat)
    requires from <= |lens|
    ensures from == |lens| ==> LongestFirst(lens, from) == [] == Range(from, |lens|)
    ensures from < |lens| ==> LongestFirst(lens, from) == InsertLonger(lens, from, LongestFirst(lens, from + 1))
    ensures from < |lens| ==> Range(from, |lens|) == [from] + Range(from + 1, |lens|)
  {
  }

  /** Indices in range, rooms that are what the loads leave, none negative, and every
      later group opened by a sequence that no earlier group could take. */
  ghost predicate BinsOk(bins: Bins, lens: seq<nat>, cap: int) {
    && |bins.groups| == |bins.room|
    && (forall g :: 0 <= g < |bins.groups| ==> GroupOk(bins.groups[g], bins.room[g], lens, cap))
    && (forall g, h :: 0 <= g < h < |bins.groups| ==> bins.room[g] < lens[bins.groups[h][0]])
  }

  ghost predicate GroupOk(group: seq<nat>, room: int, lens: seq<nat>, cap: int) {
    && group != []
    && (forall x :: 0 <= x < |group| ==> group[x] < |lens|)
    && 0 <= room == cap - Load(lens, group)
  }

  lemma AppendOk(group: seq<nat>, room: int, lens: seq<nat>, cap: int, idx: nat)
    requires group != [] ==> GroupOk(group, room, lens, cap)
    requires group == [] ==> room == cap
    requires idx < |lens| && lens[idx] <= room
    ensures GroupOk(group + [idx], room - lens[idx], lens, cap)
  {
    LoadConcat(lens, group, [idx]);
    assert Load(lens, [idx]) == lens[idx] + Load(lens, []);
  }

  lemma PlaceOk(bins: Bins, lens: seq<nat>, cap: int, idx: nat)
    requires BinsOk(bins, lens, cap) && idx < |lens| && lens[idx] <= cap
    ensures BinsOk(Place(bins, idx, lens[idx], cap), lens, cap)
  {
    match BestGroup(bins.room, |bins.room|, lens[idx]) {
      case Some(g) =>
        AppendOk(bins.groups[g], bins.room[g], lens, cap, idx);
      case None =>
        AppendOk([], cap, lens, cap, idx);
        assert [] + [idx] == [idx];
    }
  }

  lemma PlaceAdds(bins: Bins, idx: nat, len: nat, cap: int)
    requires |bins.groups| == |bins.room|
    ensures multiset(Flatten(Place(bins, idx, len, cap).groups)) == multiset(Flatten(bins.groups)) + multiset{idx}
  {
    match BestGroup(bins.room, |bins.room|, len) {
      case Some(g) =>
        FlattenAppendTo(bins.groups, g, idx);
      case None =>
        FlattenConcat(bins.groups, [[idx]]);
        assert Flatten([[idx]]) == [idx];
    }
  }

  lemma {:induction false} FlattenAppendTo(groups: seq<seq<nat>>, g: nat, idx: nat)
    requires g < |groups|
    ensures multiset(Flatten(groups[g := groups[g] + [idx]])) == multiset(Flatten(groups)) + multiset{idx}
  {
    var next := groups[g := groups[g] + [idx]];
    if g == 0 {
      assert next[1..] == groups[1..];
      assert Flatten(next) == groups[0] + [idx] + Flatten(groups[1..]);
    } else {
      FlattenAppendTo(groups[1..], g - 1, idx);
      assert next[1..] == groups[1..][g - 1 := groups[1..][g - 1] + [idx]];
    }
  }

  lemma {:induction false} PackFirstOk(lens: seq<nat>, order: seq<nat>, n: nat, cap: int)
    requires n <= |order| && forall i :: 0 <= i < |order| ==> order[i] < |lens|
    requires !TooLong(lens, cap)
    ensures BinsOk(PackFirst(lens, order, n, cap), lens, cap)
  {
    if n > 0 {
      PackFirstOk(lens, order, n - 1, cap);
      PlaceOk(PackFirst(lens, order, n - 1, cap), lens, cap, order[n - 1]);
    }
  }

  lemma {:induction false} PackFirstHolds(lens: seq<nat>, order: seq<nat>, n: nat, cap: int)
    requires n <= |order| && forall i :: 0 <= i < |order| ==> order[i] < |lens|
    ensures multiset(Flatten(PackFirst(lens, order, n, cap).groups)) == multiset(order[..n])
  {
    hide PackFirst, Place, Flatten;
    if n == 0 {
      PackFirstEmpty(lens, order, cap);
      assert multiset(order[..0]) == multiset{};
    } else {
      var bins := PackFirst(lens, order, n - 1, cap);
      PackFirstNext(lens, order, n - 1, cap);
      PackFirstHolds(lens, order, n - 1, cap);
      PlaceAdds(bins, order[n - 1], lens[order[n - 1]], cap);
      AppendPermutes(Flatten(PackFirst(lens, order, n, cap).groups), Flatten(bins.groups), order, n - 1);
    }
  }

  lemma PackFirstNext(lens: seq<nat>, order: seq<nat>, n: nat, cap: int)
    requires n < |order| && forall i :: 0 <= i < |order| ==> order[i] < |lens|
    ensures PackFirst(lens, order, n + 1, cap) == Place(PackFirst(lens, order, n, cap), order[n], lens[order[n]], cap)
  {
    hide Place;
  }

  lemma AppendPermutes(whole: seq<nat>, before: seq<nat>, order: seq<nat>, n: nat)
    requires n < |order| && multiset(before) == multiset(order[..n])
    requires multiset(whole) == multiset(before) + multiset{order[n]}
    ensures multiset(whole) == multiset(order[..n + 1])
  {
    assert order[..n + 1] == order[..n] + [order[n]];
  }

  lemma LoadAtLeast(lens: seq<nat>, group: seq<nat>)
    requires group != [] && forall x :: 0 <= x < |group| ==> group[x] < |lens|
    ensures Load(lens, group) >= lens[group[0]]
  {
  }

  /** Every index lands in exactly one bin, no bin is empty or exceeds the budget, and
      any two distinct bins together exceed it. */
  lemma BfdOk(lens: seq<nat>, cap: int)
    requires !TooLong(lens, cap)
    ensures var ps := BfdPartitions(lens, cap);
      && Covers(ps, |lens|)
      && (forall i, x :: 0 <= i < |ps| && 0 <= x < |ps[i]| ==> ps[i][x] < |lens|)
      && (forall i :: 0 <= i < |ps| ==> ps[i] != [] && Load(lens, ps[i]) <= cap)
      && (forall i, j :: 0 <= i < j < |ps| ==> Load(lens, ps[i]) + Load(lens, ps[j]) > cap)
  {
    var order := LongestFirst(lens, 0);
    var bins := PackFirst(lens, order, |order|, cap);
    PackFirstOk(lens, order, |order|, cap);
    PackFirstHolds(lens, order, |order|, cap);
    assert order[..|order|] == order;
    LongestFirstHolds(lens, 0);
    RangeIsIota(0, |lens|);
    var ps := bins.groups;
    assert forall g :: 0 <= g < |ps| ==> GroupOk(ps[g], bins.room[g], lens, cap);
    forall i, j | 0 <= i < j < |ps|
      ensures Load(lens, ps[i]) + Load(lens, ps[j]) > cap
    {
      LoadAtLeast(lens, ps[j]);
    }
  }

  // ----- The number of bins -----

  lemma {:induction false} LoadRemoveAt(lens: seq<nat>, p: seq<nat>, i: nat)
    requires i < |p| && forall x :: 0 <= x < |p| ==> p[x] < |lens|
    ensures Load(lens, p) == Load(lens, RemoveAt(p, i)) + lens[p[i]]
  {
    if i == 0 {
      assert RemoveAt(p, 0) == p[1..];
    } else {
      LoadRemoveAt(lens, p[1..], i - 1);
      assert RemoveAt(p, i) == [p[0]] + RemoveAt(p[1..], i - 1);
    }
  }

  lemma {:induction false} LoadPermutation(lens: seq<nat>, a: seq<nat>, b: seq<nat>)
    requires multiset(a) == multiset(b)
    requires forall x :: 0 <= x < |a| ==> a[x] < |lens|
    requires forall x :: 0 <= x < |b| ==> b[x] < |lens|
    ensures Load(lens, a) == Load(lens, b)
    decreases |a|
  {
    hide Load;
    if a == [] {
      assert |multiset(b)| == 0;
    } else {
      var j := PermutationSource(a, b, 0);
      RemoveAtMultiset(a, 0);
      RemoveAtMultiset(b, j);
      assert multiset(RemoveAt(a, 0)) == multiset(a) - multiset{a[0]} == multiset(RemoveAt(b, j));
      LoadRemoveAt(lens, a, 0);
      LoadRemoveAt(lens, b, j);
      LoadPermutation(lens, RemoveAt(a, 0), RemoveAt(b, j));
    }
  }

  lemma {:induction false} LoadOfRange(lens: seq<nat>, from: nat)
    requires from <= |lens|
    ensures forall x :: 0 <= x < |Range(from, |lens|)| ==> Range(from, |lens|)[x] < |lens|
    ensures Load(lens, Range(from, |lens|)) == Sum(lens[from..])
    decreases |lens| - from
  {
    if from < |lens| {
      LoadOfRange(lens, from + 1);
      assert lens[from..][1..] == lens[from + 1..];
    }
  }

  function Loads(lens: seq<nat>, ps: seq<seq<nat>>): (r: seq<int>)
    requires forall i, x :: 0 <= i < |ps| && 0 <= x < |ps[i]| ==> ps[i][x] < |lens|
    ensures |r| == |ps|
  {
    seq(|ps|, i requires 0 <= i < |ps| => Load(lens, ps[i]))
  }

  lemma {:induction false} LoadsOfFlatten(lens: seq<nat>, ps: seq<seq<nat>>)
    requires forall i, x :: 0 <= i < |ps| && 0 <= x < |ps[i]| ==> ps[i][x] < |lens|
    ensures forall x :: 0 <= x < |Flatten<nat>(ps)| ==> Flatten<nat>(ps)[x] < |lens|
    ensures Sum(Loads(lens, ps)) == Load(lens, Flatten<nat>(ps))
  {
    if ps != [] {
      assert Loads(lens, ps)[1..] == Loads(lens, ps[1..]);
      LoadsOfFlatten(lens, ps[1..]);
      LoadConcat(lens, ps[0], Flatten<nat>(ps[1..]));
    }
  }

  /** The loads of any cover add up to the grand total. */
  lemma CoverTotal(lens: seq<nat>, ps: seq<seq<nat>>)
    requires Covers(ps, |lens|)
    requires forall i, x :: 0 <= i < |ps| && 0 <= x < |ps[i]| ==> ps[i][x] < |lens|
    ensures Sum(Loads(lens, ps)) == Sum(lens)
  {
    LoadsOfFlatten(lens, ps);
    RangeIsIota(0, |lens|);
    LoadOfRange(lens, 0);
    LoadPermutation(lens, Flatten<nat>(ps), Range(0, |lens|));
    assert lens[0..] == lens;
  }

  lemma {:induction false} PairsExceed(loads: seq<int>, cap: int)
    requires |loads| >= 2
    requires forall i, j :: 0 <= i < j < |loads| ==> loads[i] + loads[j] > cap
    ensures 2 * Sum(loads) > |loads| * cap
  {
    assert Sum(loads) == loads[0] + loads[1] + Sum(loads[2..]) by {
      assert loads[1..][1..] == loads[2..];
    }
    if |loads| == 3 {
      assert Sum(loads[2..]) == loads[2] + Sum(loads[2..][1..]);
    } else if |loads| > 3 {
      PairsExceed(loads[2..], cap);
      assert |loads| * cap == 2 * cap + |loads[2..]| * cap;
    }
  }

  /** With two bins or more, their joint capacity is less than twice the total length. */
  lemma BinCount(lens: seq<nat>, cap: int)
    requires !TooLong(lens, cap) && |BfdPartitions(lens, cap)| >= 2
    ensures |BfdPartitions(lens, cap)| * cap < 2 * Sum(lens)
  {
    var ps := BfdPartitions(lens, cap);
    BfdOk(lens, cap);
    CoverTotal(lens, ps);
    PairsExceed(Loads(lens, ps), cap);
  }

  lemma {:induction false} SumAtMost(s: seq<int>, hi: int)
    requires forall i :: 0 <= i < |s| ==> s[i] <= hi
    ensures Sum(s) <= |s| * hi
  {
    if s != [] {
      SumAtMost(s[1..], hi);
      assert |s| * hi == hi + |s[1..]| * hi;
    }
  }

  /** Any packing under the budget needs its bins to hold the grand total. */
  lemma CapacityNeeded(lens: seq<nat>, cap: int, other: seq<seq<nat>>)
    requires lens != [] && Covers(other, |lens|)
    requires forall i, x :: 0 <= i < |other| && 0 <= x < |other[i]| ==> other[i][x] < |lens|
    requires forall i :: 0 <= i < |other| ==> Load(lens, other[i]) <= cap
    ensures other != [] && Sum(lens) <= |other| * cap
  {
    CoverTotal(lens, other);
    SumAtMost(Loads(lens, other), cap);
    PermutationIsBijection(Flatten<nat>(other), |lens|);
  }

  /** No packing under the same budget, however clever, uses half as many bins. */
  lemma WithinTwiceOptimal(lens: seq<nat>, cap: int, other: seq<seq<nat>>)
    requires lens != [] && !TooLong(lens, cap) && Covers(other, |lens|)
    requires forall i, x :: 0 <= i < |other| && 0 <= x < |other[i]| ==> other[i][x] < |lens|
    requires forall i :: 0 <= i < |other| ==> Load(lens, other[i]) <= cap
    ensures |BfdPartitions(lens, cap)| < 2 * |other|
  {
    CapacityNeeded(lens, cap, other);
    assert lens[0] <= cap;
    var b, m := |BfdPartitions(lens, cap)|, |other|;
    if b >= 2 {
      BinCount(lens, cap);
      Arithmetic.LessThanTwice(b, m, cap, Sum(lens));
    }
  }

  /** There are at least as many sequences as bins. */
  lemma BinsAtMostSequences(lens: seq<nat>, cap: int)
    requires !TooLong(lens, cap)
    ensures |BfdPartitions(lens, cap)| <= |lens|
    ensures lens != [] ==> BfdPartitions(lens, cap) != []
  {
    var ps := BfdPartitions(lens, cap);
    BfdOk(lens, cap);
    PermutationIsBijection(Flatten<nat>(ps), |lens|);
    NonEmptyLists(ps);
  }

  lemma {:induction false} NonEmptyLists(ps: seq<seq<nat>>)
    requires forall i :: 0 <= i < |ps| ==> ps[i] != []
    ensures |ps| <= |Flatten<nat>(ps)|
  {
    if ps != [] {
      NonEmptyLists(ps[1..]);
    }
  }
}
