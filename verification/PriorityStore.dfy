/** `PriorityStore`: a bounded store of the best items, with an account of every item offered. */
module PriorityStore {
  import opened Arithmetic

  /** Compared by minVersion first, then by meanVersion. */
  datatype Priority = Priority(minVersion: real, meanVersion: real)

  predicate Less(a: Priority, b: Priority) {
    a.minVersion < b.minVersion || (a.minVersion == b.minVersion && a.meanVersion < b.meanVersion)
  }

  datatype Item<Data> = Item(priority: Priority, seqNo: nat, data: Data)
  datatype Offer<Data> = Offer(priority: Priority, data: Data)

  /** The order of the sorted list: by priority, the older first among equals. */
  predicate Before<Data>(a: Item<Data>, b: Item<Data>) {
    Less(a.priority, b.priority) || (a.priority == b.priority && a.seqNo < b.seqNo)
  }

  ghost predicate Sorted<Data>(sl: seq<Item<Data>>) {
    forall i, j :: 0 <= i < j < |sl| ==> Before(sl[i], sl[j])
  }

  function Insert<Data>(sl: seq<Item<Data>>, x: Item<Data>): (r: seq<Item<Data>>)
    ensures |r| == |sl| + 1
  {
    if sl == [] || Before(x, sl[0]) then [x] + sl else [sl[0]] + Insert(sl[1..], x)
  }

  /** The items that were never returned. */
  function CountUnused<Data>(sl: seq<Item<Data>>, used: set<nat>): nat {
    if sl == [] then 0 else (if sl[0].seqNo in used then 0 else 1) + CountUnused(sl[1..], used)
  }

  function SeqNos<Data>(sl: seq<Item<Data>>): set<nat> {
    set i | 0 <= i < |sl| :: sl[i].seqNo
  }

  // ----- Sorted lists -----

  lemma {:induction false} InsertSorts<Data>(sl: seq<Item<Data>>, x: Item<Data>)
    requires Sorted(sl) && forall i :: 0 <= i < |sl| ==> sl[i].seqNo != x.seqNo
    ensures Sorted(Insert(sl, x))
    ensures forall y :: y in Insert(sl, x) <==> y == x || y in sl
    ensures sl != [] && !Before(x, sl[0]) ==> Insert(sl, x)[0] == sl[0]
  {
    if sl != [] && !Before(x, sl[0]) {
      InsertSorts(sl[1..], x);
      var r := Insert(sl[1..], x);
      assert forall i :: 0 <= i < |r| ==> r[i] in r;
      assert forall y :: y in sl <==> y == sl[0] || y in sl[1..];
    } else {
      assert sl != [] ==> forall j :: 0 < j < |sl| ==> Before(sl[0], sl[j]);
    }
  }

  lemma {:induction false} InsertCounts<Data>(sl: seq<Item<Data>>, x: Item<Data>, used: set<nat>)
    requires x.seqNo !in used
    ensures CountUnused(Insert(sl, x), used) == CountUnused(sl, used) + 1
  {
    if sl != [] && !Before(x, sl[0]) {
      InsertCounts(sl[1..], x, used);
    }
  }

  lemma {:induction false} CountConcat<Data>(a: seq<Item<Data>>, b: seq<Item<Data>>, used: set<nat>)
    ensures CountUnused(a + b, used) == CountUnused(a, used) + CountUnused(b, used)
  {
    if a == [] {
      assert a + b == b;
    } else {
      assert (a + b)[1..] == a[1..] + b;
      CountConcat(a[1..], b, used);
    }
  }

  lemma {:induction false} CountAgrees<Data>(sl: seq<Item<Data>>, a: set<nat>, b: set<nat>)
    requires forall i :: 0 <= i < |sl| ==> (sl[i].seqNo in a <==> sl[i].seqNo in b)
    ensures CountUnused(sl, a) == CountUnused(sl, b)
  {
    if sl != [] {
      CountAgrees(sl[1..], a, b);
    }
  }

  ghost predicate DistinctSeqNos<Data>(sl: seq<Item<Data>>) {
    forall i, j :: 0 <= i < j < |sl| ==> sl[i].seqNo != sl[j].seqNo
  }

  /** Returning items counts exactly those that were not returned before. */
  lemma {:induction false} ReturnCounts<Data>(items: seq<Item<Data>>, returned: set<nat>)
    requires DistinctSeqNos(items)
    ensures |returned + SeqNos(items)| == |returned| + CountUnused(items, returned)
  {
    if items == [] {
      assert returned + SeqNos(items) == returned;
    } else {
      ReturnCounts(items[1..], returned);
      SeqNosFirst(items);
      var before, first := returned + SeqNos(items[1..]), items[0].seqNo;
      hide SeqNos, DistinctSeqNos;
      assert returned + SeqNos(items) == before + {first};
      AddOne(before, first);
      assert first in before <==> first in returned;
    }
  }

  lemma AddOne(s: set<nat>, x: nat)
    ensures |s + {x}| == |s| + if x in s then 0 else 1
  {
    if x in s {
      assert s + {x} == s;
    }
  }

  lemma SeqNosFirst<Data>(items: seq<Item<Data>>)
    requires items != [] && DistinctSeqNos(items)
    ensures SeqNos(items) == SeqNos(items[1..]) + {items[0].seqNo}
    ensures items[0].seqNo !in SeqNos(items[1..])
  {
    var rest := items[1..];
    assert forall i :: 0 <= i < |rest| ==> rest[i] == items[i + 1];
    forall n | n in SeqNos(items)
      ensures n in SeqNos(rest) + {items[0].seqNo}
    {
      var i :| 0 <= i < |items| && items[i].seqNo == n;
      if i > 0 {
        assert rest[i - 1].seqNo == n;
      }
    }
  }

  lemma {:induction false} AllUsed<Data>(items: seq<Item<Data>>, used: set<nat>)
    requires forall i :: 0 <= i < |items| ==> items[i].seqNo in used
    ensures CountUnused(items, used) == 0
  {
    if items != [] {
      AllUsed(items[1..], used);
    }
  }

  // ----- Which offers are live -----

  /** Item i came from offer accepted[its number]; numbers follow the order of arrival. */
  ghost predicate Traced<Data>(sl: seq<Item<Data>>, accepted: seq<nat>, offered: seq<Offer<Data>>) {
    && (forall i, j :: 0 <= i < j < |accepted| ==> accepted[i] < accepted[j])
    && (forall i :: 0 <= i < |accepted| ==> accepted[i] < |offered|)
    && (forall i :: 0 <= i < |sl| ==> sl[i].seqNo < |accepted|)
    && (forall i :: 0 <= i < |sl| ==> Offer(sl[i].priority, sl[i].data) == offered[accepted[sl[i].seqNo]])
  }

  ghost predicate Live<Data>(sl: seq<Item<Data>>, accepted: seq<nat>, j: nat) {
    exists i :: 0 <= i < |sl| && sl[i].seqNo < |accepted| && accepted[sl[i].seqNo] == j
  }

  /** Offer a ranks below offer b: by priority, the earlier below among equals. */
  ghost predicate Worse<Data>(offered: seq<Offer<Data>>, a: nat, b: nat)
    requires a < |offered| && b < |offered|
  {
    Less(offered[a].priority, offered[b].priority) || (offered[a].priority == offered[b].priority && a < b)
  }

  /** The offers that compete for the places: those that survived the last removal, and
      everything offered since. */
  datatype Field = Field(survivors: set<nat>, since: nat) {
    ghost predicate Competes(j: nat) {
      j in survivors || j >= since
    }
  }

  /** The live items are the maxSize best of the competing offers. */
  ghost predicate Top<Data>(sl: seq<Item<Data>>, accepted: seq<nat>, offered: seq<Offer<Data>>, maxSize: nat,
                            field: Field)
    requires Traced(sl, accepted, offered)
  {
    && field.since <= |offered| && (forall j :: j in field.survivors ==> j < field.since)
    && |sl| == Min(maxSize, |field.survivors| + (|offered| - field.since))
    && (forall i :: 0 <= i < |sl| ==> field.Competes(accepted[sl[i].seqNo]))
    && (|sl| < maxSize ==> forall j: nat :: j < |offered| && field.Competes(j) ==> Live(sl, accepted, j))
    && forall j: nat, i :: j < |offered| && field.Competes(j) && !Live(sl, accepted, j) && 0 <= i < |sl| ==>
         Worse(offered, j, accepted[sl[i].seqNo])
  }

  lemma {:induction false} RejectKeepsTop<Data>(sl: seq<Item<Data>>, accepted: seq<nat>, offered: seq<Offer<Data>>,
                                                maxSize: nat, field: Field, o: Offer<Data>)
    requires Traced(sl, accepted, offered) && Top(sl, accepted, offered, maxSize, field) && Sorted(sl)
    requires |sl| == maxSize > 0 && Less(o.priority, sl[0].priority)
    ensures Traced(sl, accepted, offered + [o]) && Top(sl, accepted, offered + [o], maxSize, field)
  {
    forall j: nat, i | j < |offered + [o]| && field.Competes(j) && !Live(sl, accepted, j) && 0 <= i < |sl|
      ensures Worse(offered + [o], j, accepted[sl[i].seqNo])
    {
      if j < |offered| {
        assert Worse(offered, j, accepted[sl[i].seqNo]);
      } else {
        assert i == 0 || Before(sl[0], sl[i]);
      }
    }
  }

  lemma InsertIsTraced<Data>(sl: seq<Item<Data>>, accepted: seq<nat>, offered: seq<Offer<Data>>, o: Offer<Data>)
    requires Traced(sl, accepted, offered) && Sorted(sl) && DistinctSeqNos(sl)
    ensures Traced(Insert(sl, Item(o.priority, |accepted|, o.data)), accepted + [|offered|], offered + [o])
    ensures Sorted(Insert(sl, Item(o.priority, |accepted|, o.data)))
    ensures DistinctSeqNos(Insert(sl, Item(o.priority, |accepted|, o.data)))
  {
    var x := Item(o.priority, |accepted|, o.data);
    InsertSorts(sl, x);
    var r, acc := Insert(sl, x), accepted + [|offered|];
    forall i | 0 <= i < |r|
      ensures r[i].seqNo < |acc| && Offer(r[i].priority, r[i].data) == (offered + [o])[acc[r[i].seqNo]]
    {
      InsertMember(sl, x, i);
      if r[i] != x {
        var k :| 0 <= k < |sl| && sl[k] == r[i];
        assert Offer(sl[k].priority, sl[k].data) == offered[accepted[sl[k].seqNo]];
      }
    }
    InsertDistinct(sl, x);
  }

  lemma {:induction false} InsertMember<Data>(sl: seq<Item<Data>>, x: Item<Data>, i: nat)
    requires i < |Insert(sl, x)|
    ensures Insert(sl, x)[i] == x || exists k :: 0 <= k < |sl| && sl[k] == Insert(sl, x)[i]
  {
    if sl != [] && !Before(x, sl[0]) {
      if i == 0 {
        assert sl[0] == Insert(sl, x)[i];
      } else {
        InsertMember(sl[1..], x, i - 1);
        if Insert(sl, x)[i] != x {
          var k :| 0 <= k < |sl[1..]| && sl[1..][k] == Insert(sl[1..], x)[i - 1];
          assert sl[k + 1] == Insert(sl, x)[i];
        }
      }
    } else if i > 0 {
      assert sl[i - 1] == Insert(sl, x)[i];
    }
  }

  lemma {:induction false} InsertDistinct<Data>(sl: seq<Item<Data>>, x: Item<Data>)
    requires DistinctSeqNos(sl) && forall i :: 0 <= i < |sl| ==> sl[i].seqNo != x.seqNo
    ensures DistinctSeqNos(Insert(sl, x))
    ensures forall y :: y in Insert(sl, x) <==> y == x || y in sl
  {
    if sl != [] && !Before(x, sl[0]) {
      InsertDistinct(sl[1..], x);
      var r := Insert(sl[1..], x);
      assert forall i :: 0 <= i < |r| ==> r[i] in r;
      assert forall y :: y in sl <==> y == sl[0] || y in sl[1..];
      forall i | 0 <= i < |r|
        ensures r[i].seqNo != sl[0].seqNo
      {
        InsertMember(sl[1..], x, i);
        if r[i] != x {
          var rest := sl[1..];
          var k :| 0 <= k < |rest| && rest[k] == r[i];
          assert sl[k + 1].seqNo != sl[0].seqNo;
        }
      }
      assert forall y :: y in [sl[0]] + r <==> y == sl[0] || y in r;
    } else {
      assert forall y :: y in [x] + sl <==> y == x || y in sl;
    }
  }

  /** A live offer stays live when its item is still listed. */
  lemma StaysLive<Data>(sl: seq<Item<Data>>, r: seq<Item<Data>>, accepted: seq<nat>, more: nat, i: nat)
    requires i < |sl| && sl[i].seqNo < |accepted| && sl[i] in r
    ensures Live(r, accepted + [more], accepted[sl[i].seqNo])
  {
    var k :| 0 <= k < |r| && r[k] == sl[i];
    assert (accepted + [more])[r[k].seqNo] == accepted[sl[i].seqNo];
  }

  /** Every item of the new list competes. */
  lemma CompetingStay<Data>(sl: seq<Item<Data>>, accepted: seq<nat>, offered: seq<Offer<Data>>, maxSize: nat,
                                               field: Field, o: Offer<Data>)
    requires Traced(sl, accepted, offered) && Top(sl, accepted, offered, maxSize, field) && DistinctSeqNos(sl)
    requires Traced(Insert(sl, Item(o.priority, |accepted|, o.data)), accepted + [|offered|], offered + [o])
    ensures var r := Insert(sl, Item(o.priority, |accepted|, o.data));
      forall i :: 0 <= i < |r| ==> field.Competes((accepted + [|offered|])[r[i].seqNo])
  {
    var x := Item(o.priority, |accepted|, o.data);
    var r, acc := Insert(sl, x), accepted + [|offered|];
    forall i | 0 <= i < |r|
      ensures field.Competes(acc[r[i].seqNo])
    {
      InsertMember(sl, x, i);
      if r[i] != x {
        var k :| 0 <= k < |sl| && sl[k] == r[i];
        assert field.Competes(accepted[sl[k].seqNo]);
      }
    }
  }

  lemma {:induction false} AcceptKeepsTop<Data>(sl: seq<Item<Data>>, accepted: seq<nat>, offered: seq<Offer<Data>>,
                                                maxSize: nat, field: Field, o: Offer<Data>)
    requires Traced(sl, accepted, offered) && Top(sl, accepted, offered, maxSize, field) && Sorted(sl)
      && DistinctSeqNos(sl)
    requires |sl| < maxSize
    requires Traced(Insert(sl, Item(o.priority, |accepted|, o.data)), accepted + [|offered|], offered + [o])
    ensures Top(Insert(sl, Item(o.priority, |accepted|, o.data)), accepted + [|offered|], offered + [o], maxSize, field)
  {
    var x := Item(o.priority, |accepted|, o.data);
    var r, acc := Insert(sl, x), accepted + [|offered|];
    InsertDistinct(sl, x);
    CompetingStay(sl, accepted, offered, maxSize, field, o);
    forall j: nat | j < |offered + [o]| && field.Competes(j)
      ensures Live(r, acc, j)
    {
      if j < |offered| {
        assert Live(sl, accepted, j);
        var i :| 0 <= i < |sl| && sl[i].seqNo < |accepted| && accepted[sl[i].seqNo] == j;
        assert sl[i] in r;
        StaysLive(sl, r, accepted, |offered|, i);
      } else {
        assert x in r;
        var k :| 0 <= k < |r| && r[k] == x;
        assert acc[r[k].seqNo] == j;
      }
    }
  }

  lemma {:induction false} EvictKeepsTop<Data>(sl: seq<Item<Data>>, accepted: seq<nat>, offered: seq<Offer<Data>>,
                                               maxSize: nat, field: Field, o: Offer<Data>)
    requires Traced(sl, accepted, offered) && Top(sl, accepted, offered, maxSize, field) && Sorted(sl)
      && DistinctSeqNos(sl)
    requires |sl| == maxSize > 0 && !Less(o.priority, sl[0].priority)
    requires Traced(Insert(sl, Item(o.priority, |accepted|, o.data)), accepted + [|offered|], offered + [o])
    requires Sorted(Insert(sl, Item(o.priority, |accepted|, o.data)))
    ensures Traced(Insert(sl, Item(o.priority, |accepted|, o.data))[1..], accepted + [|offered|], offered + [o])
    ensures Top(Insert(sl, Item(o.priority, |accepted|, o.data))[1..], accepted + [|offered|], offered + [o], maxSize,
                field)
  {
    var x := Item(o.priority, |accepted|, o.data);
    InsertSorts(sl, x);
    var r, acc, more := Insert(sl, x), accepted + [|offered|], offered + [o];
    assert r[0] == sl[0];
    CompetingStay(sl, accepted, offered, maxSize, field, o);
    forall j: nat, i | j < |more| && field.Competes(j) && !Live(r[1..], acc, j) && 0 <= i < |r[1..]|
      ensures Worse(more, j, acc[r[1..][i].seqNo])
    {
      WorseThanKept(sl, accepted, offered, maxSize, field, o, j, i + 1);
    }
  }

  lemma {:induction false} WorseThanKept<Data>(sl: seq<Item<Data>>, accepted: seq<nat>, offered: seq<Offer<Data>>,
                                               maxSize: nat, field: Field, o: Offer<Data>, j: nat, i: nat)
    requires Traced(sl, accepted, offered) && Top(sl, accepted, offered, maxSize, field) && sl != []
      && field.Competes(j)
    requires Traced(Insert(sl, Item(o.priority, |accepted|, o.data)), accepted + [|offered|], offered + [o])
    requires Sorted(Insert(sl, Item(o.priority, |accepted|, o.data))) && DistinctSeqNos(sl)
    requires Insert(sl, Item(o.priority, |accepted|, o.data))[0] == sl[0]
    requires 0 < i <= |sl| && j <= |offered|
    requires !Live(Insert(sl, Item(o.priority, |accepted|, o.data))[1..], accepted + [|offered|], j)
    ensures Worse(offered + [o], j, (accepted + [|offered|])[Insert(sl, Item(o.priority, |accepted|, o.data))[i].seqNo])
  {
    var x := Item(o.priority, |accepted|, o.data);
    var r, acc, more := Insert(sl, x), accepted + [|offered|], offered + [o];
    InsertDistinct(sl, x);
    assert Before(r[0], r[i]);
    assert Worse(more, acc[r[0].seqNo], acc[r[i].seqNo]);
    if j != acc[r[0].seqNo] {
      NotLiveBefore(sl, accepted, offered, o, j);
      assert Worse(offered, j, accepted[sl[0].seqNo]);
    }
  }

  lemma NotLiveBefore<Data>(sl: seq<Item<Data>>, accepted: seq<nat>, offered: seq<Offer<Data>>, o: Offer<Data>, j: nat)
    requires Traced(sl, accepted, offered) && DistinctSeqNos(sl) && sl != []
    requires Insert(sl, Item(o.priority, |accepted|, o.data))[0] == sl[0]
    requires j <= |offered| && j != accepted[sl[0].seqNo]
    requires !Live(Insert(sl, Item(o.priority, |accepted|, o.data))[1..], accepted + [|offered|], j)
    ensures j < |offered| && !Live(sl, accepted, j)
  {
    var x := Item(o.priority, |accepted|, o.data);
    var r, acc := Insert(sl, x), accepted + [|offered|];
    InsertDistinct(sl, x);
    assert forall y :: y in r <==> y == r[0] || y in r[1..];
    assert x in r[1..];
    NewIsLive(r[1..], x, accepted, |offered|);
    assert forall i :: 0 <= i < |sl| ==> sl[i] in r;
    OldStayLive(sl, r[1..], accepted, |offered|, j);
  }

  lemma NewIsLive<Data>(r: seq<Item<Data>>, x: Item<Data>, accepted: seq<nat>, more: nat)
    requires x in r && x.seqNo == |accepted|
    ensures Live(r, accepted + [more], more)
  {
    var k :| 0 <= k < |r| && r[k] == x;
    assert (accepted + [more])[r[k].seqNo] == more;
  }

  lemma OldStayLive<Data>(sl: seq<Item<Data>>, r: seq<Item<Data>>, accepted: seq<nat>, more: nat, j: nat)
    requires sl != [] && sl[0].seqNo < |accepted| && accepted[sl[0].seqNo] != j
    requires forall i :: 0 < i < |sl| ==> sl[i] in r
    ensures Live(sl, accepted, j) ==> Live(r, accepted + [more], j)
  {
    if Live(sl, accepted, j) {
      var i :| 0 <= i < |sl| && sl[i].seqNo < |accepted| && accepted[sl[i].seqNo] == j;
      StaysLive(sl, r, accepted, more, i);
    }
  }

  // ----- Removal -----

  function Below<Data>(sl: seq<Item<Data>>, threshold: real): seq<Item<Data>> {
    if sl == [] then []
    else (if sl[0].priority.minVersion < threshold then [sl[0]] else []) + Below(sl[1..], threshold)
  }

  function AtLeast<Data>(sl: seq<Item<Data>>, threshold: real): seq<Item<Data>> {
    if sl == [] then []
    else (if sl[0].priority.minVersion < threshold then [] else [sl[0]]) + AtLeast(sl[1..], threshold)
  }

  /** The items below a threshold and the others, told apart by the threshold alone. */
  lemma {:induction false} SplitByThreshold<Data>(sl: seq<Item<Data>>, threshold: real)
    ensures forall x :: x in Below(sl, threshold) <==> x in sl && x.priority.minVersion < threshold
    ensures forall x :: x in AtLeast(sl, threshold) <==> x in sl && x.priority.minVersion >= threshold
  {
    if sl != [] {
      assert sl == [sl[0]] + sl[1..];
      SplitByThreshold(sl[1..], threshold);
    }
  }

  /** In a sorted list the items below a threshold come first. */
  lemma {:induction false} BelowComeFirst<Data>(sl: seq<Item<Data>>, threshold: real)
    requires Sorted(sl)
    ensures sl == Below(sl, threshold) + AtLeast(sl, threshold)
    ensures sl != [] && sl[0].priority.minVersion >= threshold ==> Below(sl, threshold) == []
  {
    if sl != [] {
      BelowComeFirst(sl[1..], threshold);
      if |sl| > 1 {
        assert Before(sl[0], sl[1]);
      }
    }
  }

  /** `SortedList.remove`. */
  function Remove<Data(==)>(sl: seq<Item<Data>>, x: Item<Data>): seq<Item<Data>> {
    if sl == [] then [] else if sl[0] == x then sl[1..] else [sl[0]] + Remove(sl[1..], x)
  }

  // ----- The account -----

  lemma {:induction false} UnusedCounted<Data>(sl: seq<Item<Data>>, used: set<nat>)
    requires DistinctSeqNos(sl)
    ensures |SeqNos(sl) - used| == CountUnused(sl, used)
  {
    hide SeqNos, DistinctSeqNos;
    if sl == [] {
      NoSeqNos<Data>();
      assert SeqNos(sl) - used == {};
    } else {
      var n, later := sl[0].seqNo, SeqNos(sl[1..]) - used;
      SeqNosFirst(sl);
      RestDistinct(sl);
      UnusedCounted(sl[1..], used);
      assert SeqNos(sl) - used == if n in used then later else later + {n};
    }
  }

  lemma NoSeqNos<Data>()
    ensures SeqNos<Data>([]) == {}
  {
  }

  lemma RestDistinct<Data>(sl: seq<Item<Data>>)
    requires sl != [] && DistinctSeqNos(sl)
    ensures DistinctSeqNos(sl[1..])
  {
  }

  /** The used numbers are those of the live items that were returned. */
  ghost predicate UsedOk<Data>(sl: seq<Item<Data>>, used: set<nat>, returned: set<nat>) {
    used == SeqNos(sl) * returned
  }

  lemma InsertAccounts<Data>(sl: seq<Item<Data>>, x: Item<Data>, used: set<nat>, returned: set<nat>)
    requires UsedOk(sl, used, returned) && x.seqNo !in returned
    ensures UsedOk(Insert(sl, x), used, returned)
    ensures CountUnused(Insert(sl, x), returned) == CountUnused(sl, returned) + 1
  {
    InsertCounts(sl, x, returned);
    InsertSeqNos(sl, x);
  }

  lemma {:induction false} InsertSeqNos<Data>(sl: seq<Item<Data>>, x: Item<Data>)
    ensures SeqNos(Insert(sl, x)) == SeqNos(sl) + {x.seqNo}
  {
    if sl != [] && !Before(x, sl[0]) {
      InsertSeqNos(sl[1..], x);
      SeqNosCons(sl[0], sl[1..]);
      SeqNosCons(sl[0], Insert(sl[1..], x));
      assert sl == [sl[0]] + sl[1..];
    } else {
      SeqNosCons(x, sl);
    }
  }

  lemma SeqNosCons<Data>(x: Item<Data>, sl: seq<Item<Data>>)
    ensures SeqNos([x] + sl) == SeqNos(sl) + {x.seqNo}
  {
    var r := [x] + sl;
    assert r[0] == x;
    forall n | n in SeqNos(sl)
      ensures n in SeqNos(r)
    {
      var i :| 0 <= i < |sl| && sl[i].seqNo == n;
      assert r[i + 1].seqNo == n;
    }
    forall n | n in SeqNos(r)
      ensures n in SeqNos(sl) + {x.seqNo}
    {
      var i :| 0 <= i < |r| && r[i].seqNo == n;
      assert i == 0 || sl[i - 1].seqNo == n;
    }
  }

  /** Dropping the first item moves at most itself from unused to discarded. */
  lemma DropFirst<Data>(sl: seq<Item<Data>>, used: set<nat>, returned: set<nat>)
    requires sl != [] && DistinctSeqNos(sl) && UsedOk(sl, used, returned)
    ensures UsedOk(sl[1..], used - {sl[0].seqNo}, returned)
    ensures sl[0].seqNo in used <==> sl[0].seqNo in returned
    ensures CountUnused(sl, returned) == CountUnused(sl[1..], returned) + if sl[0].seqNo in used then 0 else 1
    ensures DistinctSeqNos(sl[1..])
  {
    SeqNosFirst(sl);
  }

  /** Returning a suffix moves exactly its unused items to the returned ones. */
  lemma ReturnSuffix<Data>(sl: seq<Item<Data>>, start: nat, used: set<nat>, returned: set<nat>)
    requires start <= |sl| && DistinctSeqNos(sl) && UsedOk(sl, used, returned)
    ensures UsedOk(sl, used + SeqNos(sl[start..]), returned + SeqNos(sl[start..]))
    ensures |returned + SeqNos(sl[start..])| + CountUnused(sl, returned + SeqNos(sl[start..]))
         == |returned| + CountUnused(sl, returned)
  {
    hide CountUnused, SeqNos, DistinctSeqNos;
    var kept, items := sl[..start], sl[start..];
    var more := returned + SeqNos(items);
    assert sl == kept + items;
    SuffixApart(sl, start);
    CountConcat(kept, items, returned);
    CountConcat(kept, items, more);
    ReturnCounts(items, returned);
    AllUsed(items, more);
    CountAgrees(kept, returned, more);
  }

  lemma SuffixApart<Data>(sl: seq<Item<Data>>, start: nat)
    requires start <= |sl| && DistinctSeqNos(sl)
    ensures DistinctSeqNos(sl[start..]) && SeqNos(sl[start..]) <= SeqNos(sl)
    ensures forall i :: 0 <= i < start ==> sl[..start][i].seqNo !in SeqNos(sl[start..])
    ensures forall i :: 0 <= i < |sl| - start ==> sl[start..][i].seqNo in SeqNos(sl[start..])
  {
    var items := sl[start..];
    assert forall j :: 0 <= j < |items| ==> items[j] == sl[start + j];
  }

  /** Where Python's `sl[-n:]` starts. */
  function SuffixStart(size: nat, n: int): (start: nat)
    ensures start <= size
    ensures n > 0 ==> size - start == Min(n, size)
  {
    if n > 0 then Max(0, size - n) else Min(-n, size)
  }

  function BestFirst<Data>(items: seq<Item<Data>>): (best: seq<Data>)
    ensures |best| == |items| && forall i :: 0 <= i < |best| ==> best[i] == items[|items| - 1 - i].data
  {
    seq(|items|, i requires 0 <= i < |items| => items[|items| - 1 - i].data)
  }

  // ----- The store -----

  class PriorityStore<Data(==)> {
    const maxSize: nat
    var sl: seq<Item<Data>>
    var seqNo: nat
    var usedSeqs: set<nat>
    var discardedUnused: nat

    /** Everything offered, which of it got each number, and the numbers ever returned. */
    ghost var offered: seq<Offer<Data>>
    ghost var accepted: seq<nat>
    ghost var returned: set<nat>
    ghost var field: Field

    /** The list is in order, traced to its offers, and every offer is accounted for. */
    ghost predicate Accounted()
      reads `sl, `seqNo, `usedSeqs, `discardedUnused, `offered, `accepted, `returned
    {
      && |accepted| == seqNo && Sorted(sl) && DistinctSeqNos(sl) && Traced(sl, accepted, offered)
      && (forall n :: n in returned ==> n < seqNo)
      && UsedOk(sl, usedSeqs, returned)
      && |offered| == discardedUnused + |returned| + CountUnused(sl, returned)
    }

    ghost predicate Valid()
      reads this
    {
      && maxSize > 0 && |sl| <= maxSize && Accounted()
      && Top(sl, accepted, offered, maxSize, field)
    }

    constructor (maxSize: nat)
      requires maxSize > 0
      ensures Valid() && field == Field({}, 0) && sl == [] && discardedUnused == 0 && offered == [] && returned == {}
      ensures this.maxSize == maxSize
    {
      this.maxSize := maxSize;
      sl, seqNo, usedSeqs, discardedUnused := [], 0, {}, 0;
      offered, accepted, returned, field := [], [], {}, Field({}, 0);
    }

    /** The list is in the order of (min version, mean version, age), older first among equals. */
    lemma ListOrder(i: nat, j: nat)
      requires Valid() && i < j < |sl|
      ensures var a, b := sl[i], sl[j];
        || a.priority.minVersion < b.priority.minVersion
        || (a.priority.minVersion == b.priority.minVersion
            && (a.priority.meanVersion < b.priority.meanVersion
                || (a.priority.meanVersion == b.priority.meanVersion && a.seqNo < b.seqNo)))
    {
      hide Traced, Top, UsedOk, CountUnused, DistinctSeqNos;
      assert Before(sl[i], sl[j]);
    }

    /** Discarded unused: everything offered that was never returned and is gone. */
    lemma DiscardedExactly()
      requires Valid()
      ensures var live := set i | 0 <= i < |sl| :: sl[i].seqNo;
        discardedUnused == |offered| - |returned| - |live - returned| && usedSeqs == live * returned
    {
      hide Sorted, Traced, Top;
      UnusedCounted(sl, returned);
    }

    /** Drop the item from the account: discarded unless it was returned before. */
    method Account(item: Item<Data>)
      modifies this`usedSeqs, this`discardedUnused
      ensures item.seqNo in old(usedSeqs) ==>
        usedSeqs == old(usedSeqs) - {item.seqNo} && discardedUnused == old(discardedUnused)
      ensures item.seqNo !in old(usedSeqs) ==> usedSeqs == old(usedSeqs) && discardedUnused == old(discardedUnused) + 1
    {
      if item.seqNo !in usedSeqs {
        discardedUnused := discardedUnused + 1;
      } else {
        usedSeqs := usedSeqs - {item.seqNo};
      }
    }

    /** A full store rejects what is below its least item and otherwise drops that item. */
    method Add(priority: Priority, data: Data) returns (added: bool)
      requires Valid()
      modifies this
      ensures Valid() && offered == old(offered) + [Offer(priority, data)] && returned == old(returned)
      ensures field == old(field)
      ensures added <==> old(|sl| < maxSize || !Less(priority, sl[0].priority))
      ensures added <==> old(|sl|) < maxSize || (var least := old(sl[0].priority);
        priority.minVersion > least.minVersion
        || (priority.minVersion == least.minVersion && priority.meanVersion >= least.meanVersion))
      ensures !added ==> discardedUnused == old(discardedUnused) + 1
      ensures !added ==> sl == old(sl)
      ensures added ==> var more := old(Insert(sl, Item(priority, seqNo, data)));
        sl == if |more| <= maxSize then more else more[1..]
    {
      hide Sorted, Traced, Top, DistinctSeqNos, Insert, UsedOk, CountUnused;
      if |sl| == maxSize {
        if Less(priority, sl[0].priority) {
          RejectKeepsTop(sl, accepted, offered, maxSize, field, Offer(priority, data));
          discardedUnused := discardedUnused + 1;
          offered := offered + [Offer(priority, data)];
          return false;
        }
      }
      var item := Item(priority, seqNo, data);
      AcceptKeeps(item);
      hide Accounted;
      Accept(item);
      if |sl| > maxSize {
        DropLeast(sl[0]);
      }
      return true;
    }

    /** Insert the item under the next number. */
    method Accept(item: Item<Data>)
      requires Accounted() && item.seqNo == seqNo
      modifies this`sl, this`seqNo, this`offered, this`accepted
      ensures Accounted() && sl == Insert(old(sl), item) && |sl| == old(|sl|) + 1
      ensures offered == old(offered) + [Offer(item.priority, item.data)]
        && accepted == old(accepted) + [old(|offered|)]
    {
      hide Sorted, Traced, DistinctSeqNos, Insert, UsedOk, CountUnused;
      InsertIsTraced(sl, accepted, offered, Offer(item.priority, item.data));
      InsertAccounts(sl, item, usedSeqs, returned);
      sl := Insert(sl, item);
      seqNo := seqNo + 1;
      offered, accepted := offered + [Offer(item.priority, item.data)], accepted + [|offered|];
    }

    /** Take the least item off the list and settle its account. */
    method DropLeast(item: Item<Data>)
      requires Accounted() && sl != [] && item == sl[0]
      modifies this`sl, this`usedSeqs, this`discardedUnused
      ensures Accounted() && sl == old(sl[1..])
    {
      DropFirst(sl, usedSeqs, returned);
      TailKeeps(sl, accepted, offered);
      hide Sorted, Traced, DistinctSeqNos, UsedOk, CountUnused;
      Account(item);
      sl := Remove(sl, item);
    }

    /** The item enters, and if the store was full the least item leaves. */
    lemma AcceptKeeps(item: Item<Data>)
      requires Valid() && item.seqNo == seqNo
      requires |sl| == maxSize ==> !Less(item.priority, sl[0].priority)
      ensures Sorted(Insert(sl, item)) && DistinctSeqNos(Insert(sl, item))
      ensures Traced(Insert(sl, item), accepted + [|offered|], offered + [Offer(item.priority, item.data)])
      ensures var r, acc, more := Insert(sl, item), accepted + [|offered|], offered + [Offer(item.priority, item.data)];
        if |sl| < maxSize then Top(r, acc, more, maxSize, field)
        else Traced(r[1..], acc, more) && Top(r[1..], acc, more, maxSize, field)
    {
      var o := Offer(item.priority, item.data);
      hide Sorted, Traced, Top, DistinctSeqNos, UsedOk, CountUnused, Insert;
      InsertIsTraced(sl, accepted, offered, o);
      if |sl| < maxSize {
        AcceptKeepsTop(sl, accepted, offered, maxSize, field, o);
      } else {
        EvictKeepsTop(sl, accepted, offered, maxSize, field, o);
      }
    }

    /** The data of the n best items, best first; `sl[-0:]` is the whole list, and for a
        negative n the slice drops the -n least. */
    method TopN(n: int) returns (best: seq<Data>)
      requires Valid()
      modifies this`usedSeqs, this`returned
      ensures Valid()
      ensures best == BestFirst(sl[SuffixStart(|sl|, n)..])
      ensures n > 0 ==> |best| == Min(n, |sl|) && forall i :: 0 <= i < |best| ==> best[i] == sl[|sl| - 1 - i].data
      ensures returned == old(returned) + SeqNos(sl[SuffixStart(|sl|, n)..])
    {
      hide Sorted, Traced, Top, CountUnused, UsedOk, DistinctSeqNos, SuffixStart;
      var items := sl[SuffixStart(|sl|, n)..];
      ReturnSuffix(sl, SuffixStart(|sl|, n), usedSeqs, returned);
      SeqNosKnown(sl, accepted, offered, SuffixStart(|sl|, n));
      hide SeqNos;
      MarkUsed(items);
      returned := returned + SeqNos(items);
      return BestFirst(items);
    }

    /** Note every one of these items as used. */
    method MarkUsed(items: seq<Item<Data>>)
      modifies this`usedSeqs
      ensures usedSeqs == old(usedSeqs) + SeqNos(items)
    {
      ghost var before := usedSeqs;
      var i := 0;
      while i < |items|
        invariant i <= |items| && usedSeqs == before + SeqNos(items[..i])
        modifies this`usedSeqs
      {
        SeqNosTake(items, i);
        usedSeqs := usedSeqs + {items[i].seqNo};
        i := i + 1;
      }
      assert items[..i] == items;
    }

    /** Items below the threshold leave; the others stay in order, and if any left, only they
        and later offers compete from now on. */
    method RemoveBelow(threshold: real)
      requires Valid()
      modifies this`sl, this`usedSeqs, this`discardedUnused, this`field
      ensures Valid() && sl == AtLeast(old(sl), threshold)
      ensures |sl| <= old(|sl|) && sl == old(sl)[old(|sl|) - |sl|..]
      ensures forall x :: x in sl <==> x in old(sl) && x.priority.minVersion >= threshold
      ensures field == if sl == old(sl) then old(field) else Field(Arrivals(sl, accepted), |offered|)
    {
      hide Accounted, Top, AtLeast, Below, Arrivals;
      var toRemove := Below(sl, threshold);
      ghost var kept := AtLeast(sl, threshold);
      SplitAt(threshold);
      SplitByThreshold(sl, threshold);
      if toRemove != [] {
        DropAll(toRemove, kept);
        SettleField();
        field := Field(Arrivals(sl, accepted), |offered|);
      }
    }

    lemma SplitAt(threshold: real)
      requires Accounted()
      ensures var toRemove, kept := Below(sl, threshold), AtLeast(sl, threshold);
        && sl == toRemove + kept && |sl| == |toRemove| + |kept| && (toRemove == [] ==> sl == kept)
    {
      BelowComeFirst(sl, threshold);
    }

    method DropAll(toRemove: seq<Item<Data>>, ghost kept: seq<Item<Data>>)
      requires Accounted() && sl == toRemove + kept
      modifies this`sl, this`usedSeqs, this`discardedUnused
      ensures Accounted() && sl == kept
    {
      hide Accounted;
      var i := 0;
      assert toRemove[i..] == toRemove;
      while i < |toRemove|
        invariant i <= |toRemove| && Accounted() && sl == toRemove[i..] + kept
        modifies this`sl, this`usedSeqs, this`discardedUnused
      {
        NextToDrop(toRemove, kept, i);
        DropLeast(toRemove[i]);
        i := i + 1;
      }
    }

    lemma SettleField()
      requires Accounted() && |sl| <= maxSize
      ensures Traced(sl, accepted, offered)
        && Top(sl, accepted, offered, maxSize, Field(Arrivals(sl, accepted), |offered|))
    {
      NewField(sl, accepted, offered, maxSize);
    }
  }

  lemma NextToDrop<Data>(toRemove: seq<Item<Data>>, kept: seq<Item<Data>>, i: nat)
    requires i < |toRemove|
    ensures (toRemove[i..] + kept)[0] == toRemove[i]
    ensures (toRemove[i..] + kept)[1..] == toRemove[i + 1..] + kept
  {
  }

  /** The offers the items came from. */
  ghost function Arrivals<Data>(sl: seq<Item<Data>>, accepted: seq<nat>): (a: set<nat>)
    requires forall i :: 0 <= i < |sl| ==> sl[i].seqNo < |accepted|
    ensures forall i :: 0 <= i < |sl| ==> accepted[sl[i].seqNo] in a
    ensures forall j :: j in a ==> Live(sl, accepted, j)
  {
    if sl == [] then {}
    else
      assert forall j :: Live(sl[1..], accepted, j) ==> Live(sl, accepted, j) by {
        LiveLonger(sl, accepted);
      }
      assert Live(sl, accepted, accepted[sl[0].seqNo]);
      Arrivals(sl[1..], accepted) + {accepted[sl[0].seqNo]}
  }

  lemma LiveLonger<Data>(sl: seq<Item<Data>>, accepted: seq<nat>)
    requires sl != []
    ensures forall j: nat :: Live(sl[1..], accepted, j) ==> Live(sl, accepted, j)
  {
    var rest := sl[1..];
    forall j: nat | Live(rest, accepted, j)
      ensures Live(sl, accepted, j)
    {
      var i :| 0 <= i < |rest| && rest[i].seqNo < |accepted| && accepted[rest[i].seqNo] == j;
      assert sl[i + 1] == rest[i];
    }
  }

  lemma {:induction false} ArrivalsCount<Data>(sl: seq<Item<Data>>, accepted: seq<nat>, offered: seq<Offer<Data>>)
    requires Traced(sl, accepted, offered) && DistinctSeqNos(sl)
    ensures |Arrivals(sl, accepted)| == |sl|
  {
    hide Arrivals, Traced, DistinctSeqNos, Live;
    TracedTail(sl, accepted, offered);
    ArrivalsNext(sl, accepted);
    if sl != [] {
      FirstNotLive(sl, accepted, offered);
      ArrivalsCount(sl[1..], accepted, offered);
    }
  }

  lemma TracedTail<Data>(sl: seq<Item<Data>>, accepted: seq<nat>, offered: seq<Offer<Data>>)
    requires Traced(sl, accepted, offered) && DistinctSeqNos(sl)
    ensures forall i :: 0 <= i < |sl| ==> sl[i].seqNo < |accepted|
    ensures sl != [] ==> Traced(sl[1..], accepted, offered) && DistinctSeqNos(sl[1..])
    ensures sl != [] ==> forall i :: 0 <= i < |sl| - 1 ==> sl[1..][i].seqNo < |accepted|
  {
    assert sl != [] ==> forall i :: 0 <= i < |sl| - 1 ==> sl[1..][i] == sl[i + 1];
  }

  lemma ArrivalsNext<Data>(sl: seq<Item<Data>>, accepted: seq<nat>)
    requires forall i :: 0 <= i < |sl| ==> sl[i].seqNo < |accepted|
    requires sl != [] ==> forall i :: 0 <= i < |sl| - 1 ==> sl[1..][i].seqNo < |accepted|
    ensures Arrivals(sl, accepted)
         == if sl == [] then {} else Arrivals(sl[1..], accepted) + {accepted[sl[0].seqNo]}
  {
    hide Live;
  }

  lemma FirstNotLive<Data>(sl: seq<Item<Data>>, accepted: seq<nat>, offered: seq<Offer<Data>>)
    requires Traced(sl, accepted, offered) && DistinctSeqNos(sl) && sl != []
    ensures !Live(sl[1..], accepted, accepted[sl[0].seqNo])
  {
    var rest := sl[1..];
    forall i | 0 <= i < |rest|
      ensures accepted[rest[i].seqNo] != accepted[sl[0].seqNo]
    {
      assert rest[i] == sl[i + 1];
      var a, b := rest[i].seqNo, sl[0].seqNo;
      assert a < b ==> accepted[a] < accepted[b];
      assert b < a ==> accepted[b] < accepted[a];
    }
  }

  /** The items that are left are the best of themselves. */
  lemma NewField<Data>(sl: seq<Item<Data>>, accepted: seq<nat>, offered: seq<Offer<Data>>, maxSize: nat)
    requires Traced(sl, accepted, offered) && DistinctSeqNos(sl) && |sl| <= maxSize
    ensures Top(sl, accepted, offered, maxSize, Field(Arrivals(sl, accepted), |offered|))
  {
    ArrivalsCount(sl, accepted, offered);
    forall j | j in Arrivals(sl, accepted)
      ensures j < |offered|
    {
      assert Live(sl, accepted, j);
    }
  }

  lemma TailKeeps<Data>(sl: seq<Item<Data>>, accepted: seq<nat>, offered: seq<Offer<Data>>)
    requires sl != [] && Sorted(sl) && Traced(sl, accepted, offered)
    ensures Sorted(sl[1..]) && Traced(sl[1..], accepted, offered)
  {
  }

  lemma SeqNosTake<Data>(items: seq<Item<Data>>, i: nat)
    requires i < |items|
    ensures SeqNos(items[..i + 1]) == SeqNos(items[..i]) + {items[i].seqNo}
  {
    forall n | n in SeqNos(items[..i + 1])
      ensures n in SeqNos(items[..i]) + {items[i].seqNo}
    {
      var k :| 0 <= k < i + 1 && items[..i + 1][k].seqNo == n;
      assert k < i ==> items[..i][k].seqNo == n;
    }
    forall n | n in SeqNos(items[..i]) + {items[i].seqNo}
      ensures n in SeqNos(items[..i + 1])
    {
      assert items[..i + 1][i] == items[i];
      assert forall k :: 0 <= k < i ==> items[..i + 1][k] == items[..i][k];
    }
  }

  lemma SeqNosKnown<Data>(sl: seq<Item<Data>>, accepted: seq<nat>, offered: seq<Offer<Data>>, start: nat)
    requires start <= |sl| && Traced(sl, accepted, offered)
    ensures forall n :: n in SeqNos(sl[start..]) ==> n < |accepted|
  {
  }
}
