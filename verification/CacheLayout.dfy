/**
 The ring of slots behind `TrajectoryCache`, on plain values: which slot each retained
 trajectory sits in, what the flat buffer holds, and how both change on a put.
 */
module CacheLayout {
  import opened Sequences
  import Arithmetic

  /** The name of a field; a nested one carries its whole path. */
  datatype Name = Name(path: string)

  /** A flattened trajectory: rows per field. */
  type Flat<Row> = map<Name, seq<Row>>

  // ----- The map it refines -----

  /** The retained ids, oldest fresh insert first, and what was last put for each. */
  datatype Fifo<Row> = Fifo(queue: seq<nat>, store: map<nat, Flat<Row>>)

  /** A put of a retained id replaces its entry; any other id joins at the end, and the
      oldest leaves when the cache is full. */
  function FifoPut<Row>(f: Fifo<Row>, maxSize: nat, id: nat, t: Flat<Row>): Fifo<Row>
    requires maxSize > 0
  {
    if id in f.queue then Fifo(f.queue, f.store[id := t])
    else if |f.queue| < maxSize then Fifo(f.queue + [id], f.store[id := t])
    else Fifo(f.queue[1..] + [id], (f.store - {f.queue[0]})[id := t])
  }

  /** One put: the id and its flattened trajectory. */
  datatype PutOp<Row> = PutOp(id: nat, flat: Flat<Row>)

  /** The map after a whole run of puts on an empty cache. */
  function AfterPuts<Row>(puts: seq<PutOp<Row>>, maxSize: nat): Fifo<Row>
    requires maxSize > 0
  {
    if puts == [] then Fifo([], map[])
    else
      var last := puts[|puts| - 1];
      FifoPut(AfterPuts(puts[..|puts| - 1], maxSize), maxSize, last.id, last.flat)
  }

  /** The ids put while not retained, in order; an evicted id put again counts again. */
  function FreshInserts<Row>(puts: seq<PutOp<Row>>, maxSize: nat): seq<nat>
    requires maxSize > 0
  {
    if puts == [] then []
    else
      var before, id := puts[..|puts| - 1], puts[|puts| - 1].id;
      FreshInserts(before, maxSize) + if id in AfterPuts(before, maxSize).queue then [] else [id]
  }

  /** The last trajectory put for an id. */
  function LastPut<Row>(puts: seq<PutOp<Row>>, id: nat): Option<Flat<Row>> {
    if puts == [] then None
    else if puts[|puts| - 1].id == id then Some(puts[|puts| - 1].flat)
    else LastPut(puts[..|puts| - 1], id)
  }

  function Suffix(s: seq<nat>, n: nat): seq<nat> {
    if |s| <= n then s else s[|s| - n..]
  }

  /** One put keeps the ids different and the store on exactly the retained ids. */
  lemma PutKeeps<Row>(f: Fifo<Row>, maxSize: nat, id: nat, t: Flat<Row>)
    requires maxSize > 0 && Distinct(f.queue) && forall x: nat :: x in f.store <==> x in f.queue
    ensures var g := FifoPut(f, maxSize, id, t);
      && Distinct(g.queue)
      && (forall x: nat :: x in g.store <==> x in g.queue)
      && (forall x: nat :: x in g.store ==>
            if x == id then g.store[x] == t else x in f.store && g.store[x] == f.store[x])
  {
    if id !in f.queue && |f.queue| >= maxSize {
      assert forall x: nat :: x in f.queue <==> x == f.queue[0] || x in f.queue[1..];
      assert f.queue[0] !in f.queue[1..];
    }
  }

  /** A fresh id joining the last n inserts. */
  lemma SuffixGrows(ids: seq<nat>, n: nat, id: nat)
    requires n > 0
    ensures var q := Suffix(ids, n);
      Suffix(ids + [id], n) == if |q| < n then q + [id] else q[1..] + [id]
  {
  }

  /** After any run of puts the retained ids are all different, and each holds what was
      last put for it. */
  lemma {:induction false} HoldsLastPuts<Row>(puts: seq<PutOp<Row>>, maxSize: nat)
    requires maxSize > 0
    ensures Distinct(AfterPuts(puts, maxSize).queue)
    ensures forall id: nat :: id in AfterPuts(puts, maxSize).store <==> id in AfterPuts(puts, maxSize).queue
    ensures forall id: nat :: id in AfterPuts(puts, maxSize).store ==>
      LastPut(puts, id) == Some(AfterPuts(puts, maxSize).store[id])
  {
    if puts != [] {
      hide Distinct, FifoPut;
      var before, last := puts[..|puts| - 1], puts[|puts| - 1];
      HoldsLastPuts(before, maxSize);
      PutKeeps(AfterPuts(before, maxSize), maxSize, last.id, last.flat);
    }
  }

  /** The retained ids are those of the last maxSize fresh inserts, oldest first. */
  lemma {:induction false} RetainsLastInserts<Row>(puts: seq<PutOp<Row>>, maxSize: nat)
    requires maxSize > 0
    ensures AfterPuts(puts, maxSize).queue == Suffix(FreshInserts(puts, maxSize), maxSize)
  {
    hide Suffix, AfterPuts, FreshInserts;
    PutsNext(puts, maxSize);
    if puts != [] {
      var before, last := puts[..|puts| - 1], puts[|puts| - 1];
      RetainsLastInserts(before, maxSize);
      assert FreshInserts(before, maxSize) + [] == FreshInserts(before, maxSize);
      SuffixGrows(FreshInserts(before, maxSize), maxSize, last.id);
    }
  }

  lemma PutsNext<Row>(puts: seq<PutOp<Row>>, maxSize: nat)
    requires maxSize > 0
    ensures puts == [] ==> AfterPuts(puts, maxSize).queue == [] == Suffix(FreshInserts(puts, maxSize), maxSize)
    ensures puts != [] ==>
      var before, last := puts[..|puts| - 1], puts[|puts| - 1];
      var f := AfterPuts(before, maxSize);
      && AfterPuts(puts, maxSize) == FifoPut(f, maxSize, last.id, last.flat)
      && FreshInserts(puts, maxSize) == FreshInserts(before, maxSize) + if last.id in f.queue then [] else [last.id]
  {
    hide FifoPut;
  }

  // ----- The ring -----

  /** The slot of the j-th oldest of n retained ids, `last` being the next slot to fill. */
  function SlotAt(last: nat, maxSize: nat, n: nat, j: nat): nat
    requires last < maxSize && n <= maxSize && j < n
  {
    var x := last + maxSize - n + j;
    if x >= maxSize then x - maxSize else x
  }

  ghost predicate RingOk(queue: seq<nat>, cache: map<nat, nat>, slotToId: map<nat, nat>, last: nat, maxSize: nat) {
    && last < maxSize && |queue| <= maxSize
    && (|queue| < maxSize ==> last == |queue|)
    && Distinct(queue)
    && (forall id :: id in cache <==> id in queue)
    && (forall j :: 0 <= j < |queue| ==> cache[queue[j]] == SlotAt(last, maxSize, |queue|, j))
    && (forall id :: id in cache ==> cache[id] in slotToId && slotToId[cache[id]] == id)
    && (forall s :: s in slotToId ==> slotToId[s] in cache && cache[slotToId[s]] == s)
  }

  /** No two retained ids share a slot, and slots are in range. */
  lemma SlotsApart(queue: seq<nat>, cache: map<nat, nat>, slotToId: map<nat, nat>, last: nat, maxSize: nat)
    requires RingOk(queue, cache, slotToId, last, maxSize)
    ensures forall a, b :: a in cache && b in cache && a != b ==> cache[a] != cache[b]
    ensures forall a :: a in cache ==> cache[a] < maxSize
  {
    forall a | a in cache
      ensures cache[a] < maxSize
    {
      var j :| 0 <= j < |queue| && queue[j] == a;
    }
  }

  /** The slot about to be filled is occupied exactly when the ring is full, and then by
      the oldest id. */
  lemma NextSlot(queue: seq<nat>, cache: map<nat, nat>, slotToId: map<nat, nat>, last: nat, maxSize: nat)
    requires RingOk(queue, cache, slotToId, last, maxSize)
    ensures last in slotToId <==> |queue| == maxSize
    ensures last in slotToId ==> slotToId[last] == queue[0]
  {
    if |queue| == maxSize {
      assert cache[queue[0]] == last;
    }
    forall a | a in cache
      ensures |queue| < maxSize ==> cache[a] < |queue|
    {
      var j :| 0 <= j < |queue| && queue[j] == a;
    }
  }

  lemma RingQueue(queue: seq<nat>, cache: map<nat, nat>, slotToId: map<nat, nat>, last: nat, maxSize: nat)
    requires RingOk(queue, cache, slotToId, last, maxSize)
    ensures forall id :: id in cache <==> id in queue
    ensures |queue| <= maxSize && Distinct(queue)
  {
  }

  function Next(last: nat, maxSize: nat): (n: nat)
    requires last < maxSize
    ensures n < maxSize && n == (last + 1) % maxSize
  {
    NextIsModulo(last, maxSize);
    if last + 1 == maxSize then 0 else last + 1
  }

  lemma NextIsModulo(last: nat, maxSize: nat)
    requires last < maxSize
    ensures (last + 1) % maxSize == if last + 1 == maxSize then 0 else last + 1
  {
    if last + 1 == maxSize {
      Arithmetic.DivModUnique(last + 1, maxSize, 1, 0);
    } else {
      Arithmetic.DivModUnique(last + 1, maxSize, 0, last + 1);
    }
  }

  lemma RingGrow(queue: seq<nat>, cache: map<nat, nat>, slotToId: map<nat, nat>, last: nat, maxSize: nat, id: nat)
    requires RingOk(queue, cache, slotToId, last, maxSize) && id !in queue && |queue| < maxSize
    ensures RingOk(queue + [id], cache[id := last], slotToId[last := id], Next(last, maxSize), maxSize)
  {
    NextSlot(queue, cache, slotToId, last, maxSize);
    var q, c, n := queue + [id], cache[id := last], |queue|;
    forall j | 0 <= j < |q|
      ensures c[q[j]] == SlotAt(Next(last, maxSize), maxSize, |q|, j)
    {
      if j < n {
        assert q[j] == queue[j] && q[j] != id;
      }
    }
  }

  lemma RingTurn(queue: seq<nat>, cache: map<nat, nat>, slotToId: map<nat, nat>, last: nat, maxSize: nat, id: nat)
    requires RingOk(queue, cache, slotToId, last, maxSize) && id !in queue && |queue| == maxSize
    ensures RingOk(queue[1..] + [id], (cache - {queue[0]})[id := last], slotToId[last := id], Next(last, maxSize),
      maxSize)
  {
    NextSlot(queue, cache, slotToId, last, maxSize);
    var q, c, n := queue[1..] + [id], (cache - {queue[0]})[id := last], |queue|;
    forall j | 0 <= j < |q|
      ensures q[j] in c && c[q[j]] == SlotAt(Next(last, maxSize), maxSize, |q|, j)
    {
      if j < n - 1 {
        assert q[j] == queue[j + 1] && q[j] != id && q[j] != queue[0];
      }
    }
    assert forall x :: x in queue <==> x == queue[0] || x in queue[1..];
    assert queue[0] !in queue[1..];
    SlotsApart(queue, cache, slotToId, last, maxSize);
  }

  /** The ids that stay retained when the next slot is handed to a fresh id. */
  function Kept<V>(m: map<nat, V>, slotToId: map<nat, nat>, last: nat): map<nat, V> {
    if last in slotToId then m - {slotToId[last]} else m
  }

  /** Handing the next slot to a fresh id keeps the ring, and retains what the FIFO map retains. */
  lemma TakeFresh<Row>(queue: seq<nat>, cache: map<nat, nat>, slotToId: map<nat, nat>, last: nat, maxSize: nat,
                       store: map<nat, Flat<Row>>, id: nat, t: Flat<Row>)
    requires RingOk(queue, cache, slotToId, last, maxSize) && id !in cache
    ensures last < maxSize && id !in Kept(cache, slotToId, last)
    ensures var put := FifoPut(Fifo(queue, store), maxSize, id, t);
      && RingOk(put.queue, Kept(cache, slotToId, last)[id := last], slotToId[last := id], Next(last, maxSize), maxSize)
      && put.store == Kept(store, slotToId, last)[id := t]
    ensures forall other :: other in Kept(cache, slotToId, last) ==> Kept(cache, slotToId, last)[other] != last
  {
    NextSlot(queue, cache, slotToId, last, maxSize);
    SlotsApart(queue, cache, slotToId, last, maxSize);
    if last in slotToId {
      RingTurn(queue, cache, slotToId, last, maxSize, id);
    } else {
      RingGrow(queue, cache, slotToId, last, maxSize, id);
    }
  }

  // ----- The buffer -----

  /** `s[start:start + len(v)] = v`. */
  function Splice<Row>(s: seq<Row>, start: nat, v: seq<Row>): (r: seq<Row>)
    requires start + |v| <= |s|
    ensures |r| == |s|
    ensures forall i :: 0 <= i < |s| ==> r[i] == if start <= i < start + |v| then v[i - start] else s[i]
  {
    s[..start] + v + s[start + |v|..]
  }

  /** Where a slot starts in a field. */
  function Start(slot: nat, slotLen: nat): nat {
    slot * slotLen
  }

  function SlotRows<Row>(field: seq<Row>, slot: nat, slotLen: nat, len: nat): seq<Row>
    requires Start(slot, slotLen) + len <= |field|
  {
    field[Start(slot, slotLen)..Start(slot, slotLen) + len]
  }

  /** Within the buffer, every slot below maxSize has room for slotLen rows. */
  lemma SlotFits(slot: nat, maxSize: nat, slotLen: nat)
    requires slot < maxSize
    ensures Start(slot, slotLen) + slotLen <= Start(maxSize, slotLen)
  {
    Arithmetic.MulMonotone(slot + 1, maxSize, slotLen);
  }

  lemma SlotsDisjoint(a: nat, b: nat, slotLen: nat)
    requires a < b
    ensures Start(a, slotLen) + slotLen <= Start(b, slotLen)
  {
    Arithmetic.MulMonotone(a + 1, b, slotLen);
  }

  /** Each field is maxSize slots long, and each retained id's slot starts with exactly
      the rows last put for it, as many as its recorded lengths say. */
  ghost predicate DataOk<Row>(buffer: map<Name, seq<Row>>, slotLen: nat, maxSize: nat,
                              cache: map<nat, nat>, lengths: map<nat, map<Name, nat>>, store: map<nat, Flat<Row>>) {
    && (forall k :: k in buffer ==> |buffer[k]| == Start(maxSize, slotLen))
    && cache.Keys == lengths.Keys == store.Keys
    && forall id :: id in cache ==> EntryOk(buffer, slotLen, maxSize, cache[id], lengths[id], store[id])
  }

  ghost predicate EntryOk<Row>(buffer: map<Name, seq<Row>>, slotLen: nat, maxSize: nat,
                               slot: nat, lens: map<Name, nat>, t: Flat<Row>) {
    && slot < maxSize && lens.Keys == t.Keys == buffer.Keys
    && forall k :: k in buffer ==> FieldOk(buffer[k], slotLen, slot, lens[k], t[k])
  }

  ghost predicate FieldOk<Row>(field: seq<Row>, slotLen: nat, slot: nat, len: nat, rows: seq<Row>) {
    len == |rows| <= slotLen && Start(slot, slotLen) + len <= |field| && SlotRows(field, slot, slotLen, len) == rows
  }

  lemma SpliceOther<Row>(field: seq<Row>, slotLen: nat, slot: nat, len: nat, rows: seq<Row>, other: nat, v: seq<Row>)
    requires FieldOk(field, slotLen, slot, len, rows) && slot != other
    requires |v| <= slotLen && Start(other, slotLen) + slotLen <= |field|
    ensures FieldOk(Splice(field, Start(other, slotLen), v), slotLen, slot, len, rows)
  {
    SlotsDisjoint(if slot < other then slot else other, if slot < other then other else slot, slotLen);
    var r := Splice(field, Start(other, slotLen), v);
    assert SlotRows(r, slot, slotLen, len) == SlotRows(field, slot, slotLen, len);
  }

  lemma SpliceOwn<Row>(field: seq<Row>, slotLen: nat, slot: nat, v: seq<Row>)
    requires |v| <= slotLen && Start(slot, slotLen) + slotLen <= |field|
    ensures FieldOk(Splice(field, Start(slot, slotLen), v), slotLen, slot, |v|, v)
  {
  }

  function KeyLengths<Row>(t: Flat<Row>): (lengths: map<Name, nat>)
    ensures lengths.Keys == t.Keys
  {
    map k | k in t :: |t[k]|
  }

  function Inserted<Row>(buffer: map<Name, seq<Row>>, t: Flat<Row>, start: nat): (r: map<Name, seq<Row>>)
    requires t.Keys == buffer.Keys && forall k :: k in t ==> start + |t[k]| <= |buffer[k]|
    ensures r.Keys == buffer.Keys && forall k :: k in r ==> |r[k]| == |buffer[k]|
  {
    map k | k in buffer :: Splice(buffer[k], start, t[k])
  }

  lemma SpliceKeepsEntry<Row>(buffer: map<Name, seq<Row>>, slotLen: nat, maxSize: nat, slot: nat, t: Flat<Row>,
                              other: nat, lens: map<Name, nat>, rows: Flat<Row>)
    requires EntryOk(buffer, slotLen, maxSize, other, lens, rows) && other != slot
    requires t.Keys == buffer.Keys
    requires forall k :: k in t ==> |t[k]| <= slotLen && Start(slot, slotLen) + slotLen <= |buffer[k]|
    ensures EntryOk(Inserted(buffer, t, Start(slot, slotLen)), slotLen, maxSize, other, lens, rows)
  {
    forall k | k in buffer
      ensures FieldOk(Inserted(buffer, t, Start(slot, slotLen))[k], slotLen, other, lens[k], rows[k])
    {
      SpliceOther(buffer[k], slotLen, other, lens[k], rows[k], slot, t[k]);
    }
  }

  lemma SpliceOwnEntry<Row>(buffer: map<Name, seq<Row>>, slotLen: nat, maxSize: nat, slot: nat, t: Flat<Row>)
    requires slot < maxSize && t.Keys == buffer.Keys
    requires forall k :: k in t ==> |t[k]| <= slotLen && Start(slot, slotLen) + slotLen <= |buffer[k]|
    ensures EntryOk(Inserted(buffer, t, Start(slot, slotLen)), slotLen, maxSize, slot, KeyLengths(t), t)
  {
    forall k | k in buffer
      ensures FieldOk(Inserted(buffer, t, Start(slot, slotLen))[k], slotLen, slot, |t[k]|, t[k])
    {
      SpliceOwn(buffer[k], slotLen, slot, t[k]);
    }
  }

  lemma SplicesKeep<Row>(buffer: map<Name, seq<Row>>, slotLen: nat, maxSize: nat, cache: map<nat, nat>,
                         lengths: map<nat, map<Name, nat>>, store: map<nat, Flat<Row>>, slot: nat, t: Flat<Row>)
    requires DataOk(buffer, slotLen, maxSize, cache, lengths, store)
    requires slot < maxSize && t.Keys == buffer.Keys && forall k :: k in t ==> |t[k]| <= slotLen
    requires forall k :: k in t ==> Start(slot, slotLen) + slotLen <= |buffer[k]|
    requires forall other :: other in cache ==> cache[other] != slot
    ensures DataOk(Inserted(buffer, t, Start(slot, slotLen)), slotLen, maxSize, cache, lengths, store)
  {
    hide EntryOk, Start, Inserted;
    forall other | other in cache
      ensures EntryOk(Inserted(buffer, t, Start(slot, slotLen)), slotLen, maxSize, cache[other], lengths[other],
        store[other])
    {
      SpliceKeepsEntry(buffer, slotLen, maxSize, slot, t, cache[other], lengths[other], store[other]);
    }
  }

  lemma RecordId<Row>(buffer: map<Name, seq<Row>>, slotLen: nat, maxSize: nat, cache: map<nat, nat>,
                      lengths: map<nat, map<Name, nat>>, store: map<nat, Flat<Row>>, id: nat, slot: nat, t: Flat<Row>)
    requires DataOk(buffer, slotLen, maxSize, cache, lengths, store) && id !in cache
    requires EntryOk(buffer, slotLen, maxSize, slot, KeyLengths(t), t)
    ensures DataOk(buffer, slotLen, maxSize, cache[id := slot], lengths[id := KeyLengths(t)], store[id := t])
  {
    hide EntryOk, KeyLengths;
  }

  /** Writing t for id into a slot no retained id has keeps all their rows. */
  lemma InsertKeeps<Row>(buffer: map<Name, seq<Row>>, slotLen: nat, maxSize: nat, cache: map<nat, nat>,
                         lengths: map<nat, map<Name, nat>>, store: map<nat, Flat<Row>>, id: nat, slot: nat,
                         t: Flat<Row>)
    requires DataOk(buffer, slotLen, maxSize, cache, lengths, store) && id !in cache
    requires slot < maxSize && t.Keys == buffer.Keys && forall k :: k in t ==> |t[k]| <= slotLen
    requires forall other :: other in cache ==> cache[other] != slot
    ensures forall k :: k in t ==> Start(slot, slotLen) + slotLen <= |buffer[k]|
    ensures DataOk(Inserted(buffer, t, Start(slot, slotLen)), slotLen, maxSize,
                   cache[id := slot], lengths[id := KeyLengths(t)], store[id := t])
  {
    SlotFits(slot, maxSize, slotLen);
    SpliceOwnEntry(buffer, slotLen, maxSize, slot, t);
    SplicesKeep(buffer, slotLen, maxSize, cache, lengths, store, slot, t);
    hide EntryOk, DataOk, KeyLengths;
    RecordId(Inserted(buffer, t, Start(slot, slotLen)), slotLen, maxSize, cache, lengths, store, id, slot, t);
  }

  /** The re-laid-out buffer has every retained slot's old rows at the slot's new place. */
  ghost predicate Grown<Row>(before: map<Name, seq<Row>>, after: map<Name, seq<Row>>, oldLen: nat, newLen: nat,
                             maxSize: nat, cache: map<nat, nat>) {
    && before.Keys == after.Keys
    && (forall k :: k in after ==> |after[k]| == Start(maxSize, newLen))
    && (forall id, k :: id in cache && k in before ==> SlotMoved(before[k], after[k], oldLen, newLen, cache[id]))
  }

  ghost predicate SlotMoved<Row>(before: seq<Row>, after: seq<Row>, oldLen: nat, newLen: nat, slot: nat) {
    && Start(slot, oldLen) + oldLen <= |before| && Start(slot, newLen) + oldLen <= |after|
    && SlotRows(after, slot, newLen, oldLen) == before[Start(slot, oldLen)..Start(slot, oldLen) + oldLen]
  }

  /** These ids' slots are already at their new places. */
  ghost predicate Moved<Row>(before: map<Name, seq<Row>>, after: map<Name, seq<Row>>, oldLen: nat, newLen: nat,
                             cache: map<nat, nat>, ids: set<nat>) {
    && before.Keys == after.Keys && ids <= cache.Keys
    && forall id, k :: id in ids && k in before ==> SlotMoved(before[k], after[k], oldLen, newLen, cache[id])
  }

  lemma MoveSlot<Row>(before: seq<Row>, after: seq<Row>, oldLen: nat, newLen: nat, slot: nat, other: nat)
    requires oldLen <= newLen
    requires Start(slot, oldLen) + oldLen <= |before| && Start(slot, newLen) + oldLen <= |after|
    ensures var next := Splice(after, Start(slot, newLen), before[Start(slot, oldLen)..Start(slot, oldLen) + oldLen]);
      && SlotMoved(before, next, oldLen, newLen, slot)
      && (other != slot && SlotMoved(before, after, oldLen, newLen, other) ==>
           SlotMoved(before, next, oldLen, newLen, other))
  {
    hide Start;
    var next := Splice(after, Start(slot, newLen), before[Start(slot, oldLen)..Start(slot, oldLen) + oldLen]);
    if other != slot && SlotMoved(before, after, oldLen, newLen, other) {
      SlotsDisjoint(if slot < other then slot else other, if slot < other then other else slot, newLen);
      assert SlotRows(next, other, newLen, oldLen) == SlotRows(after, other, newLen, oldLen);
    }
  }

  /** `dst[to:to + len] = src[from:from + len]` in every field. */
  ghost predicate Copied<Row>(src: map<Name, seq<Row>>, before: map<Name, seq<Row>>, after: map<Name, seq<Row>>,
                              from: nat, to: nat, len: nat) {
    && src.Keys == before.Keys == after.Keys
    && forall k :: k in src ==>
         from + len <= |src[k]| && to + len <= |before[k]|
           && after[k] == Splice(before[k], to, src[k][from..from + len])
  }

  lemma MoveOne<Row>(before: map<Name, seq<Row>>, after: map<Name, seq<Row>>, next: map<Name, seq<Row>>,
                     oldLen: nat, newLen: nat, cache: map<nat, nat>, ids: set<nat>, id: nat)
    requires Moved(before, after, oldLen, newLen, cache, ids) && id in cache && id !in ids && oldLen <= newLen
    requires forall other :: other in ids ==> cache[other] != cache[id]
    requires Copied(before, after, next, Start(cache[id], oldLen), Start(cache[id], newLen), oldLen)
    ensures Moved(before, next, oldLen, newLen, cache, ids + {id})
  {
    hide Start, SlotMoved;
    forall other, k | other in ids + {id} && k in before
      ensures SlotMoved(before[k], next[k], oldLen, newLen, cache[other])
    {
      MoveSlot(before[k], after[k], oldLen, newLen, cache[id], cache[other]);
    }
  }

  lemma MovedField<Row>(before: seq<Row>, after: seq<Row>, oldLen: nat, newLen: nat, slot: nat, len: nat,
                        rows: seq<Row>)
    requires FieldOk(before, oldLen, slot, len, rows) && SlotMoved(before, after, oldLen, newLen, slot)
      && oldLen <= newLen
    ensures FieldOk(after, newLen, slot, len, rows)
  {
    var o, n := Start(slot, oldLen), Start(slot, newLen);
    assert after[n..n + len] == after[n..n + oldLen][..len] == before[o..o + oldLen][..len] == before[o..o + len];
  }

  /** Growing the slots keeps every retained id's rows. */
  lemma GrowKeeps<Row>(before: map<Name, seq<Row>>, after: map<Name, seq<Row>>, oldLen: nat, newLen: nat, maxSize: nat,
                       cache: map<nat, nat>, lengths: map<nat, map<Name, nat>>, store: map<nat, Flat<Row>>)
    requires DataOk(before, oldLen, maxSize, cache, lengths, store)
    requires Grown(before, after, oldLen, newLen, maxSize, cache) && oldLen <= newLen
    ensures DataOk(after, newLen, maxSize, cache, lengths, store)
  {
    forall id | id in cache
      ensures EntryOk(after, newLen, maxSize, cache[id], lengths[id], store[id])
    {
      assert EntryOk(before, oldLen, maxSize, cache[id], lengths[id], store[id]);
      forall k | k in after
        ensures FieldOk(after[k], newLen, cache[id], lengths[id][k], store[id][k])
      {
        MovedField(before[k], after[k], oldLen, newLen, cache[id], lengths[id][k], store[id][k]);
      }
    }
  }

  /** Forgetting an id keeps the others. */
  lemma EvictKeeps<Row>(buffer: map<Name, seq<Row>>, slotLen: nat, maxSize: nat, cache: map<nat, nat>,
                        lengths: map<nat, map<Name, nat>>, store: map<nat, Flat<Row>>, id: nat)
    requires DataOk(buffer, slotLen, maxSize, cache, lengths, store)
    ensures DataOk(buffer, slotLen, maxSize, cache - {id}, lengths - {id}, store - {id})
  {
  }

  lemma WithoutAbsent<V>(m: map<nat, V>, id: nat)
    requires id !in m
    ensures m - {id} == m
  {
  }

  lemma DataKeys<Row>(buffer: map<Name, seq<Row>>, slotLen: nat, maxSize: nat, cache: map<nat, nat>,
                      lengths: map<nat, map<Name, nat>>, store: map<nat, Flat<Row>>)
    requires DataOk(buffer, slotLen, maxSize, cache, lengths, store)
    ensures cache.Keys == lengths.Keys == store.Keys
  {
  }

  lemma LengthsFit<Row>(t: Flat<Row>, slotLen: nat)
    requires MaxLength(KeyLengths(t)) <= slotLen
    ensures forall k :: k in t ==> |t[k]| <= slotLen
  {
    assert forall k :: k in t ==> KeyLengths(t)[k] == |t[k]|;
  }

  /** Handing over the next slot keeps the rows of the ids that stay. */
  lemma KeptRows<Row>(buffer: map<Name, seq<Row>>, slotLen: nat, maxSize: nat, cache: map<nat, nat>,
                      lengths: map<nat, map<Name, nat>>, store: map<nat, Flat<Row>>, slotToId: map<nat, nat>, last: nat)
    requires DataOk(buffer, slotLen, maxSize, cache, lengths, store)
    ensures DataOk(buffer, slotLen, maxSize, Kept(cache, slotToId, last), Kept(lengths, slotToId, last),
      Kept(store, slotToId, last))
  {
    if last in slotToId {
      EvictKeeps(buffer, slotLen, maxSize, cache, lengths, store, slotToId[last]);
    }
  }

  function MaxLength(lengths: map<Name, nat>): (m: nat)
    ensures forall k :: k in lengths ==> lengths[k] <= m
    ensures lengths.Keys != {} ==> exists k :: k in lengths && lengths[k] == m
    ensures lengths.Keys == {} ==> m == 0
  {
    if lengths.Keys == {} then 0
    else
      LargestExists(lengths, lengths.Keys);
      var k :| k in lengths && forall j :: j in lengths ==> lengths[j] <= lengths[k];
      lengths[k]
  }

  lemma {:induction false} LargestExists(lengths: map<Name, nat>, keys: set<Name>)
    requires keys != {} && keys <= lengths.Keys
    ensures exists k :: k in keys && forall j :: j in keys ==> lengths[j] <= lengths[k]
    decreases |keys|
  {
    var x :| x in keys;
    if keys - {x} == {} {
      assert keys == {x};
    } else {
      LargestExists(lengths, keys - {x});
      var y :| y in keys - {x} && forall j :: j in keys - {x} ==> lengths[j] <= lengths[y];
      var best := if lengths[x] <= lengths[y] then y else x;
      assert best in keys && forall j :: j in keys ==> j == x || j in keys - {x};
    }
  }
}
