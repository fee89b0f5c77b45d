/** `TrajectoryCache`: the flat buffer cut into slots, proved to refine a FIFO map. */
module TrajectoryCache {
  import opened Sequences
  import opened CacheLayout

  lemma PutAgain<V>(m: map<nat, V>, id: nat, v: V)
    ensures (m - {id})[id := v] == m[id := v]
    ensures id in m && m[id] == v ==> m[id := v] == m
  {
  }

  class TrajectoryCache<Row(0)> {
    const maxSize: nat
    /** id to slot, and back. */
    var cache: map<nat, nat>
    var slotToId: map<nat, nat>
    var lastSlot: nat
    /** Per field, maxSize slots of slotLen rows; None until the first put. */
    var buffer: map<Name, seq<Row>>
    var slotLen: Option<nat>
    var keyLengths: map<nat, map<Name, nat>>

    ghost var queue: seq<nat>
    ghost var store: map<nat, Flat<Row>>

    ghost predicate Valid()
      reads this
    {
      && maxSize > 0
      && RingOk(queue, cache, slotToId, lastSlot, maxSize)
      && (slotLen.None? ==> cache == map[] && buffer == map[] && store == map[] && keyLengths == map[])
      && (slotLen.Some? ==> buffer != map[] && DataOk(buffer, slotLen.value, maxSize, cache, keyLengths, store))
    }

    /** The FIFO map this cache stands for. */
    ghost function Contents(): Fifo<Row>
      reads this
    {
      Fifo(queue, store)
    }

    constructor (maxSize: nat)
      requires maxSize > 0
      ensures Valid() && this.maxSize == maxSize && Contents() == Fifo([], map[]) && slotLen == None
    {
      this.maxSize := maxSize;
      cache, slotToId, lastSlot := map[], map[], 0;
      buffer, slotLen, keyLengths := map[], None, map[];
      queue, store := [], map[];
    }

    method Clear()
      requires maxSize > 0
      modifies this
      ensures Valid() && Contents() == Fifo([], map[]) && slotLen == None
    {
      cache, buffer, slotLen, keyLengths := map[], map[], None, map[];
      lastSlot, slotToId := 0, map[];
      queue, store := [], map[];
    }

    /** Make the slots at least `rows` long, moving every retained slot if they grow. */
    method EnsureCapacity(rows: nat, keys: set<Name>)
      requires Valid() && keys != {} && (slotLen.Some? ==> keys == buffer.Keys)
      modifies this`slotLen, this`buffer
      ensures Valid()
      ensures slotLen.Some? && rows <= slotLen.value && buffer.Keys == keys
    {
      hide RingOk, Start;
      if slotLen == None {
        slotLen := Some(rows);
        buffer := AllocBufferLike(keys, Start(maxSize, rows));
      } else if rows > slotLen.value {
        SlotsApart(queue, cache, slotToId, lastSlot, maxSize);
        var grown := GrowBuffer(buffer, slotLen.value, rows, maxSize, cache, keyLengths, store);
        buffer, slotLen := grown, Some(rows);
      }
    }

    /** None for an id that is not retained, else exactly what was last put for it. */
    method Get(id: nat) returns (t: Option<Flat<Row>>)
      requires Valid()
      ensures t == if id in store then Some(store[id]) else None
    {
      hide RingOk, Start;
      if id !in cache || slotLen == None {
        return None;
      }
      var flat := SliceFromBuffer(buffer, cache[id], slotLen.value, maxSize, keyLengths[id], store[id]);
      return Some(flat);
    }

    /** The slot of a fresh id: the next one, from which the oldest id leaves. */
    method TakeSlot(id: nat, ghost t: Flat<Row>) returns (slot: nat)
      requires Valid() && slotLen.Some? && id !in cache
      modifies this`cache, this`slotToId, this`lastSlot, this`keyLengths, this`queue, this`store
      ensures slot < maxSize && id in cache && cache[id] == slot
      ensures Fifo(queue, store[id := t]) == FifoPut(old(Contents()), maxSize, id, t)
      ensures RingOk(queue, cache, slotToId, lastSlot, maxSize)
      ensures forall other :: other in cache && other != id ==> cache[other] != slot
      ensures DataOk(buffer, slotLen.value, maxSize, cache - {id}, keyLengths - {id}, store - {id})
    {
      hide RingOk, DataOk, Start, FifoPut, Kept;
      TakeFresh(queue, cache, slotToId, lastSlot, maxSize, store, id, t);
      ghost var kept, keptLengths := Kept(cache, slotToId, lastSlot), Kept(keyLengths, slotToId, lastSlot);
      ghost var keptStore := Kept(store, slotToId, lastSlot);
      KeptRows(buffer, slotLen.value, maxSize, cache, keyLengths, store, slotToId, lastSlot);
      DataKeys(buffer, slotLen.value, maxSize, kept, keptLengths, keptStore);
      WithoutAbsent(keptLengths, id);
      WithoutAbsent(keptStore, id);
      assert kept[id := lastSlot] - {id} == kept;
      queue, store := FifoPut(Contents(), maxSize, id, t).queue, keptStore;
      slot := lastSlot;
      Evict(slot);
      slotToId := slotToId[slot := id];
      cache := cache[id := slot];
      lastSlot := (lastSlot + 1) % maxSize;
    }

    /** Forget whichever id the slot was handed to. */
    method Evict(slot: nat)
      modifies this`cache, this`keyLengths
      ensures cache == old(Kept(cache, slotToId, slot)) && keyLengths == old(Kept(keyLengths, slotToId, slot))
    {
      if slot in slotToId {
        var evictId := slotToId[slot];
        if evictId in cache {
          cache := cache - {evictId};
        }
        keyLengths := keyLengths - {evictId};
      }
    }

    /** Write t into id's slot. */
    method Write(id: nat, t: Flat<Row>, lengths: map<Name, nat>, slot: nat)
      requires maxSize > 0 && slotLen.Some? && slot < maxSize && id in cache && cache[id] == slot
      requires RingOk(queue, cache, slotToId, lastSlot, maxSize)
      requires forall other :: other in cache && other != id ==> cache[other] != slot
      requires DataOk(buffer, slotLen.value, maxSize, cache - {id}, keyLengths - {id}, store - {id})
      requires t.Keys == buffer.Keys != {} && lengths == KeyLengths(t) && forall k :: k in t ==> |t[k]| <= slotLen.value
      modifies this`buffer, this`keyLengths, this`store
      ensures Valid() && buffer.Keys == old(buffer.Keys)
      ensures Contents() == Fifo(queue, old(store)[id := t])
    {
      hide RingOk, Start, DataOk, KeyLengths;
      InsertKeeps(buffer, slotLen.value, maxSize, cache - {id}, keyLengths - {id}, store - {id}, id, slot, t);
      buffer := InsertIntoBuffer(t, buffer, Start(slot, slotLen.value));
      PutAgain(cache, id, slot);
      PutAgain(keyLengths, id, lengths);
      PutAgain(store, id, t);
      keyLengths := keyLengths[id := lengths];
      store := store[id := t];
    }

    /** False, with nothing changed, for a trajectory without tensor fields. */
    method Put(id: nat, t: Flat<Row>) returns (ok: bool)
      requires Valid() && (slotLen.Some? ==> t.Keys == {} || t.Keys == buffer.Keys)
      modifies this
      ensures Valid() && ok == (t.Keys != {})
      ensures Contents() == if ok then FifoPut(old(Contents()), maxSize, id, t) else old(Contents())
      ensures ok ==> slotLen.Some? && buffer.Keys == t.Keys
    {
      hide RingOk, DataOk, Start, KeyLengths;
      if t.Keys == {} {
        return false;
      }
      var lengths := KeyLengths(t);
      EnsureCapacity(MaxLength(lengths), t.Keys);
      assert forall k :: k in t ==> |t[k]| <= slotLen.value by {
        LengthsFit(t, slotLen.value);
      }
      var slot: nat;
      if id in cache {
        slot := cache[id];
        SlotsApart(queue, cache, slotToId, lastSlot, maxSize);
        EvictKeeps(buffer, slotLen.value, maxSize, cache, keyLengths, store, id);
        RingQueue(queue, cache, slotToId, lastSlot, maxSize);
      } else {
        slot := TakeSlot(id, t);
      }
      Write(id, t, lengths, slot);
      return true;
    }
  }

  // ----- Buffers -----

  method AllocBufferLike<Row(0)>(keys: set<Name>, total: nat) returns (b: map<Name, seq<Row>>)
    ensures b.Keys == keys && forall k :: k in b ==> |b[k]| == total
  {
    b := map[];
    var todo := keys;
    while todo != {}
      invariant todo <= keys && b.Keys == keys - todo
      invariant forall k :: k in b ==> |b[k]| == total
    {
      var k :| k in todo;
      var field := new Row[total];
      b := b[k := field[..]];
      todo := todo - {k};
    }
  }

  method InsertIntoBuffer<Row>(t: Flat<Row>, b: map<Name, seq<Row>>, start: nat) returns (after: map<Name, seq<Row>>)
    requires t.Keys == b.Keys && forall k :: k in t ==> start + |t[k]| <= |b[k]|
    ensures after == Inserted(b, t, start)
  {
    hide Splice;
    after := b;
    var todo := t.Keys;
    while todo != {}
      invariant todo <= t.Keys && after.Keys == b.Keys
      invariant forall k :: k in b ==> after[k] == if k in todo then b[k] else Splice(b[k], start, t[k])
    {
      var k :| k in todo;
      after := after[k := Splice(after[k], start, t[k])];
      todo := todo - {k};
    }
  }

  /** Rows of each field from the slot's start on, as many as recorded for it. */
  method SliceFromBuffer<Row>(b: map<Name, seq<Row>>, slot: nat, slotLen: nat, ghost maxSize: nat,
                              lengths: map<Name, nat>, ghost t: Flat<Row>)
    returns (flat: Flat<Row>)
    requires EntryOk(b, slotLen, maxSize, slot, lengths, t)
    ensures flat == t
  {
    hide Start;
    flat := map[];
    var start, todo := Start(slot, slotLen), b.Keys;
    while todo != {}
      invariant todo <= b.Keys && flat.Keys == b.Keys - todo
      invariant forall k :: k in flat ==> flat[k] == t[k]
    {
      var k :| k in todo;
      assert FieldOk(b[k], slotLen, slot, lengths[k], t[k]);
      var len := if k in lengths then lengths[k] else slotLen;
      flat := flat[k := b[k][start..start + len]];
      todo := todo - {k};
    }
  }

  method CopyBufferSlice<Row>(src: map<Name, seq<Row>>, dst: map<Name, seq<Row>>, from: nat, to: nat, len: nat)
    returns (after: map<Name, seq<Row>>)
    requires src.Keys == dst.Keys && forall k :: k in src ==> from + len <= |src[k]| && to + len <= |dst[k]|
    ensures Copied(src, dst, after, from, to, len)
  {
    hide Splice;
    after := dst;
    var todo := src.Keys;
    while todo != {}
      invariant todo <= src.Keys && after.Keys == dst.Keys
      invariant forall k :: k in dst ==>
        after[k] == if k in todo then dst[k] else Splice(dst[k], to, src[k][from..from + len])
    {
      var k :| k in todo;
      after := after[k := Splice(after[k], to, src[k][from..from + len])];
      todo := todo - {k};
    }
  }

  ghost predicate SlotsDistinct(cache: map<nat, nat>, maxSize: nat) {
    && (forall a, b :: a in cache && b in cache && a != b ==> cache[a] != cache[b])
    && (forall a :: a in cache ==> cache[a] < maxSize)
  }

  /** Slot by slot, the rows of every retained id move to the slot's new place. */
  method GrowBuffer<Row(0)>(src: map<Name, seq<Row>>, oldLen: nat, newLen: nat, maxSize: nat, cache: map<nat, nat>,
                            ghost lengths: map<nat, map<Name, nat>>, ghost store: map<nat, Flat<Row>>)
    returns (dst: map<Name, seq<Row>>)
    requires DataOk(src, oldLen, maxSize, cache, lengths, store)
    requires SlotsDistinct(cache, maxSize) && oldLen <= newLen
    ensures dst.Keys == src.Keys && DataOk(dst, newLen, maxSize, cache, lengths, store)
  {
    hide Start, EntryOk;
    assert forall k :: k in src ==> |src[k]| == Start(maxSize, oldLen);
    hide DataOk;
    dst := AllocBufferLike(src.Keys, Start(maxSize, newLen));
    var todo := cache.Keys;
    while todo != {}
      invariant todo <= cache.Keys && dst.Keys == src.Keys
      invariant forall k :: k in dst ==> |dst[k]| == Start(maxSize, newLen)
      invariant Moved(src, dst, oldLen, newLen, cache, cache.Keys - todo)
    {
      hide Moved;
      var id :| id in todo;
      SlotFits(cache[id], maxSize, oldLen);
      SlotFits(cache[id], maxSize, newLen);
      ghost var before, done := dst, cache.Keys - todo;
      dst := CopyBufferSlice(src, dst, Start(cache[id], oldLen), Start(cache[id], newLen), oldLen);
      MoveOne(src, before, dst, oldLen, newLen, cache, done, id);
      todo := todo - {id};
      assert done + {id} == cache.Keys - todo;
    }
    GrowKeeps(src, dst, oldLen, newLen, maxSize, cache, lengths, store);
  }
}
