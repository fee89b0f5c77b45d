/** `TrajectoryReplayBuffer`: index, window memo, cache and disk kept in agreement. */
module ReplayBuffer {
  import opened Sequences
  import opened CacheLayout
  import opened WindowLookup
  import opened Sampling
  import opened BufferState
  import Arithmetic
  import C = TrajectoryCache

  /** A trajectory as added: rows of prev_logprobs or rewards, None without either. */
  datatype Trajectory<Row> = Trajectory(numSamples: Option<nat>, flat: Flat<Row>)

  /** Sampling an empty buffer raises. */
  datatype Outcome<Row> = Raised | Batch(fields: map<Name, seq<Row>>)

  /** The trajectories that are not skipped. */
  function NotSkipped<Row>(ts: seq<Trajectory<Row>>): seq<Flat<Row>> {
    if ts == [] then []
    else NotSkipped(ts[..|ts| - 1]) + if ts[|ts| - 1].numSamples.Some? then [ts[|ts| - 1].flat] else []
  }

  class TrajectoryReplayBuffer<Row(0)> {
    const windowSize: nat
    const autoSave: bool
    const cache: C.TrajectoryCache?<Row>
    ghost const schema: set<Name>

    /** Samples per trajectory id. */
    var index: map<nat, nat>
    var idList: seq<nat>
    var counter: nat
    var indexVersion: nat
    var size: nat
    var totalSamples: nat
    /** The memoised window. */
    var memoSize: Option<nat>
    var memoVersion: Option<nat>
    var memoIds: seq<nat>
    var memoEnds: seq<nat>
    var memoTotal: nat
    /** What loading an id from its recorded file gives. */
    var disk: map<nat, Flat<Row>>

    /** What was added for each id of the window. */
    ghost var flats: map<nat, Flat<Row>>

    ghost predicate CacheOk()
      requires cache != null
      reads this`idList, this`flats, cache
    {
      && cache.Valid() && CachedOk(cache.Contents(), cache.maxSize, idList, flats)
      && (cache.slotLen.Some? ==> cache.buffer.Keys == schema)
    }

    /** Index, window and disk agree. */
    ghost predicate IndexedOk()
      reads this`index, this`idList, this`counter, this`size, this`totalSamples, this`disk, this`flats
    {
      && schema != {} && size == |idList|
      && IndexOk(index, idList, counter, totalSamples)
      && KnownOk(Window(idList, windowSize), index, flats, schema)
      && (autoSave ==> OnDisk(Window(idList, windowSize), disk, flats))
    }

    ghost predicate StateOk()
      reads this`index, this`idList, this`counter, this`size, this`totalSamples, this`disk, this`flats, cache
    {
      && IndexedOk()
      && (cache != null ==> CacheOk())
      && (!autoSave ==> cache != null && windowSize == cache.maxSize)
    }

    predicate MemoHit()
      reads this
    {
      memoSize == Some(windowSize) && memoVersion == Some(indexVersion)
    }

    ghost predicate MemoOk()
      reads this
    {
      && MemoShape(memoIds, memoEnds, memoTotal)
      && (memoVersion.Some? ==> memoVersion.value <= indexVersion)
      && (MemoHit() && idList != [] ==> MemoFresh(memoIds, memoEnds, memoTotal, idList, index, windowSize))
    }

    ghost predicate Valid()
      reads this, cache
    {
      StateOk() && MemoOk()
    }

    /** The trajectories samples are drawn from, oldest first. */
    ghost function WindowFlats(): seq<Flat<Row>>
      requires StateOk()
      reads this`index, this`idList, this`counter, this`size, this`totalSamples, this`disk, this`flats, cache
    {
      Parts(Window(idList, windowSize), flats)
    }

    /** With auto-save off the cache is on, as large as the window. */
    constructor (windowSize: nat, autoSave: bool, enableCache: bool, cacheSize: nat, ghost schema: set<Name>)
      requires schema != {} && (!autoSave ==> windowSize > 0) && (autoSave && enableCache ==> cacheSize > 0)
      ensures Valid() && WindowFlats() == [] && !MemoHit() && idList == [] && counter == totalSamples == 0
      ensures this.windowSize == windowSize && this.autoSave == autoSave && this.schema == schema
      ensures cache != null <==> enableCache || !autoSave
      ensures cache != null ==> fresh(cache) && cache.maxSize == if autoSave then cacheSize else windowSize
    {
      this.windowSize, this.autoSave, this.schema := windowSize, autoSave, schema;
      if autoSave && !enableCache {
        cache := null;
      } else {
        var c := new C.TrajectoryCache<Row>(if autoSave then cacheSize else windowSize);
        cache := c;
      }
      index, idList, counter, indexVersion, size, totalSamples := map[], [], 0, 0, 0, 0;
      memoSize, memoVersion, memoIds, memoEnds, memoTotal := None, None, [], [], 0;
      disk, flats := map[], map[];
    }

    /** Save a trajectory to disk and update index and counters for its id. */
    method Record(n: nat, t: Flat<Row>)
      requires IndexedOk() && MemoOk() && RowsOk(t, schema, n)
      modifies this`index, this`idList, this`flats, this`counter, this`size, this`totalSamples, this`indexVersion,
        this`disk
      ensures idList == old(idList) + [old(counter)] && flats == old(flats)[old(counter) := t]
      ensures totalSamples == old(totalSamples) + n
      ensures IndexedOk() && MemoOk()
      ensures Parts(Window(idList, windowSize), flats)
           == LastFlats(old(Parts(Window(idList, windowSize), flats)) + [t], windowSize)
    {
      hide IndexOk, KnownOk, OnDisk, Window, MemoFresh, RowsOk, LastFlats;
      IndexGrows(index, idList, counter, totalSamples, n);
      KnownGrows(index, idList, counter, totalSamples, flats, schema, windowSize, n, t);
      FlatsGrow(index, idList, counter, totalSamples, flats, schema, windowSize, n, t);
      if autoSave {
        DiskGrows(index, idList, counter, totalSamples, disk, flats, windowSize, t);
        disk := disk[counter := t];
      }
      index, idList, flats := index[counter := n], idList + [counter], flats[counter := t];
      counter, size, totalSamples, indexVersion := counter + 1, size + 1, totalSamples + n, indexVersion + 1;
    }

    method PutInCache(id: nat, t: Flat<Row>)
      requires schema != {} && t.Keys == schema
      requires cache != null ==> cache.Valid() && (cache.slotLen.Some? ==> cache.buffer.Keys == schema)
      modifies cache
      ensures cache != null ==> cache.Valid() && (cache.slotLen.Some? ==> cache.buffer.Keys == schema)
      ensures cache != null ==> cache.Contents() == FifoPut(old(cache.Contents()), cache.maxSize, id, t)
    {
      hide FifoPut, C.TrajectoryCache.Valid;
      if cache != null {
        var stored := cache.Put(id, t);
      }
    }

    lemma CacheShape()
      requires StateOk()
      ensures schema != {} && (cache != null ==> cache.maxSize > 0)
      ensures !autoSave ==> cache != null && windowSize == cache.maxSize
    {
    }

    lemma CacheTakes(t: Flat<Row>)
      requires IndexedOk() && cache != null && CacheOk() && cache.maxSize > 0
      ensures CachedOk(FifoPut(cache.Contents(), cache.maxSize, counter, t), cache.maxSize,
                       idList + [counter], flats[counter := t])
    {
      hide C.TrajectoryCache.Valid, CachedOk, FifoPut, KnownOk, OnDisk;
      CachedGrows(index, idList, counter, totalSamples, cache.Contents(), cache.maxSize, flats, t);
    }

    /** Save to disk, update the index, put into the cache. */
    method AddKnown(n: nat, t: Flat<Row>)
      requires Valid() && RowsOk(t, schema, n)
      modifies this, cache
      ensures Valid()
      ensures WindowFlats() == LastFlats(old(WindowFlats()) + [t], windowSize)
      ensures idList == old(idList + [counter]) && totalSamples == old(totalSamples) + n
    {
      hide IndexedOk, MemoOk, RowsOk, CachedOk, FifoPut, LastFlats, Window, Parts;
      hide C.TrajectoryCache.Valid, C.TrajectoryCache.Contents;
      CacheShape();
      RowNames(t, schema, n);
      var id := counter;
      if cache != null {
        CacheTakes(t);
      }
      Record(n, t);
      PutInCache(id, t);
    }

    /** One trajectory of `add_trajectories`. */
    method AddTrajectory(t: Trajectory<Row>)
      requires Valid() && (t.numSamples.Some? ==> RowsOk(t.flat, schema, t.numSamples.value))
      modifies this, cache
      ensures Valid()
      ensures WindowFlats() == LastFlats(old(WindowFlats()) + NotSkipped([t]), windowSize)
      ensures t.numSamples.Some? ==>
        idList == old(idList + [counter]) && totalSamples == old(totalSamples) + t.numSamples.value
      ensures t.numSamples.None? ==> idList == old(idList) && totalSamples == old(totalSamples)
    {
      hide RowsOk, StateOk, LastFlats, MemoOk;
      NotSkippedOne(t);
      if t.numSamples.None? {
        WindowIsLast();
        assert WindowFlats() + [] == WindowFlats();
        return;
      }
      AddKnown(t.numSamples.value, t.flat);
    }

    /** Trajectories without prev_logprobs and rewards are skipped; the others enter the
        window in order. */
    method AddTrajectories(ts: seq<Trajectory<Row>>)
      requires Valid()
      requires forall i :: 0 <= i < |ts| && ts[i].numSamples.Some? ==>
        RowsOk(ts[i].flat, schema, ts[i].numSamples.value)
      modifies this, cache
      ensures Valid()
      ensures WindowFlats() == LastFlats(old(WindowFlats()) + NotSkipped(ts), windowSize)
      ensures var all := old(WindowFlats()) + NotSkipped(ts);
        var kept := if windowSize == 0 || |all| <= windowSize then |all| else windowSize;
        WindowFlats() == all[|all| - kept..]
    {
      hide MemoOk, LastFlats, RowsOk, NotSkipped, WindowFlats, StateOk;
      WindowIsLast();
      NothingSkipped<Row>();
      ghost var before := WindowFlats();
      assert before + [] == before;
      var n := 0;
      while n < |ts|
        invariant n <= |ts| && Valid()
        invariant WindowFlats() == LastFlats(before + NotSkipped(ts[..n]), windowSize)
      {
        AddedNext(before, ts, n, windowSize);
        AddTrajectory(ts[n]);
        n := n + 1;
      }
      assert ts[..n] == ts;
      LastFlatsMeans(before + NotSkipped(ts), windowSize);
    }

    lemma WindowIsLast()
      requires StateOk()
      ensures LastFlats(WindowFlats(), windowSize) == WindowFlats()
    {
    }

    method ClearCache()
      requires cache != null ==> cache.maxSize > 0
      modifies cache
      ensures cache != null ==> cache.Valid() && cache.Contents() == Fifo([], map[]) && cache.slotLen == None
    {
      if cache != null {
        cache.Clear();
      }
    }

    lemma EmptyIsValid()
      requires idList == [] && index == map[] && flats == map[] && disk == map[] && size == totalSamples == counter == 0
      requires schema != {} && (!autoSave ==> cache != null && windowSize == cache.maxSize) && MemoOk()
      requires cache != null ==> cache.Valid() && cache.Contents() == Fifo([], map[]) && cache.slotLen == None
      ensures Valid() && WindowFlats() == []
    {
      EmptyOk<Row>(windowSize, if cache == null then 0 else cache.maxSize, schema);
      hide C.TrajectoryCache.Valid, MemoOk, IndexOk, KnownOk, OnDisk, CachedOk, Parts, Window;
    }

    /** Drops every trajectory. The index version stays, but an empty buffer is never sampled. */
    method Clear()
      requires Valid()
      modifies this`index, this`idList, this`counter, this`size, this`totalSamples, this`disk, this`flats, cache
      ensures Valid() && WindowFlats() == [] && totalSamples == 0 && idList == []
    {
      hide StateOk, C.TrajectoryCache.Valid, MemoFresh;
      CacheShape();
      ClearCache();
      index, idList, disk, flats := map[], [], map[], map[];
      size, totalSamples, counter := 0, 0, 0;
      EmptyIsValid();
    }

    lemma WindowIndexed()
      requires StateOk()
      ensures forall i :: 0 <= i < |Window(idList, windowSize)| ==> Window(idList, windowSize)[i] in index
      ensures totalSamples > 0 ==> idList != []
    {
      WindowKnown(Window(idList, windowSize), index, flats, schema);
    }

    /** The window of ids with its cumulative ends, recomputed unless the memo is current. */
    method RefreshWindow()
      requires Valid() && idList != []
      modifies this`memoSize, this`memoVersion, this`memoIds, this`memoEnds, this`memoTotal
      ensures Valid() && MemoHit()
      ensures MemoFresh(memoIds, memoEnds, memoTotal, idList, index, windowSize)
    {
      hide StateOk, Window, EndsOk, Before;
      if MemoHit() {
        return;
      }
      var ids := Window(idList, windowSize);
      WindowIndexed();
      var ends, total := CumulativeEnds(ids, index);
      memoSize, memoVersion := Some(windowSize), Some(indexVersion);
      memoIds, memoEnds, memoTotal := ids, ends, total;
    }

    /** Rows of the sampled trajectories that are cached, from slot and local index. */
    method GatherHits(ids: seq<nat>, locals: seq<nat>, hits: seq<nat>) returns (batch: map<Name, seq<Row>>)
      requires StateOk() && cache != null && LocatedOk(flats, schema, ids, locals)
      requires hits != [] && Distinct(hits)
      requires forall j :: 0 <= j < |hits| ==> hits[j] < |ids| && ids[hits[j]] in cache.cache
      ensures FilledAt(batch, Wanted(flats, schema, ids, locals), hits)
    {
      assert |ids| == |locals|;
      hide RingOk, Start, EntryOk, IndexOk, KnownOk, OnDisk, Supplies, Distinct, FilledAt, LocatedOk;
      assert ids[hits[0]] in cache.cache;
      HitsSupply(cache.buffer, cache.slotLen.value, cache.maxSize, cache.cache, cache.keyLengths, cache.store,
                 flats, schema, ids, locals, hits);
      hide DataOk;
      var init := C.AllocBufferLike(cache.buffer.Keys, |ids|);
      batch := FillBatch(init, cache.buffer, HitRows(cache.cache, cache.slotLen.value, ids, locals, hits), hits,
                         Wanted(flats, schema, ids, locals));
    }

    /** Each missed trajectory, loaded once, and all of them concatenated. */
    method LoadConcat(missIds: seq<nat>)
      returns (concat: Flat<Row>, offsets: map<nat, nat>, ghost loaded: seq<nat>, loads: nat)
      requires StateOk() && autoSave
      requires missIds != [] && forall j :: 0 <= j < |missIds| ==> missIds[j] in Window(idList, windowSize)
      ensures KnownOk(loaded, index, flats, schema) && OffsetsOk(loaded, index, offsets, |loaded|)
      ensures ConcatOk(concat, loaded, index, flats, schema)
      ensures forall id: nat :: id in missIds ==> id in loaded && id in offsets
      ensures loads == |loaded|
    {
      hide IndexOk, CacheOk, Ascending, Unique, KnownOk, OnDisk;
      var toLoad := Unique(missIds);
      UniqueAscends(missIds);
      assert missIds[0] in toLoad && forall i :: 0 <= i < |toLoad| ==> toLoad[i] in missIds;
      hide Window;
      LoadsAreKnown(Window(idList, windowSize), index, disk, flats, schema, toLoad);
      ConcatIsColumns(toLoad, index, flats, schema);
      hide ConcatOk, ConcatFlats, OffsetsOk;
      var parts;
      parts, offsets := LoadMisses(toLoad, index, disk);
      OffsetsCover(toLoad, index, offsets);
      concat, loaded, loads := ConcatFlats(parts), toLoad, |toLoad|;
    }

    /** Rows of the others, from the concatenation of one load per trajectory. */
    method GatherMisses(ids: seq<nat>, locals: seq<nat>, misses: seq<nat>, before: Option<map<Name, seq<Row>>>)
      returns (batch: map<Name, seq<Row>>, loads: nat)
      requires StateOk() && autoSave && LocatedOk(flats, schema, ids, locals)
      requires forall i :: 0 <= i < |ids| ==> ids[i] in Window(idList, windowSize)
      requires misses != [] && Distinct(misses) && forall j :: 0 <= j < |misses| ==> misses[j] < |ids|
      requires before.Some? ==>
        before.value.Keys == schema && forall k :: k in before.value ==> |before.value[k]| == |ids|
      ensures FilledAt(batch, Wanted(flats, schema, ids, locals), misses)
      ensures before.Some? ==> KeptOutside(before.value, batch, misses)
    {
      hide Select;
      assert |ids| == |locals|;
      hide StateOk, Window, Supplies, Distinct, FilledAt, KeptOutside, LocatedOk, KnownOk, OffsetsOk;
      var missIds := Select(ids, misses);
      assert forall j :: 0 <= j < |misses| ==> missIds[j] == ids[misses[j]] && missIds[j] in missIds;
      ghost var loaded;
      var concat, offsets;
      concat, offsets, loaded, loads := LoadConcat(missIds);
      assert concat.Keys == schema;
      hide ConcatOk;
      MissesSupply(concat, loaded, index, offsets, flats, schema, ids, locals, misses);
      if before.None? {
        batch := C.AllocBufferLike(concat.Keys, |ids|);
      } else {
        batch := before.value;
      }
      batch := FillBatch(batch, concat, MissRows(offsets, ids, locals, misses), misses,
        Wanted(flats, schema, ids, locals));
    }

    /** With auto-save off every id of the window is cached. */
    lemma WindowIsCached()
      requires StateOk() && !autoSave
      ensures cache != null && forall id: nat :: id in Window(idList, windowSize) ==> id in cache.cache
    {
      hide IndexOk, KnownOk, OnDisk, RingOk, EntryOk;
    }

    /** Every row of the batch is filled, from the cache or from disk; with auto-save off
        nothing is ever loaded. */
    method GatherBatch(ids: seq<nat>, locals: seq<nat>) returns (batch: map<Name, seq<Row>>, loads: nat)
      requires StateOk() && LocatedOk(flats, schema, ids, locals)
      requires ids != [] && forall i :: 0 <= i < |ids| ==> ids[i] in Window(idList, windowSize)
      ensures batch == Wanted(flats, schema, ids, locals)
      ensures !autoSave ==> loads == 0
    {
      hide Positions, Distinct, FilledAt, KeptOutside, Window;
      hide LocatedOk, CacheOk, StateOk;
      var cached := if cache == null then map[] else cache.cache;
      if !autoSave {
        WindowIsCached();
      }
      var mask := CachedMask(ids, cached);
      var hits, misses := Positions(mask, true), Positions(mask, false);
      PositionsDistinct(mask, true);
      PositionsDistinct(mask, false);
      ghost var want := Wanted(flats, schema, ids, locals);
      var filled: Option<map<Name, seq<Row>>> := None;
      loads := 0;
      if hits != [] {
        assert ids[hits[0]] in cached;
        var fromCache := GatherHits(ids, locals, hits);
        filled := Some(fromCache);
        FilledShape(fromCache, want, hits);
      }
      if misses != [] {
        ghost var before := filled;
        assert ids[misses[0]] !in cached;
        var fromDisk, count := GatherMisses(ids, locals, misses, filled);
        filled, loads := Some(fromDisk), count;
        EndsFilled(before, fromDisk, want, mask);
      } else {
        HitsFillAll(filled, want, mask);
      }
      batch := filled.value;
    }

    /** Rows in the window. */
    ghost function WindowTotal(): nat
      requires StateOk()
      reads this`index, this`idList, this`counter, this`size, this`totalSamples, this`disk, this`flats, cache
    {
      WindowKnown(Window(idList, windowSize), index, flats, schema);
      Before(PartCounts(Window(idList, windowSize), index), |Window(idList, windowSize)|)
    }

    lemma WindowKnownNow()
      requires StateOk()
      ensures KnownOk(Window(idList, windowSize), index, flats, schema) && schema != {}
    {
    }

    /** What a plain lookup gives: rows of the concatenated window at the drawn indices. */
    ghost function PlainSample(numChunks: nat, pick: (nat, nat) -> nat): map<Name, seq<Row>>
      requires StateOk() && InBounds(pick)
      reads this`index, this`idList, this`counter, this`size, this`totalSamples, this`disk, this`flats, cache
    {
      var n := Arithmetic.Min(numChunks, WindowTotal());
      if n == 0 then map[]
      else Drawn(Window(idList, windowSize), index, flats, schema, Draws(pick, WindowTotal(), n))
    }

    /** The plain lookup has as many rows as asked for and the window can give, row i being
        the one drawn i-th of all rows of the window. */
    lemma PlainSampleMeans(numChunks: nat, pick: (nat, nat) -> nat)
      requires StateOk() && InBounds(pick)
      ensures var batch := PlainSample(numChunks, pick);
        forall k :: k in schema ==>
          var all := FieldRows(WindowFlats(), k);
          if numChunks == 0 || all == [] then batch == map[]
          else
            && batch.Keys == schema && |batch[k]| == Arithmetic.Min(numChunks, |all|)
            && forall i :: 0 <= i < |batch[k]| ==> pick(|all|, i) < |all| && batch[k][i] == all[pick(|all|, i)]
    {
      hide StateOk, Window, FieldRows, Drawn, Before, KnownOk;
      WindowKnownNow();
      var ids, n := Window(idList, windowSize), Arithmetic.Min(numChunks, WindowTotal());
      var batch := PlainSample(numChunks, pick);
      forall k | k in schema
        ensures var all := FieldRows(WindowFlats(), k);
          if numChunks == 0 || all == [] then batch == map[]
          else
            && batch.Keys == schema && |batch[k]| == Arithmetic.Min(numChunks, |all|)
            && forall i :: 0 <= i < |batch[k]| ==> pick(|all|, i) < |all| && batch[k][i] == all[pick(|all|, i)]
      {
        DrawnMeans(ids, index, flats, schema, [], k);
        if n > 0 {
          DrawnMeans(ids, index, flats, schema, Draws(pick, WindowTotal(), n), k);
        }
      }
    }

    /** Sampling refines the plain lookup, whatever the memo and the cache hold; with
        auto-save off it never touches the disk. Each field of the batch has the rows asked for,
        as far as the window has them, row i being the one drawn i-th of all its rows. */
    method SampleChunks(numChunks: nat, pick: (nat, nat) -> nat) returns (out: Outcome<Row>, loads: nat)
      requires Valid() && InBounds(pick)
      modifies this`memoSize, this`memoVersion, this`memoIds, this`memoEnds, this`memoTotal
      ensures Valid()
      ensures out == if totalSamples == 0 then Raised else Batch(PlainSample(numChunks, pick))
      ensures out.Batch? ==> forall k :: k in schema ==>
        var all := FieldRows(WindowFlats(), k);
        if numChunks == 0 || all == [] then out.fields == map[]
        else
          && out.fields.Keys == schema && |out.fields[k]| == Arithmetic.Min(numChunks, |all|)
          && forall i :: 0 <= i < |out.fields[k]| ==> pick(|all|, i) < |all| && out.fields[k][i] == all[pick(|all|, i)]
      ensures !autoSave ==> loads == 0
      ensures totalSamples > 0 ==> MemoHit() && MemoFresh(memoIds, memoEnds, memoTotal, idList, index, windowSize)
    {
      hide StateOk, MemoOk, Window, InBounds, EndsOk, Before, KnownOk, LocatedOk, Drawn, Wanted, FieldRows;
      if totalSamples == 0 {
        return Raised, 0;
      }
      PlainSampleMeans(numChunks, pick);
      WindowIndexed();
      RefreshWindow();
      WindowKnownNow();
      if memoTotal == 0 {
        return Batch(map[]), 0;
      }
      var n := if numChunks > memoTotal then memoTotal else numChunks;
      if n == 0 {
        return Batch(map[]), 0;
      }
      var samples := Draws(pick, memoTotal, n);
      SamplesLocated(PartCounts(memoIds, index), memoEnds, samples);
      var ids, locals := SampledIds(memoIds, memoEnds, samples), SampledRows(memoEnds, samples);
      LocatedIsDrawn(memoIds, memoEnds, index, flats, schema, samples, ids, locals);
      var fields;
      fields, loads := GatherBatch(ids, locals);
      out := Batch(fields);
    }

    /** Put the most recent ids of the list into an empty cache. */
    method RefillCache(list: seq<nat>, files: map<nat, Flat<Row>>)
      requires cache != null && cache.maxSize > 0 && schema != {} && Distinct(list)
      requires forall id: nat :: id in Suffix(list, cache.maxSize) ==> id in files && files[id].Keys == schema
      modifies cache
      ensures cache.Valid() && (cache.slotLen.Some? ==> cache.buffer.Keys == schema)
      ensures CachedOk(cache.Contents(), cache.maxSize, list, files)
    {
      hide C.TrajectoryCache.Valid, FifoPut;
      cache.Clear();
      var recent, n := Suffix(list, cache.maxSize), 0;
      assert |recent| <= cache.maxSize;
      SuffixDistinct(list, cache.maxSize);
      hide Suffix, Distinct;
      while n < |recent|
        invariant n <= |recent| && cache.Valid() && (cache.slotLen.Some? ==> cache.buffer.Keys == schema)
        invariant RefillOk(cache.Contents(), recent, n, files)
        modifies cache
      {
        assert recent[n] in recent;
        RefillNext(cache.Contents(), recent, n, files, cache.maxSize);
        hide RefillOk;
        var stored := cache.Put(recent[n], files[recent[n]]);
        n := n + 1;
      }
      assert recent[..n] == recent;
    }

    /** The checkpoint has the files this buffer will read: those of its window and those
        it refills its cache from. */
    ghost predicate FilesOk(ck: Checkpoint<Row>, list: seq<nat>)
      reads this
    {
      && KnownOk(Window(list, windowSize), ck.counts, ck.files, schema)
      && (cache != null ==>
            forall id: nat :: id in Suffix(list, cache.maxSize) ==> id in ck.files && ck.files[id].Keys == schema)
    }

    method Install(list: seq<nat>, counts: map<nat, nat>, total: nat, next: nat, files: map<nat, Flat<Row>>)
      requires StateOk() && IndexOk(counts, list, next, total)
      requires KnownOk(Window(list, windowSize), counts, files, schema)
      requires cache != null ==>
        forall id: nat :: id in Suffix(list, cache.maxSize) ==> id in files && files[id].Keys == schema
      modifies this`index, this`idList, this`counter, this`size, this`totalSamples, this`disk, this`flats, cache
      ensures StateOk() && index == counts && idList == list && flats == files && counter == next
    {
      hide KnownOk, OnDisk, Reloaded, DataOk;
      hide Suffix, Distinct, RingOk, Window, Before;
      InstalledOnDisk(list, windowSize, counts, disk, files, schema);
      index, idList, size, totalSamples, counter := counts, list, |list|, total, next;
      disk, flats := Reloaded(disk, files, list), files;
      if cache != null {
        RefillCache(list, files);
      }
    }

    /** Replace the index by a checkpoint's, or by this rank's shard of it, and refill the
        cache. False for a rank out of range, with nothing replaced. The index version stays,
        so a window memo that was current still counts as current: it is right exactly when
        the loaded window has the same ids and counts. */
    method LoadCheckpoint(ck: Checkpoint<Row>, distributed: bool, rank: int, world: int) returns (ok: bool)
      requires Valid() && IndexOk(ck.counts, ck.ids, ck.counter, ck.total)
      requires !distributed || 0 <= rank < world ==> FilesOk(ck, ck.Loaded(distributed, rank, world))
      modifies this`index, this`idList, this`counter, this`size, this`totalSamples, this`disk, this`flats, cache
      ensures ok <==> !distributed || 0 <= rank < world
      ensures !ok ==> Valid() && WindowFlats() == old(WindowFlats()) && idList == old(idList)
      ensures ok ==> StateOk() && idList == ck.Loaded(distributed, rank, world)
      ensures ok ==> index == (if distributed then Restrict(ck.counts, idList) else ck.counts)
      ensures ok ==> counter == if distributed then NextId(idList) else ck.counter
      ensures ok ==> WindowFlats() == Parts(Window(idList, windowSize), ck.files)
      ensures ok && !old(MemoHit()) ==> Valid()
      ensures ok && old(MemoHit()) ==>
        && |memoEnds| == |memoIds|
        && (Valid() <==> idList == [] || MemoMatches(memoIds, memoEnds, idList, index, windowSize))
      ensures ok && old(MemoHit() && idList != []) ==>
        (Valid() <==> idList == [] || SameWindow(old(idList), old(index), idList, index, windowSize))
    {
      hide StateOk, IndexOk, KnownOk, MemoFresh, MemoMatches, SameWindow, Window, Suffix, Before;
      if distributed && (rank < 0 || rank >= world) {
        return false;
      }
      var list := ck.Loaded(distributed, rank, world);
      if distributed {
        ShardIndexOk(ck, rank, world);
        WindowInList(list, windowSize);
        RestrictKnown(Window(list, windowSize), list, ck.counts, ck.files, schema);
        var counts := Restrict(ck.counts, list);
        Install(list, counts, Before(PartCounts(list, counts), |list|), NextId(list), ck.files);
      } else {
        Install(list, ck.counts, ck.total, ck.counter, ck.files);
      }
      MemoDecides(memoIds, memoEnds, memoTotal, idList, index, windowSize);
      if old(MemoHit() && idList != []) {
        MemoSurvives(memoIds, memoEnds, memoTotal, old(idList), old(index), idList, index, windowSize);
      }
      return true;
    }
  }

  /** Sampling memoises the window, and neither clearing nor loading drops the memo: after the
      three calls the buffer is consistent exactly when the loaded list is empty or has the
      window that was sampled before. */
  method SampleClearLoad<Row(0)>(buffer: TrajectoryReplayBuffer<Row>, pick: (nat, nat) -> nat, ck: Checkpoint<Row>)
    requires buffer.Valid() && buffer.totalSamples > 0 && InBounds(pick)
    requires IndexOk(ck.counts, ck.ids, ck.counter, ck.total) && buffer.FilesOk(ck, ck.ids)
    modifies buffer, buffer.cache
    ensures buffer.StateOk() && buffer.idList == ck.ids
    ensures buffer.Valid() <==>
      ck.ids == [] || SameWindow(old(buffer.idList), old(buffer.index), ck.ids, ck.counts, buffer.windowSize)
  {
    hide TrajectoryReplayBuffer.StateOk, MemoMatches, MemoFresh, SameWindow, KnownOk, IndexOk, InBounds;
    ghost var idList, index := buffer.idList, buffer.index;
    var out, loads := buffer.SampleChunks(1, pick);
    buffer.Clear();
    var ok := buffer.LoadCheckpoint(ck, false, 0, 1);
    MemoDecides(buffer.memoIds, buffer.memoEnds, buffer.memoTotal, ck.ids, ck.counts, buffer.windowSize);
    MemoSurvives(buffer.memoIds, buffer.memoEnds, buffer.memoTotal, idList, index, ck.ids, ck.counts,
      buffer.windowSize);
  }

  /** A run that ends with a stale memo: one trajectory of two rows is added, sampled and
      cleared, and a checkpoint with another trajectory is loaded. */
  method StaleRun() returns (buffer: TrajectoryReplayBuffer<int>)
    ensures buffer.idList == [1] && buffer.StateOk() && !buffer.Valid()
  {
    ghost var schema := {Name("rewards")};
    buffer := new TrajectoryReplayBuffer<int>(10, true, false, 0, schema);
    var t := map[Name("rewards") := [5, 6]];
    buffer.AddTrajectory(Trajectory(Some(2), t));
    assert buffer.idList == [0] && buffer.totalSamples == 2;
    assert Window([0], 10)[0] == 0 && Window([1], 10)[0] == 1;
    var counts := map[1 := 2];
    assert PartCounts([1], counts) == [2];
    SampleClearLoad(buffer, (high, i) => 0, Checkpoint([1], counts, 2, 2, map[1 := t]));
  }

  /** `torch.randint(0, high)` stays below high. */
  ghost predicate InBounds(pick: (nat, nat) -> nat) {
    forall high: nat, i: nat :: high > 0 ==> pick(high, i) < high
  }

  function Draws(pick: (nat, nat) -> nat, high: nat, n: nat): (samples: seq<nat>)
    ensures |samples| == n && forall i :: 0 <= i < n ==> samples[i] == pick(high, i)
    ensures high > 0 && InBounds(pick) ==> forall i :: 0 <= i < n ==> samples[i] < high
  {
    seq(n, i requires 0 <= i < n => pick(high, i))
  }

  lemma NotSkippedNext<Row>(ts: seq<Trajectory<Row>>, n: nat)
    requires n < |ts|
    ensures NotSkipped(ts[..n + 1]) == NotSkipped(ts[..n]) + NotSkipped([ts[n]])
  {
    assert ts[..n + 1][..n] == ts[..n];
    assert [ts[n]][..0] == [];
    NothingSkipped<Row>();
  }

  lemma AddedNext<Row>(before: seq<Flat<Row>>, ts: seq<Trajectory<Row>>, n: nat, size: nat)
    requires n < |ts|
    ensures LastFlats(LastFlats(before + NotSkipped(ts[..n]), size) + NotSkipped([ts[n]]), size)
         == LastFlats(before + NotSkipped(ts[..n + 1]), size)
  {
    hide NotSkipped, LastFlats;
    NotSkippedNext(ts, n);
    FlatsTrim(before + NotSkipped(ts[..n]), NotSkipped([ts[n]]), size);
    assert before + (NotSkipped(ts[..n]) + NotSkipped([ts[n]])) == before + NotSkipped(ts[..n]) + NotSkipped([ts[n]]);
  }

  lemma RowNames<Row>(t: Flat<Row>, schema: set<Name>, n: nat)
    requires RowsOk(t, schema, n)
    ensures t.Keys == schema
  {
  }

  /** What enters the window of two lists is what enters of each. */
  lemma {:induction false} NotSkippedConcat<Row>(a: seq<Trajectory<Row>>, b: seq<Trajectory<Row>>)
    ensures NotSkipped(a + b) == NotSkipped(a) + NotSkipped(b)
  {
    if b == [] {
      assert a + b == a;
    } else {
      assert (a + b)[..|a + b| - 1] == a + b[..|b| - 1];
      NotSkippedConcat(a, b[..|b| - 1]);
    }
  }

  lemma NotSkippedOne<Row>(t: Trajectory<Row>)
    ensures NotSkipped([t]) == if t.numSamples.Some? then [t.flat] else []
  {
    assert NotSkipped([t]) == NotSkipped([t][..0]) + if t.numSamples.Some? then [t.flat] else [];
  }

  lemma NothingSkipped<Row>()
    ensures NotSkipped<Row>([]) == []
  {
  }

  lemma WindowKnown<Row>(ids: seq<nat>, index: map<nat, nat>, flats: map<nat, Flat<Row>>, schema: set<Name>)
    requires KnownOk(ids, index, flats, schema)
    ensures forall i :: 0 <= i < |ids| ==> ids[i] in index
  {
  }

  method CumulativeEnds(ids: seq<nat>, index: map<nat, nat>) returns (ends: seq<nat>, running: nat)
    requires forall i :: 0 <= i < |ids| ==> ids[i] in index
    ensures EndsOk(PartCounts(ids, index), ends) && running == Before(PartCounts(ids, index), |ids|)
  {
    ends, running := [], 0;
    ghost var counts := PartCounts(ids, index);
    var n := 0;
    while n < |ids|
      invariant n <= |ids| && |ends| == n && running == Before(counts, n)
      invariant forall i :: 0 <= i < n ==> ends[i] == Before(counts, i + 1)
    {
      running := running + index[ids[n]];
      ends := ends + [running];
      n := n + 1;
    }
  }

  /** Loading from disk gives what was added. */
  lemma LoadsAreKnown<Row>(window: seq<nat>, index: map<nat, nat>, disk: map<nat, Flat<Row>>,
                           flats: map<nat, Flat<Row>>, schema: set<Name>, toLoad: seq<nat>)
    requires KnownOk(window, index, flats, schema) && OnDisk(window, disk, flats)
    requires forall i :: 0 <= i < |toLoad| ==> toLoad[i] in window
    ensures forall i :: 0 <= i < |toLoad| ==> toLoad[i] in index && toLoad[i] in disk && toLoad[i] in flats
    ensures KnownOk(toLoad, index, flats, schema) && Parts(toLoad, disk) == Parts(toLoad, flats)
  {
    hide RowsOk;
    forall i | 0 <= i < |toLoad|
      ensures toLoad[i] in index && toLoad[i] in disk && toLoad[i] in flats && disk[toLoad[i]] == flats[toLoad[i]]
      ensures RowsOk(flats[toLoad[i]], schema, index[toLoad[i]])
    {
      assert toLoad[i] in window;
      var j :| 0 <= j < |window| && window[j] == toLoad[i];
    }
  }

  lemma OffsetsCover(ids: seq<nat>, index: map<nat, nat>, offsets: map<nat, nat>)
    requires (forall i :: 0 <= i < |ids| ==> ids[i] in index) && OffsetsOk(ids, index, offsets, |ids|)
    ensures forall id: nat :: id in ids ==> id in offsets
  {
    hide Before, PartCounts;
  }

  function CachedMask(ids: seq<nat>, cached: map<nat, nat>): (mask: seq<bool>)
    ensures |mask| == |ids| && forall i :: 0 <= i < |ids| ==> mask[i] == (ids[i] in cached)
  {
    seq(|ids|, i requires 0 <= i < |ids| => ids[i] in cached)
  }

  lemma FilledShape<Row>(batch: map<Name, seq<Row>>, want: map<Name, seq<Row>>, at: seq<nat>)
    requires FilledAt(batch, want, at)
    ensures batch.Keys == want.Keys && forall k :: k in want ==> |batch[k]| == |want[k]|
  {
  }

  /** After the misses are filled, over the hits if there were any, the batch is complete. */
  lemma EndsFilled<Row>(before: Option<map<Name, seq<Row>>>, last: map<Name, seq<Row>>, want: map<Name, seq<Row>>,
                        mask: seq<bool>)
    requires forall k :: k in want ==> |want[k]| == |mask|
    requires if before.None? then Positions(mask, true) == []
             else
               && FilledAt(before.value, want, Positions(mask, true))
               && KeptOutside(before.value, last, Positions(mask, false))
    requires FilledAt(last, want, Positions(mask, false))
    ensures last == want
  {
    hide Positions;
    BothFill(last, if before.None? then last else before.value, last, want, mask);
  }

  /** Without misses the hits fill the batch. */
  lemma HitsFillAll<Row>(filled: Option<map<Name, seq<Row>>>, want: map<Name, seq<Row>>, mask: seq<bool>)
    requires mask != [] && (forall k :: k in want ==> |want[k]| == |mask|) && Positions(mask, false) == []
    requires if filled.None? then Positions(mask, true) == [] else FilledAt(filled.value, want, Positions(mask, true))
    ensures filled.Some? && filled.value == want
  {
    PositionsFind(mask, mask[0], 0);
    hide Positions;
    BothFill(filled.value, filled.value, filled.value, want, mask);
  }

  lemma InstalledOnDisk<Row>(list: seq<nat>, size: nat, counts: map<nat, nat>, disk: map<nat, Flat<Row>>,
                             files: map<nat, Flat<Row>>, schema: set<Name>)
    requires KnownOk(Window(list, size), counts, files, schema)
    ensures OnDisk(Window(list, size), Reloaded(disk, files, list), files)
  {
    hide RowsOk;
    WindowInList(list, size);
    hide Window, Reloaded;
  }
}
