/**
 What the replay buffer's index, window, disk and cache must agree on, and how adding a
 trajectory changes it, on plain values.
 */
module BufferState {
  import opened Sequences
  import opened CacheLayout
  import opened WindowLookup
  import opened Sampling
  import CheckpointShards

  /** The sampling window: the last `size` ids, or all of them when size is zero. */
  function Window(idList: seq<nat>, size: nat): seq<nat> {
    if size > 0 then Suffix(idList, size) else idList
  }

  ghost predicate IndexOk(index: map<nat, nat>, idList: seq<nat>, counter: nat, total: nat) {
    && Distinct(idList)
    && (forall i :: 0 <= i < |idList| ==> idList[i] in index && idList[i] < counter)
    && total == Before(PartCounts(idList, index), |idList|)
  }

  /** The window's trajectories are in their files, as they were added. */
  ghost predicate OnDisk<Row>(ids: seq<nat>, disk: map<nat, Flat<Row>>, flats: map<nat, Flat<Row>>) {
    forall i :: 0 <= i < |ids| ==> ids[i] in disk && ids[i] in flats && disk[ids[i]] == flats[ids[i]]
  }

  /** The cache holds the last maxSize ids of the list, each as it was added. */
  ghost predicate CachedOk<Row>(f: Fifo<Row>, maxSize: nat, idList: seq<nat>, flats: map<nat, Flat<Row>>) {
    && f.queue == Suffix(idList, maxSize)
    && (forall id: nat :: id in f.store <==> id in f.queue)
    && (forall id :: id in f.store ==> id in flats && f.store[id] == flats[id])
  }

  /** The memoised window is what recomputing it would give. */
  ghost predicate MemoFresh(ids: seq<nat>, ends: seq<nat>, total: nat, idList: seq<nat>, index: map<nat, nat>,
                            size: nat) {
    && ids == Window(idList, size)
    && (forall i :: 0 <= i < |ids| ==> ids[i] in index)
    && EndsOk(PartCounts(ids, index), ends)
    && total == Before(PartCounts(ids, index), |ids|)
  }

  // ----- Adding -----

  lemma {:induction false} BeforeCongruent(a: seq<nat>, b: seq<nat>, n: nat)
    requires n <= |a| && n <= |b| && forall i :: 0 <= i < n ==> a[i] == b[i]
    ensures Before(a, n) == Before(b, n)
  {
    if n > 0 {
      BeforeCongruent(a, b, n - 1);
    }
  }

  lemma IndexGrows(index: map<nat, nat>, idList: seq<nat>, counter: nat, total: nat, n: nat)
    requires IndexOk(index, idList, counter, total)
    ensures IndexOk(index[counter := n], idList + [counter], counter + 1, total + n)
  {
    var next, ids := index[counter := n], idList + [counter];
    assert forall i :: 0 <= i < |idList| ==> ids[i] == idList[i] && ids[i] != counter;
    BeforeCongruent(PartCounts(idList, index), PartCounts(ids, next), |idList|);
  }

  /** The new window holds the new id and otherwise only ids of the old window. */
  lemma WindowGrows(idList: seq<nat>, size: nat, id: nat)
    ensures var w := Window(idList + [id], size);
      && |w| > 0 && w[|w| - 1] == id
      && forall i :: 0 <= i < |w| - 1 ==> w[i] in Window(idList, size)
  {
    var v, w := Window(idList, size), Window(idList + [id], size);
    forall i | 0 <= i < |w| - 1
      ensures w[i] in v
    {
      assert w[i] == v[if |w| == |v| + 1 then i else i + 1];
    }
  }

  lemma KnownGrows<Row>(index: map<nat, nat>, idList: seq<nat>, counter: nat, total: nat, flats: map<nat, Flat<Row>>,
                        schema: set<Name>, size: nat, n: nat, t: Flat<Row>)
    requires IndexOk(index, idList, counter, total) && KnownOk(Window(idList, size), index, flats, schema)
    requires RowsOk(t, schema, n)
    ensures KnownOk(Window(idList + [counter], size), index[counter := n], flats[counter := t], schema)
  {
    hide RowsOk, Before;
    var v, w := Window(idList, size), Window(idList + [counter], size);
    WindowGrows(idList, size, counter);
    WindowInList(idList, size);
    hide Window;
    forall i | 0 <= i < |w|
      ensures w[i] in index[counter := n] && w[i] in flats[counter := t]
      ensures RowsOk(flats[counter := t][w[i]], schema, index[counter := n][w[i]])
    {
      if i < |w| - 1 {
        var j :| 0 <= j < |v| && v[j] == w[i];
        assert v[j] in idList;
        var m :| 0 <= m < |idList| && idList[m] == v[j];
      }
    }
  }

  lemma WindowInList(idList: seq<nat>, size: nat)
    ensures forall i :: 0 <= i < |Window(idList, size)| ==> Window(idList, size)[i] in idList
  {
  }

  lemma DiskGrows<Row>(index: map<nat, nat>, idList: seq<nat>, counter: nat, total: nat, disk: map<nat, Flat<Row>>,
                       flats: map<nat, Flat<Row>>, size: nat, t: Flat<Row>)
    requires IndexOk(index, idList, counter, total) && OnDisk(Window(idList, size), disk, flats)
    ensures OnDisk(Window(idList + [counter], size), disk[counter := t], flats[counter := t])
  {
    hide Before;
    var v, w := Window(idList, size), Window(idList + [counter], size);
    WindowGrows(idList, size, counter);
    hide Window;
    forall i | 0 <= i < |w|
      ensures w[i] in disk[counter := t] && w[i] in flats[counter := t]
        && disk[counter := t][w[i]] == flats[counter := t][w[i]]
    {
      if i < |w| - 1 {
        var j :| 0 <= j < |v| && v[j] == w[i];
      }
    }
  }

  lemma QueueGrows<Row>(f: Fifo<Row>, maxSize: nat, idList: seq<nat>, id: nat, t: Flat<Row>)
    requires f.queue == Suffix(idList, maxSize) && maxSize > 0 && id !in idList
    ensures id !in f.queue && FifoPut(f, maxSize, id, t).queue == Suffix(idList + [id], maxSize)
  {
    SuffixInList(idList, maxSize);
    SuffixGrows(idList, maxSize, id);
    hide Suffix;
  }

  lemma StoreGrows<Row>(f: Fifo<Row>, g: Fifo<Row>, flats: map<nat, Flat<Row>>, id: nat, t: Flat<Row>)
    requires forall x :: x in f.store ==> x in flats && f.store[x] == flats[x]
    requires forall x :: x in g.store ==> if x == id then g.store[x] == t else x in f.store && g.store[x] == f.store[x]
    ensures forall x :: x in g.store ==> x in flats[id := t] && g.store[x] == flats[id := t][x]
  {
  }

  lemma CounterIsFresh(index: map<nat, nat>, idList: seq<nat>, counter: nat, total: nat)
    requires IndexOk(index, idList, counter, total)
    ensures counter !in idList && Distinct(idList)
  {
    hide Before;
  }

  /** A freshly added id enters the cache as the youngest, and only the oldest can leave. */
  lemma CachedGrows<Row>(index: map<nat, nat>, idList: seq<nat>, counter: nat, total: nat, f: Fifo<Row>, maxSize: nat,
                         flats: map<nat, Flat<Row>>, t: Flat<Row>)
    requires IndexOk(index, idList, counter, total) && CachedOk(f, maxSize, idList, flats) && maxSize > 0
    ensures CachedOk(FifoPut(f, maxSize, counter, t), maxSize, idList + [counter], flats[counter := t])
  {
    hide IndexOk, Suffix, Distinct, FifoPut;
    CounterIsFresh(index, idList, counter, total);
    SuffixDistinct(idList, maxSize);
    QueueGrows(f, maxSize, idList, counter, t);
    PutKeeps(f, maxSize, counter, t);
    StoreGrows(f, FifoPut(f, maxSize, counter, t), flats, counter, t);
  }

  lemma SuffixInList(s: seq<nat>, n: nat)
    ensures forall x: nat :: x in Suffix(s, n) ==> x in s
  {
  }

  lemma SuffixDistinct(s: seq<nat>, n: nat)
    requires Distinct(s)
    ensures Distinct(Suffix(s, n))
  {
  }

  /** The last n trajectories, or all of them when n is zero. */
  function LastFlats<Row>(parts: seq<Flat<Row>>, n: nat): seq<Flat<Row>> {
    if n == 0 || |parts| <= n then parts else parts[|parts| - n..]
  }

  lemma LastFlatsMeans<Row>(parts: seq<Flat<Row>>, n: nat)
    ensures var kept := if n == 0 || |parts| <= n then |parts| else n;
      LastFlats(parts, n) == parts[|parts| - kept..]
  {
  }

  /** Adding one trajectory to the window keeps the last `size` of them. */
  lemma FlatsGrow<Row>(index: map<nat, nat>, idList: seq<nat>, counter: nat, total: nat, flats: map<nat, Flat<Row>>,
                       schema: set<Name>, size: nat, n: nat, t: Flat<Row>)
    requires IndexOk(index, idList, counter, total) && KnownOk(Window(idList, size), index, flats, schema)
    requires KnownOk(Window(idList + [counter], size), index[counter := n], flats[counter := t], schema)
    ensures Parts(Window(idList + [counter], size), flats[counter := t])
         == LastFlats(Parts(Window(idList, size), flats) + [t], size)
  {
    hide Before, RowsOk;
    var w := Window(idList + [counter], size);
    var next := LastFlats(Parts(Window(idList, size), flats) + [t], size);
    assert |w| == |next|;
    forall i | 0 <= i < |w|
      ensures flats[counter := t][w[i]] == next[i]
    {
      if i < |w| - 1 {
        assert w[i] == idList[|idList| + 1 - |w| + i];
      }
    }
  }

  lemma FlatsTrim<Row>(a: seq<Flat<Row>>, b: seq<Flat<Row>>, n: nat)
    ensures LastFlats(LastFlats(a, n) + b, n) == LastFlats(a + b, n)
  {
    var l, r := LastFlats(LastFlats(a, n) + b, n), LastFlats(a + b, n);
    assert |l| == |r|;
  }

  // ----- Sampling -----

  /** The batch a plain lookup gives: row samples[i] of the concatenated window. */
  ghost function Drawn<Row>(ids: seq<nat>, index: map<nat, nat>, flats: map<nat, Flat<Row>>, schema: set<Name>,
                            samples: seq<nat>)
    : (batch: map<Name, seq<Row>>)
    requires KnownOk(ids, index, flats, schema)
    requires forall i :: 0 <= i < |samples| ==> samples[i] < Before(PartCounts(ids, index), |ids|)
    ensures batch.Keys == schema && forall k :: k in batch ==> |batch[k]| == |samples|
  {
    map k | k in schema :: DrawnColumn(ids, index, flats, schema, samples, k)
  }

  ghost function DrawnColumn<Row>(ids: seq<nat>, index: map<nat, nat>, flats: map<nat, Flat<Row>>, schema: set<Name>,
                                  samples: seq<nat>, k: Name)
    : (col: seq<Row>)
    requires KnownOk(ids, index, flats, schema) && k in schema
    requires forall i :: 0 <= i < |samples| ==> samples[i] < Before(PartCounts(ids, index), |ids|)
    ensures |col| == |samples|
  {
    var all := Flatten(KnownColumn(ids, index, flats, schema, k));
    ConcatLength(KnownColumn(ids, index, flats, schema, k));
    seq(|samples|, i requires 0 <= i < |samples| => all[samples[i]])
  }

  /** One field of all trajectories, one behind the other. */
  ghost function FieldRows<Row>(parts: seq<Flat<Row>>, k: Name): seq<Row> {
    if parts == [] then [] else (if k in parts[0] then parts[0][k] else []) + FieldRows(parts[1..], k)
  }

  lemma {:induction false} FieldRowsAre<Row>(parts: seq<Flat<Row>>, col: seq<seq<Row>>, k: Name)
    requires |col| == |parts| && forall i :: 0 <= i < |parts| ==> k in parts[i] && col[i] == parts[i][k]
    ensures FieldRows(parts, k) == Flatten(col)
  {
    if parts != [] {
      FieldRowsAre(parts[1..], col[1..], k);
    }
  }

  /** A drawn batch has one row per draw, the drawn row of the window's concatenated field. */
  lemma DrawnMeans<Row>(ids: seq<nat>, index: map<nat, nat>, flats: map<nat, Flat<Row>>, schema: set<Name>,
                        samples: seq<nat>, k: Name)
    requires KnownOk(ids, index, flats, schema) && k in schema
    requires forall i :: 0 <= i < |samples| ==> samples[i] < Before(PartCounts(ids, index), |ids|)
    ensures forall i :: 0 <= i < |ids| ==> ids[i] in flats
    ensures var all := FieldRows(Parts(ids, flats), k);
      && |all| == Before(PartCounts(ids, index), |ids|)
      && |Drawn(ids, index, flats, schema, samples)[k]| == |samples|
      && forall i :: 0 <= i < |samples| ==> Drawn(ids, index, flats, schema, samples)[k][i] == all[samples[i]]
  {
    hide Before, RowsOk, FieldRows;
    var col := KnownColumn(ids, index, flats, schema, k);
    ConcatLength(col);
    KnownFields(ids, index, flats, schema, k);
    FieldRowsAre(Parts(ids, flats), col, k);
  }

  lemma KnownFields<Row>(ids: seq<nat>, index: map<nat, nat>, flats: map<nat, Flat<Row>>, schema: set<Name>, k: Name)
    requires KnownOk(ids, index, flats, schema) && k in schema
    ensures forall i :: 0 <= i < |ids| ==> ids[i] in flats && k in flats[ids[i]]
  {
    forall i | 0 <= i < |ids|
      ensures ids[i] in flats && k in flats[ids[i]]
    {
      assert RowsOk(flats[ids[i]], schema, index[ids[i]]);
    }
  }

  ghost predicate SamplesOk(counts: seq<nat>, ends: seq<nat>, samples: seq<nat>) {
    && EndsOk(counts, ends)
    && forall i :: 0 <= i < |samples| ==> samples[i] < Before(counts, |counts|)
  }

  /** The sampled trajectory of each draw. */
  function SampledIds(ids: seq<nat>, ends: seq<nat>, samples: seq<nat>): (out: seq<nat>)
    requires |ids| == |ends| && forall i :: 0 <= i < |samples| ==> Bucketize(ends, samples[i]) < |ids|
    ensures |out| == |samples| && forall i :: 0 <= i < |out| ==> out[i] == ids[Bucketize(ends, samples[i])]
  {
    seq(|samples|, i requires 0 <= i < |samples| => ids[Bucketize(ends, samples[i])])
  }

  /** The sampled row within the trajectory of each draw. */
  function SampledRows(ends: seq<nat>, samples: seq<nat>): (out: seq<int>)
    requires forall i :: 0 <= i < |samples| ==> Bucketize(ends, samples[i]) < |ends|
    ensures |out| == |samples|
    ensures forall i :: 0 <= i < |out| ==> out[i] == samples[i] - StartOf(ends, Bucketize(ends, samples[i]))
  {
    seq(|samples|, i requires 0 <= i < |samples| => samples[i] - StartOf(ends, Bucketize(ends, samples[i])))
  }

  lemma SamplesLocated(counts: seq<nat>, ends: seq<nat>, samples: seq<nat>)
    requires SamplesOk(counts, ends, samples)
    ensures |ends| == |counts|
    ensures forall i :: 0 <= i < |samples| ==> Bucketize(ends, samples[i]) < |ends|
    ensures forall i :: 0 <= i < |samples| ==> 0 <= SampledRows(ends, samples)[i] < counts[Bucketize(ends, samples[i])]
  {
    hide Before, Bucketize, StartOf;
    forall i | 0 <= i < |samples|
      ensures Bucketize(ends, samples[i]) < |counts|
      ensures 0 <= samples[i] - StartOf(ends, Bucketize(ends, samples[i])) < counts[Bucketize(ends, samples[i])]
    {
      BucketHolds(counts, ends, samples[i]);
    }
  }

  /** One draw: the bucketed trajectory's local row is the row of the concatenated window. */
  lemma DrawRow<Row>(ids: seq<nat>, ends: seq<nat>, index: map<nat, nat>, flats: map<nat, Flat<Row>>, schema: set<Name>,
                     v: nat, k: Name)
    requires KnownOk(ids, index, flats, schema) && k in schema
    requires EndsOk(PartCounts(ids, index), ends) && v < Before(PartCounts(ids, index), |ids|)
    ensures var b := Bucketize(ends, v);
      var all := Flatten(KnownColumn(ids, index, flats, schema, k));
      && b < |ids| && ids[b] in index && ids[b] in flats && StartOf(ends, b) <= v < StartOf(ends, b) + index[ids[b]]
      && RowsOk(flats[ids[b]], schema, index[ids[b]])
      && v < |all| && flats[ids[b]][k][v - StartOf(ends, b)] == all[v]
  {
    hide Before, Bucketize, StartOf, EndsOk;
    var cols := KnownColumn(ids, index, flats, schema, k);
    LookupRefines(cols, ends, v);
    var b := Bucketize(ends, v);
    assert RowsOk(flats[ids[b]], schema, index[ids[b]]);
  }

  /** The located rows are the drawn ones. */
  lemma LocatedIsDrawn<Row>(ids: seq<nat>, ends: seq<nat>, index: map<nat, nat>, flats: map<nat, Flat<Row>>,
                            schema: set<Name>, samples: seq<nat>, at: seq<nat>, locals: seq<nat>)
    requires KnownOk(ids, index, flats, schema) && SamplesOk(PartCounts(ids, index), ends, samples)
    requires forall i :: 0 <= i < |samples| ==> Bucketize(ends, samples[i]) < |ids|
    requires at == SampledIds(ids, ends, samples) && locals == SampledRows(ends, samples)
    requires schema != {}
    ensures LocatedOk(flats, schema, at, locals)
    ensures Wanted(flats, schema, at, locals) == Drawn(ids, index, flats, schema, samples)
  {
    hide Before, Bucketize, StartOf, KnownOk, KnownColumn, Flatten, EndsOk;
    var k0 :| k0 in schema;
    forall i | 0 <= i < |samples|
      ensures at[i] in flats && RowOk(flats[at[i]], schema, locals[i])
    {
      DrawRow(ids, ends, index, flats, schema, samples[i], k0);
    }
    forall k | k in schema
      ensures WantedColumn(flats, schema, at, locals, k) == DrawnColumn(ids, index, flats, schema, samples, k)
    {
      forall i | 0 <= i < |samples|
        ensures WantedColumn(flats, schema, at, locals, k)[i] == DrawnColumn(ids, index, flats, schema, samples, k)[i]
      {
        DrawRow(ids, ends, index, flats, schema, samples[i], k);
      }
    }
  }

  // ----- Loading -----

  /** While the cache is refilled it holds the ids put so far, as they are in their files. */
  ghost predicate RefillOk<Row>(f: Fifo<Row>, recent: seq<nat>, n: nat, files: map<nat, Flat<Row>>)
    requires n <= |recent|
  {
    && f.queue == recent[..n]
    && (forall id: nat :: id in f.store <==> id in f.queue)
    && (forall id :: id in f.store ==> id in files && f.store[id] == files[id])
  }

  lemma RefillNext<Row>(f: Fifo<Row>, recent: seq<nat>, n: nat, files: map<nat, Flat<Row>>, maxSize: nat)
    requires n < |recent| <= maxSize && Distinct(recent) && recent[n] in files && RefillOk(f, recent, n, files)
    ensures RefillOk(FifoPut(f, maxSize, recent[n], files[recent[n]]), recent, n + 1, files)
  {
    assert recent[n] !in recent[..n];
    assert recent[..n + 1] == recent[..n] + [recent[n]];
  }

  /** One end for each memoised id, and the last end is the total. */
  ghost predicate MemoShape(ids: seq<nat>, ends: seq<nat>, total: nat) {
    |ends| == |ids| && total == if ends == [] then 0 else ends[|ends| - 1]
  }

  /** The memoised ids are the list's window, and each memoised count, the difference of two
      ends, is the one recorded for the id. */
  ghost predicate MemoMatches(ids: seq<nat>, ends: seq<nat>, list: seq<nat>, counts: map<nat, nat>, size: nat)
    requires |ends| == |ids|
  {
    && ids == Window(list, size)
    && forall i :: 0 <= i < |ids| ==> ids[i] in counts && ends[i] - StartOf(ends, i) == counts[ids[i]]
  }

  /** Ends whose differences are the counts are the counts' cumulative ends. */
  lemma {:induction false} CountsGiveEnds(counts: seq<nat>, ends: seq<nat>, n: nat)
    requires |ends| == |counts| && n <= |ends|
    requires forall i :: 0 <= i < |ends| ==> ends[i] - StartOf(ends, i) == counts[i]
    ensures forall i :: 0 <= i < n ==> ends[i] == Before(counts, i + 1)
  {
    if n > 0 {
      CountsGiveEnds(counts, ends, n - 1);
      assert ends[n - 1] - StartOf(ends, n - 1) == counts[n - 1];
    }
  }

  lemma EndsDiffer(counts: seq<nat>, ends: seq<nat>)
    requires EndsOk(counts, ends)
    ensures forall i :: 0 <= i < |ends| ==> ends[i] - StartOf(ends, i) == counts[i]
  {
    forall i | 0 <= i < |ends|
      ensures ends[i] - StartOf(ends, i) == counts[i]
    {
      assert ends[i] == Before(counts, i + 1) == Before(counts, i) + counts[i];
      assert i > 0 ==> ends[i - 1] == Before(counts, i);
    }
  }

  /** Whatever list a well-shaped memo was taken over, emptied since or not, it is what
      recomputing the window would give exactly when its ids and counts are the window's. */
  lemma MemoDecides(ids: seq<nat>, ends: seq<nat>, total: nat, list: seq<nat>, counts: map<nat, nat>, size: nat)
    requires MemoShape(ids, ends, total)
    ensures MemoFresh(ids, ends, total, list, counts, size) <==> MemoMatches(ids, ends, list, counts, size)
  {
    hide Window, StartOf;
    if MemoFresh(ids, ends, total, list, counts, size) {
      EndsDiffer(PartCounts(ids, counts), ends);
    }
    if MemoMatches(ids, ends, list, counts, size) {
      CountsGiveEnds(PartCounts(ids, counts), ends, |ids|);
    }
  }

  /** Two windows with the same cumulative ends have the same counts. */
  lemma {:induction false} EndsGiveCounts(a: seq<nat>, b: seq<nat>, ends: seq<nat>, n: nat)
    requires EndsOk(a, ends) && EndsOk(b, ends) && n <= |a|
    ensures Before(a, n) == Before(b, n)
    ensures forall i :: 0 <= i < n ==> a[i] == b[i]
  {
    if n > 0 {
      EndsGiveCounts(a, b, ends, n - 1);
      assert ends[n - 1] == Before(a, n) == Before(b, n);
    }
  }

  /** The same ids in the window, with the same counts. */
  ghost predicate SameWindow(idList: seq<nat>, index: map<nat, nat>, list: seq<nat>, counts: map<nat, nat>, size: nat) {
    && Window(idList, size) == Window(list, size)
    && forall i :: 0 <= i < |Window(list, size)| ==>
         var id := Window(list, size)[i];
         id in index && id in counts && index[id] == counts[id]
  }

  /** A memo that was current is current for a replaced list exactly when the list's window
      has the same ids with the same counts. */
  lemma MemoSurvives(ids: seq<nat>, ends: seq<nat>, total: nat, idList: seq<nat>, index: map<nat, nat>,
                     list: seq<nat>, counts: map<nat, nat>, size: nat)
    requires MemoFresh(ids, ends, total, idList, index, size)
    ensures MemoFresh(ids, ends, total, list, counts, size) <==> SameWindow(idList, index, list, counts, size)
  {
    hide Window, Before;
    if MemoFresh(ids, ends, total, list, counts, size) {
      EndsGiveCounts(PartCounts(ids, index), PartCounts(ids, counts), ends, |ids|);
    }
    if SameWindow(idList, index, list, counts, size) {
      assert PartCounts(ids, index) == PartCounts(ids, counts);
    }
  }

  /** A saved buffer: its list, counts and counters, and the files beside them. */
  datatype Checkpoint<Row> = Checkpoint(ids: seq<nat>, counts: map<nat, nat>, total: nat, counter: nat,
                                        files: map<nat, Flat<Row>>) {
    /** The whole list, or one rank's shard of it. */
    function Loaded(distributed: bool, rank: int, world: int): seq<nat>
      requires !distributed || 0 <= rank < world
    {
      if distributed then CheckpointShards.Shard(ids, rank, world) else ids
    }
  }

  function Restrict(counts: map<nat, nat>, list: seq<nat>): (r: map<nat, nat>)
    ensures forall id: nat :: id in r <==> id in counts && id in list
    ensures forall id :: id in r ==> r[id] == counts[id]
  {
    map id | id in counts && id in list :: counts[id]
  }

  /** One more than the largest id. */
  function NextId(list: seq<nat>): (n: nat)
    ensures forall id: nat :: id in list ==> id < n
    ensures list != [] ==> n > 0 && n - 1 in list
    ensures list == [] ==> n == 0
  {
    if list == [] then 0
    else
      var n := NextId(list[1..]);
      assert forall id: nat :: id in list <==> id == list[0] || id in list[1..];
      if list[0] >= n then list[0] + 1 else n
  }

  lemma SliceOk(ids: seq<nat>, counts: map<nat, nat>, lo: nat, hi: nat)
    requires lo <= hi <= |ids| && Distinct(ids) && forall i :: 0 <= i < |ids| ==> ids[i] in counts
    ensures Distinct(ids[lo..hi]) && forall i :: 0 <= i < hi - lo ==> ids[lo..hi][i] in counts
  {
  }

  lemma ShardIndexOk<Row>(ck: Checkpoint<Row>, rank: nat, world: nat)
    requires IndexOk(ck.counts, ck.ids, ck.counter, ck.total) && rank < world
    ensures var list := CheckpointShards.Shard(ck.ids, rank, world);
      var index := Restrict(ck.counts, list);
      && (forall i :: 0 <= i < |list| ==> list[i] in index)
      && IndexOk(index, list, NextId(list), Before(PartCounts(list, index), |list|))
  {
    ListIndexOk(ck.counts, CheckpointShards.Shard(ck.ids, rank, world)) by {
      hide Before, CheckpointShards.ShardStart, CheckpointShards.ShardSize, Distinct;
      CheckpointShards.ShardsMeet(|ck.ids|, rank, world);
      CheckpointShards.ShardFits(|ck.ids|, rank + 1, world);
      var start := CheckpointShards.ShardStart(|ck.ids|, rank, world);
      SliceOk(ck.ids, ck.counts, start, start + CheckpointShards.ShardSize(|ck.ids|, rank, world));
    }
  }

  lemma ListIndexOk(counts: map<nat, nat>, list: seq<nat>)
    requires Distinct(list) && forall i :: 0 <= i < |list| ==> list[i] in counts
    ensures var index := Restrict(counts, list);
      && (forall i :: 0 <= i < |list| ==> list[i] in index)
      && IndexOk(index, list, NextId(list), Before(PartCounts(list, index), |list|))
  {
    hide Before, NextId, Distinct;
  }

  lemma RestrictKnown<Row>(ids: seq<nat>, list: seq<nat>, counts: map<nat, nat>, files: map<nat, Flat<Row>>,
                           schema: set<Name>)
    requires KnownOk(ids, counts, files, schema) && forall i :: 0 <= i < |ids| ==> ids[i] in list
    ensures KnownOk(ids, Restrict(counts, list), files, schema)
  {
    hide RowsOk;
  }

  /** The recorded files after loading a list. */
  function Reloaded<Row>(disk: map<nat, Flat<Row>>, files: map<nat, Flat<Row>>, list: seq<nat>)
    : (r: map<nat, Flat<Row>>)
    ensures forall id: nat :: id in list && id in files ==> id in r && r[id] == files[id]
  {
    (map id | id in disk && id !in list :: disk[id]) + (map id | id in files && id in list :: files[id])
  }

  /** Loading does not renew the index version: a memo taken over one trajectory is taken
      for current although the loaded list has two. */
  lemma StaleMemo()
    ensures MemoFresh([0], [2], 2, [0], map[0 := 2], 10)
    ensures !MemoFresh([0], [2], 2, [0, 1], map[0 := 2, 1 := 3], 10)
  {
    var one := PartCounts([0], map[0 := 2]);
    assert one == [2] && Before(one, 1) == Before(one, 0) + one[0];
    assert Window([0, 1], 10) == [0, 1];
  }

  /** Nothing at all is in agreement with itself. */
  lemma EmptyOk<Row>(size: nat, maxSize: nat, schema: set<Name>)
    ensures IndexOk(map[], [], 0, 0) && KnownOk<Row>(Window([], size), map[], map[], schema)
    ensures OnDisk<Row>(Window([], size), map[], map[]) && CachedOk<Row>(Fifo([], map[]), maxSize, [], map[])
    ensures Parts<Row>(Window([], size), map[]) == []
  {
  }
}
