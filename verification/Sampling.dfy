/**
 Filling a batch: rows gathered from cache slots and from concatenated loads, scattered to
 their batch positions, on plain values.
 */
module Sampling {
  import opened Sequences
  import opened CacheLayout
  import opened WindowLookup

  /** A flattened trajectory with exactly these fields, each of n rows. */
  ghost predicate RowsOk<Row>(t: Flat<Row>, schema: set<Name>, n: nat) {
    t.Keys == schema && forall k :: k in t ==> |t[k]| == n
  }

  /** Every sample's trajectory is known and has the sample's row. */
  ghost predicate LocatedOk<Row>(flats: map<nat, Flat<Row>>, schema: set<Name>, ids: seq<nat>, locals: seq<nat>) {
    && |ids| == |locals|
    && forall i :: 0 <= i < |ids| ==> ids[i] in flats && RowOk(flats[ids[i]], schema, locals[i])
  }

  ghost predicate RowOk<Row>(t: Flat<Row>, schema: set<Name>, l: nat) {
    t.Keys == schema && forall k :: k in t ==> l < |t[k]|
  }

  /** The batch the samples stand for: row i is row locals[i] of trajectory ids[i]. */
  ghost function Wanted<Row>(flats: map<nat, Flat<Row>>, schema: set<Name>, ids: seq<nat>, locals: seq<nat>)
    : (want: map<Name, seq<Row>>)
    requires LocatedOk(flats, schema, ids, locals)
    ensures want.Keys == schema
    ensures forall k :: k in want ==>
      |want[k]| == |ids| && forall i :: 0 <= i < |ids| ==> want[k][i] == flats[ids[i]][k][locals[i]]
  {
    map k | k in schema :: WantedColumn(flats, schema, ids, locals, k)
  }

  ghost function WantedColumn<Row>(flats: map<nat, Flat<Row>>, schema: set<Name>, ids: seq<nat>, locals: seq<nat>,
                                   k: Name)
    : (col: seq<Row>)
    requires LocatedOk(flats, schema, ids, locals) && k in schema
    ensures |col| == |ids| && forall i :: 0 <= i < |ids| ==> col[i] == flats[ids[i]][k][locals[i]]
  {
    seq(|ids|, i requires 0 <= i < |ids| => flats[ids[i]][k][locals[i]])
  }

  // ----- Scattering -----

  /** `col[at] = vals`. */
  function Scatter<Row>(col: seq<Row>, at: seq<nat>, vals: seq<Row>): (r: seq<Row>)
    requires |at| == |vals| && forall j :: 0 <= j < |at| ==> at[j] < |col|
    ensures |r| == |col|
  {
    if at == [] then col
    else
      var n := |at| - 1;
      Scatter(col, at[..n], vals[..n])[at[n] := vals[n]]
  }

  lemma {:induction false} ScatterAt<Row>(col: seq<Row>, at: seq<nat>, vals: seq<Row>, i: nat)
    requires |at| == |vals| && (forall j :: 0 <= j < |at| ==> at[j] < |col|)
    requires i < |col|
    ensures i !in at ==> Scatter(col, at, vals)[i] == col[i]
    ensures Distinct(at) ==> forall j :: 0 <= j < |at| && at[j] == i ==> Scatter(col, at, vals)[i] == vals[j]
  {
    if at != [] {
      var n := |at| - 1;
      ScatterAt(col, at[..n], vals[..n], i);
    }
  }

  /** Every field of the batch has its wanted rows at these positions. */
  ghost predicate FilledAt<Row>(batch: map<Name, seq<Row>>, want: map<Name, seq<Row>>, at: seq<nat>) {
    && batch.Keys == want.Keys
    && forall k :: k in want ==> ColumnFilled(batch[k], want[k], at)
  }

  ghost predicate ColumnFilled<Row>(col: seq<Row>, want: seq<Row>, at: seq<nat>) {
    |col| == |want| && forall j :: 0 <= j < |at| ==> at[j] < |col| && col[at[j]] == want[at[j]]
  }

  /** Outside these positions nothing changed. */
  ghost predicate KeptOutside<Row>(before: map<Name, seq<Row>>, after: map<Name, seq<Row>>, at: seq<nat>) {
    && before.Keys == after.Keys
    && forall k :: k in before ==> ColumnKept(before[k], after[k], at)
  }

  ghost predicate ColumnKept<Row>(before: seq<Row>, after: seq<Row>, at: seq<nat>) {
    |before| == |after| && forall i: nat :: i < |before| && i !in at ==> after[i] == before[i]
  }

  /** `index_select(0, rows)`. */
  function Select<Row>(col: seq<Row>, rows: seq<nat>): (r: seq<Row>)
    requires forall j :: 0 <= j < |rows| ==> rows[j] < |col|
    ensures |r| == |rows| && forall j :: 0 <= j < |r| ==> r[j] == col[rows[j]]
  {
    seq(|rows|, j requires 0 <= j < |rows| => col[rows[j]])
  }

  /** The source has, at each listed row, what the batch wants at the matching position. */
  ghost predicate Supplies<Row>(source: map<Name, seq<Row>>, rows: seq<nat>, want: map<Name, seq<Row>>, at: seq<nat>) {
    && source.Keys == want.Keys && |rows| == |at|
    && forall k :: k in want ==> ColumnSupplies(source[k], rows, want[k], at)
  }

  ghost predicate ColumnSupplies<Row>(source: seq<Row>, rows: seq<nat>, want: seq<Row>, at: seq<nat>)
    requires |rows| == |at|
  {
    forall j :: 0 <= j < |at| ==> rows[j] < |source| && at[j] < |want| && source[rows[j]] == want[at[j]]
  }

  lemma FillColumn<Row>(col: seq<Row>, source: seq<Row>, rows: seq<nat>, want: seq<Row>, at: seq<nat>)
    requires |rows| == |at| && |col| == |want| && Distinct(at) && ColumnSupplies(source, rows, want, at)
    ensures forall j :: 0 <= j < |at| ==> at[j] < |col| && rows[j] < |source|
    ensures ColumnFilled(Scatter(col, at, Select(source, rows)), want, at)
    ensures ColumnKept(col, Scatter(col, at, Select(source, rows)), at)
  {
    forall i: nat | i < |col|
      ensures i !in at ==> Scatter(col, at, Select(source, rows))[i] == col[i]
      ensures forall j :: 0 <= j < |at| && at[j] == i ==> Scatter(col, at, Select(source, rows))[i] == want[i]
    {
      ScatterAt(col, at, Select(source, rows), i);
    }
  }

  /** `_fill_batch_from_buffer_indices`: field by field, select and scatter. */
  method FillBatch<Row>(batch: map<Name, seq<Row>>, source: map<Name, seq<Row>>, rows: seq<nat>, at: seq<nat>,
                        ghost want: map<Name, seq<Row>>)
    returns (after: map<Name, seq<Row>>)
    requires batch.Keys == want.Keys && forall k :: k in want ==> |batch[k]| == |want[k]|
    requires Supplies(source, rows, want, at) && Distinct(at)
    ensures FilledAt(after, want, at) && KeptOutside(batch, after, at)
  {
    hide Distinct, ColumnSupplies, ColumnFilled, ColumnKept, Scatter, Select;
    after := batch;
    var todo := source.Keys;
    while todo != {}
      invariant todo <= source.Keys && after.Keys == batch.Keys
      invariant forall k :: k in todo ==> after[k] == batch[k]
      invariant forall k :: k in batch && k !in todo ==>
        ColumnFilled(after[k], want[k], at) && ColumnKept(batch[k], after[k], at)
    {
      var k :| k in todo;
      FillColumn(batch[k], source[k], rows, want[k], at);
      after := after[k := Scatter(after[k], at, Select(source[k], rows))];
      todo := todo - {k};
    }
  }

  /** After hits and misses are filled, nothing of the uninitialised batch is left. */
  lemma BothFill<Row>(init: map<Name, seq<Row>>, mid: map<Name, seq<Row>>, last: map<Name, seq<Row>>,
                      want: map<Name, seq<Row>>, mask: seq<bool>)
    requires forall k :: k in want ==> |want[k]| == |mask|
    requires FilledAt(mid, want, Positions(mask, true))
    requires FilledAt(last, want, Positions(mask, false)) && KeptOutside(mid, last, Positions(mask, false))
    ensures last == want
  {
    hide Positions, ColumnFilled, ColumnKept;
    forall k | k in want
      ensures last[k] == want[k]
    {
      FilledColumn(mid[k], last[k], want[k], mask);
    }
  }

  lemma FilledColumn<Row>(mid: seq<Row>, last: seq<Row>, want: seq<Row>, mask: seq<bool>)
    requires |want| == |mask|
    requires ColumnFilled(mid, want, Positions(mask, true)) && ColumnFilled(last, want, Positions(mask, false))
    requires ColumnKept(mid, last, Positions(mask, false))
    ensures last == want
  {
    assert |last| == |want|;
    hide Positions, ColumnFilled, ColumnKept;
    forall i: nat | i < |mask|
      ensures last[i] == want[i]
    {
      FilledRow(mid, last, want, mask, i);
    }
  }

  lemma FilledRow<Row>(mid: seq<Row>, last: seq<Row>, want: seq<Row>, mask: seq<bool>, i: nat)
    requires |want| == |mask| && i < |mask|
    requires ColumnFilled(mid, want, Positions(mask, true)) && ColumnFilled(last, want, Positions(mask, false))
    requires ColumnKept(mid, last, Positions(mask, false))
    ensures last[i] == want[i]
  {
    hide Positions;
    PositionsFind(mask, mask[i], i);
    var p := Positions(mask, mask[i]);
    var j :| 0 <= j < |p| && p[j] == i;
    if mask[i] {
      assert i !in Positions(mask, false);
      assert mid[p[j]] == want[p[j]];
    } else {
      assert last[p[j]] == want[p[j]];
    }
  }

  // ----- Hits -----

  /** Where each hit's row sits in the cache buffer. */
  function HitRows(cache: map<nat, nat>, slotLen: nat, ids: seq<nat>, locals: seq<nat>,
                   hits: seq<nat>): (rows: seq<nat>)
    requires |ids| == |locals| && forall j :: 0 <= j < |hits| ==> hits[j] < |ids| && ids[hits[j]] in cache
    ensures |rows| == |hits|
    ensures forall j :: 0 <= j < |hits| ==> rows[j] == Start(cache[ids[hits[j]]], slotLen) + locals[hits[j]]
  {
    seq(|hits|, j requires 0 <= j < |hits| => Start(cache[ids[hits[j]]], slotLen) + locals[hits[j]])
  }

  /** A cached row is where slot times slot length plus local index says. */
  lemma CachedRow<Row>(buffer: map<Name, seq<Row>>, slotLen: nat, maxSize: nat, slot: nat, lens: map<Name, nat>,
                       t: Flat<Row>, k: Name, l: nat)
    requires EntryOk(buffer, slotLen, maxSize, slot, lens, t) && k in t && l < |t[k]|
    ensures Start(slot, slotLen) + l < |buffer[k]| && buffer[k][Start(slot, slotLen) + l] == t[k][l]
  {
    hide Start;
    assert FieldOk(buffer[k], slotLen, slot, lens[k], t[k]);
    assert SlotRows(buffer[k], slot, slotLen, lens[k])[l] == t[k][l];
  }

  lemma HitsSupply<Row>(buffer: map<Name, seq<Row>>, slotLen: nat, maxSize: nat, cache: map<nat, nat>,
                        lengths: map<nat, map<Name, nat>>, store: map<nat, Flat<Row>>,
                        flats: map<nat, Flat<Row>>, schema: set<Name>, ids: seq<nat>, locals: seq<nat>, hits: seq<nat>)
    requires DataOk(buffer, slotLen, maxSize, cache, lengths, store) && buffer.Keys == schema
    requires LocatedOk(flats, schema, ids, locals)
    requires forall j :: 0 <= j < |hits| ==> hits[j] < |ids| && ids[hits[j]] in cache
    requires forall id :: id in store ==> id in flats && store[id] == flats[id]
    ensures Supplies(buffer, HitRows(cache, slotLen, ids, locals, hits), Wanted(flats, schema, ids, locals), hits)
  {
    hide Start, EntryOk;
    var rows := HitRows(cache, slotLen, ids, locals, hits);
    var want := Wanted(flats, schema, ids, locals);
    forall k | k in want
      ensures ColumnSupplies(buffer[k], rows, want[k], hits)
    {
      forall j | 0 <= j < |hits|
        ensures rows[j] < |buffer[k]| && hits[j] < |want[k]| && buffer[k][rows[j]] == want[k][hits[j]]
      {
        var id := ids[hits[j]];
        assert RowOk(flats[id], schema, locals[hits[j]]);
        CachedRow(buffer, slotLen, maxSize, cache[id], lengths[id], store[id], k, locals[hits[j]]);
      }
    }
  }

  // ----- Misses -----

  /** One field of several trajectories. */
  function Column<Row>(parts: seq<Flat<Row>>, k: Name): (col: seq<seq<Row>>)
    requires forall i :: 0 <= i < |parts| ==> k in parts[i]
    ensures |col| == |parts| && forall i :: 0 <= i < |col| ==> col[i] == parts[i][k]
  {
    seq(|parts|, i requires 0 <= i < |parts| => parts[i][k])
  }

  /** `_concat_flat_trajectories` for trajectories with the same fields. */
  function ConcatFlats<Row>(parts: seq<Flat<Row>>): (all: Flat<Row>)
    requires forall i :: 0 <= i < |parts| ==> parts[i].Keys == parts[0].Keys
  {
    if parts == [] then map[]
    else map k | k in parts[0] :: Flatten(Column(parts, k))
  }

  function PartCounts(ids: seq<nat>, index: map<nat, nat>): (counts: seq<nat>)
    requires forall i :: 0 <= i < |ids| ==> ids[i] in index
    ensures |counts| == |ids| && forall i :: 0 <= i < |ids| ==> counts[i] == index[ids[i]]
  {
    seq(|ids|, i requires 0 <= i < |ids| => index[ids[i]])
  }

  function Parts<Row>(ids: seq<nat>, flats: map<nat, Flat<Row>>): (parts: seq<Flat<Row>>)
    requires forall i :: 0 <= i < |ids| ==> ids[i] in flats
    ensures |parts| == |ids| && forall i :: 0 <= i < |ids| ==> parts[i] == flats[ids[i]]
  {
    seq(|ids|, i requires 0 <= i < |ids| => flats[ids[i]])
  }

  /** Each trajectory starts where the earlier ones end. */
  ghost predicate OffsetsOk(ids: seq<nat>, index: map<nat, nat>, offsets: map<nat, nat>, n: nat)
    requires n <= |ids| && forall i :: 0 <= i < |ids| ==> ids[i] in index
  {
    forall i :: 0 <= i < n ==> ids[i] in offsets && offsets[ids[i]] == Before(PartCounts(ids, index), i)
  }

  lemma OffsetAdded(ids: seq<nat>, index: map<nat, nat>, offsets: map<nat, nat>, n: nat)
    requires n < |ids| && Ascending(ids) && forall i :: 0 <= i < |ids| ==> ids[i] in index
    requires OffsetsOk(ids, index, offsets, n)
    ensures OffsetsOk(ids, index, offsets[ids[n] := Before(PartCounts(ids, index), n)], n + 1)
  {
    hide Before, PartCounts;
    forall i | 0 <= i < n
      ensures ids[i] != ids[n]
    {
      assert ids[i] < ids[n];
    }
  }

  lemma BeforeNext(counts: seq<nat>, n: nat)
    requires n < |counts|
    ensures Before(counts, n + 1) == Before(counts, n) + counts[n]
  {
  }

  /** The missed trajectories, each loaded once, and where each starts in their concatenation. */
  method LoadMisses<Row>(ids: seq<nat>, index: map<nat, nat>, disk: map<nat, Flat<Row>>)
    returns (parts: seq<Flat<Row>>, offsets: map<nat, nat>)
    requires Ascending(ids) && forall i :: 0 <= i < |ids| ==> ids[i] in index && ids[i] in disk
    ensures parts == Parts(ids, disk)
    ensures OffsetsOk(ids, index, offsets, |ids|)
  {
    hide Before, Ascending;
    parts, offsets := [], map[];
    var cursor, n := 0, 0;
    assert cursor == Before(PartCounts(ids, index), 0);
    while n < |ids|
      invariant n <= |ids| && |parts| == n && cursor == Before(PartCounts(ids, index), n)
      invariant forall i :: 0 <= i < n ==> parts[i] == disk[ids[i]]
      invariant OffsetsOk(ids, index, offsets, n)
    {
      hide OffsetsOk;
      OffsetAdded(ids, index, offsets, n);
      BeforeNext(PartCounts(ids, index), n);
      parts := parts + [disk[ids[n]]];
      offsets := offsets[ids[n] := cursor];
      cursor := cursor + index[ids[n]];
      n := n + 1;
    }
  }

  /** Where each miss's row sits in the concatenation of the loads. */
  function MissRows(offsets: map<nat, nat>, ids: seq<nat>, locals: seq<nat>, misses: seq<nat>): (rows: seq<nat>)
    requires |ids| == |locals| && forall j :: 0 <= j < |misses| ==> misses[j] < |ids| && ids[misses[j]] in offsets
    ensures |rows| == |misses|
    ensures forall j :: 0 <= j < |misses| ==> rows[j] == offsets[ids[misses[j]]] + locals[misses[j]]
  {
    seq(|misses|, j requires 0 <= j < |misses| => offsets[ids[misses[j]]] + locals[misses[j]])
  }

  /** Every trajectory of the list is known, with as many rows as the index says. */
  ghost predicate KnownOk<Row>(ids: seq<nat>, index: map<nat, nat>, flats: map<nat, Flat<Row>>, schema: set<Name>) {
    forall i :: 0 <= i < |ids| ==> ids[i] in index && ids[i] in flats && RowsOk(flats[ids[i]], schema, index[ids[i]])
  }

  /** One field of the listed trajectories, in order. */
  ghost function KnownColumn<Row>(ids: seq<nat>, index: map<nat, nat>, flats: map<nat, Flat<Row>>, schema: set<Name>,
                                  k: Name)
    : (col: seq<seq<Row>>)
    requires KnownOk(ids, index, flats, schema) && k in schema
    ensures |col| == |ids| && forall i :: 0 <= i < |ids| ==> col[i] == flats[ids[i]][k]
    ensures Lengths(col) == PartCounts(ids, index)
  {
    var col := Column(Parts(ids, flats), k);
    assert forall i :: 0 <= i < |ids| ==> RowsOk(flats[ids[i]], schema, index[ids[i]]);
    assert Lengths(col) == PartCounts(ids, index);
    col
  }

  /** Row l of a loaded trajectory is row offset plus l of the concatenation. */
  lemma LoadedRow<Row>(loaded: seq<nat>, index: map<nat, nat>, flats: map<nat, Flat<Row>>, schema: set<Name>,
                       k: Name, b: nat, l: nat)
    requires KnownOk(loaded, index, flats, schema) && k in schema && b < |loaded| && l < index[loaded[b]]
    ensures var all := Flatten(KnownColumn(loaded, index, flats, schema, k));
      var r := Before(PartCounts(loaded, index), b) + l;
      r < |all| && k in flats[loaded[b]] && l < |flats[loaded[b]][k]| && all[r] == flats[loaded[b]][k][l]
  {
    hide Before;
    assert RowsOk(flats[loaded[b]], schema, index[loaded[b]]);
    ConcatRow(KnownColumn(loaded, index, flats, schema, k), b, l);
  }

  /** `source` is the concatenation of the loads, field by field. */
  ghost predicate ConcatOk<Row>(source: Flat<Row>, loaded: seq<nat>, index: map<nat, nat>, flats: map<nat, Flat<Row>>,
                                schema: set<Name>)
    requires KnownOk(loaded, index, flats, schema)
  {
    && source.Keys == schema
    && forall k :: k in schema ==> source[k] == Flatten(KnownColumn(loaded, index, flats, schema, k))
  }

  lemma ConcatIsColumns<Row>(loaded: seq<nat>, index: map<nat, nat>, flats: map<nat, Flat<Row>>, schema: set<Name>)
    requires KnownOk(loaded, index, flats, schema) && loaded != []
    ensures var parts := Parts(loaded, flats);
      && (forall i :: 0 <= i < |parts| ==> parts[i].Keys == parts[0].Keys)
      && ConcatOk(ConcatFlats(parts), loaded, index, flats, schema)
  {
    var parts := Parts(loaded, flats);
    assert forall i :: 0 <= i < |loaded| ==> RowsOk(flats[loaded[i]], schema, index[loaded[i]]);
    forall k | k in schema
      ensures ConcatFlats(parts)[k] == Flatten(KnownColumn(loaded, index, flats, schema, k))
    {
      assert Column(parts, k) == KnownColumn(loaded, index, flats, schema, k);
    }
  }

  /** One miss, read from the concatenation. */
  lemma MissRow<Row>(loaded: seq<nat>, index: map<nat, nat>, offsets: map<nat, nat>, flats: map<nat, Flat<Row>>,
                     schema: set<Name>, k: Name, id: nat, l: nat)
    requires KnownOk(loaded, index, flats, schema) && OffsetsOk(loaded, index, offsets, |loaded|) && k in schema
    requires id in loaded && id in flats && RowOk(flats[id], schema, l)
    ensures var source := Flatten(KnownColumn(loaded, index, flats, schema, k));
      id in offsets && offsets[id] + l < |source| && source[offsets[id] + l] == flats[id][k][l]
  {
    hide Before, KnownColumn, PartCounts;
    var b :| 0 <= b < |loaded| && loaded[b] == id;
    assert RowsOk(flats[loaded[b]], schema, index[loaded[b]]);
    assert offsets[loaded[b]] == Before(PartCounts(loaded, index), b);
    hide KnownOk, OffsetsOk;
    LoadedRow(loaded, index, flats, schema, k, b, l);
  }

  lemma MissColumn<Row>(loaded: seq<nat>, index: map<nat, nat>, offsets: map<nat, nat>, flats: map<nat, Flat<Row>>,
                        schema: set<Name>, ids: seq<nat>, locals: seq<nat>, misses: seq<nat>, k: Name)
    requires KnownOk(loaded, index, flats, schema) && OffsetsOk(loaded, index, offsets, |loaded|)
    requires LocatedOk(flats, schema, ids, locals) && k in schema
    requires forall j :: 0 <= j < |misses| ==>
      misses[j] < |ids| && ids[misses[j]] in loaded && ids[misses[j]] in offsets
    ensures ColumnSupplies(Flatten(KnownColumn(loaded, index, flats, schema, k)),
                           MissRows(offsets, ids, locals, misses),
                           WantedColumn(flats, schema, ids, locals, k), misses)
  {
    hide Flatten, KnownColumn, KnownOk, OffsetsOk, MissRows, WantedColumn, RowOk, Before, PartCounts;
    var rows, want := MissRows(offsets, ids, locals, misses), WantedColumn(flats, schema, ids, locals, k);
    var source := Flatten(KnownColumn(loaded, index, flats, schema, k));
    forall j | 0 <= j < |misses|
      ensures rows[j] < |source| && misses[j] < |want| && source[rows[j]] == want[misses[j]]
    {
      MissRow(loaded, index, offsets, flats, schema, k, ids[misses[j]], locals[misses[j]]);
    }
  }

  lemma MissesSupply<Row>(source: Flat<Row>, loaded: seq<nat>, index: map<nat, nat>, offsets: map<nat, nat>,
                          flats: map<nat, Flat<Row>>, schema: set<Name>, ids: seq<nat>, locals: seq<nat>,
                          misses: seq<nat>)
    requires KnownOk(loaded, index, flats, schema) && OffsetsOk(loaded, index, offsets, |loaded|)
    requires ConcatOk(source, loaded, index, flats, schema) && LocatedOk(flats, schema, ids, locals)
    requires forall j :: 0 <= j < |misses| ==>
      misses[j] < |ids| && ids[misses[j]] in loaded && ids[misses[j]] in offsets
    ensures Supplies(source, MissRows(offsets, ids, locals, misses), Wanted(flats, schema, ids, locals), misses)
  {
    var rows, want := MissRows(offsets, ids, locals, misses), Wanted(flats, schema, ids, locals);
    hide ColumnSupplies, KnownColumn, KnownOk, OffsetsOk;
    forall k | k in want
      ensures ColumnSupplies(source[k], rows, want[k], misses)
    {
      MissColumn(loaded, index, offsets, flats, schema, ids, locals, misses, k);
    }
  }
}
