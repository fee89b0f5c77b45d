/** `BatchResizingIterator`: fetched batches handed out as micro-batches, with prefetching. */
module BatchIterator {
  import opened Sequences
  import opened Arithmetic

  function Quotient(n: nat, d: nat): nat
    requires d > 0
  {
    n / d
  }

  /** Consecutive parts of `width` rows. */
  function Chunks<T>(s: seq<T>, width: nat): (parts: seq<seq<T>>)
    requires width > 0
  {
    if |s| < width then [] else [s[..width]] + Chunks(s[width..], width)
  }

  lemma {:induction false} ChunksSplit<T>(s: seq<T>, width: nat)
    requires width > 0 && Divides(width, |s|)
    ensures Flatten(Chunks(s, width)) == s
    ensures forall i :: 0 <= i < |Chunks(s, width)| ==> |Chunks(s, width)[i]| == width
    ensures s != [] ==> Chunks(s, width) != []
  {
    if |s| > 0 {
      DropBlock(|s|, width);
      ChunksSplit(s[width..], width);
      assert s == s[..width] + s[width..];
    } else {
      assert Chunks(s, width) == [];
    }
  }

  /** `get_iterator_k_split`: shuffle, then `parts` equal parts. */
  function KSplit<T>(batch: seq<T>, parts: nat, shuffle: seq<T> -> seq<T>): seq<seq<T>>
    requires parts > 0 && batch != [] && Divides(parts, |batch|)
  {
    PartWidth(|batch|, parts);
    Chunks(shuffle(batch), |batch| / parts)
  }

  lemma PartWidth(size: nat, parts: nat)
    requires parts > 0 && size > 0 && Divides(parts, size)
    ensures size / parts > 0 && Divides(size / parts, size)
  {
    assert size == parts * (size / parts);
    DivModUnique(size, size / parts, parts, 0);
  }

  /** Splitting into size/width parts gives parts of exactly that width. */
  lemma WidthOfParts(size: nat, width: nat)
    requires width > 0 && size > 0 && Divides(width, size)
    ensures size / width > 0 && Divides(size / width, size) && size / (size / width) == width
  {
    var k := size / width;
    assert size == width * k;
    DivModUnique(size, k, width, 0);
  }

  /** Shuffling reorders rows and nothing else. */
  ghost predicate Shuffles<T(!new)>(shuffle: seq<T> -> seq<T>) {
    forall s: seq<T> :: multiset(shuffle(s)) == multiset(s)
  }

  lemma ShuffleLength<T(!new)>(shuffle: seq<T> -> seq<T>, s: seq<T>)
    requires Shuffles(shuffle)
    ensures |shuffle(s)| == |s|
  {
    assert |multiset(shuffle(s))| == |multiset(s)|;
  }

  // ----- The stream of micro-batches -----

  /** A fetched batch as global batches: whole, unless it is a multiple of one. */
  function Globals<T>(batch: seq<T>, global: nat, shuffle: seq<T> -> seq<T>): seq<seq<T>>
    requires global > 0
  {
    if !Divides(global, |batch|) then [batch] else Chunks(shuffle(batch), global)
  }

  /** The micro-batches of a list of global batches, in order. */
  function Micros<T>(globals: seq<seq<T>>, micro: nat, shuffle: seq<T> -> seq<T>): seq<seq<T>>
    requires micro > 0
  {
    if globals == [] then [] else Chunks(shuffle(globals[0]), micro) + Micros(globals[1..], micro, shuffle)
  }

  /** The micro-batches of the first n fetched batches. */
  function Stream<T>(fetch: nat -> seq<T>, n: nat, micro: nat, global: nat, shuffle: seq<T> -> seq<T>): seq<seq<T>>
    requires micro > 0 && global > 0
  {
    if n == 0 then []
    else Stream(fetch, n - 1, micro, global, shuffle) + Micros(Globals(fetch(n - 1), global, shuffle), micro, shuffle)
  }

  /** Fetching more only extends the stream. */
  lemma {:induction false} StreamExtends<T>(fetch: nat -> seq<T>, n: nat, m: nat, micro: nat, global: nat,
                                            shuffle: seq<T> -> seq<T>)
    requires micro > 0 && global > 0 && n <= m
    ensures Stream(fetch, n, micro, global, shuffle) <= Stream(fetch, m, micro, global, shuffle)
    decreases m - n
  {
    if n < m {
      StreamExtends(fetch, n, m - 1, micro, global, shuffle);
    }
  }

  /** Two iterators over the same fetched batches that have delivered equally many
      micro-batches have delivered the same ones, however either was prefetched. */
  lemma SameDelivery<T>(a: seq<seq<T>>, b: seq<seq<T>>, fetch: nat -> seq<T>, n: nat, m: nat, micro: nat, global: nat,
                        shuffle: seq<T> -> seq<T>)
    requires micro > 0 && global > 0 && |a| == |b|
    requires a <= Stream(fetch, n, micro, global, shuffle) && b <= Stream(fetch, m, micro, global, shuffle)
    ensures a == b
  {
    if n <= m {
      StreamExtends(fetch, n, m, micro, global, shuffle);
    } else {
      StreamExtends(fetch, m, n, micro, global, shuffle);
    }
    hide Stream;
    var longest := Stream(fetch, if n <= m then m else n, micro, global, shuffle);
    assert a == longest[..|a|] && b == longest[..|b|];
  }

  ghost predicate FetchOk<T>(fetch: nat -> seq<T>, micro: nat)
    requires micro > 0
  {
    forall n: nat :: fetch(n) != [] && Divides(micro, |fetch(n)|)
  }

  ghost predicate GlobalsOk<T>(globals: seq<seq<T>>, micro: nat)
    requires micro > 0
  {
    forall i :: 0 <= i < |globals| ==> globals[i] != [] && Divides(micro, |globals[i]|)
  }

  ghost predicate MicrosOk<T>(micros: seq<seq<T>>, micro: nat) {
    forall i :: 0 <= i < |micros| ==> |micros[i]| == micro
  }

  lemma GlobalsAreOk<T(!new)>(batch: seq<T>, micro: nat, global: nat, shuffle: seq<T> -> seq<T>)
    requires micro > 0 && global > 0 && Divides(micro, global) && batch != [] && Divides(micro, |batch|)
      && Shuffles(shuffle)
    ensures GlobalsOk(Globals(batch, global, shuffle), micro) && Globals(batch, global, shuffle) != []
  {
    ShuffleLength(shuffle, batch);
    if Divides(global, |batch|) {
      ChunksSplit(shuffle(batch), global);
    }
  }

  lemma MicrosAreOk<T(!new)>(batch: seq<T>, micro: nat, shuffle: seq<T> -> seq<T>)
    requires micro > 0 && batch != [] && Divides(micro, |batch|) && Shuffles(shuffle)
    ensures MicrosOk(Chunks(shuffle(batch), micro), micro) && Chunks(shuffle(batch), micro) != []
  {
    ShuffleLength(shuffle, batch);
    ChunksSplit(shuffle(batch), micro);
  }

  /** Micro-batches carry all rows of their global batches, each exactly once. */
  lemma {:induction false} MicrosKeepRows<T(!new)>(globals: seq<seq<T>>, micro: nat, shuffle: seq<T> -> seq<T>)
    requires micro > 0 && GlobalsOk(globals, micro) && Shuffles(shuffle)
    ensures multiset(Flatten(Micros(globals, micro, shuffle))) == multiset(Flatten(globals))
    ensures MicrosOk(Micros(globals, micro, shuffle), micro)
  {
    hide Chunks;
    if globals != [] {
      ShuffleLength(shuffle, globals[0]);
      ChunksSplit(shuffle(globals[0]), micro);
      FlattenConcat(Chunks(shuffle(globals[0]), micro), Micros(globals[1..], micro, shuffle));
      MicrosKeepRows(globals[1..], micro, shuffle);
    }
  }

  function Fetched<T>(fetch: nat -> seq<T>, n: nat): seq<T> {
    if n == 0 then [] else Fetched(fetch, n - 1) + fetch(n - 1)
  }

  lemma FetchKeepsRows<T(!new)>(batch: seq<T>, micro: nat, global: nat, shuffle: seq<T> -> seq<T>)
    requires micro > 0 && global > 0 && Divides(micro, global) && batch != [] && Divides(micro, |batch|)
      && Shuffles(shuffle)
    ensures var micros := Micros(Globals(batch, global, shuffle), micro, shuffle);
      multiset(Flatten(micros)) == multiset(batch) && MicrosOk(micros, micro)
  {
    GlobalsAreOk(batch, micro, global, shuffle);
    GlobalsKeepRows(batch, global, shuffle);
    MicrosKeepRows(Globals(batch, global, shuffle), micro, shuffle);
  }

  lemma RowsJoin<T>(a: seq<T>, b: seq<T>, c: seq<T>, d: seq<T>)
    requires multiset(a) == multiset(c) && multiset(b) == multiset(d)
    ensures multiset(a + b) == multiset(c + d)
  {
  }

  /** The stream is all fetched rows, each in exactly one micro-batch of the right size. */
  lemma {:induction false} StreamKeepsRows<T(!new)>(fetch: nat -> seq<T>, n: nat, micro: nat, global: nat,
                                                   shuffle: seq<T> -> seq<T>)
    requires micro > 0 && global > 0 && Divides(micro, global) && FetchOk(fetch, micro) && Shuffles(shuffle)
    ensures multiset(Flatten(Stream(fetch, n, micro, global, shuffle))) == multiset(Fetched(fetch, n))
    ensures MicrosOk(Stream(fetch, n, micro, global, shuffle), micro)
  {
    hide Globals, Micros, Shuffles, MicrosOk, FetchOk, Flatten, Divides, Stream, Fetched;
    if n == 0 {
      NothingFetched(fetch, micro, global, shuffle);
    } else {
      FetchedOk(fetch, n - 1, micro);
      StreamKeepsRows(fetch, n - 1, micro, global, shuffle);
      FetchKeepsRows(fetch(n - 1), micro, global, shuffle);
      StreamStep(fetch, n - 1, micro, global, shuffle);
      StreamJoins(Stream(fetch, n - 1, micro, global, shuffle),
                  Micros(Globals(fetch(n - 1), global, shuffle), micro, shuffle),
                  Fetched(fetch, n - 1), fetch(n - 1), micro);
    }
  }

  lemma FetchedOk<T>(fetch: nat -> seq<T>, n: nat, micro: nat)
    requires micro > 0 && FetchOk(fetch, micro)
    ensures fetch(n) != [] && Divides(micro, |fetch(n)|)
  {
  }

  lemma NothingFetched<T>(fetch: nat -> seq<T>, micro: nat, global: nat, shuffle: seq<T> -> seq<T>)
    requires micro > 0 && global > 0
    ensures Flatten(Stream(fetch, 0, micro, global, shuffle)) == [] == Fetched(fetch, 0)
    ensures MicrosOk(Stream(fetch, 0, micro, global, shuffle), micro)
  {
  }

  lemma StreamStep<T>(fetch: nat -> seq<T>, n: nat, micro: nat, global: nat, shuffle: seq<T> -> seq<T>)
    requires micro > 0 && global > 0
    ensures Stream(fetch, n + 1, micro, global, shuffle)
         == Stream(fetch, n, micro, global, shuffle) + Micros(Globals(fetch(n), global, shuffle), micro, shuffle)
    ensures Fetched(fetch, n + 1) == Fetched(fetch, n) + fetch(n)
  {
    hide Globals, Micros;
  }

  lemma StreamJoins<T>(before: seq<seq<T>>, more: seq<seq<T>>, rows: seq<T>, batch: seq<T>, micro: nat)
    requires multiset(Flatten(before)) == multiset(rows) && multiset(Flatten(more)) == multiset(batch)
    requires MicrosOk(before, micro) && MicrosOk(more, micro)
    ensures multiset(Flatten(before + more)) == multiset(rows + batch) && MicrosOk(before + more, micro)
  {
    hide Flatten;
    FlattenConcat(before, more);
    RowsJoin(Flatten(before), Flatten(more), rows, batch);
  }

  /** The b-th `width` rows, if there are that many, are those of s, shuffled. */
  ghost predicate BlockShuffled<T(!new)>(rows: seq<T>, s: seq<T>, b: nat, width: nat, shuffle: seq<T> -> seq<T>)
    requires |rows| == |s|
  {
    (b + 1) * width <= |s| ==>
      0 <= b * width <= (b + 1) * width
      && rows[b * width..(b + 1) * width] == shuffle(s[b * width..(b + 1) * width])
  }

  /** The rows a fetched batch becomes: shuffled once when it is no multiple of a global batch,
      otherwise shuffled, cut into global batches, and each of them shuffled again. */
  lemma FetchedRows<T(!new)>(batch: seq<T>, micro: nat, global: nat, shuffle: seq<T> -> seq<T>)
    requires micro > 0 && global > 0 && Divides(micro, global)
    requires batch != [] && Divides(micro, |batch|) && Shuffles(shuffle)
    ensures var rows := Flatten(Micros(Globals(batch, global, shuffle), micro, shuffle));
      && |rows| == |shuffle(batch)| == |batch|
      && (|batch| % global != 0 ==> rows == shuffle(batch))
      && (|batch| % global == 0 ==> forall b: nat :: BlockShuffled(rows, shuffle(batch), b, global, shuffle))
  {
    hide Micros, Shuffles, Flatten;
    ShuffleLength(shuffle, batch);
    var globals := Globals(batch, global, shuffle);
    GlobalsAreOk(batch, micro, global, shuffle);
    if |batch| % global != 0 {
      MicrosFirst(globals, micro, shuffle);
      NoMicros(micro, shuffle);
      OneGlobal(batch, micro, shuffle);
    } else {
      ChunkRows(shuffle(batch), micro, global, shuffle);
    }
  }

  lemma OneGlobal<T(!new)>(batch: seq<T>, micro: nat, shuffle: seq<T> -> seq<T>)
    requires micro > 0 && batch != [] && Divides(micro, |batch|) && Shuffles(shuffle)
    ensures Flatten(Micros([batch], micro, shuffle)) == shuffle(batch)
  {
    hide Micros, Chunks, Flatten, Shuffles, Divides;
    ShuffleLength(shuffle, batch);
    ChunksSplit(shuffle(batch), micro);
    MicrosFirst([batch], micro, shuffle);
    NoMicros(micro, shuffle);
    var chunks := Chunks(shuffle(batch), micro);
    assert [batch][1..] == [] && chunks + [] == chunks;
    assert [] + Micros([batch], micro, shuffle) == Micros([batch], micro, shuffle);
  }

  /** Block b of the rows is the b-th global batch, shuffled. */
  lemma {:induction false} ChunkRows<T(!new)>(s: seq<T>, micro: nat, global: nat, shuffle: seq<T> -> seq<T>)
    requires micro > 0 && global > 0 && Divides(micro, global) && Divides(global, |s|) && Shuffles(shuffle)
    ensures var rows := Flatten(Micros(Chunks(s, global), micro, shuffle));
      |rows| == |s| && forall b: nat :: BlockShuffled(rows, s, b, global, shuffle)
  {
    if s == [] {
      NoMicros(micro, shuffle);
      forall b: nat
        ensures BlockShuffled([], s, b, global, shuffle)
      {
        MulMonotone(1, b + 1, global);
      }
    } else {
      DropBlock(|s|, global);
      var first, rest := s[..global], s[global..];
      ChunkRows(rest, micro, global, shuffle);
      RowsNext(s, micro, global, shuffle);
      BlocksShift(s, Flatten(Micros(Chunks(rest, global), micro, shuffle)), global, shuffle);
    }
  }

  lemma RowsNext<T(!new)>(s: seq<T>, micro: nat, global: nat, shuffle: seq<T> -> seq<T>)
    requires micro > 0 && global > 0 && Divides(micro, global) && |s| >= global && Shuffles(shuffle)
    ensures |shuffle(s[..global])| == global
    ensures Flatten(Micros(Chunks(s, global), micro, shuffle))
         == shuffle(s[..global]) + Flatten(Micros(Chunks(s[global..], global), micro, shuffle))
  {
    var first, rest := s[..global], Chunks(s[global..], global);
    assert Chunks(s, global) == [first] + rest;
    ShuffleLength(shuffle, first);
    ChunksSplit(shuffle(first), micro);
    MicrosFirst([first] + rest, micro, shuffle);
    FlattenConcat(Chunks(shuffle(first), micro), Micros(rest, micro, shuffle));
    assert ([first] + rest)[1..] == rest;
  }

  lemma BlocksShift<T(!new)>(s: seq<T>, later: seq<T>, global: nat, shuffle: seq<T> -> seq<T>)
    requires global > 0 && |s| >= global && |shuffle(s[..global])| == global && |later| == |s| - global
    requires forall b: nat :: BlockShuffled(later, s[global..], b, global, shuffle)
    ensures forall b: nat :: BlockShuffled(shuffle(s[..global]) + later, s, b, global, shuffle)
  {
    var rows := shuffle(s[..global]) + later;
    forall b: nat
      ensures BlockShuffled(rows, s, b, global, shuffle)
    {
      assert (b + 1) * global == b * global + global;
      if b == 0 {
        assert rows[..global] == shuffle(s[..global]);
      } else if (b + 1) * global <= |s| {
        var c := b - 1;
        assert (c + 1) * global == c * global + global && b * global == c * global + global;
        assert BlockShuffled(later, s[global..], c, global, shuffle);
        assert rows[b * global..(b + 1) * global] == later[c * global..(c + 1) * global];
        assert s[b * global..(b + 1) * global] == s[global..][c * global..(c + 1) * global];
      }
    }
  }

  lemma GlobalsKeepRows<T(!new)>(batch: seq<T>, global: nat, shuffle: seq<T> -> seq<T>)
    requires global > 0 && Shuffles(shuffle)
    ensures multiset(Flatten(Globals(batch, global, shuffle))) == multiset(batch)
  {
    if Divides(global, |batch|) {
      ShuffleLength(shuffle, batch);
      ChunksSplit(shuffle(batch), global);
    } else {
      assert Flatten([batch]) == batch;
    }
  }

  /** `consumed` counts the rows since the last full global batch, and `done` tells, once
      anything was produced, whether the production ended one. */
  ghost predicate CountOk(count: nat, micro: nat, global: nat, consumed: nat, done: bool)
    requires global > 0
  {
    && consumed == (count * micro) % global
    && (count > 0 ==> (done <==> consumed == 0))
  }

  lemma CountNext(count: nat, micro: nat, global: nat, consumed: nat, done: bool)
    requires micro > 0 && global > 0 && Divides(micro, global) && CountOk(count, micro, global, consumed, done)
    ensures consumed + micro <= global
    ensures CountOk(count + 1, micro, global, if consumed + micro == global then 0 else consumed + micro,
                    consumed + micro == global)
  {
    OneMore(count, micro, global);
  }

  lemma MicrosRest<T>(micros: seq<seq<T>>, micro: nat)
    requires MicrosOk(micros, micro) && micros != []
    ensures |micros[0]| == micro && MicrosOk(micros[1..], micro)
  {
  }

  lemma KSplitIsChunks<T(!new)>(batch: seq<T>, width: nat, shuffle: seq<T> -> seq<T>)
    requires width > 0 && batch != [] && Divides(width, |batch|)
    ensures Quotient(|batch|, width) > 0 && Divides(Quotient(|batch|, width), |batch|)
    ensures KSplit(batch, Quotient(|batch|, width), shuffle) == Chunks(shuffle(batch), width)
  {
    WidthOfParts(|batch|, width);
  }

  lemma GlobalsCases<T(!new)>(batch: seq<T>, global: nat, shuffle: seq<T> -> seq<T>)
    requires global > 0 && batch != []
    ensures !Divides(global, |batch|) ==> Globals(batch, global, shuffle) == [batch]
    ensures Divides(global, |batch|) ==> Quotient(|batch|, global) > 0 && Divides(Quotient(|batch|, global), |batch|)
    ensures Divides(global, |batch|) ==>
      Globals(batch, global, shuffle) == KSplit(batch, Quotient(|batch|, global), shuffle)
  {
    if Divides(global, |batch|) {
      KSplitIsChunks(batch, global, shuffle);
    }
  }

  lemma MicrosFirst<T>(globals: seq<seq<T>>, micro: nat, shuffle: seq<T> -> seq<T>)
    requires micro > 0 && globals != []
    ensures [] + Micros(globals, micro, shuffle)
      == Chunks(shuffle(globals[0]), micro) + Micros(globals[1..], micro, shuffle)
  {
  }

  lemma StreamNext<T>(fetch: nat -> seq<T>, n: nat, micro: nat, global: nat, shuffle: seq<T> -> seq<T>,
                      produced: seq<seq<T>>)
    requires micro > 0 && global > 0
    requires Stream(fetch, n, micro, global, shuffle) == produced + ([] + Micros([], micro, shuffle))
    ensures Stream(fetch, n + 1, micro, global, shuffle)
         == produced + ([] + Micros(Globals(fetch(n), global, shuffle), micro, shuffle))
  {
    hide Stream, Globals, Micros, Fetched;
    NoMicros(micro, shuffle);
    StreamStep(fetch, n, micro, global, shuffle);
  }

  lemma NoMicros<T>(micro: nat, shuffle: seq<T> -> seq<T>)
    requires micro > 0
    ensures Micros([], micro, shuffle) == []
  {
  }

  lemma GlobalsRest<T>(globals: seq<seq<T>>, micro: nat)
    requires micro > 0 && GlobalsOk(globals, micro) && globals != []
    ensures GlobalsOk(globals[1..], micro)
    ensures globals[0] != [] && Divides(micro, |globals[0]|)
  {
  }

  // ----- The iterator -----

  class BatchResizingIterator<T(!new)> {
    const microBatchSize: nat
    const globalBatchSize: nat
    const shuffle: seq<T> -> seq<T>
    /** The n-th call of get_batch_fn, after its handler. */
    const fetch: nat -> seq<T>

    var fetched: nat
    var consumedBatchSize: nat
    var microBatchIter: seq<seq<T>>
    var globalBatchIter: seq<seq<T>>
    var prefetchMicroBatch: Option<seq<T>>
    var globalBatchDone: bool
    var batches: seq<seq<T>>

    /** All micro-batches produced, and those of them that get_all_batches handed out. */
    ghost var produced: seq<seq<T>>
    ghost var handed: seq<seq<T>>

    /** What is fetched and not yet produced. */
    ghost function Pending(): seq<seq<T>>
      requires microBatchSize > 0
      reads this
    {
      microBatchIter + Micros(globalBatchIter, microBatchSize, shuffle)
    }

    ghost predicate Valid()
      reads this
    {
      && microBatchSize > 0 && globalBatchSize > 0 && Divides(microBatchSize, globalBatchSize)
      && FetchOk(fetch, microBatchSize) && Shuffles(shuffle)
      && MicrosOk(microBatchIter, microBatchSize) && GlobalsOk(globalBatchIter, microBatchSize)
      && Stream(fetch, fetched, microBatchSize, globalBatchSize, shuffle) == produced + Pending()
      && CountOk(|produced|, microBatchSize, globalBatchSize, consumedBatchSize, globalBatchDone)
      && produced == handed + batches
      && (prefetchMicroBatch.Some? ==> produced != [] && produced[|produced| - 1] == prefetchMicroBatch.value)
    }

    /** The counter is the rows produced since the last full global batch, and the flag is up
        exactly when the last micro-batch filled one. */
    lemma DoneMeans()
      requires Valid()
      ensures consumedBatchSize == (|produced| * microBatchSize) % globalBatchSize
      ensures produced != [] ==> (globalBatchDone <==> (|produced| * microBatchSize) % globalBatchSize == 0)
    {
      hide Stream, Shuffles, FetchOk, MicrosOk, GlobalsOk, Divides, Pending;
    }

    /** What `next` has delivered: everything produced but a prefetched micro-batch. */
    ghost function Delivered(): seq<seq<T>>
      requires prefetchMicroBatch.Some? ==> produced != []
      reads this
    {
      if prefetchMicroBatch.Some? then produced[..|produced| - 1] else produced
    }

    constructor (micro: nat, total: nat, parts: nat, fetch: nat -> seq<T>, shuffle: seq<T> -> seq<T>)
      requires micro > 0 && parts > 0 && total / parts > 0 && Divides(micro, total / parts)
      requires FetchOk(fetch, micro) && Shuffles(shuffle)
      ensures Valid() && Delivered() == [] && produced == handed == [] && this.fetch == fetch && this.shuffle == shuffle
      ensures microBatchSize == micro && globalBatchSize == total / parts
    {
      microBatchSize, globalBatchSize, this.shuffle, this.fetch := micro, total / parts, shuffle, fetch;
      fetched, consumedBatchSize := 0, 0;
      microBatchIter, globalBatchIter, prefetchMicroBatch := [], [], None;
      globalBatchDone, batches := false, [];
      produced, handed := [], [];
    }

    /** Produce the next micro-batch; the total consumed never overshoots the global batch. */
    method Produce() returns (micro: seq<T>)
      requires Valid() && microBatchIter != [] && prefetchMicroBatch.None?
      modifies this`microBatchIter, this`globalBatchDone, this`consumedBatchSize, this`batches, this`produced
      ensures Valid() && produced == old(produced) + [micro]
    {
      hide Stream, Micros, Shuffles, FetchOk, CountOk, MicrosOk, GlobalsOk, Divides;
      MicrosRest(microBatchIter, microBatchSize);
      CountNext(|produced|, microBatchSize, globalBatchSize, consumedBatchSize, globalBatchDone);
      micro, microBatchIter := microBatchIter[0], microBatchIter[1..];
      globalBatchDone := false;
      consumedBatchSize := consumedBatchSize + |micro|;
      batches := batches + [micro];
      produced := produced + [micro];
      if consumedBatchSize == globalBatchSize {
        consumedBatchSize := 0;
        globalBatchDone := true;
      } else {
        assert consumedBatchSize < globalBatchSize;
      }
    }

    method GetNextMicroBatch() returns (micro: seq<T>)
      requires Valid() && (prefetchMicroBatch.Some? || microBatchIter != [])
      modifies this`microBatchIter, this`globalBatchDone, this`consumedBatchSize, this`batches, this`produced,
        this`prefetchMicroBatch
      ensures Valid() && prefetchMicroBatch.None? && Delivered() == old(Delivered()) + [micro]
      ensures old(prefetchMicroBatch.Some?) ==> produced == old(produced)
    {
      hide Stream, Micros, Shuffles, FetchOk, GlobalsOk, MicrosOk, CountOk;
      if prefetchMicroBatch.Some? {
        micro := prefetchMicroBatch.value;
        prefetchMicroBatch := None;
      } else {
        micro := Produce();
      }
    }

    /** The fetched batch whole, or cut into global batches when their size divides it. */
    method SplitFetched(batch: seq<T>) returns (globals: seq<seq<T>>)
      requires globalBatchSize > 0 && batch != []
      ensures globals == Globals(batch, globalBatchSize, shuffle)
    {
      GlobalsCases(batch, globalBatchSize, shuffle);
      hide Globals, KSplit, Divides, Quotient;
      if !Divides(globalBatchSize, |batch|) {
        globals := [batch];
      } else {
        globals := KSplit(batch, Quotient(|batch|, globalBatchSize), shuffle);
      }
    }

    /** Fetch a batch; it becomes the pending global batches. */
    method FetchGlobals()
      requires Valid() && microBatchIter == [] && globalBatchIter == []
      modifies this`fetched, this`globalBatchIter
      ensures Valid() && globalBatchIter != [] && fetched == old(fetched) + 1
    {
      hide Micros, Shuffles, GlobalsOk, Stream, CountOk, FetchOk, MicrosOk, Divides, Globals;
      var batch := fetch(fetched);
      FetchedOk(fetch, fetched, microBatchSize);
      GlobalsAreOk(batch, microBatchSize, globalBatchSize, shuffle);
      StreamNext(fetch, fetched, microBatchSize, globalBatchSize, shuffle, produced);
      var globals := SplitFetched(batch);
      fetched, globalBatchIter := fetched + 1, globals;
    }

    /** Split the next global batch into micro-batches. */
    method SplitGlobal()
      requires Valid() && microBatchIter == [] && globalBatchIter != []
      modifies this`globalBatchIter, this`microBatchIter
      ensures Valid() && microBatchIter != []
    {
      hide Stream, Shuffles, FetchOk, GlobalsOk, CountOk, Micros, MicrosOk, KSplit, Chunks, Divides, Quotient;
      var global := globalBatchIter[0];
      GlobalsRest(globalBatchIter, microBatchSize);
      MicrosAreOk(global, microBatchSize, shuffle);
      MicrosFirst(globalBatchIter, microBatchSize, shuffle);
      KSplitIsChunks(global, microBatchSize, shuffle);
      globalBatchIter := globalBatchIter[1..];
      microBatchIter := KSplit(global, Quotient(|global|, microBatchSize), shuffle);
    }

    /** Delivers the next micro-batch of the stream, whether it was prefetched or not. */
    method Next() returns (micro: seq<T>)
      requires Valid()
      modifies this
      ensures Valid() && prefetchMicroBatch.None? && handed == old(handed)
      ensures Delivered() == old(Delivered()) + [micro]
      ensures Delivered() <= Stream(fetch, fetched, microBatchSize, globalBatchSize, shuffle)
      ensures fetched == old(if prefetchMicroBatch.None? && microBatchIter == [] && globalBatchIter == []
                             then fetched + 1 else fetched)
    {
      if prefetchMicroBatch.None? && microBatchIter == [] {
        if globalBatchIter == [] {
          FetchGlobals();
        }
        SplitGlobal();
      }
      micro := GetNextMicroBatch();
    }

    /** Looks at the next micro-batch; nothing is delivered by it. */
    method PrefetchOneBatch() returns (micro: seq<T>)
      requires Valid()
      modifies this
      ensures Valid() && prefetchMicroBatch == Some(micro) && Delivered() == old(Delivered()) && handed == old(handed)
    {
      if prefetchMicroBatch.None? {
        var next := Next();
        prefetchMicroBatch := Some(next);
      }
      return prefetchMicroBatch.value;
    }

    /** The rows of every micro-batch produced since the last call, in order. */
    method GetAllBatches() returns (rows: seq<T>)
      requires Valid()
      modifies this`batches, this`handed
      ensures Valid() && batches == [] && handed == produced
      ensures old(handed) <= handed && rows == Flatten(handed[|old(handed)|..])
    {
      rows := Flatten(batches);
      assert produced[|handed|..] == batches;
      batches := [];
      handed := produced;
    }
  }

  /** One more micro-batch either stays below the global batch size or reaches it exactly. */
  lemma OneMore(count: nat, micro: nat, global: nat)
    requires micro > 0 && global > 0 && Divides(micro, global)
    ensures var consumed := (count * micro) % global;
      && consumed + micro <= global
      && ((count + 1) * micro) % global == if consumed + micro == global then 0 else consumed + micro
  {
    var q, k := (count * micro) / global, global / micro;
    var consumed := (count * micro) % global;
    assert count * micro == q * global + consumed && global == k * micro;
    assert consumed == (count - q * k) * micro by {
      assert q * (k * micro) == (q * k) * micro;
    }
    BelowMultiple(count - q * k, k, micro);
    assert (count + 1) * micro == q * global + (consumed + micro);
    if consumed + micro == global {
      assert (count + 1) * micro == (q + 1) * global + 0;
      DivModUnique((count + 1) * micro, global, q + 1, 0);
    } else {
      DivModUnique((count + 1) * micro, global, q, consumed + micro);
    }
  }

  lemma BelowMultiple(a: int, k: nat, micro: nat)
    requires micro > 0 && a * micro < k * micro
    ensures a * micro + micro <= k * micro
  {
    ProductOrder(a, k, micro);
    MulMonotone(a + 1, k, micro);
  }
}
