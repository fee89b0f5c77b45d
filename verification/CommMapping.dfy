/**
 `CommMapper`: which contiguous piece of a global batch goes from each source rank to each
 destination rank, and what arrives.
 */
module CommMapping {
  import opened Sequences
  import opened Arithmetic
  import opened WindowLookup

  datatype Piece = Piece(rank: nat, size: nat)

  /** Where a rank's slice of the batch begins, each rank having `width` items. */
  function Edge(rank: nat, width: nat): nat {
    rank * width
  }

  lemma EdgeStep(rank: nat, width: nat)
    ensures Edge(rank + 1, width) == Edge(rank, width) + width
  {
  }

  lemma EdgeOrder(a: nat, b: nat, width: nat)
    requires a <= b
    ensures Edge(a, width) <= Edge(b, width)
  {
    MulMonotone(a, b, width);
  }

  lemma EdgeOrderBack(a: nat, b: nat, width: nat)
    requires Edge(a, width) < Edge(b, width)
    ensures a < b
  {
    ProductOrder(a, b, width);
  }

  lemma EdgeEnd(batch: nat, world: nat)
    requires world > 0 && Divides(world, batch)
    ensures Edge(world, Width(batch, world)) == batch
  {
  }

  /** Items per rank. */
  function Width(batch: nat, world: nat): nat
    requires world > 0
  {
    batch / world
  }

  /** The rank whose slice holds an item. */
  function RankOf(item: nat, width: nat): nat
    requires width > 0
  {
    item / width
  }

  /** Items two half-open ranges have in common. */
  function Overlap(a: int, b: int, c: int, d: int): nat {
    Max(0, Min(b, d) - Max(a, c))
  }

  /** Items of source r's slice that lie in destination t's slice. */
  function Share(p: nat, q: nat, r: nat, t: nat): nat {
    Overlap(Edge(r, p), Edge(r + 1, p), Edge(t, q), Edge(t + 1, q))
  }

  /** Source r's non-empty shares among the first n destinations, in rank order. */
  function DstList(p: nat, q: nat, r: nat, n: nat): seq<Piece> {
    if n == 0 then []
    else DstList(p, q, r, n - 1) + if Share(p, q, r, n - 1) > 0 then [Piece(n - 1, Share(p, q, r, n - 1))] else []
  }

  /** Destination t's non-empty shares of the first n sources, in rank order. */
  function SrcList(p: nat, q: nat, t: nat, n: nat): seq<Piece> {
    if n == 0 then []
    else SrcList(p, q, t, n - 1) + if Share(p, q, n - 1, t) > 0 then [Piece(n - 1, Share(p, q, n - 1, t))] else []
  }

  function Clamp(x: int, lo: int, hi: int): int {
    Max(lo, Min(x, hi))
  }

  /** Moving one boundary from a to b covers their overlap of [lo, hi). */
  lemma ClampStep(a: int, b: int, lo: int, hi: int)
    requires a <= b && lo <= hi
    ensures Clamp(b, lo, hi) == Clamp(a, lo, hi) + Overlap(lo, hi, a, b)
    ensures Overlap(lo, hi, a, b) == Overlap(a, b, lo, hi)
    ensures Overlap(lo, hi, a, b) > 0 ==> Clamp(a, lo, hi) == Max(a, lo)
  {
  }

  function Sizes(list: seq<Piece>): (s: seq<nat>)
    ensures |s| == |list| && forall i :: 0 <= i < |s| ==> s[i] == list[i].size
  {
    seq(|list|, i requires 0 <= i < |list| => list[i].size)
  }

  // ----- The sender's view -----

  /** The destinations before the first one that source r reaches get nothing. */
  lemma {:induction false} NothingBelow(p: nat, q: nat, r: nat, n: nat)
    requires Edge(n, q) <= Edge(r, p)
    ensures DstList(p, q, r, n) == []
  {
    if n > 0 {
      EdgeStep(n - 1, q);
      hide Edge;
      NothingBelow(p, q, r, n - 1);
    }
  }

  /** Nor do those behind the end of source r's slice. */
  lemma {:induction false} NothingAbove(p: nat, q: nat, r: nat, n: nat, m: nat)
    requires n <= m && Edge(r + 1, p) <= Edge(n, q)
    ensures DstList(p, q, r, m) == DstList(p, q, r, n)
    decreases m
  {
    if n < m {
      EdgeOrder(n, m - 1, q);
      hide Edge;
      NothingAbove(p, q, r, n, m - 1);
    }
  }

  /** A source without items sends nothing. */
  lemma {:induction false} NothingToSend(q: nat, r: nat, n: nat)
    ensures DstList(0, q, r, n) == []
  {
    if n > 0 {
      NothingToSend(q, r, n - 1);
    }
  }

  /** The destination the cursor lies in is where the next piece goes, and it takes the
      whole share. */
  lemma CursorStep(p: nat, q: nat, r: nat, t: nat, cursor: nat)
    requires q > 0 && Edge(r, p) <= cursor < Edge(r + 1, p)
    requires cursor == Max(Edge(r, p), Edge(t, q)) && cursor < Edge(t + 1, q)
    ensures RankOf(cursor, q) == t && Edge(t, q) <= cursor
    ensures Min(q - (cursor - Edge(t, q)), Edge(r + 1, p) - cursor) == Share(p, q, r, t) > 0
    ensures cursor + Share(p, q, r, t) == Min(Edge(r + 1, p), Edge(t + 1, q))
  {
    EdgeStep(t, q);
    assert cursor == t * q + (cursor - Edge(t, q));
    DivModUnique(cursor, q, t, cursor - Edge(t, q));
    hide Edge;
  }

  predicate GoodArguments(batch: nat, srcWorld: nat, dstWorld: nat, rank: int, world: nat)
    requires srcWorld > 0 && dstWorld > 0
  {
    Divides(srcWorld, batch) && Divides(dstWorld, batch) && 0 <= rank < world
  }

  lemma ArgumentsMean(batch: nat, srcWorld: nat, dstWorld: nat, rank: int, world: nat)
    requires srcWorld > 0 && dstWorld > 0
    ensures GoodArguments(batch, srcWorld, dstWorld, rank, world) <==>
      batch % srcWorld == 0 && batch % dstWorld == 0 && 0 <= rank < world
  {
  }

  /** The cursor either starts inside destination t or has just reached its edge. */
  ghost predicate CursorOk(p: nat, q: nat, r: nat, t: nat, cursor: nat) {
    && cursor == Min(Edge(r + 1, p), Max(Edge(r, p), Edge(t, q)))
    && (q > 0 ==> Edge(r, p) < Edge(t + 1, q))
  }

  lemma CursorStart(p: nat, q: nat, r: nat, world: nat) returns (t: nat)
    requires q == 0 ==> p == 0
    requires Edge(r + 1, p) <= Edge(world, q)
    ensures t <= world && CursorOk(p, q, r, t, Edge(r, p)) && DstList(p, q, r, t) == []
  {
    t := 0;
    if q > 0 {
      t := Edge(r, p) / q;
      assert Edge(r, p) == t * q + Edge(r, p) % q;
      EdgeStep(r, p);
      EdgeStep(t, q);
      NothingBelow(p, q, r, t);
      if t > world {
        EdgeOrder(world + 1, t, q);
        EdgeStep(world, q);
      }
    }
  }

  lemma CursorAdvance(p: nat, q: nat, r: nat, t: nat, cursor: nat, world: nat)
    requires q > 0 && CursorOk(p, q, r, t, cursor) && cursor < Edge(r + 1, p) <= Edge(world, q)
    ensures t < world
    ensures RankOf(cursor, q) == t && Edge(t, q) <= cursor
    ensures Min(q - (cursor - Edge(t, q)), Edge(r + 1, p) - cursor) == Share(p, q, r, t) > 0
    ensures CursorOk(p, q, r, t + 1, cursor + Share(p, q, r, t))
    ensures DstList(p, q, r, t + 1) == DstList(p, q, r, t) + [Piece(t, Share(p, q, r, t))]
  {
    EdgeStep(t, q);
    EdgeStep(t + 1, q);
    EdgeStep(r, p);
    EdgeOrderBack(t, world, q);
    hide Edge;
    CursorStep(p, q, r, t, cursor);
    hide Share;
  }

  lemma CursorEnd(p: nat, q: nat, r: nat, t: nat, cursor: nat, world: nat)
    requires CursorOk(p, q, r, t, cursor) && cursor >= Edge(r + 1, p) && t <= world
    requires Edge(r + 1, p) <= Edge(world, q)
    ensures DstList(p, q, r, t) == DstList(p, q, r, world)
  {
    if p == 0 {
      NothingToSend(q, r, t);
      NothingToSend(q, r, world);
    } else {
      EdgeStep(r, p);
      hide Edge;
      NothingAbove(p, q, r, t, world);
    }
  }

  /** None when an argument assert fails; otherwise exactly the non-empty overlaps of the
      source's slice with the destinations' slices, in order. */
  method GetDstRanks(batch: nat, srcWorld: nat, dstWorld: nat, srcRank: int) returns (out: Option<seq<Piece>>)
    requires srcWorld > 0 && dstWorld > 0
    ensures out.Some? <==> batch % srcWorld == 0 && batch % dstWorld == 0 && 0 <= srcRank < srcWorld
    ensures out == if GoodArguments(batch, srcWorld, dstWorld, srcRank, srcWorld)
                   then Some(DstList(Width(batch, srcWorld), Width(batch, dstWorld), srcRank, dstWorld)) else None
  {
    hide Edge, Share, RankOf, CursorOk, DstList, Width, Divides;
    ArgumentsMean(batch, srcWorld, dstWorld, srcRank, srcWorld);
    if !Divides(srcWorld, batch) || !Divides(dstWorld, batch) || !(0 <= srcRank < srcWorld) {
      return None;
    }
    var p, q := Width(batch, srcWorld), Width(batch, dstWorld);
    SourceInBatch(batch, srcWorld, dstWorld, srcRank);
    var list: seq<Piece> := [];
    var begin: nat, end: nat := Edge(srcRank, p), Edge(srcRank + 1, p);
    ghost var t: nat := CursorStart(p, q, srcRank, dstWorld);
    while begin < end
      invariant begin < end ==> q > 0
      invariant t <= dstWorld && CursorOk(p, q, srcRank, t, begin) && list == DstList(p, q, srcRank, t)
      decreases end - begin
    {
      CursorAdvance(p, q, srcRank, t, begin, dstWorld);
      var dstRank := RankOf(begin, q);
      var dstRemaining := q - (begin - Edge(dstRank, q));
      var srcRemaining := end - begin;
      var dstSize := Min(dstRemaining, srcRemaining);
      list := list + [Piece(dstRank, dstSize)];
      begin := begin + dstSize;
      t := t + 1;
    }
    CursorEnd(p, q, srcRank, t, begin, dstWorld);
    return Some(list);
  }

  lemma SourceInBatch(batch: nat, srcWorld: nat, dstWorld: nat, r: nat)
    requires srcWorld > 0 && dstWorld > 0 && Divides(srcWorld, batch) && Divides(dstWorld, batch) && r < srcWorld
    ensures Edge(r + 1, Width(batch, srcWorld)) <= Edge(dstWorld, Width(batch, dstWorld)) == batch
    ensures Edge(r, Width(batch, srcWorld)) < Edge(r + 1, Width(batch, srcWorld)) ==> Width(batch, dstWorld) > 0
    ensures Width(batch, dstWorld) == 0 ==> Width(batch, srcWorld) == 0
  {
    EdgeStep(r, Width(batch, srcWorld));
    EdgeEnd(batch, srcWorld);
    EdgeEnd(batch, dstWorld);
    EdgeOrder(r + 1, srcWorld, Width(batch, srcWorld));
  }

  // ----- The receiver's view -----

  /** The pieces of a sender's list that are for destination t, as seen by the receiver. */
  function Matching(list: seq<Piece>, t: nat, r: nat): (out: seq<Piece>) {
    if list == [] then []
    else
      var last := list[|list| - 1];
      Matching(list[..|list| - 1], t, r) + if last.rank == t then [Piece(r, last.size)] else []
  }

  lemma MatchingNext(list: seq<Piece>, j: nat, t: nat, r: nat)
    requires j < |list|
    ensures Matching(list[..j + 1], t, r)
         == Matching(list[..j], t, r) + if list[j].rank == t then [Piece(r, list[j].size)] else []
  {
    assert list[..j + 1][..j] == list[..j];
  }

  lemma MatchingAppend(list: seq<Piece>, x: Piece, t: nat, r: nat)
    ensures Matching(list + [x], t, r)
         == if x.rank == t then Matching(list, t, r) + [Piece(r, x.size)] else Matching(list, t, r)
  {
    assert (list + [x])[..|list|] == list;
  }

  lemma DstListNext(p: nat, q: nat, r: nat, n: nat)
    requires n > 0
    ensures Share(p, q, r, n - 1) == 0 ==> DstList(p, q, r, n) == DstList(p, q, r, n - 1)
    ensures Share(p, q, r, n - 1) > 0 ==>
      (DstList(p, q, r, n) == DstList(p, q, r, n - 1) + [Piece(n - 1, Share(p, q, r, n - 1))])
  {
  }

  /** A sender names each destination at most once, with their overlap. */
  lemma NothingMatches(p: nat, q: nat, r: nat, t: nat)
    ensures Matching(DstList(p, q, r, 0), t, r) == []
  {
  }

  lemma {:induction false} MatchingIsShare(p: nat, q: nat, r: nat, t: nat, n: nat)
    ensures Matching(DstList(p, q, r, n), t, r)
         == if t < n && Share(p, q, r, t) > 0 then [Piece(r, Share(p, q, r, t))] else []
  {
    hide Share, Matching, DstList;
    if n == 0 {
      NothingMatches(p, q, r, t);
    } else {
      MatchingIsShare(p, q, r, t, n - 1);
      DstListNext(p, q, r, n);
      var x := Piece(n - 1, Share(p, q, r, n - 1));
      MatchingAppend(DstList(p, q, r, n - 1), x, t, r);
      assert [] + [Piece(r, x.size)] == [Piece(r, x.size)];
    }
  }

  lemma SrcListNext(p: nat, q: nat, t: nat, n: nat)
    ensures Share(p, q, n, t) == 0 ==> SrcList(p, q, t, n + 1) == SrcList(p, q, t, n)
    ensures Share(p, q, n, t) > 0 ==> SrcList(p, q, t, n + 1) == SrcList(p, q, t, n) + [Piece(n, Share(p, q, n, t))]
  {
  }

  function Total(list: seq<Piece>): nat {
    Before(Sizes(list), |list|)
  }

  lemma TotalNext(list: seq<Piece>, x: Piece)
    ensures Total(list + if x.size > 0 then [x] else []) == Total(list) + x.size
  {
    BeforePrefix(Sizes(list), Sizes(list + [x]), |list|);
    assert list + [] == list;
  }

  lemma {:induction false} BeforePrefix(a: seq<nat>, b: seq<nat>, n: nat)
    requires n <= |a| <= |b| && a == b[..|a|]
    ensures Before(a, n) == Before(b, n)
  {
    if n > 0 {
      BeforePrefix(a, b, n - 1);
    }
  }

  /** The first n sources cover destination t's slice up to the end of their own. */
  lemma {:induction false} ReceivedTotal(p: nat, q: nat, t: nat, n: nat)
    ensures Edge(t, q) <= Edge(t + 1, q)
    ensures Total(SrcList(p, q, t, n)) == Clamp(Edge(n, p), Edge(t, q), Edge(t + 1, q)) - Edge(t, q)
  {
    EdgeStep(t, q);
    if n > 0 {
      EdgeStep(n - 1, p);
      ReceivedTotal(p, q, t, n - 1);
      hide Edge, Total, Clamp, Overlap;
      ClampStep(Edge(n - 1, p), Edge(n, p), Edge(t, q), Edge(t + 1, q));
      TotalNext(SrcList(p, q, t, n - 1), Piece(n - 1, Share(p, q, n - 1, t)));
    }
  }

  lemma SrcListStart(p: nat, q: nat, t: nat)
    ensures SrcList(p, q, t, 0) == []
  {
  }

  /** Everything a destination expects arrives. */
  lemma AllReceived(batch: nat, srcWorld: nat, dstWorld: nat, t: nat)
    requires srcWorld > 0 && dstWorld > 0 && Divides(srcWorld, batch) && Divides(dstWorld, batch) && t < dstWorld
    ensures Total(SrcList(Width(batch, srcWorld), Width(batch, dstWorld), t, srcWorld)) == Width(batch, dstWorld)
  {
    var p, q := Width(batch, srcWorld), Width(batch, dstWorld);
    ReceivedTotal(p, q, t, srcWorld);
    SourceInBatch(batch, dstWorld, srcWorld, t);
    EdgeEnd(batch, srcWorld);
    EdgeStep(t, q);
  }

  /** The inner loop: what source r sends to the destination joins the list. */
  method TakeMatching(list: seq<Piece>, pieces: seq<Piece>, dstRank: nat, r: nat) returns (next: seq<Piece>)
    ensures next == list + Matching(pieces, dstRank, r)
  {
    next := list;
    assert list + Matching([], dstRank, r) == list;
    var j := 0;
    while j < |pieces|
      invariant j <= |pieces| && next == list + Matching(pieces[..j], dstRank, r)
    {
      hide Matching;
      MatchingNext(pieces, j, dstRank, r);
      if pieces[j].rank == dstRank {
        next := next + [Piece(r, pieces[j].size)];
      }
      j := j + 1;
    }
    assert pieces[..j] == pieces;
  }

  /** None when an argument assert fails; the assert on the received size never does, and
      the result is exactly the non-empty overlaps with the sources' slices, in order. */
  method GetSrcRanks(batch: nat, srcWorld: nat, dstWorld: nat, dstRank: int) returns (out: Option<seq<Piece>>)
    requires srcWorld > 0 && dstWorld > 0
    ensures out.Some? <==> batch % srcWorld == 0 && batch % dstWorld == 0 && 0 <= dstRank < dstWorld
    ensures out == if GoodArguments(batch, srcWorld, dstWorld, dstRank, dstWorld)
                   then Some(SrcList(Width(batch, srcWorld), Width(batch, dstWorld), dstRank, srcWorld)) else None
  {
    hide Width, Divides, Share, Total, SrcList, Matching;
    ArgumentsMean(batch, srcWorld, dstWorld, dstRank, dstWorld);
    if !Divides(srcWorld, batch) || !Divides(dstWorld, batch) || !(0 <= dstRank < dstWorld) {
      return None;
    }
    ghost var p, q := Width(batch, srcWorld), Width(batch, dstWorld);
    AllReceived(batch, srcWorld, dstWorld, dstRank);
    SrcListStart(p, q, dstRank);
    var list: seq<Piece>, r: nat := [], 0;
    while r < srcWorld
      invariant r <= srcWorld && list == SrcList(p, q, dstRank, r)
    {
      var sent := GetDstRanks(batch, srcWorld, dstWorld, r);
      MatchingIsShare(p, q, r, dstRank, dstWorld);
      SrcListNext(p, q, dstRank, r);
      list := TakeMatching(list, sent.value, dstRank, r);
      r := r + 1;
    }
    if Total(list) != Width(batch, dstWorld) {
      assert false;
      return None;
    }
    return Some(list);
  }

  /** Sender and receiver list the same pieces: t is in source r's list with a size exactly
      when r is in destination t's list with that size, and the size is their overlap. */
  lemma ViewsAgree(p: nat, q: nat, r: nat, t: nat, sources: nat, dests: nat, size: nat)
    requires r < sources && t < dests
    ensures Piece(t, size) in DstList(p, q, r, dests) <==> size > 0 && size == Share(p, q, r, t)
    ensures Piece(r, size) in SrcList(p, q, t, sources) <==> size > 0 && size == Share(p, q, r, t)
  {
    InDstList(p, q, r, dests, Piece(t, size));
    InSrcList(p, q, t, sources, Piece(r, size));
  }

  lemma {:induction false} InDstList(p: nat, q: nat, r: nat, n: nat, x: Piece)
    ensures x in DstList(p, q, r, n) <==> x.rank < n && x.size > 0 && x.size == Share(p, q, r, x.rank)
  {
    hide Share;
    if n > 0 {
      InDstList(p, q, r, n - 1, x);
    }
  }

  lemma {:induction false} InSrcList(p: nat, q: nat, t: nat, n: nat, x: Piece)
    ensures x in SrcList(p, q, t, n) <==> x.rank < n && x.size > 0 && x.size == Share(p, q, x.rank, t)
  {
    hide Share;
    if n > 0 {
      InSrcList(p, q, t, n - 1, x);
    }
  }

  // ----- Delivery -----

  /** Before the piece for destination t a sender has cut off exactly the part of its slice
      in front of t's slice. */
  lemma {:induction false} SentTotal(p: nat, q: nat, r: nat, n: nat)
    ensures Edge(r, p) <= Edge(r + 1, p)
    ensures Total(DstList(p, q, r, n)) == Clamp(Edge(n, q), Edge(r, p), Edge(r + 1, p)) - Edge(r, p)
  {
    EdgeStep(r, p);
    if n > 0 {
      EdgeStep(n - 1, q);
      SentTotal(p, q, r, n - 1);
      hide Edge, Total, Clamp, Overlap;
      ClampStep(Edge(n - 1, q), Edge(n, q), Edge(r, p), Edge(r + 1, p));
      TotalNext(DstList(p, q, r, n - 1), Piece(n - 1, Share(p, q, r, n - 1)));
    }
  }

  lemma TotalShorter(list: seq<Piece>, n: nat)
    requires n <= |list|
    ensures Total(list[..n]) <= Total(list)
  {
    BeforePrefix(Sizes(list[..n]), Sizes(list), n);
    BeforeMonotone(Sizes(list), n, |list|);
  }

  /** A sender's slice, cut into consecutive parts of the listed sizes. */
  function Cut<T>(slice: seq<T>, list: seq<Piece>): (parts: seq<seq<T>>)
    requires Total(list) <= |slice|
    ensures |parts| == |list|
  {
    if list == [] then []
    else
      TotalShorter(list, |list| - 1);
      Cut(slice, list[..|list| - 1]) + [slice[Total(list[..|list| - 1])..Total(list)]]
  }

  /** What reaches destination t when part j goes to the rank of list entry j. */
  function Addressed<T>(list: seq<Piece>, parts: seq<seq<T>>, t: nat): seq<T>
    requires |parts| == |list|
  {
    if list == [] then []
    else
      var n := |list| - 1;
      Addressed(list[..n], parts[..n], t) + if list[n].rank == t then parts[n] else []
  }

  lemma AddressedNext<T>(slice: seq<T>, list: seq<Piece>, x: Piece, t: nat)
    requires Total(list + [x]) <= |slice|
    ensures Total(list) <= Total(list + [x])
    ensures Addressed(list + [x], Cut(slice, list + [x]), t)
         == Addressed(list, Cut(slice, list), t) + if x.rank == t then slice[Total(list)..Total(list + [x])] else []
  {
    TotalShorter(list + [x], |list|);
    assert (list + [x])[..|list|] == list;
    assert Cut(slice, list + [x])[..|list|] == Cut(slice, list);
  }

  /** A source's whole slice fits its list, and is used up by it. */
  lemma SliceFits(p: nat, q: nat, r: nat, n: nat)
    ensures Edge(r + 1, p) == Edge(r, p) + p
    ensures Total(DstList(p, q, r, n)) <= p
    ensures Edge(n, q) >= Edge(r + 1, p) ==> Total(DstList(p, q, r, n)) == p
  {
    EdgeStep(r, p);
    hide Edge;
    SentTotal(p, q, r, n);
  }

  function SliceOf<T>(batch: seq<T>, p: nat, r: nat): (slice: seq<T>)
    requires Edge(r + 1, p) <= |batch|
    ensures |slice| == p
  {
    EdgeStep(r, p);
    batch[Edge(r, p)..Edge(r + 1, p)]
  }

  /** The items of the batch that source r and destination t have in common. */
  function Common<T>(batch: seq<T>, p: nat, q: nat, r: nat, t: nat): seq<T>
    requires Edge(r + 1, p) <= |batch|
  {
    if Share(p, q, r, t) == 0 then []
    else
      EdgeStep(r, p);
      batch[Max(Edge(r, p), Edge(t, q))..Max(Edge(r, p), Edge(t, q)) + Share(p, q, r, t)]
  }

  lemma CutOffset(p: nat, q: nat, r: nat, t: nat)
    requires Share(p, q, r, t) > 0
    ensures Total(DstList(p, q, r, t)) == Max(Edge(r, p), Edge(t, q)) - Edge(r, p)
    ensures Total(DstList(p, q, r, t + 1)) == Total(DstList(p, q, r, t)) + Share(p, q, r, t)
  {
    EdgeStep(r, p);
    EdgeStep(t, q);
    SentTotal(p, q, r, t);
    SentTotal(p, q, r, t + 1);
    hide Edge, Total, DstList;
    ClampStep(Edge(t, q), Edge(t + 1, q), Edge(r, p), Edge(r + 1, p));
  }

  lemma SliceOfSlice<T>(batch: seq<T>, lo: nat, hi: nat, a: nat, b: nat)
    requires lo <= hi <= |batch| && a <= b <= hi - lo
    ensures batch[lo..hi][a..b] == batch[lo + a..lo + b]
  {
    var mid := batch[lo..hi];
    assert forall j :: 0 <= j < |mid| ==> mid[j] == batch[lo + j];
    forall i | 0 <= i < b - a
      ensures mid[a..b][i] == batch[lo + a..lo + b][i]
    {
      assert mid[a..b][i] == mid[a + i];
    }
  }

  lemma CommonIsPart<T>(batch: seq<T>, p: nat, q: nat, r: nat, t: nat)
    requires Edge(r + 1, p) <= |batch| && Share(p, q, r, t) > 0
    ensures Total(DstList(p, q, r, t)) <= Total(DstList(p, q, r, t + 1)) <= p
    ensures SliceOf(batch, p, r)[Total(DstList(p, q, r, t))..Total(DstList(p, q, r, t + 1))]
      == Common(batch, p, q, r, t)
  {
    hide Edge, Total, DstList, Share;
    CutOffset(p, q, r, t);
    SliceFits(p, q, r, t + 1);
    SliceOfSlice(batch, Edge(r, p), Edge(r + 1, p), Total(DstList(p, q, r, t)), Total(DstList(p, q, r, t + 1)));
  }

  lemma NothingCommon<T>(batch: seq<T>, p: nat, q: nat, r: nat, t: nat)
    requires Edge(r + 1, p) <= |batch| && Share(p, q, r, t) == 0
    ensures Common(batch, p, q, r, t) == []
  {
  }

  /** What source r sends to t, out of its own slice. */
  function Arriving<T>(batch: seq<T>, p: nat, q: nat, dests: nat, r: nat, t: nat): seq<T>
    requires Edge(r + 1, p) <= |batch|
  {
    SliceFits(p, q, r, dests);
    Addressed(DstList(p, q, r, dests), Cut(SliceOf(batch, p, r), DstList(p, q, r, dests)), t)
  }

  lemma ArrivingNext<T>(batch: seq<T>, p: nat, q: nat, n: nat, r: nat, t: nat)
    requires Edge(r + 1, p) <= |batch|
    ensures Arriving(batch, p, q, n + 1, r, t)
         == Arriving(batch, p, q, n, r, t) + if t == n then Common(batch, p, q, r, n) else []
  {
    SliceFits(p, q, r, n);
    SliceFits(p, q, r, n + 1);
    DstListNext(p, q, r, n + 1);
    if Share(p, q, r, n) > 0 {
      CommonIsPart(batch, p, q, r, n);
      hide DstList, Edge, Cut, Addressed, Share, Total, Common, SliceOf;
      AddressedNext(SliceOf(batch, p, r), DstList(p, q, r, n), Piece(n, Share(p, q, r, n)), t);
    } else {
      hide DstList, Edge, Cut, Addressed, Share, Total, SliceOf;
      assert Common(batch, p, q, r, n) == [];
    }
  }

  lemma NothingArrives<T>(batch: seq<T>, p: nat, q: nat, r: nat, t: nat)
    requires Edge(r + 1, p) <= |batch|
    ensures Arriving(batch, p, q, 0, r, t) == []
  {
    hide Edge;
    assert DstList(p, q, r, 0) == [];
  }

  /** What source r sends to t is what their slices have in common. */
  lemma {:induction false} ArrivingIsCommon<T>(batch: seq<T>, p: nat, q: nat, n: nat, r: nat, t: nat)
    requires Edge(r + 1, p) <= |batch|
    ensures Arriving(batch, p, q, n, r, t) == if t < n then Common(batch, p, q, r, t) else []
  {
    hide Edge, Arriving, Common;
    if n == 0 {
      NothingArrives(batch, p, q, r, t);
    } else {
      ArrivingIsCommon(batch, p, q, n - 1, r, t);
      ArrivingNext(batch, p, q, n - 1, r, t);
    }
  }

  /** Every listed source has its whole slice in the batch. */
  ghost predicate InBatch(list: seq<Piece>, p: nat, size: nat) {
    forall i :: 0 <= i < |list| ==> Edge(list[i].rank + 1, p) <= size
  }

  /** What destination t has after receiving, in list order, from each listed source. */
  ghost function Delivered<T>(batch: seq<T>, p: nat, q: nat, dests: nat, t: nat, list: seq<Piece>): seq<T>
    requires InBatch(list, p, |batch|)
  {
    if list == [] then []
    else
      var n := |list| - 1;
      Delivered(batch, p, q, dests, t, list[..n]) + Arriving(batch, p, q, dests, list[n].rank, t)
  }

  lemma DeliveredNext<T>(batch: seq<T>, p: nat, q: nat, dests: nat, t: nat, list: seq<Piece>, x: Piece)
    requires InBatch(list, p, |batch|) && Edge(x.rank + 1, p) <= |batch|
    ensures InBatch(list + [x], p, |batch|)
    ensures Delivered(batch, p, q, dests, t, list + [x])
         == Delivered(batch, p, q, dests, t, list) + Arriving(batch, p, q, dests, x.rank, t)
  {
    hide Edge, Arriving;
    assert (list + [x])[..|list|] == list;
  }

  /** Joining the next source's part extends the range received so far. */
  lemma CommonExtends<T>(batch: seq<T>, p: nat, q: nat, r: nat, t: nat)
    requires Edge(r + 1, p) <= |batch| && Edge(t + 1, q) <= |batch|
    ensures Edge(t, q) <= Clamp(Edge(r, p), Edge(t, q), Edge(t + 1, q))
         <= Clamp(Edge(r + 1, p), Edge(t, q), Edge(t + 1, q)) <= |batch|
    ensures batch[Edge(t, q)..Clamp(Edge(r, p), Edge(t, q), Edge(t + 1, q))] + Common(batch, p, q, r, t)
         == batch[Edge(t, q)..Clamp(Edge(r + 1, p), Edge(t, q), Edge(t + 1, q))]
  {
    EdgeStep(r, p);
    EdgeStep(t, q);
    hide Edge;
    ClampStep(Edge(r, p), Edge(r + 1, p), Edge(t, q), Edge(t + 1, q));
  }

  lemma DeliveredStep<T>(batch: seq<T>, p: nat, q: nat, dests: nat, t: nat, n: nat)
    requires t < dests && Edge(n + 1, p) <= |batch| && Edge(t + 1, q) <= |batch|
    requires InBatch(SrcList(p, q, t, n), p, |batch|)
    requires Edge(t, q) <= Clamp(Edge(n, p), Edge(t, q), Edge(t + 1, q)) <= |batch|
    requires Delivered(batch, p, q, dests, t, SrcList(p, q, t, n))
      == batch[Edge(t, q)..Clamp(Edge(n, p), Edge(t, q), Edge(t + 1, q))]
    ensures InBatch(SrcList(p, q, t, n + 1), p, |batch|)
    ensures Edge(t, q) <= Clamp(Edge(n + 1, p), Edge(t, q), Edge(t + 1, q)) <= |batch|
    ensures Delivered(batch, p, q, dests, t, SrcList(p, q, t, n + 1))
         == batch[Edge(t, q)..Clamp(Edge(n + 1, p), Edge(t, q), Edge(t + 1, q))]
  {
    hide Edge, Share, Clamp, SrcList, Delivered, InBatch, Arriving, Common;
    SrcListNext(p, q, t, n);
    CommonExtends(batch, p, q, n, t);
    if Share(p, q, n, t) > 0 {
      ArrivingIsCommon(batch, p, q, dests, n, t);
      DeliveredNext(batch, p, q, dests, t, SrcList(p, q, t, n), Piece(n, Share(p, q, n, t)));
    } else {
      NothingCommon(batch, p, q, n, t);
      SeqEndsEmpty(batch[Edge(t, q)..Clamp(Edge(n, p), Edge(t, q), Edge(t + 1, q))]);
    }
  }

  lemma SeqEndsEmpty<T>(s: seq<T>)
    ensures s + [] == s
  {
  }

  /** After the first n sources destination t holds the batch from the start of its slice to
      the end of theirs. */
  lemma {:induction false} DeliveredSoFar<T>(batch: seq<T>, p: nat, q: nat, dests: nat, t: nat, n: nat)
    requires t < dests && Edge(n, p) <= |batch| && Edge(t + 1, q) <= |batch|
    ensures InBatch(SrcList(p, q, t, n), p, |batch|)
    ensures Edge(t, q) <= Clamp(Edge(n, p), Edge(t, q), Edge(t + 1, q)) <= |batch|
    ensures Delivered(batch, p, q, dests, t, SrcList(p, q, t, n))
      == batch[Edge(t, q)..Clamp(Edge(n, p), Edge(t, q), Edge(t + 1, q))]
  {
    EdgeStep(t, q);
    if n > 0 {
      EdgeStep(n - 1, p);
      hide Edge;
      DeliveredSoFar(batch, p, q, dests, t, n - 1);
      DeliveredStep(batch, p, q, dests, t, n - 1);
    }
  }

  /** End to end: what each destination receives, in the order it is told to receive, is
      exactly its own contiguous slice of the batch. */
  lemma EndToEnd<T>(batch: seq<T>, srcWorld: nat, dstWorld: nat, t: nat)
    requires srcWorld > 0 && dstWorld > 0 && Divides(srcWorld, |batch|) && Divides(dstWorld, |batch|) && t < dstWorld
    ensures var p, q := Width(|batch|, srcWorld), Width(|batch|, dstWorld);
      && InBatch(SrcList(p, q, t, srcWorld), p, |batch|) && Edge(t + 1, q) <= |batch|
      && Delivered(batch, p, q, dstWorld, t, SrcList(p, q, t, srcWorld)) == SliceOf(batch, q, t)
  {
    hide Width, Divides, Delivered, SrcList, InBatch, Edge;
    var p, q := Width(|batch|, srcWorld), Width(|batch|, dstWorld);
    EdgeEnd(|batch|, srcWorld);
    EdgeEnd(|batch|, dstWorld);
    EdgeOrder(t + 1, dstWorld, q);
    EdgeStep(t, q);
    DeliveredSoFar(batch, p, q, dstWorld, t, srcWorld);
  }
}
