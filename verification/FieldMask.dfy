/**
 Done flags come with one extra row at the head of every rollout epoch. Masking them down to
 selected steps, and removing the heads before and after masking.
 */
module FieldMask {
  import opened Sequences
  import opened Arithmetic

  /** A row of a flag field; `head` marks the extra first row of an epoch. */
  datatype Row = Row(id: nat, head: bool)

  function Times(k: nat, n: nat): nat {
    k * n
  }

  lemma TimesStep(k: nat, n: nat)
    ensures Times(k + 1, n) == Times(k, n) + n && Times(0, n) == 0
  {
  }

  /** `rows[mask]`. */
  function Filter<T>(rows: seq<T>, mask: seq<bool>): (r: seq<T>)
    requires |rows| == |mask|
  {
    if rows == [] then [] else (if mask[0] then [rows[0]] else []) + Filter(rows[1..], mask[1..])
  }

  /** The mask of a flag field: every epoch's head, then the epoch's own part of the mask. */
  function FieldMaskOf(mask: seq<bool>, epochLen: nat, epochs: nat): (m: seq<bool>)
    requires |mask| == Times(epochs, epochLen)
    ensures |m| == Times(epochs, epochLen + 1)
  {
    if epochs == 0 then []
    else
      TimesStep(epochs - 1, epochLen);
      TimesStep(epochs - 1, epochLen + 1);
      [true] + mask[..epochLen] + FieldMaskOf(mask[epochLen..], epochLen, epochs - 1)
  }

  /** `_flatten_trajectory` drops the first row of each of `epochs` equal parts. */
  function HeadsRemoved<T>(rows: seq<T>, epochLen: nat, epochs: nat): (r: seq<T>)
    requires |rows| == Times(epochs, epochLen + 1)
    ensures |r| == Times(epochs, epochLen)
  {
    if epochs == 0 then []
    else
      TimesStep(epochs - 1, epochLen);
      TimesStep(epochs - 1, epochLen + 1);
      rows[1..epochLen + 1] + HeadsRemoved(rows[epochLen + 1..], epochLen, epochs - 1)
  }

  // ----- The index arithmetic -----

  /** Which entry of the mask decides over row i, None for a head. */
  function MaskIndex(i: nat, epochLen: nat): Option<nat> {
    var epoch, step := i / (epochLen + 1), i % (epochLen + 1);
    if step == 0 then None else Some(Times(epoch, epochLen) + (step - 1))
  }

  function Shift(m: Option<nat>, offset: nat): Option<nat> {
    if m.None? then None else Some(m.value + offset)
  }

  lemma MaskIndexFirst(i: nat, epochLen: nat)
    ensures i <= epochLen ==> MaskIndex(i, epochLen) == if i == 0 then None else Some(i - 1)
    ensures i > epochLen ==> MaskIndex(i, epochLen) == Shift(MaskIndex(i - (epochLen + 1), epochLen), epochLen)
  {
    var w := epochLen + 1;
    if i <= epochLen {
      DivModUnique(i, w, 0, i);
    } else {
      var j := i - w;
      assert j == (j / w) * w + j % w;
      assert i == (j / w + 1) * w + j % w;
      DivModUnique(i, w, j / w + 1, j % w);
      TimesStep(j / w, epochLen);
    }
  }

  /** The field mask at row i: on for a head, else the mask's entry for that step. */
  lemma {:induction false} FieldMaskAt(mask: seq<bool>, epochLen: nat, epochs: nat, i: nat)
    requires |mask| == Times(epochs, epochLen) && i < Times(epochs, epochLen + 1)
    ensures var m := MaskIndex(i, epochLen);
      && (m.Some? ==> m.value < |mask|)
      && (FieldMaskOf(mask, epochLen, epochs)[i] <==> m.None? || mask[m.value])
  {
    if epochs > 0 {
      TimesStep(epochs - 1, epochLen);
      TimesStep(epochs - 1, epochLen + 1);
      MaskIndexFirst(i, epochLen);
      hide MaskIndex, Times;
      if i > epochLen {
        FieldMaskAt(mask[epochLen..], epochLen, epochs - 1, i - (epochLen + 1));
      }
    }
  }

  lemma EpochsFit(extra: nat, trajLen: nat)
    requires extra > 0 && trajLen % extra == 0
    ensures Times(extra, trajLen / extra) == trajLen
    ensures Times(extra, trajLen / extra + 1) == trajLen + extra
  {
  }

  /** The mask itself for a field as long as the trajectory; for a longer one, every epoch's
      head and exactly the selected steps; None when the assert or the length check fails. */
  method GenerateFieldMask(refLen: nat, mask: seq<bool>, trajLen: nat) returns (out: Option<seq<bool>>)
    requires |mask| == trajLen
    ensures refLen == trajLen ==> out == Some(mask)
    ensures refLen < trajLen || (refLen > trajLen && trajLen % (refLen - trajLen) != 0) ==> out == None
    ensures refLen > trajLen && trajLen % (refLen - trajLen) == 0 ==>
      var extra := refLen - trajLen;
      Times(extra, trajLen / extra) == trajLen && out == Some(FieldMaskOf(mask, trajLen / extra, extra))
  {
    if refLen == trajLen {
      return Some(mask);
    } else if refLen < trajLen {
      return None;
    }
    var extra := refLen - trajLen;
    if trajLen % extra != 0 {
      return None;
    }
    var epochLen := trajLen / extra;
    EpochsFit(extra, trajLen);
    hide Times, FieldMaskOf, MaskIndex;
    var fieldMask := seq(refLen, i => false);
    var i: nat := 0;
    while i < refLen
      invariant i <= refLen && |fieldMask| == refLen
      invariant forall j :: 0 <= j < i ==> fieldMask[j] == FieldMaskOf(mask, epochLen, extra)[j]
    {
      FieldMaskAt(mask, epochLen, extra, i);
      var m := MaskIndex(i, epochLen);
      if m == None {
        fieldMask := fieldMask[i := true];
      } else if m.value < |mask| {
        fieldMask := fieldMask[i := mask[m.value]];
      }
      i := i + 1;
    }
    assert fieldMask == FieldMaskOf(mask, epochLen, extra);
    return Some(fieldMask);
  }

  // ----- Masking and head removal -----

  lemma FilterFirst<T>(rows: seq<T>, mask: seq<bool>)
    requires |rows| == |mask| > 0
    ensures mask[0] ==> Filter(rows, mask) == [rows[0]] + Filter(rows[1..], mask[1..])
    ensures !mask[0] ==> Filter(rows, mask) == Filter(rows[1..], mask[1..])
  {
  }

  lemma {:induction false} FilterConcat<T>(a: seq<T>, b: seq<T>, m: seq<bool>, n: seq<bool>)
    requires |a| == |m| && |b| == |n|
    ensures Filter(a + b, m + n) == Filter(a, m) + Filter(b, n)
  {
    if a == [] {
      assert a + b == b && m + n == n;
    } else {
      FilterConcat(a[1..], b, m[1..], n);
      FilterFirst(a, m);
      FilterFirst(a + b, m + n);
      assert (a + b)[1..] == a[1..] + b && (m + n)[1..] == m[1..] + n;
      hide Filter;
    }
  }

  /** The field after masking. */
  function Masked<T>(rows: seq<T>, mask: seq<bool>, epochLen: nat, epochs: nat): seq<T>
    requires |rows| == Times(epochs, epochLen + 1) && |mask| == Times(epochs, epochLen)
  {
    Filter(rows, FieldMaskOf(mask, epochLen, epochs))
  }

  /** The selected steps' rows, heads removed first. */
  function Selected<T>(rows: seq<T>, mask: seq<bool>, epochLen: nat, epochs: nat): seq<T>
    requires |rows| == Times(epochs, epochLen + 1) && |mask| == Times(epochs, epochLen)
  {
    Filter(HeadsRemoved(rows, epochLen, epochs), mask)
  }

  lemma MaskedFirst<T>(rows: seq<T>, mask: seq<bool>, epochLen: nat, epochs: nat)
    requires epochs > 0 && |rows| == Times(epochs, epochLen + 1) && |mask| == Times(epochs, epochLen)
    ensures Times(epochs, epochLen + 1) == Times(epochs - 1, epochLen + 1) + (epochLen + 1)
    ensures Times(epochs, epochLen) == Times(epochs - 1, epochLen) + epochLen
    ensures var rest, own := rows[epochLen + 1..], Filter(rows[1..epochLen + 1], mask[..epochLen]);
      && Masked(rows, mask, epochLen, epochs) == [rows[0]] + own + Masked(rest, mask[epochLen..], epochLen, epochs - 1)
      && Selected(rows, mask, epochLen, epochs) == own + Selected(rest, mask[epochLen..], epochLen, epochs - 1)
  {
    TimesStep(epochs - 1, epochLen);
    TimesStep(epochs - 1, epochLen + 1);
    var rest, own := rows[epochLen + 1..], rows[1..epochLen + 1];
    assert rows == [rows[0]] + own + rest;
    FilterConcat([rows[0]] + own, rest, [true] + mask[..epochLen], FieldMaskOf(mask[epochLen..], epochLen, epochs - 1));
    FilterConcat([rows[0]], own, [true], mask[..epochLen]);
    assert Filter([rows[0]], [true]) == [rows[0]];
    assert mask == mask[..epochLen] + mask[epochLen..];
    FilterConcat(own, HeadsRemoved(rest, epochLen, epochs - 1), mask[..epochLen], mask[epochLen..]);
  }

  function NotHeads(rows: seq<Row>): seq<Row> {
    if rows == [] then [] else (if rows[0].head then [] else [rows[0]]) + NotHeads(rows[1..])
  }

  /** The head flags are where the epochs start. */
  ghost predicate HeadsTagged(rows: seq<Row>, epochLen: nat, epochs: nat)
    requires |rows| == Times(epochs, epochLen + 1)
  {
    if epochs == 0 then true
    else
      TimesStep(epochs - 1, epochLen + 1);
      && rows[0].head && (forall i :: 1 <= i <= epochLen ==> !rows[i].head)
      && HeadsTagged(rows[epochLen + 1..], epochLen, epochs - 1)
  }

  lemma {:induction false} NotHeadsConcat(a: seq<Row>, b: seq<Row>)
    ensures NotHeads(a + b) == NotHeads(a) + NotHeads(b)
  {
    if a == [] {
      assert a + b == b;
    } else {
      assert (a + b)[1..] == a[1..] + b;
      NotHeadsConcat(a[1..], b);
    }
  }

  lemma {:induction false} FilterMembers<T>(rows: seq<T>, mask: seq<bool>)
    requires |rows| == |mask|
    ensures forall x :: x in Filter(rows, mask) ==> x in rows
  {
    if rows != [] {
      FilterMembers(rows[1..], mask[1..]);
      assert rows == [rows[0]] + rows[1..];
    }
  }

  lemma {:induction false} NoHeadsStay(rows: seq<Row>)
    requires forall x :: x in rows ==> !x.head
    ensures NotHeads(rows) == rows
  {
    if rows != [] {
      assert rows[0] in rows;
      NoHeadsStay(rows[1..]);
    }
  }

  lemma OwnHasNoHeads(rows: seq<Row>, mask: seq<bool>, epochLen: nat, epochs: nat)
    requires epochs > 0 && |rows| == Times(epochs, epochLen + 1) && |mask| == Times(epochs, epochLen)
    requires HeadsTagged(rows, epochLen, epochs)
    ensures epochLen + 1 <= |rows| && epochLen <= |mask|
    ensures forall x :: x in Filter(rows[1..epochLen + 1], mask[..epochLen]) ==> !x.head
  {
    TimesStep(epochs - 1, epochLen);
    TimesStep(epochs - 1, epochLen + 1);
    FilterMembers(rows[1..epochLen + 1], mask[..epochLen]);
  }

  /** Masking and head removal commute: the heads dropped from the masked field leave exactly
      the selected rows of the field without heads. */
  lemma {:induction false} MaskThenDrop(rows: seq<Row>, mask: seq<bool>, epochLen: nat, epochs: nat)
    requires |rows| == Times(epochs, epochLen + 1) && |mask| == Times(epochs, epochLen)
    requires HeadsTagged(rows, epochLen, epochs)
    ensures NotHeads(Masked(rows, mask, epochLen, epochs)) == Selected(rows, mask, epochLen, epochs)
  {
    if epochs > 0 {
      MaskedFirst(rows, mask, epochLen, epochs);
      OwnHasNoHeads(rows, mask, epochLen, epochs);
      assert NotHeads([rows[0]]) == [];
      MaskThenDrop(rows[epochLen + 1..], mask[epochLen..], epochLen, epochs - 1);
      hide Times, Masked, Selected, Filter, FieldMaskOf, NotHeads, HeadsTagged;
      var own, rest := Filter(rows[1..epochLen + 1], mask[..epochLen]),
        Masked(rows[epochLen + 1..], mask[epochLen..], epochLen, epochs - 1);
      NotHeadsConcat([rows[0]] + own, rest);
      NotHeadsConcat([rows[0]], own);
      NoHeadsStay(own);
    }
  }

  // ----- Flattening a masked trajectory again -----

  /** Every epoch selects c steps. */
  predicate EvenCounts(mask: seq<bool>, epochLen: nat, epochs: nat, c: nat)
    requires |mask| == Times(epochs, epochLen)
  {
    if epochs == 0 then true
    else
      TimesStep(epochs - 1, epochLen);
      Count(mask[..epochLen]) == c && EvenCounts(mask[epochLen..], epochLen, epochs - 1, c)
  }

  lemma {:induction false} FilterLength<T>(rows: seq<T>, mask: seq<bool>)
    requires |rows| == |mask|
    ensures |Filter(rows, mask)| == Count(mask)
  {
    if rows != [] {
      FilterLength(rows[1..], mask[1..]);
    }
  }

  lemma {:induction false} CountConcat(a: seq<bool>, b: seq<bool>)
    ensures Count(a + b) == Count(a) + Count(b)
  {
    if a == [] {
      assert a + b == b;
    } else {
      assert (a + b)[1..] == a[1..] + b;
      CountConcat(a[1..], b);
    }
  }

  lemma {:induction false} FilterDistinct<T>(rows: seq<T>, mask: seq<bool>)
    requires |rows| == |mask| && Distinct(rows)
    ensures Distinct(Filter(rows, mask))
  {
    if rows != [] {
      FilterDistinct(rows[1..], mask[1..]);
      FilterMembers(rows[1..], mask[1..]);
      var rest := Filter(rows[1..], mask[1..]);
      forall i | 0 <= i < |rest|
        ensures rest[i] != rows[0]
      {
        assert rest[i] in rest;
        assert rest[i] in rows[1..];
      }
    }
  }

  function PerEpoch(n: nat, epochs: nat): nat
    requires epochs > 0
  {
    n / epochs
  }

  /** `_flatten_trajectory` on a masked field: the number of epochs is taken from the lengths,
      and the heads from the positions equal epochs would have. None when its assert fails. */
  function Reflatten<T>(field: seq<T>, trajLen: nat): Option<seq<T>>
    requires |field| >= trajLen
  {
    var extra := |field| - trajLen;
    if extra == 0 then Some(field)
    else if !Divides(extra, trajLen) then None
    else
      EpochsFit(extra, trajLen);
      Some(HeadsRemoved(field, PerEpoch(trajLen, extra), extra))
  }

  lemma ReflattenCases<T>(field: seq<T>, n: nat, epochs: nat)
    requires epochs > 0 && |field| == n + epochs
    ensures !Divides(epochs, n) ==> Reflatten(field, n) == None
    ensures Divides(epochs, n) ==> |field| == Times(epochs, PerEpoch(n, epochs) + 1)
    ensures Divides(epochs, n) ==> Reflatten(field, n) == Some(HeadsRemoved(field, PerEpoch(n, epochs), epochs))
  {
    if Divides(epochs, n) {
      EpochsFit(epochs, n);
    }
  }

  lemma EvenDivides(mask: seq<bool>, epochLen: nat, epochs: nat, c: nat)
    requires epochs > 0 && |mask| == Times(epochs, epochLen) && EvenCounts(mask, epochLen, epochs, c)
    ensures Divides(epochs, Count(mask))
  {
    EvenTotal(mask, epochLen, epochs, c);
    assert Count(mask) == c * epochs + 0;
    DivModUnique(Count(mask), epochs, c, 0);
  }

  /** Masking keeps the heads on top of the selected rows. */
  lemma {:induction false} MaskedLength(rows: seq<Row>, mask: seq<bool>, epochLen: nat, epochs: nat)
    requires |rows| == Times(epochs, epochLen + 1) && |mask| == Times(epochs, epochLen)
    requires HeadsTagged(rows, epochLen, epochs)
    ensures |Masked(rows, mask, epochLen, epochs)| == |Selected(rows, mask, epochLen, epochs)| + epochs
    ensures |Selected(rows, mask, epochLen, epochs)| == Count(mask)
    ensures forall x :: x in Selected(rows, mask, epochLen, epochs) ==> !x.head
  {
    FilterLength(HeadsRemoved(rows, epochLen, epochs), mask);
    if epochs > 0 {
      MaskedFirst(rows, mask, epochLen, epochs);
      OwnHasNoHeads(rows, mask, epochLen, epochs);
      MaskedLength(rows[epochLen + 1..], mask[epochLen..], epochLen, epochs - 1);
    }
  }

  lemma {:induction false} EvenTotal(mask: seq<bool>, epochLen: nat, epochs: nat, c: nat)
    requires |mask| == Times(epochs, epochLen) && EvenCounts(mask, epochLen, epochs, c)
    ensures Count(mask) == Times(epochs, c)
  {
    if epochs > 0 {
      TimesStep(epochs - 1, epochLen);
      TimesStep(epochs - 1, c);
      EvenTotal(mask[epochLen..], epochLen, epochs - 1, c);
      CountConcat(mask[..epochLen], mask[epochLen..]);
      assert mask == mask[..epochLen] + mask[epochLen..];
    }
  }

  lemma DropFirstBlock<T>(f: seq<T>, c: nat, epochs: nat)
    requires epochs > 0 && |f| == Times(epochs, c + 1)
    ensures c + 1 <= |f| && |f[c + 1..]| == Times(epochs - 1, c + 1)
    ensures HeadsRemoved(f, c, epochs) == f[1..c + 1] + HeadsRemoved(f[c + 1..], c, epochs - 1)
  {
    TimesStep(epochs - 1, c + 1);
  }

  /** An epoch that selects fewer steps leaves a later head in the result. */
  lemma FewerFails(f: seq<Row>, h: Row, own: seq<Row>, rest: seq<Row>, right: seq<Row>, c: nat, epochs: nat)
    requires epochs > 0 && |f| == Times(epochs, c + 1) && f == [h] + own + rest && |own| < c
    requires rest != [] ==> rest[0].head
    requires |right| >= c && forall x :: x in right ==> !x.head
    ensures HeadsRemoved(f, c, epochs) != right
  {
    DropFirstBlock(f, c, epochs);
    var r, i := HeadsRemoved(f, c, epochs), |own|;
    hide HeadsRemoved;
    assert f[1..c + 1][i] == f[i + 1] == rest[0];
    assert r[i] == f[1..c + 1][i];
    assert right[i] in right;
  }

  /** An epoch that selects more loses a selected row. */
  lemma MoreFails(f: seq<Row>, h: Row, own: seq<Row>, rest: seq<Row>, right: seq<Row>, c: nat, epochs: nat)
    requires epochs > 0 && |f| == Times(epochs, c + 1) && f == [h] + own + rest && |own| > c && Distinct(f)
    requires own <= right && |right| == Times(epochs, c)
    ensures HeadsRemoved(f, c, epochs) != right
  {
    DropFirstBlock(f, c, epochs);
    TimesStep(epochs - 1, c);
    var tail := f[c + 1..];
    assert epochs > 1 by {
      TimesStep(0, c);
    }
    assert c > 0 by {
      assert c == 0 ==> Times(epochs, c) == 0;
    }
    DropFirstBlock(tail, c, epochs - 1);
    assert HeadsRemoved(tail, c, epochs - 1)[0] == tail[1..c + 1][0] == f[c + 2];
    assert HeadsRemoved(f, c, epochs)[c] == f[c + 2];
    assert right[c] == own[c] == f[c + 1];
  }

  lemma {:induction false} PositionsRight(rows: seq<Row>, mask: seq<bool>, epochLen: nat, epochs: nat, c: nat)
    requires |rows| == Times(epochs, epochLen + 1) && |mask| == Times(epochs, epochLen)
    requires HeadsTagged(rows, epochLen, epochs) && Distinct(rows)
    requires |Masked(rows, mask, epochLen, epochs)| == Times(epochs, c + 1)
    ensures HeadsRemoved(Masked(rows, mask, epochLen, epochs), c, epochs) == Selected(rows, mask, epochLen, epochs)
      <==> EvenCounts(mask, epochLen, epochs, c)
  {
    hide Masked, Selected, HeadsRemoved, EvenCounts, HeadsTagged, Filter, FieldMaskOf, Distinct, Count;
    if epochs == 0 {
      NoEpochs(rows, mask, epochLen, c);
    } else {
      FirstEpoch(rows, mask, epochLen, epochs, c);
      var f, right := Masked(rows, mask, epochLen, epochs), Selected(rows, mask, epochLen, epochs);
      var own := Filter(rows[1..epochLen + 1], mask[..epochLen]);
      var rest, restRight := Masked(rows[epochLen + 1..], mask[epochLen..], epochLen, epochs - 1),
        Selected(rows[epochLen + 1..], mask[epochLen..], epochLen, epochs - 1);
      LengthsMatch(|f|, |right|, epochs, c);
      if |own| < c {
        FewerFails(f, rows[0], own, rest, right, c, epochs);
      } else if |own| > c {
        MoreFails(f, rows[0], own, rest, right, c, epochs);
      } else {
        DropFirstBlock(f, c, epochs);
        assert f[1..c + 1] == own && f[c + 1..] == rest;
        PositionsRight(rows[epochLen + 1..], mask[epochLen..], epochLen, epochs - 1, c);
        SamePrefix(own, HeadsRemoved(rest, c, epochs - 1), restRight);
      }
    }
  }

  lemma NoEpochs(rows: seq<Row>, mask: seq<bool>, epochLen: nat, c: nat)
    requires |rows| == |mask| == 0
    ensures Times(0, epochLen + 1) == Times(0, epochLen) == Times(0, c + 1) == 0
    ensures HeadsRemoved(Masked(rows, mask, epochLen, 0), c, 0) == Selected(rows, mask, epochLen, 0)
    ensures EvenCounts(mask, epochLen, 0, c)
  {
  }

  /** What the first epoch adds to the masked and the selected rows. */
  lemma FirstEpoch(rows: seq<Row>, mask: seq<bool>, epochLen: nat, epochs: nat, c: nat)
    requires epochs > 0 && |rows| == Times(epochs, epochLen + 1) && |mask| == Times(epochs, epochLen)
    requires HeadsTagged(rows, epochLen, epochs) && Distinct(rows)
    ensures |rows| - (epochLen + 1) == Times(epochs - 1, epochLen + 1)
      && |mask| - epochLen == Times(epochs - 1, epochLen)
    ensures var f, right := Masked(rows, mask, epochLen, epochs), Selected(rows, mask, epochLen, epochs);
      var rest, restMask := rows[epochLen + 1..], mask[epochLen..];
      var own := Filter(rows[1..epochLen + 1], mask[..epochLen]);
      var later := Masked(rest, restMask, epochLen, epochs - 1);
      && f == [rows[0]] + own + later
      && right == own + Selected(rest, restMask, epochLen, epochs - 1)
      && |f| == |right| + epochs && Distinct(f) && (forall x :: x in right ==> !x.head)
      && (later != [] ==> later[0].head)
      && HeadsTagged(rest, epochLen, epochs - 1) && Distinct(rest)
      && (EvenCounts(mask, epochLen, epochs, c) <==> |own| == c && EvenCounts(restMask, epochLen, epochs - 1, c))
  {
    MaskedFirst(rows, mask, epochLen, epochs);
    MaskedLength(rows, mask, epochLen, epochs);
    FilterDistinct(rows, FieldMaskOf(mask, epochLen, epochs));
    FilterLength(rows[1..epochLen + 1], mask[..epochLen]);
    RestStartsWithHead(rows, mask, epochLen, epochs);
  }

  lemma SamePrefix(p: seq<Row>, a: seq<Row>, b: seq<Row>)
    ensures p + a == p + b <==> a == b
  {
    if p + a == p + b {
      assert a == (p + a)[|p|..] && b == (p + b)[|p|..];
    }
  }

  lemma LengthsMatch(masked: nat, selected: nat, epochs: nat, c: nat)
    requires epochs > 0 && masked == Times(epochs, c + 1) && masked == selected + epochs
    ensures selected == Times(epochs, c) && selected >= c
  {
    assert Times(epochs, c + 1) == epochs * c + epochs;
    MulMonotone(1, epochs, c);
  }

  lemma RestStartsWithHead(rows: seq<Row>, mask: seq<bool>, epochLen: nat, epochs: nat)
    requires epochs > 0 && |rows| == Times(epochs, epochLen + 1) && |mask| == Times(epochs, epochLen)
    requires HeadsTagged(rows, epochLen, epochs)
    ensures |rows| - (epochLen + 1) == Times(epochs - 1, epochLen + 1)
      && |mask| - epochLen == Times(epochs - 1, epochLen)
    ensures var rest := Masked(rows[epochLen + 1..], mask[epochLen..], epochLen, epochs - 1);
      rest != [] ==> rest[0].head
  {
    TimesStep(epochs - 1, epochLen);
    TimesStep(epochs - 1, epochLen + 1);
    if epochs > 1 {
      MaskedFirst(rows[epochLen + 1..], mask[epochLen..], epochLen, epochs - 1);
    }
  }

  /** Flattening a masked trajectory gives the selected rows exactly when every epoch selects
      the same number of steps; otherwise it asserts or drops selected rows for heads. */
  lemma ReflattenExact(rows: seq<Row>, mask: seq<bool>, epochLen: nat, epochs: nat)
    requires epochs > 0 && |rows| == Times(epochs, epochLen + 1) && |mask| == Times(epochs, epochLen)
    requires HeadsTagged(rows, epochLen, epochs) && Distinct(rows)
    ensures |Masked(rows, mask, epochLen, epochs)| == Count(mask) + epochs
    ensures Reflatten(Masked(rows, mask, epochLen, epochs), Count(mask)) == Some(Selected(rows, mask, epochLen, epochs))
      <==> EvenCounts(mask, epochLen, epochs, PerEpoch(Count(mask), epochs))
  {
    MaskedLength(rows, mask, epochLen, epochs);
    hide Masked, Selected, HeadsRemoved, EvenCounts, HeadsTagged, Count, Divides, PerEpoch, Times, Reflatten, Distinct;
    var n, c := Count(mask), PerEpoch(Count(mask), epochs);
    ReflattenCases(Masked(rows, mask, epochLen, epochs), n, epochs);
    if EvenCounts(mask, epochLen, epochs, c) {
      EvenDivides(mask, epochLen, epochs, c);
    }
    if Divides(epochs, n) {
      PositionsRight(rows, mask, epochLen, epochs, c);
    }
  }

  /** With two epochs selecting one and three of four steps the flattened flags are wrong. */
  lemma UnevenEpochsFail(rows: seq<Row>)
    requires |rows| == 10 && HeadsTagged(rows, 4, 2) && Distinct(rows)
    ensures var mask := [true, false, false, false, true, true, true, false];
      && Times(2, 5) == 10 && Times(2, 4) == 8
      && |Masked(rows, mask, 4, 2)| == Count(mask) + 2
      && Reflatten(Masked(rows, mask, 4, 2), Count(mask)) != Some(Selected(rows, mask, 4, 2))
  {
    var mask := [true, false, false, false, true, true, true, false];
    ReflattenExact(rows, mask, 4, 2);
    CountConcat(mask[..4], mask[4..]);
    assert mask == mask[..4] + mask[4..];
    assert Count(mask[..4]) == 1 by {
      assert mask[..4][1..] == [false, false, false] && [false, false, false][1..] == [false, false]
        && [false, false][1..] == [false];
    }
    assert Count(mask[4..]) == 3 by {
      assert mask[4..][1..] == [true, true, false] && [true, true, false][1..] == [true, false]
        && [true, false][1..] == [false];
    }
  }
}
