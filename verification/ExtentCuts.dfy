/** Truncation and hole punching on one leaf: what is left of each extent, what the in-place
    compaction makes of the leaf, and which bytes survive. */
module ExtentCuts {
  import opened Extents
  import opened Options

  // ---- truncation ----------------------------------------------------------------------------

  /** What truncation to `size` leaves of one extent. */
  function Short(e: Extent, size: nat): Leaf {
    if e.logical >= size then []
    else if End(e) > size
    then [e.(length := size - e.logical, physicalLength := Minus(e.physicalLength, End(e) - size))]
    else [e]
  }

  function Shortened(es: Leaf, size: nat): (r: Leaf)
    ensures |r| <= |es|
    decreases |es|
  {
    if es == [] then [] else Shortened(es[..|es| - 1], size) + Short(es[|es| - 1], size)
  }

  /** Truncation keeps exactly the bytes below the new size. */
  lemma {:induction false} ShortenedBytes(es: Leaf, size: nat, x: nat)
    ensures Bytes(Shortened(es, size), x) == if x < size then Bytes(es, x) else None
    decreases |es|
  {
    hide Bytes;
    BytesOne(Extent(0, 0, 0, 0, 0, 0), x);
    if es != [] {
      var front, last := es[..|es| - 1], es[|es| - 1];
      assert es == front + [last];
      ShortenedBytes(front, size, x);
      BytesJoin(Shortened(front, size), Short(last, size), x);
      BytesJoin(front, [last], x);
      BytesOne(last, x);
      if Short(last, size) != [] {
        BytesOne(Short(last, size)[0], x);
      }
    }
  }

  lemma ShortIsOrdered(e: Extent, size: nat)
    requires e.length > 0
    ensures Ordered(Short(e, size)) && Above(Short(e, size), e.logical) && Below(Short(e, size), End(e))
    ensures e.physicalLength == e.length ==> Flat(Short(e, size))
  {
  }

  lemma FlatJoin(a: Leaf, b: Leaf)
    ensures Flat(a) && Flat(b) ==> Flat(a + b)
  {
  }

  lemma BoundsJoin(a: Leaf, b: Leaf)
    ensures forall low: nat :: Above(a, low) && Above(b, low) ==> Above(a + b, low)
    ensures forall high: nat :: Below(a, high) && Below(b, high) ==> Below(a + b, high)
  {
  }

  lemma {:induction false} ShortenedIsOrdered(es: Leaf, size: nat)
    requires Ordered(es)
    ensures Ordered(Shortened(es, size))
    ensures Flat(es) ==> Flat(Shortened(es, size))
    ensures forall low: nat :: Above(es, low) ==> Above(Shortened(es, size), low)
    ensures forall high: nat :: Below(es, high) ==> Below(Shortened(es, size), high)
    decreases |es|
  {
    if es != [] {
      hide Short;
      var front, last := es[..|es| - 1], es[|es| - 1];
      ShortenedIsOrdered(front, size);
      ShortIsOrdered(last, size);
      assert Below(front, last.logical);
      OrderedJoin(Shortened(front, size), Short(last, size));
      FlatJoin(Shortened(front, size), Short(last, size));
      BoundsJoin(Shortened(front, size), Short(last, size));
      forall low: nat | Above(es, low)
        ensures Above(Shortened(es, size), low)
      {
        assert Above(front, low) && last.logical >= low;
      }
      forall high: nat | Below(es, high)
        ensures Below(Shortened(es, size), high)
      {
        assert Below(front, high) && End(last) <= high;
      }
    }
  }

  // ---- punching a hole -----------------------------------------------------------------------

  function LeftPiece(e: Extent, from: nat): Extent
    requires e.logical <= from
  {
    e.(length := from - e.logical, physicalLength := from - e.logical)
  }

  /** The part behind the hole; `more` is taken off the physical length besides the hole. */
  function RightPiece(e: Extent, end: nat, more: nat): Extent
    requires e.logical <= end <= End(e)
  {
    e.(logical := end, length := End(e) - end, physical := e.physical + (end - e.logical),
       physicalLength := Minus(e.physicalLength, (end - e.logical) + more))
  }

  predicate Inside(e: Extent, from: nat, end: nat) {
    e.logical < from && End(e) > end
  }

  predicate Outside(e: Extent, from: nat, end: nat) {
    End(e) <= from || e.logical >= end
  }

  /** What the hole `[from, end)` leaves of one extent. */
  function Pieces(e: Extent, from: nat, end: nat): Leaf
    requires from < end
  {
    if Outside(e, from, end) then [e]
    else if Inside(e, from, end) then [LeftPiece(e, from), RightPiece(e, end, from - e.logical)]
    else if e.logical < from then [LeftPiece(e, from)]
    else if End(e) > end then [RightPiece(e, end, 0)]
    else []
  }

  /** The pieces of all extents in order: what the compaction is meant to leave. */
  function Cut(es: Leaf, from: nat, end: nat): Leaf
    requires from < end
    decreases |es|
  {
    if es == [] then [] else Cut(es[..|es| - 1], from, end) + Pieces(es[|es| - 1], from, end)
  }

  /** The extent that has the hole strictly inside, or the length of the leaf. */
  function Holed(es: Leaf, from: nat, end: nat): (i: nat)
    ensures i <= |es|
    ensures i < |es| ==> Inside(es[i], from, end)
    ensures forall k :: 0 <= k < i ==> !Inside(es[k], from, end)
  {
    if es == [] || Inside(es[0], from, end) then 0 else 1 + Holed(es[1..], from, end)
  }

  function Repeated(e: Extent, n: nat): (r: Leaf)
    ensures |r| == n && forall i :: 0 <= i < n ==> r[i] == e
  {
    seq(n, i requires 0 <= i < n => e)
  }

  /** The compaction in place, `gap` entries having been dropped so far. Splitting an extent writes two
      entries where one was read: with no gap in front, each later entry is overwritten by the right
      piece before it is read. */
  function Compacted(es: Leaf, from: nat, end: nat, gap: nat): Leaf
    requires from < end
    decreases |es|
  {
    if es == [] then []
    else
      var p := Pieces(es[0], from, end);
      if |p| == 2 && gap == 0 then p + Repeated(p[1], |es| - 1)
      else p + Compacted(es[1..], from, end, gap + 1 - |p|)
  }

  /** What a hole really leaves of a leaf. */
  function Punched(es: Leaf, from: nat, end: nat): Leaf
    requires from < end
  {
    Compacted(es, from, end, 0)
  }

  /** The same in an ordered leaf, where the extent that has the hole inside is the only one to meet it. */
  function Spoilt(es: Leaf, from: nat, end: nat): Leaf
    requires from < end
  {
    var i := Holed(es, from, end);
    if i == |es| then Cut(es, from, end)
    else es[..i] + [LeftPiece(es[i], from)] + Repeated(RightPiece(es[i], end, from - es[i].logical), |es| - i)
  }

  lemma {:induction false} CutFront(e: Extent, es: Leaf, from: nat, end: nat)
    requires from < end
    ensures Cut([e] + es, from, end) == Pieces(e, from, end) + Cut(es, from, end)
    decreases |es|
  {
    hide Pieces;
    if es == [] {
      assert [e] + es == [e];
      assert [e][..0] == [];
      assert Cut([], from, end) == [];
    } else {
      var n := |es| - 1;
      assert ([e] + es)[..n + 1] == [e] + es[..n];
      CutFront(e, es[..n], from, end);
    }
  }

  lemma {:induction false} CompactedIsCut(es: Leaf, from: nat, end: nat, gap: nat)
    requires from < end && Holed(es, from, end) == |es|
    ensures Compacted(es, from, end, gap) == Cut(es, from, end)
    decreases |es|
  {
    if es != [] {
      CompactedIsCut(es[1..], from, end, gap + 1 - |Pieces(es[0], from, end)|);
      CutFront(es[0], es[1..], from, end);
      assert es == [es[0]] + es[1..];
    }
  }

  lemma {:induction false} CompactedAtHole(es: Leaf, from: nat, end: nat, i: nat)
    requires from < end && i < |es| && Inside(es[i], from, end)
    requires forall k :: 0 <= k < i ==> Outside(es[k], from, end)
    ensures Compacted(es, from, end, 0)
         == es[..i] + [LeftPiece(es[i], from)] + Repeated(RightPiece(es[i], end, from - es[i].logical), |es| - i)
    decreases i
  {
    hide LeftPiece, RightPiece, Repeated;
    var left, right := LeftPiece(es[i], from), RightPiece(es[i], end, from - es[i].logical);
    if i == 0 {
      PiecesInside(es[0], from, end);
      RepeatedFront(right, |es|);
    } else {
      CompactedAtHole(es[1..], from, end, i - 1);
      assert Pieces(es[0], from, end) == [es[0]];
      assert es[..i] == [es[0]] + es[1..][..i - 1];
    }
  }

  lemma RepeatedFront(e: Extent, n: nat)
    requires n > 0
    ensures Repeated(e, n) == [e] + Repeated(e, n - 1)
  {
  }

  lemma PunchedIsSpoilt(es: Leaf, from: nat, end: nat)
    requires Ordered(es) && from < end
    ensures Punched(es, from, end) == Spoilt(es, from, end)
  {
    hide Holed;
    var i := Holed(es, from, end);
    if i < |es| {
      CompactedAtHole(es, from, end, i);
    } else {
      CompactedIsCut(es, from, end, 0);
    }
  }

  function Hole(b: Option<Byte>, from: nat, end: nat, x: nat): Option<Byte> {
    if from <= x < end then None else b
  }

  lemma PiecesBytes(e: Extent, from: nat, end: nat, x: nat)
    requires from < end
    ensures Bytes(Pieces(e, from, end), x) == Hole(OneByte(e, x), from, end, x)
  {
    hide Bytes;
    var p := Pieces(e, from, end);
    BytesOne(e, x);
    if |p| == 1 {
      BytesOne(p[0], x);
    } else if |p| == 2 {
      assert p == [p[0]] + [p[1]];
      BytesJoin([p[0]], [p[1]], x);
      BytesOne(p[0], x);
      BytesOne(p[1], x);
    }
  }

  /** Cutting removes exactly the bytes of the hole. */
  lemma {:induction false} CutBytes(es: Leaf, from: nat, end: nat, x: nat)
    requires from < end
    ensures Bytes(Cut(es, from, end), x) == Hole(Bytes(es, x), from, end, x)
    decreases |es|
  {
    hide Bytes;
    hide Pieces;
    if es == [] {
      BytesOne(Extent(0, 0, 0, 0, 0, 0), x);
    } else {
      var front, last := es[..|es| - 1], es[|es| - 1];
      assert es == front + [last];
      CutBytes(front, from, end, x);
      PiecesBytes(last, from, end, x);
      BytesJoin(Cut(front, from, end), Pieces(last, from, end), x);
      BytesJoin(front, [last], x);
      BytesOne(last, x);
    }
  }

  lemma {:induction false} CutIsOrdered(es: Leaf, from: nat, end: nat)
    requires Ordered(es) && from < end
    ensures Ordered(Cut(es, from, end))
    ensures forall low :: Above(es, low) ==> Above(Cut(es, from, end), low)
    ensures forall high :: Below(es, high) ==> Below(Cut(es, from, end), high)
    decreases |es|
  {
    if es != [] {
      var front, last := es[..|es| - 1], es[|es| - 1];
      CutIsOrdered(front, from, end);
      assert Below(front, last.logical);
      PiecesAreOrdered(last, from, end);
      hide Pieces;
      OrderedJoin(Cut(front, from, end), Pieces(last, from, end));
      forall low | Above(es, low)
        ensures Above(Cut(es, from, end), low)
      {
        assert Above(front, low);
      }
      forall high | Below(es, high)
        ensures Below(Cut(es, from, end), high)
      {
        assert Below(front, high);
      }
    }
  }

  lemma PiecesAreOrdered(e: Extent, from: nat, end: nat)
    requires e.length > 0 && from < end
    ensures Ordered(Pieces(e, from, end)) && Above(Pieces(e, from, end), e.logical) && Below(Pieces(e, from, end), End(e))
  {
  }

  /** Without a strictly larger extent, physical and logical lengths stay equal and no entry is
      added. */
  lemma {:induction false} CutIsFlat(es: Leaf, from: nat, end: nat)
    requires from < end && forall i :: 0 <= i < |es| ==> !Inside(es[i], from, end)
    ensures |Cut(es, from, end)| <= |es| && (Flat(es) ==> Flat(Cut(es, from, end)))
    decreases |es|
  {
    hide Pieces;
    if es != [] {
      var front, last := es[..|es| - 1], es[|es| - 1];
      CutIsFlat(front, from, end);
      PiecesAreFlat(last, from, end);
      FlatJoin(Cut(front, from, end), Pieces(last, from, end));
    }
  }

  lemma PiecesAreFlat(e: Extent, from: nat, end: nat)
    requires from < end && !Inside(e, from, end)
    ensures |Pieces(e, from, end)| <= 1 && (e.physicalLength == e.length ==> Flat(Pieces(e, from, end)))
  {
  }

  lemma {:induction false} CutMissesAll(es: Leaf, from: nat, end: nat)
    requires from < end && forall i :: 0 <= i < |es| ==> Outside(es[i], from, end)
    ensures Cut(es, from, end) == es
    decreases |es|
  {
    if es != [] {
      CutMissesAll(es[..|es| - 1], from, end);
      assert es == es[..|es| - 1] + [es[|es| - 1]];
    }
  }

  lemma {:induction false} RepeatedBytes(e: Extent, n: nat, x: nat)
    requires n > 0
    ensures Bytes(Repeated(e, n), x) == OneByte(e, x)
  {
    if Covers(e, x) {
      BytesAt(Repeated(e, n), x, 0);
    } else {
      BytesAt(Repeated(e, n), x, n);
    }
  }

  /** In an ordered leaf nothing but the holed extent meets the hole, and the cut of the leaf up to
      and with it is that part with the extent split in two. */
  lemma CutAtHoled(es: Leaf, from: nat, end: nat)
    requires Ordered(es) && from < end && Holed(es, from, end) < |es|
    ensures var i := Holed(es, from, end);
            Cut(es[..i + 1], from, end) == es[..i] + [LeftPiece(es[i], from)] + [RightPiece(es[i], end, from - es[i].logical)]
  {
    hide Holed;
    hide Pieces;
    var i := Holed(es, from, end);
    CutMissesAll(es[..i], from, end);
    assert es[..i + 1][..i] == es[..i];
    PiecesInside(es[i], from, end);
    assert Cut(es[..i + 1], from, end) == es[..i] + Pieces(es[i], from, end);
  }

  lemma PiecesInside(e: Extent, from: nat, end: nat)
    requires from < end && Inside(e, from, end)
    ensures Pieces(e, from, end) == [LeftPiece(e, from)] + [RightPiece(e, end, from - e.logical)]
  {
  }

  /** The bytes after punching a hole into an extent: those of the leaf up to and with that extent
      lose the hole, and everything behind that extent is lost. */
  lemma PunchedBytes(es: Leaf, from: nat, end: nat, x: nat)
    requires Ordered(es) && from < end
    ensures var i := Holed(es, from, end);
            Bytes(Punched(es, from, end), x) == Hole(Bytes(if i < |es| then es[..i + 1] else es, x), from, end, x)
  {
    hide Bytes;
    hide Holed;
    hide Repeated;
    PunchedIsSpoilt(es, from, end);
    hide Punched;
    var i := Holed(es, from, end);
    if i < |es| {
      var left, right := LeftPiece(es[i], from), RightPiece(es[i], end, from - es[i].logical);
      CutAtHoled(es, from, end);
      CutBytes(es[..i + 1], from, end, x);
      BytesJoin(es[..i] + [left], [right], x);
      BytesJoin(es[..i] + [left], Repeated(right, |es| - i), x);
      RepeatedBytes(right, |es| - i, x);
      BytesOne(right, x);
    } else {
      CutBytes(es, from, end, x);
    }
  }

  /** No extent has the hole strictly inside, or only the last one does. */
  predicate Clean(es: Leaf, from: nat, end: nat) {
    Holed(es, from, end) >= |es| - 1
  }

  lemma PunchedIsCut(es: Leaf, from: nat, end: nat)
    requires Ordered(es) && from < end && Clean(es, from, end)
    ensures Punched(es, from, end) == Cut(es, from, end)
  {
    hide Holed, Ordered, Cut, Repeated;
    PunchedIsSpoilt(es, from, end);
    hide Punched;
    var i := Holed(es, from, end);
    if i < |es| {
      CutAtHoled(es, from, end);
      assert es[..i + 1] == es;
      var right := RightPiece(es[i], end, from - es[i].logical);
      RepeatedOnce(right);
    }
  }

  lemma RepeatedOnce(e: Extent)
    ensures Repeated(e, 1) == [e]
  {
  }

  /** Punching removes exactly the hole just when no extent has it strictly inside or that extent
      is the last of its leaf; otherwise the bytes of the next extent are lost. */
  lemma PunchIsExactIff(es: Leaf, from: nat, end: nat)
    requires Ordered(es) && from < end
    ensures (forall x: nat :: Bytes(Punched(es, from, end), x) == Hole(Bytes(es, x), from, end, x)) <==> Clean(es, from, end)
  {
    hide Bytes;
    hide Holed;
    hide Punched;
    var i := Holed(es, from, end);
    forall x: nat
      ensures Bytes(Punched(es, from, end), x) == Hole(Bytes(if i < |es| then es[..i + 1] else es, x), from, end, x)
    {
      PunchedBytes(es, from, end, x);
    }
    if i < |es| - 1 {
      var x := es[i + 1].logical;
      BytesAt(es, x, i + 1);
      BytesAt(es[..i + 1], x, i + 1);
      assert Bytes(Punched(es, from, end), x) != Hole(Bytes(es, x), from, end, x);
    } else if i == |es| - 1 {
      assert es[..i + 1] == es;
    }
  }

  /** The leaf stays ordered just in the same cases: otherwise it ends in equal right pieces. */
  lemma PunchedIsOrderedIff(es: Leaf, from: nat, end: nat)
    requires Ordered(es) && from < end
    ensures Ordered(Punched(es, from, end)) <==> Clean(es, from, end)
    ensures |Punched(es, from, end)| <= |es| + if Holed(es, from, end) < |es| then 1 else 0
  {
    hide Holed;
    PunchedIsSpoilt(es, from, end);
    hide Punched;
    var i := Holed(es, from, end);
    if i >= |es| - 1 {
      PunchedIsCut(es, from, end);
      CutIsOrdered(es, from, end);
      if i == |es| {
        CutIsFlat(es, from, end);
      }
    } else {
      var p := Punched(es, from, end);
      assert p[i + 1] == p[i + 2] == RightPiece(es[i], end, from - es[i].logical);
      assert End(p[i + 1]) > p[i + 2].logical;
    }
  }

  /** Equal physical and logical lengths survive just when no extent is split: the right piece of a
      split extent is given too short a physical length. */
  lemma PunchedIsFlatIff(es: Leaf, from: nat, end: nat)
    requires Ordered(es) && Flat(es) && from < end
    ensures Flat(Punched(es, from, end)) <==> Holed(es, from, end) == |es|
  {
    hide Holed;
    PunchedIsSpoilt(es, from, end);
    hide Punched;
    var i := Holed(es, from, end);
    if i == |es| {
      CutIsFlat(es, from, end);
    } else {
      var p := Punched(es, from, end);
      assert p[i + 1] == RightPiece(es[i], end, from - es[i].logical);
      assert p[i + 1].physicalLength != p[i + 1].length;
    }
  }
}
