/** Allocating from the free list: what is handed out, what stays free, and that over every run no
    byte is handed out twice. */
module SpaceAlloc {
  import opened FreeSpace
  import opened Options

  // ---- rounding --------------------------------------------------------------------------------

  /** The length rounded up to whole blocks, in 64 bits. */
  function Aligned(length: nat): nat {
    (length + FS_MIN_ALLOC - 1) % TWO_64 / FS_MIN_ALLOC * FS_MIN_ALLOC
  }

  /** The rounded length covers the request just when the addition does not wrap. */
  lemma AlignedCoversIff(length: nat)
    requires length < TWO_64
    ensures Aligned(length) >= length <==> length <= TWO_64 - FS_MIN_ALLOC
  {
    if length > TWO_64 - FS_MIN_ALLOC {
      assert (length + FS_MIN_ALLOC - 1) % TWO_64 == length + FS_MIN_ALLOC - 1 - TWO_64;
    } else {
      assert (length + FS_MIN_ALLOC - 1) % TWO_64 == length + FS_MIN_ALLOC - 1;
    }
  }

  // ---- best fit ----------------------------------------------------------------------------------

  /** The first of the shortest entries that are long enough, or the length of the list. */
  function BestFit(list: FreeList, length: nat): (b: nat)
    ensures b <= |list|
    ensures b < |list| ==> list[b].length >= length
    ensures b < |list| ==> forall i :: 0 <= i < |list| && list[i].length >= length ==> list[b].length <= list[i].length
    ensures b < |list| ==> forall i :: 0 <= i < b && list[i].length >= length ==> list[b].length < list[i].length
    ensures b == |list| ==> forall i :: 0 <= i < |list| ==> list[i].length < length
  {
    if list == [] then 0
    else
      var n := |list| - 1;
      var p := BestFit(list[..n], length);
      if list[n].length >= length && (p == n || list[n].length < list[p].length) then n
      else if p < n then p else n + 1
  }

  // ---- removing a range -----------------------------------------------------------------------------

  predicate Outside(e: Range, from: nat, end: nat) {
    End(e) <= from || e.start >= end
  }

  /** What removing `[from, end)` leaves of one entry. */
  function Pieces(e: Range, from: nat, end: nat): (r: FreeList)
    requires from <= end
    ensures |r| <= 2
  {
    if Outside(e, from, end) then [e]
    else if e.start < from && End(e) > end then [Range(e.start, from - e.start), Range(end, End(e) - end)]
    else if e.start < from then [Range(e.start, from - e.start)]
    else if End(e) > end then [Range(end, End(e) - end)]
    else []
  }

  function Copies(e: Range, n: nat): (r: FreeList)
    ensures |r| == n && forall i :: 0 <= i < n ==> r[i] == e
  {
    seq(n, i requires 0 <= i < n => e)
  }

  /** `remove_range`, compacting in place: `gap` entries have been dropped so far. Splitting an entry
      with no gap overwrites the next entry, and with it every later one, by the right part. */
  function Carved(list: FreeList, from: nat, end: nat, gap: nat): FreeList
    requires from <= end
  {
    if list == [] then []
    else
      var p := Pieces(list[0], from, end);
      if |p| == 2 && gap == 0 then p + Copies(p[1], |list| - 1)
      else p + Carved(list[1..], from, end, gap + 1 - |p|)
  }

  lemma PiecesAre(e: Range, from: nat, end: nat, x: nat)
    requires from <= end
    ensures Free(Pieces(e, from, end), x) <==> In(e, x) && !(from <= x < end)
  {
    hide Free;
    var p := Pieces(e, from, end);
    if |p| == 0 {
      NothingFree(x);
    } else if |p| == 1 {
      FreeOne(p[0], x);
    } else {
      FreeJoins([p[0]], [p[1]], x);
      assert p == [p[0]] + [p[1]];
      FreeOne(p[0], x);
      FreeOne(p[1], x);
    }
  }

  lemma CopiesAre(e: Range, n: nat, x: nat)
    ensures Free(Copies(e, n), x) ==> In(e, x)
  {
  }

  /** No entry is left empty. */
  lemma {:induction false} CarvedIsNonEmpty(list: FreeList, from: nat, end: nat, gap: nat)
    requires from <= end && forall i :: 0 <= i < |list| ==> list[i].length > 0
    ensures forall i :: 0 <= i < |Carved(list, from, end, gap)| ==> Carved(list, from, end, gap)[i].length > 0
  {
    if list != [] {
      var p := Pieces(list[0], from, end);
      assert forall i :: 0 <= i < |p| ==> p[i].length > 0;
      if |p| < 2 || gap > 0 {
        CarvedIsNonEmpty(list[1..], from, end, gap + 1 - |p|);
      }
    }
  }

  /** On any list: nothing of the removed range stays free, and nothing becomes free. */
  lemma {:induction false} CarvedIsWithin(list: FreeList, from: nat, end: nat, gap: nat, x: nat)
    requires from <= end && Free(Carved(list, from, end, gap), x)
    ensures Free(list, x) && !(from <= x < end)
  {
    hide Free;
    hide Pieces;
    if list == [] {
      NothingFree(x);
    } else {
      var p := Pieces(list[0], from, end);
      assert list == [list[0]] + list[1..];
      FreeJoins([list[0]], list[1..], x);
      FreeOne(list[0], x);
      PiecesAre(list[0], from, end, x);
      if |p| == 2 && gap == 0 {
        FreeJoins(p, Copies(p[1], |list| - 1), x);
        CopiesAre(p[1], |list| - 1, x);
        FreeJoins([p[0]], [p[1]], x);
        assert p == [p[0]] + [p[1]];
        FreeOne(p[1], x);
      } else {
        var rest := Carved(list[1..], from, end, gap + 1 - |p|);
        FreeJoins(p, rest, x);
        if Free(rest, x) {
          CarvedIsWithin(list[1..], from, end, gap + 1 - |p|, x);
        }
      }
    }
  }

  // ---- what the removal loses ------------------------------------------------------------------------

  /** How many entries the removal still reads before one is overwritten: all of them, or those up to
      and including the first that is split with no gap in front. */
  function Survivors(list: FreeList, from: nat, end: nat, gap: nat): (k: nat)
    requires from <= end
    ensures k <= |list|
  {
    if list == [] then 0
    else
      var p := Pieces(list[0], from, end);
      if |p| == 2 && gap == 0 then 1 else 1 + Survivors(list[1..], from, end, gap + 1 - |p|)
  }

  /** The entries split in two by the removal, less the entries dropped by it. */
  function Excess(list: FreeList, from: nat, end: nat): int
    requires from <= end
  {
    if list == [] then 0 else Excess(list[..|list| - 1], from, end) + |Pieces(list[|list| - 1], from, end)| - 1
  }

  lemma {:induction false} ExcessFront(e: Range, list: FreeList, from: nat, end: nat)
    requires from <= end
    ensures Excess([e] + list, from, end) == |Pieces(e, from, end)| - 1 + Excess(list, from, end)
  {
    hide Pieces;
    if list == [] {
      assert [e] + list == [e];
      assert [e][..0] == [];
    } else {
      var n := |list| - 1;
      assert ([e] + list)[..n + 1] == [e] + list[..n];
      ExcessFront(e, list[..n], from, end);
    }
  }

  /** Which entries survive: up to the first one at which more entries have been split than dropped. */
  lemma {:induction false} SurvivorsAre(list: FreeList, from: nat, end: nat, gap: nat)
    requires from <= end
    ensures var k := Survivors(list, from, end, gap);
            && (forall j {:trigger list[..j]} :: 0 <= j < k ==> Excess(list[..j], from, end) <= gap)
            && (k < |list| ==> Excess(list[..k], from, end) > gap)
  {
    hide Pieces;
    if list != [] {
      var p := Pieces(list[0], from, end);
      var k := Survivors(list, from, end, gap);
      assert list[..0] == [] && list[..1] == [list[0]] + [];
      ExcessFront(list[0], [], from, end);
      if |p| < 2 || gap > 0 {
        SurvivorsAre(list[1..], from, end, gap + 1 - |p|);
        forall j | 0 < j <= |list|
          ensures Excess(list[..j], from, end) == |p| - 1 + Excess(list[1..][..j - 1], from, end)
        {
          assert list[..j] == [list[0]] + list[1..][..j - 1];
          ExcessFront(list[0], list[1..][..j - 1], from, end);
        }
      }
    }
  }

  /** On any list: removing a range leaves exactly the bytes of the surviving entries outside it. */
  lemma {:induction false} CarvedKeeps(list: FreeList, from: nat, end: nat, gap: nat, x: nat)
    requires from <= end
    ensures Free(Carved(list, from, end, gap), x) <==> Free(list[..Survivors(list, from, end, gap)], x) && !(from <= x < end)
  {
    hide Free;
    hide Pieces;
    if list == [] {
      NothingFree(x);
    } else {
      var p := Pieces(list[0], from, end);
      var k := Survivors(list, from, end, gap);
      PiecesAre(list[0], from, end, x);
      FreeOne(list[0], x);
      if |p| == 2 && gap == 0 {
        FreeJoins(p, Copies(p[1], |list| - 1), x);
        CopiesAre(p[1], |list| - 1, x);
        FreeJoins([p[0]], [p[1]], x);
        assert p == [p[0]] + [p[1]];
        FreeOne(p[1], x);
        assert list[..k] == [list[0]];
      } else {
        CarvedKeeps(list[1..], from, end, gap + 1 - |p|, x);
        FreeJoins(p, Carved(list[1..], from, end, gap + 1 - |p|), x);
        FreeJoins([list[0]], list[1..][..k - 1], x);
        assert list[..k] == [list[0]] + list[1..][..k - 1];
      }
    }
  }

  /** Outside the range, the entries from `k` on hold no byte that those in front of `k` do not. */
  ghost predicate NothingBehind(list: FreeList, k: nat, from: nat, end: nat)
    requires k <= |list|
  {
    forall x: nat :: Free(list[k..], x) && !(from <= x < end) ==> Free(list[..k], x)
  }

  /** On any list: the removal takes exactly the range, if and only if the entries behind the first
      overwriting split hold no other byte outside the range. */
  lemma CarvedIsExactIff(list: FreeList, from: nat, end: nat)
    requires from <= end
    ensures (forall x: nat :: Free(Carved(list, from, end, 0), x) <==> Free(list, x) && !(from <= x < end))
            <==> NothingBehind(list, Survivors(list, from, end, 0), from, end)
  {
    hide Free;
    hide Carved;
    hide Survivors;
    var k := Survivors(list, from, end, 0);
    var cut := Carved(list, from, end, 0);
    assert list == list[..k] + list[k..];
    forall x: nat
      ensures Free(list, x) <==> Free(list[..k], x) || Free(list[k..], x)
      ensures Free(cut, x) <==> Free(list[..k], x) && !(from <= x < end)
    {
      FreeJoins(list[..k], list[k..], x);
      CarvedKeeps(list, from, end, 0, x);
    }
  }

  // ---- allocation --------------------------------------------------------------------------------------

  /** `alloc`: the offset handed out and the list afterwards. The part of the entry that is left over
      is put back although removing the range has already kept it. */
  function Allocated(list: FreeList, length: nat): (Option<nat>, FreeList) {
    var aligned := Aligned(length);
    var b := BestFit(list, aligned);
    if b == |list| then (None, list)
    else
      var (s, found) := (list[b].start, list[b].length);
      var cut := Carved(list, s, s + aligned, 0);
      (Some(s), if found > aligned then Freed(cut, Range(s + aligned, found - aligned)) else cut)
  }

  /** Long enough, none that is long enough shorter, and the first of its length. */
  ghost predicate ShortestFirst(list: FreeList, length: nat, b: nat)
    requires b < |list|
  {
    && list[b].length >= length
    && (forall i :: 0 <= i < |list| && list[i].length >= length ==> list[b].length <= list[i].length)
    && (forall i :: 0 <= i < b && list[i].length >= length ==> list[b].length < list[i].length)
  }

  /** On any list: the bytes handed out were free and are free no more, and nothing becomes free;
      there is no answer just when no entry is long enough. */
  lemma AllocIsSafe(list: FreeList, length: nat, x: nat)
    ensures var (r, n) := Allocated(list, length);
            var aligned := Aligned(length);
            && (r == None <==> forall i :: 0 <= i < |list| ==> list[i].length < aligned)
            && (r == None ==> n == list)
            && (r.Some? ==>
                  && (exists b :: 0 <= b < |list| && r.value == list[b].start && ShortestFirst(list, aligned, b))
                  && (In(Range(r.value, aligned), x) ==> Free(list, x) && !Free(n, x))
                  && (Free(n, x) ==> Free(list, x)))
  {
    hide Carved;
    hide Freed;
    hide BestFit;
    hide Aligned;
    var aligned := Aligned(length);
    var b := BestFit(list, aligned);
    if b < |list| {
      var (s, found) := (list[b].start, list[b].length);
      var cut := Carved(list, s, s + aligned, 0);
      assert In(list[b], x) ==> Free(list, x);
      if Free(cut, x) {
        CarvedIsWithin(list, s, s + aligned, 0, x);
      }
      FreeIsUnion(cut, Range(s + aligned, found - aligned), x);
    }
  }

  /** On any list: free afterwards are the bytes of the surviving entries and of the entry allocated
      from, other than those handed out. */
  lemma AllocKeeps(list: FreeList, length: nat, x: nat)
    requires Allocated(list, length).0.Some?
    ensures var (r, n) := Allocated(list, length);
            var aligned := Aligned(length);
            var k := Survivors(list, r.value, r.value + aligned, 0);
            && BestFit(list, aligned) < |list|
            && (Free(n, x) <==> !In(Range(r.value, aligned), x)
                                && (Free(list[..k], x) || In(list[BestFit(list, aligned)], x)))
  {
    hide Carved;
    hide Freed;
    hide BestFit;
    hide Aligned;
    hide Survivors;
    hide Free;
    var aligned := Aligned(length);
    var b := BestFit(list, aligned);
    var (s, found) := (list[b].start, list[b].length);
    CarvedKeeps(list, s, s + aligned, 0, x);
    FreeIsUnion(Carved(list, s, s + aligned, 0), Range(s + aligned, found - aligned), x);
  }

  /** The guard under which an allocation loses nothing: a byte behind the first overwriting split is
      also in front of it, in the entry allocated from, or handed out. */
  ghost predicate LosesNothing(list: FreeList, length: nat) {
    var (r, n) := Allocated(list, length);
    var aligned := Aligned(length);
    r.Some? ==>
      var k := Survivors(list, r.value, r.value + aligned, 0);
      forall x: nat :: Free(list[k..], x)
        ==> In(Range(r.value, aligned), x) || Free(list[..k], x) || In(list[BestFit(list, aligned)], x)
  }

  /** On any list: an allocation takes exactly the bytes it hands out if and only if it loses nothing
      behind an overwriting split. */
  lemma AllocIsExactIff(list: FreeList, length: nat)
    requires Allocated(list, length).0.Some?
    ensures var (r, n) := Allocated(list, length);
            && (forall x: nat :: Free(n, x) <==> Free(list, x) && !In(Range(r.value, Aligned(length)), x))
            <==> LosesNothing(list, length)
  {
    var (r, n) := Allocated(list, length);
    var aligned := Aligned(length);
    var b := BestFit(list, aligned);
    hide Carved;
    hide Freed;
    hide BestFit;
    hide Aligned;
    hide Survivors;
    hide Free;
    hide Allocated;
    var k := Survivors(list, r.value, r.value + aligned, 0);
    assert list == list[..k] + list[k..];
    FoundIs(list, length);
    forall x: nat
      ensures Free(list, x) <==> Free(list[..k], x) || Free(list[k..], x)
      ensures Free(n, x) <==> !In(Range(r.value, aligned), x) && (Free(list[..k], x) || In(list[b], x))
      ensures In(list[b], x) ==> Free(list, x)
    {
      FreeJoins(list[..k], list[k..], x);
      AllocKeeps(list, length, x);
      if In(list[b], x) {
        InIsFree(list, b, x);
      }
    }
  }

  // ---- exactness on lists without partial overlaps --------------------------------------------------

  /** A normal list in which each entry may be followed by copies of itself. */
  ghost predicate Layered(list: FreeList) {
    && (forall i :: 0 <= i < |list| ==> list[i].length > 0)
    && (forall i, j :: 0 <= i < j < |list| ==> list[i] == list[j] || End(list[i]) < list[j].start)
  }

  lemma NormalIsLayered(list: FreeList)
    requires Normal(list)
    ensures Layered(list)
  {
  }

  /** Each entry is the one allocated from, or lies apart from it. */
  ghost predicate Aside(list: FreeList, e: Range) {
    forall i :: 0 <= i < |list| ==> list[i] == e || End(list[i]) <= e.start || End(e) <= list[i].start
  }

  /** The list with `size` bytes cut off the front of every copy of an entry. */
  function Trimmed(list: FreeList, e: Range, size: nat): FreeList
    requires size <= e.length
  {
    if list == [] then []
    else (if list[0] != e then [list[0]] else if size < e.length then [Range(e.start + size, e.length - size)] else [])
         + Trimmed(list[1..], e, size)
  }

  lemma {:induction false} CarvedIsTrimmed(list: FreeList, e: Range, size: nat, gap: nat)
    requires 0 < size <= e.length && Aside(list, e)
    ensures Carved(list, e.start, e.start + size, gap) == Trimmed(list, e, size)
  {
    if list != [] {
      CarvedIsTrimmed(list[1..], e, size, gap + 1 - |Pieces(list[0], e.start, e.start + size)|);
    }
  }

  lemma {:induction false} TrimmedIsExact(list: FreeList, e: Range, size: nat, x: nat)
    requires size <= e.length && Aside(list, e)
    ensures Free(Trimmed(list, e, size), x) <==> Free(list, x) && !In(Range(e.start, size), x)
  {
    hide Free;
    if list == [] {
      NothingFree(x);
    } else {
      var front := if list[0] != e then [list[0]] else if size < e.length then [Range(e.start + size, e.length - size)] else [];
      assert list == [list[0]] + list[1..];
      TrimmedIsExact(list[1..], e, size, x);
      FreeJoins([list[0]], list[1..], x);
      FreeJoins(front, Trimmed(list[1..], e, size), x);
      FreeOne(list[0], x);
      if front == [] {
        NothingFree(x);
      } else {
        FreeOne(front[0], x);
      }
    }
  }

  lemma LayeredIsAside(list: FreeList, b: nat)
    requires Layered(list) && b < |list|
    ensures Aside(list, list[b])
  {
  }

  /** On a layered list allocation takes exactly the bytes handed out. */
  lemma AllocIsExact(list: FreeList, length: nat, x: nat)
    requires Layered(list) && Aligned(length) > 0 && Allocated(list, length).0.Some?
    ensures var (r, n) := Allocated(list, length);
            Free(n, x) <==> Free(list, x) && !In(Range(r.value, Aligned(length)), x)
  {
    hide Carved;
    hide Freed;
    hide BestFit;
    hide Aligned;
    hide Free;
    hide Layered;
    hide Trimmed;
    var aligned := Aligned(length);
    var b := BestFit(list, aligned);
    var e := list[b];
    LayeredIsAside(list, b);
    CarvedIsTrimmed(list, e, aligned, 0);
    TrimmedIsExact(list, e, aligned, x);
    FreeIsUnion(Trimmed(list, e, aligned), Range(e.start + aligned, e.length - aligned), x);
    if In(e, x) {
      InIsFree(list, b, x);
    }
  }

  lemma InIsFree(list: FreeList, i: nat, x: nat)
    requires i < |list| && In(list[i], x)
    ensures Free(list, x)
  {
  }

  // ---- the form of the list afterwards ---------------------------------------------------------------

  function Rest(e: Range, size: nat): Range
    requires size <= e.length
  {
    Range(e.start + size, e.length - size)
  }

  lemma {:induction false} TrimmedMembers(list: FreeList, e: Range, size: nat)
    requires size <= e.length
    ensures forall m :: m in Trimmed(list, e, size)
              ==> (m in list && m != e) || (m == Rest(e, size) && size < e.length && e in list)
  {
    if list != [] {
      TrimmedMembers(list[1..], e, size);
      assert forall m :: m in list[1..] ==> m in list;
      assert list[0] in list;
    }
  }

  lemma LayeredCons(r: Range, list: FreeList)
    requires Layered(list) && r.length > 0 && forall m :: m in list ==> m == r || End(r) < m.start
    ensures Layered([r] + list)
  {
  }

  lemma {:induction false} TrimmedIsLayered(list: FreeList, e: Range, size: nat)
    requires Layered(list) && 0 < size <= e.length
    ensures Layered(Trimmed(list, e, size))
  {
    if list != [] {
      TrimmedIsLayered(list[1..], e, size);
      TrimmedMembers(list[1..], e, size);
      var tail := Trimmed(list[1..], e, size);
      assert forall m :: m in list[1..] ==> m == list[0] || End(list[0]) < m.start;
      if list[0] != e {
        LayeredCons(list[0], tail);
      } else if size < e.length {
        LayeredCons(Rest(e, size), tail);
      }
    }
  }

  lemma VisitCopy(list: FreeList, i: nat, n: nat)
    requires Layered(list) && i < |list| && 0 < n <= |list| && forall k :: 0 <= k < i ==> list[k] != list[i]
    ensures n <= i ==> Visit(Scan(list[..n - 1], list[i], false), list[n - 1]) == Scan(list[..n], list[i], false)
    ensures n == i + 1 ==> Visit(Scan(list[..n - 1], list[i], false), list[n - 1]) == Scan(list[..i] + [list[i]] + list[i..n], list[i], true)
    ensures n > i + 1 ==> Visit(Scan(list[..i] + [list[i]] + list[i..n - 1], list[i], true), list[n - 1])
                          == Scan(list[..i] + [list[i]] + list[i..n], list[i], true)
  {
    var r, e := list[i], list[n - 1];
    assert r.length > 0 && e.length > 0;
    if n <= i {
      assert End(e) < r.start;
      assert list[..n - 1] + [e] == list[..n];
    } else if n == i + 1 {
      assert list[i..n] == [r];
    } else {
      assert list[i..n - 1] + [e] == list[i..n];
    }
  }

  /** Freeing a range that is an entry of a layered list adds one more copy of it. */
  lemma {:induction false} ScannedToCopy(list: FreeList, i: nat, n: nat)
    requires Layered(list) && i < |list| && n <= |list| && forall k :: 0 <= k < i ==> list[k] != list[i]
    ensures Scanned(list, list[i], n)
         == if n <= i then Scan(list[..n], list[i], false) else Scan(list[..i] + [list[i]] + list[i..n], list[i], true)
  {
    hide Visit;
    hide Layered;
    if n > 0 {
      ScannedToCopy(list, i, n - 1);
      VisitCopy(list, i, n);
    }
  }

  lemma FreedCopy(list: FreeList, i: nat)
    requires Layered(list) && i < |list| && forall k :: 0 <= k < i ==> list[k] != list[i]
    ensures Freed(list, list[i]) == list[..i] + [list[i]] + list[i..]
  {
    ScannedToCopy(list, i, |list|);
    assert list[i..|list|] == list[i..];
  }

  lemma LayeredCopy(list: FreeList, i: nat)
    requires Layered(list) && i < |list|
    ensures Layered(list[..i] + [list[i]] + list[i..])
  {
    var n := list[..i] + [list[i]] + list[i..];
    forall k | 0 <= k < |n|
      ensures n[k] == list[if k <= i then k else k - 1]
    {
    }
  }

  function FirstOf(list: FreeList, r: Range): (i: nat)
    ensures i <= |list|
    ensures i < |list| ==> list[i] == r
    ensures forall k :: 0 <= k < i ==> list[k] != r
  {
    if list == [] || list[0] == r then 0 else 1 + FirstOf(list[1..], r)
  }

  /** Allocation keeps a list layered, so along every run of allocations from a normal list each one
      takes exactly the bytes it hands out. */
  lemma AllocKeepsLayered(list: FreeList, length: nat)
    requires Layered(list) && Aligned(length) > 0
    ensures Layered(Allocated(list, length).1)
  {
    hide Carved;
    hide Freed;
    hide BestFit;
    hide Aligned;
    hide Layered;
    hide Trimmed;
    var aligned := Aligned(length);
    var b := BestFit(list, aligned);
    if b < |list| {
      var e := list[b];
      LayeredIsAside(list, b);
      CarvedIsTrimmed(list, e, aligned, 0);
      TrimmedIsLayered(list, e, aligned);
      if aligned < e.length {
        RestIsKept(list, b, aligned);
        var cut := Trimmed(list, e, aligned);
        var i := FirstOf(cut, Rest(e, aligned));
        FreedCopy(cut, i);
        LayeredCopy(cut, i);
      }
    }
  }

  lemma {:induction false} RestIsKept(list: FreeList, b: nat, size: nat)
    requires b < |list| && size < list[b].length
    ensures Rest(list[b], size) in Trimmed(list, list[b], size)
  {
    if b > 0 {
      RestIsKept(list[1..], b - 1, size);
    }
  }

  lemma {:induction false} TrimmedJoins(a: FreeList, b: FreeList, e: Range, size: nat)
    requires size <= e.length
    ensures Trimmed(a + b, e, size) == Trimmed(a, e, size) + Trimmed(b, e, size)
  {
    if a == [] {
      assert a + b == b;
    } else {
      assert (a + b)[1..] == a[1..] + b;
      TrimmedJoins(a[1..], b, e, size);
    }
  }

  lemma {:induction false} TrimmedElsewhere(list: FreeList, e: Range, size: nat)
    requires size <= e.length && forall i :: 0 <= i < |list| ==> list[i] != e
    ensures Trimmed(list, e, size) == list
  {
    if list != [] {
      TrimmedElsewhere(list[1..], e, size);
    }
  }

  lemma TrimmedSingle(e: Range, size: nat)
    requires size <= e.length
    ensures Trimmed([e], e, size) == if size < e.length then [Rest(e, size)] else []
  {
    assert [e][1..] == [];
  }

  lemma TrimmedMiddle(a: FreeList, e: Range, c: FreeList, size: nat)
    requires size <= e.length && e !in a && e !in c
    ensures Trimmed(a + [e] + c, e, size) == a + (if size < e.length then [Rest(e, size)] else []) + c
  {
    hide Trimmed;
    TrimmedJoins(a + [e], c, e, size);
    TrimmedJoins(a, [e], e, size);
    TrimmedSingle(e, size);
    TrimmedElsewhere(a, e, size);
    TrimmedElsewhere(c, e, size);
  }

  lemma TrimmedOnce(list: FreeList, b: nat, size: nat)
    requires Normal(list) && b < |list| && size <= list[b].length
    ensures Trimmed(list, list[b], size)
         == list[..b] + (if size < list[b].length then [Rest(list[b], size)] else []) + list[b + 1..]
  {
    hide Trimmed;
    assert list == list[..b] + [list[b]] + list[b + 1..];
    TrimmedMiddle(list[..b], list[b], list[b + 1..], size);
  }

  lemma RestIsDoubled(list: FreeList, b: nat, size: nat)
    requires Normal(list) && b < |list| && 0 < size < list[b].length
    ensures var rest := Rest(list[b], size);
            Freed(Trimmed(list, list[b], size), rest) == list[..b] + [rest, rest] + list[b + 1..]
  {
    hide Freed;
    hide Trimmed;
    var rest := Rest(list[b], size);
    var cut := Trimmed(list, list[b], size);
    NormalIsLayered(list);
    TrimmedOnce(list, b, size);
    TrimmedIsLayered(list, list[b], size);
    RestIsNew(list, b, size);
    assert cut == list[..b] + ([rest] + list[b + 1..]);
    assert cut[..b] == list[..b] && cut[b..] == [rest] + list[b + 1..];
    FreedCopy(cut, b);
  }

  lemma DoubledIsNotNormal(a: FreeList, r: Range, c: FreeList)
    requires r.length > 0
    ensures !Normal(a + [r, r] + c)
  {
    var n := a + [r, r] + c;
    assert n[|a|] == r && n[|a| + 1] == r;
  }

  /** On a normal list: an exact fit leaves a normal list; otherwise the part left over stands in the
      list twice, so the list is not normal any more. */
  lemma AllocFormIff(list: FreeList, length: nat)
    requires Normal(list) && Aligned(length) > 0 && Allocated(list, length).0.Some?
    ensures var b := BestFit(list, Aligned(length));
            var n := Allocated(list, length).1;
            && (list[b].length > Aligned(length)
                ==> var rest := Rest(list[b], Aligned(length)); n == list[..b] + [rest, rest] + list[b + 1..])
            && (list[b].length == Aligned(length) ==> n == list[..b] + list[b + 1..])
            && (Normal(n) <==> list[b].length == Aligned(length))
  {
    hide Carved;
    hide Freed;
    hide BestFit;
    hide Aligned;
    hide Trimmed;
    hide Normal;
    var aligned := Aligned(length);
    var b := BestFit(list, aligned);
    var e := list[b];
    NormalIsLayered(list);
    LayeredIsAside(list, b);
    CarvedIsTrimmed(list, e, aligned, 0);
    if aligned < e.length {
      RestIsDoubled(list, b, aligned);
      DoubledIsNotNormal(list[..b], Rest(e, aligned), list[b + 1..]);
    } else {
      TrimmedOnce(list, b, aligned);
      NormalWithout(list, b);
      assert list[..b] + [] + list[b + 1..] == list[..b] + list[b + 1..];
    }
  }

  lemma RestIsNew(list: FreeList, b: nat, size: nat)
    requires Normal(list) && b < |list| && 0 < size < list[b].length
    ensures forall k :: 0 <= k < b ==> list[k] != Rest(list[b], size)
  {
  }

  lemma NormalWithout(list: FreeList, b: nat)
    requires Normal(list) && b < |list|
    ensures Normal(list[..b] + list[b + 1..])
  {
    var n := list[..b] + list[b + 1..];
    forall k | 0 <= k < |n|
      ensures n[k] == list[if k < b then k else k + 1]
    {
    }
  }

  /** `free_bytes` falls by the bytes handed out, but the part left over is counted twice. */
  lemma AllocTotal(list: FreeList, length: nat)
    requires Normal(list) && Aligned(length) > 0 && Allocated(list, length).0.Some?
    ensures var found := list[BestFit(list, Aligned(length))].length;
            Total(Allocated(list, length).1) == Total(list) - Aligned(length) + (found - Aligned(length))
  {
    hide BestFit;
    hide Aligned;
    hide Allocated;
    hide Total;
    var b := BestFit(list, Aligned(length));
    FoundIs(list, length);
    AllocFormIff(list, length);
    assert list == list[..b] + [list[b]] + list[b + 1..];
    TotalJoins(list[..b] + [list[b]], list[b + 1..]);
    TotalJoins(list[..b], [list[b]]);
    TotalSmall(list[b], list[b]);
    if list[b].length > Aligned(length) {
      var rest := Rest(list[b], Aligned(length));
      TotalJoins(list[..b] + [rest, rest], list[b + 1..]);
      TotalJoins(list[..b], [rest, rest]);
      TotalSmall(rest, rest);
    } else {
      TotalJoins(list[..b], list[b + 1..]);
    }
  }

  lemma FoundIs(list: FreeList, length: nat)
    ensures Allocated(list, length).0.Some? <==> BestFit(list, Aligned(length)) < |list|
  {
  }

  // ---- runs ------------------------------------------------------------------------------------------------

  datatype Call = AllocCall(length: nat) | FreeCall(which: nat)

  /** The list and the ranges handed out and not yet given back. */
  datatype State = State(list: FreeList, live: seq<Range>)

  function Perform(s: State, c: Call): State {
    match c
    case AllocCall(length) =>
      var (r, n) := Allocated(s.list, length);
      if r.Some? then State(n, s.live + [Range(r.value, Aligned(length))]) else s
    case FreeCall(i) =>
      if i < |s.live| then State(Freed(s.list, s.live[i]), s.live[..i] + s.live[i + 1..]) else s
  }

  /** No byte is in two ranges handed out, and none of them is free. */
  ghost predicate Exclusive(s: State) {
    && (forall i, x: nat :: 0 <= i < |s.live| && In(s.live[i], x) ==> !Free(s.list, x))
    && (forall i, j, x: nat :: 0 <= i < j < |s.live| && In(s.live[i], x) ==> !In(s.live[j], x))
  }

  lemma AllocStaysExclusive(s: State, length: nat)
    requires Exclusive(s)
    ensures Exclusive(Perform(s, AllocCall(length)))
  {
    hide Allocated;
    hide Free;
    hide Aligned;
    var n := Perform(s, AllocCall(length));
    forall i, x: nat | 0 <= i < |n.live| && In(n.live[i], x)
      ensures !Free(n.list, x)
    {
      AllocIsSafe(s.list, length, x);
    }
    forall i, j, x: nat | 0 <= i < j < |n.live| && In(n.live[i], x)
      ensures !In(n.live[j], x)
    {
      AllocIsSafe(s.list, length, x);
    }
  }

  lemma FreeStaysExclusive(s: State, i: nat)
    requires Exclusive(s)
    ensures Exclusive(Perform(s, FreeCall(i)))
  {
    hide Freed;
    hide Free;
    hide In;
    var n := Perform(s, FreeCall(i));
    if i < |s.live| {
      forall k | 0 <= k < |n.live|
        ensures n.live[k] == s.live[if k < i then k else k + 1]
      {
      }
      forall k, x: nat | 0 <= k < |n.live| && In(n.live[k], x)
        ensures !Free(n.list, x)
      {
        FreeIsUnion(s.list, s.live[i], x);
      }
    }
  }

  ghost predicate IsRun(states: seq<State>, calls: seq<Call>) {
    && |states| == |calls| + 1 && states[0].live == []
    && (forall i :: 0 <= i < |calls| ==> states[i + 1] == Perform(states[i], calls[i]))
  }

  /** Over every run of allocations and frees, from any list at all: ranges handed out never share
      a byte with each other or with the free list. */
  lemma {:induction false} RunsNeverShare(states: seq<State>, calls: seq<Call>, i: nat)
    requires IsRun(states, calls) && i < |states|
    ensures Exclusive(states[i])
  {
    if i > 0 {
      RunsNeverShare(states, calls, i - 1);
      match calls[i - 1]
      case AllocCall(length) => AllocStaysExclusive(states[i - 1], length);
      case FreeCall(k) => FreeStaysExclusive(states[i - 1], k);
    }
  }

  // ---- conservation -----------------------------------------------------------------------------------------

  predicate Live(s: State, x: nat) {
    exists i :: 0 <= i < |s.live| && In(s.live[i], x)
  }

  /** The byte is free or handed out. */
  predicate Owned(s: State, x: nat) {
    Free(s.list, x) || Live(s, x)
  }

  ghost predicate Conserves(s: State, c: Call) {
    c.AllocCall? ==> LosesNothing(s.list, c.length)
  }

  lemma LiveAdded(s: State, r: Range, x: nat)
    ensures Live(s.(live := s.live + [r]), x) <==> Live(s, x) || In(r, x)
  {
    FreeJoins(s.live, [r], x);
    FreeOne(r, x);
    assert Live(s, x) <==> Free(s.live, x);
    assert Live(s.(live := s.live + [r]), x) <==> Free(s.live + [r], x);
  }

  lemma LiveTaken(s: State, i: nat, x: nat)
    requires i < |s.live|
    ensures Live(s, x) <==> Free(s.live[..i] + s.live[i + 1..], x) || In(s.live[i], x)
  {
    assert s.live == s.live[..i] + [s.live[i]] + s.live[i + 1..];
    FreeJoins(s.live[..i] + [s.live[i]], s.live[i + 1..], x);
    FreeJoins(s.live[..i], [s.live[i]], x);
    FreeJoins(s.live[..i], s.live[i + 1..], x);
    FreeOne(s.live[i], x);
    assert Live(s, x) <==> Free(s.live, x);
  }

  /** No call makes a byte appear, and a call that loses nothing keeps every byte. */
  lemma StepOwns(s: State, c: Call, x: nat)
    ensures Owned(Perform(s, c), x) ==> Owned(s, x)
    ensures Conserves(s, c) && Owned(s, x) ==> Owned(Perform(s, c), x)
  {
    hide Allocated;
    hide Freed;
    hide Free;
    hide Live;
    hide Aligned;
    hide LosesNothing;
    match c
    case AllocCall(length) =>
      AllocIsSafe(s.list, length, x);
      var (r, n) := Allocated(s.list, length);
      if r.Some? {
        AllocIsExactIff(s.list, length);
        LiveAdded(s, Range(r.value, Aligned(length)), x);
        LiveIsLive(s.(live := s.live + [Range(r.value, Aligned(length))]), Perform(s, c), x);
      }
    case FreeCall(i) =>
      if i < |s.live| {
        FreeIsUnion(s.list, s.live[i], x);
        LiveTaken(s, i, x);
        LiveIsFree(Perform(s, c), x);
      }
  }

  lemma LiveIsLive(s: State, t: State, x: nat)
    requires s.live == t.live
    ensures Live(s, x) <==> Live(t, x)
  {
  }

  lemma LiveIsFree(s: State, x: nat)
    ensures Live(s, x) <==> Free(s.live, x)
  {
  }

  /** A call that is not safe loses some byte for good. */
  lemma StepLoses(s: State, c: Call) returns (x: nat)
    requires Exclusive(s) && !Conserves(s, c)
    ensures Free(s.list, x) && !Owned(Perform(s, c), x)
  {
    hide Aligned;
    var length := c.length;
    var (r, n) := Allocated(s.list, length);
    hide Allocated;
    hide Free;
    AllocIsExactIff(s.list, length);
    hide LosesNothing;
    var handed := Range(r.value, Aligned(length));
    assert !(forall y: nat :: Free(n, y) <==> Free(s.list, y) && !In(handed, y));
    x :| !(Free(n, x) <==> Free(s.list, x) && !In(handed, x));
    AllocIsSafe(s.list, length, x);
    LiveAdded(s, handed, x);
    LiveIsLive(s.(live := s.live + [handed]), Perform(s, c), x);
  }

  lemma {:induction false} RunsOwnLess(states: seq<State>, calls: seq<Call>, i: nat, j: nat, x: nat)
    requires IsRun(states, calls) && i <= j < |states| && Owned(states[j], x)
    ensures Owned(states[i], x)
    decreases j - i
  {
    if i < j {
      StepOwns(states[j - 1], calls[j - 1], x);
      RunsOwnLess(states, calls, i, j - 1, x);
    }
  }

  lemma {:induction false} RunsKeep(states: seq<State>, calls: seq<Call>, n: nat, x: nat)
    requires IsRun(states, calls) && n < |states| && Free(states[0].list, x)
    requires forall i :: 0 <= i < n ==> Conserves(states[i], calls[i])
    ensures Owned(states[n], x)
  {
    if n > 0 {
      RunsKeep(states, calls, n - 1, x);
      StepOwns(states[n - 1], calls[n - 1], x);
    }
  }

  /** Conservation over every run, from any list: a byte free or handed out was free at the start; and
      every byte free at the start still is one or the other, if and only if no allocation of the run
      lost something behind an overwriting split. */
  lemma RunsConserveIff(states: seq<State>, calls: seq<Call>, n: nat)
    requires IsRun(states, calls) && n < |states|
    ensures forall x: nat :: Owned(states[n], x) ==> Free(states[0].list, x)
    ensures (forall x: nat :: Free(states[0].list, x) ==> Owned(states[n], x))
            <==> (forall i :: 0 <= i < n ==> Conserves(states[i], calls[i]))
  {
    hide Conserves;
    hide Free;
    forall x: nat | Owned(states[n], x)
      ensures Free(states[0].list, x)
    {
      RunsOwnLess(states, calls, 0, n, x);
    }
    if forall i :: 0 <= i < n ==> Conserves(states[i], calls[i]) {
      forall x: nat | Free(states[0].list, x)
        ensures Owned(states[n], x)
      {
        RunsKeep(states, calls, n, x);
      }
    } else {
      var i :| 0 <= i < n && !Conserves(states[i], calls[i]);
      RunsNeverShare(states, calls, i);
      var x := StepLoses(states[i], calls[i]);
      RunsOwnLess(states, calls, 0, i, x);
      if Owned(states[n], x) {
        RunsOwnLess(states, calls, i + 1, n, x);
      }
    }
  }

  // ---- a run that loses free space --------------------------------------------------------------------------

  const TWO_RANGES: FreeList := [Range(0, 2048), Range(8192, 4096)]
  const AFTER_ALLOC: FreeList := [Range(512, 1536), Range(512, 1536), Range(8192, 4096)]
  const AFTER_FREE: FreeList := [Range(0, 2048), Range(512, 1536), Range(8192, 4096)]
  const AFTER_LOSS: FreeList := [Range(0, 512), Range(1024, 1024), Range(1024, 1024), Range(1024, 1024), Range(1024, 1024)]

  lemma FirstAlloc()
    ensures Perform(State(TWO_RANGES, []), AllocCall(512)) == State(AFTER_ALLOC, [Range(0, 512)])
  {
    assert BestFit(TWO_RANGES, 512) == 0;
    assert TWO_RANGES[1..] == [Range(8192, 4096)];
    assert Carved([Range(8192, 4096)], 0, 512, 0) == [Range(8192, 4096)];
    assert Carved(TWO_RANGES, 0, 512, 0) == [Range(512, 1536), Range(8192, 4096)];
    var cut, r := [Range(512, 1536), Range(8192, 4096)], Range(512, 1536);
    assert Scanned(cut, r, 0) == Scan([], r, false);
    assert Scanned(cut, r, 1) == Scan([r, r], r, true);
    assert Freed(cut, r) == AFTER_ALLOC;
  }

  lemma FreeOverlaps()
    ensures Perform(State(AFTER_ALLOC, [Range(0, 512)]), FreeCall(0)) == State(AFTER_FREE, [])
  {
    var r := Range(0, 512);
    assert Scanned(AFTER_ALLOC, r, 0) == Scan([], r, false);
    assert Scanned(AFTER_ALLOC, r, 1) == Scan([], Range(0, 2048), false);
    assert Scanned(AFTER_ALLOC, r, 2) == Scan([Range(0, 2048), Range(512, 1536)], Range(0, 2048), true);
    assert Freed(AFTER_ALLOC, r) == AFTER_FREE;
  }

  lemma SecondCut()
    ensures BestFit(AFTER_FREE, 512) == 1 && Aligned(512) == 512
    ensures Carved(AFTER_FREE, 512, 1024, 0) == [Range(0, 512), Range(1024, 1024), Range(1024, 1024), Range(1024, 1024)]
  {
    assert Pieces(AFTER_FREE[0], 512, 1024) == [Range(0, 512), Range(1024, 1024)];
    assert Copies(Range(1024, 1024), 2) == [Range(1024, 1024), Range(1024, 1024)];
  }

  lemma SecondRest()
    ensures Freed([Range(0, 512), Range(1024, 1024), Range(1024, 1024), Range(1024, 1024)], Range(1024, 1024)) == AFTER_LOSS
  {
    var r := Range(1024, 1024);
    var cut := [Range(0, 512), r, r, r];
    assert Scanned(cut, r, 0) == Scan([], r, false);
    assert Scanned(cut, r, 1) == Scan([Range(0, 512)], r, false);
    assert Scanned(cut, r, 2) == Scan([Range(0, 512), r, r], r, true);
    assert Scanned(cut, r, 3) == Scan([Range(0, 512), r, r, r], r, true);
    assert Scanned(cut, r, 4) == Scan([Range(0, 512), r, r, r, r], r, true);
  }

  lemma SecondAlloc()
    ensures Perform(State(AFTER_FREE, []), AllocCall(512)) == State(AFTER_LOSS, [Range(512, 512)])
  {
    hide Carved, Freed, BestFit, Aligned;
    SecondCut();
    SecondRest();
  }

  /** From a normal list with two ranges, three ordinary calls - allocate a block, free it, allocate
      a block - lose the whole second range: every byte of it was free, none is free or handed out. */
  lemma RunLeaks() returns (states: seq<State>, calls: seq<Call>)
    ensures IsRun(states, calls) && calls == [AllocCall(512), FreeCall(0), AllocCall(512)]
    ensures states[0].list == TWO_RANGES && Normal(TWO_RANGES) && states[3] == State(AFTER_LOSS, [Range(512, 512)])
    ensures forall x: nat :: In(Range(8192, 4096), x) ==> Free(states[0].list, x) && !Owned(states[3], x)
  {
    hide Perform;
    FirstAlloc();
    FreeOverlaps();
    SecondAlloc();
    calls := [AllocCall(512), FreeCall(0), AllocCall(512)];
    states := [State(TWO_RANGES, []), State(AFTER_ALLOC, [Range(0, 512)]), State(AFTER_FREE, []), State(AFTER_LOSS, [Range(512, 512)])];
    assert forall x: nat :: In(TWO_RANGES[1], x) ==> Free(TWO_RANGES, x);
  }
}
