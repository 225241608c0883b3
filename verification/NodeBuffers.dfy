/** Node buffers shifted and compacted in place. */
module NodeBuffers {
  import opened Extents
  import opened ExtentCuts
  import opened ExtentInsert
  import opened ExtentTrees
  import opened Options

  /** Extents of 34 bytes behind a header of 15 bytes in a node of 4096 bytes. */
  const NODE_SLOTS: nat := 120

  /** Index entries of 16 bytes behind the same header. */
  const INDEX_SLOTS: nat := 255

  class LeafBuf {
    const slots: array<Extent>
    var entries: nat

    ghost predicate Valid()
      reads this
    {
      slots.Length == NODE_SLOTS && entries <= NODE_SLOTS
    }

    ghost function Contents(): Leaf
      requires Valid()
      reads this, slots
    {
      slots[..entries]
    }

    constructor (es: Leaf)
      requires |es| <= NODE_SLOTS
      ensures Valid() && Contents() == es && fresh(slots)
    {
      slots := new Extent[NODE_SLOTS](i => if 0 <= i < |es| then es[i] else Extent(0, 0, 0, 0, 0, 0));
      entries := |es|;
      new;
      assert slots[..entries] == es;
    }

    method FindIn(x: nat) returns (m: Option<Mapping>)
      requires Valid()
      ensures m == LookupIn(Contents(), x)
    {
      var i := 0;
      while i < entries
        invariant 0 <= i <= entries
        invariant forall k :: 0 <= k < i ==> !Covers(slots[k], x)
      {
        if slots[i].logical <= x && x < slots[i].logical + slots[i].length {
          FirstIs(Contents(), x, i);
          return Some(MappingAt(slots[i], x));
        }
        i := i + 1;
      }
      FirstIs(Contents(), x, i);
      m := None;
    }

    method TryMerge(e: Extent) returns (merged: bool)
      requires Valid()
      modifies slots
      ensures Valid()
      ensures var es := old(Contents());
              var m := MergeAt(es, e);
              merged == (m < |es|) && Contents() == if m < |es| then es[m := Merged(es[m], e)] else es
    {
      ghost var es := Contents();
      var i := 0;
      while i < entries
        invariant 0 <= i <= entries && Contents() == es && |es| == entries
        invariant forall k :: 0 <= k < i ==> !Extends(es[k], e)
      {
        if Extends(slots[i], e) {
          MergeAtIs(es, e, i);
          slots[i] := Merged(slots[i], e);
          assert Contents() == es[i := Merged(es[i], e)];
          return true;
        }
        i := i + 1;
      }
      MergeAtIs(es, e, i);
      merged := false;
    }

    method FindInsertPos(logical: nat) returns (i: nat)
      requires Valid()
      ensures i == InsertPos(Contents(), logical)
    {
      i := 0;
      while i < entries
        invariant i <= entries
        invariant forall k :: 0 <= k < i ==> slots[k].logical <= logical
      {
        if slots[i].logical > logical {
          PosIs(Contents(), logical, i);
          return;
        }
        i := i + 1;
      }
      PosIs(Contents(), logical, i);
    }

    method InsertSorted(e: Extent)
      requires Valid() && entries < NODE_SLOTS
      modifies this, slots
      ensures Valid() && Contents() == Place(old(Contents()), e)
    {
      hide InsertPos;
      ghost var es := Contents();
      var pos := FindInsertPos(e.logical);
      var j := entries;
      while j > pos
        invariant pos <= j <= entries == |es| < NODE_SLOTS
        invariant forall k :: 0 <= k < j ==> slots[k] == es[k]
        invariant forall k :: j < k <= entries ==> slots[k] == es[k - 1]
      {
        slots[j] := slots[j - 1];
        j := j - 1;
      }
      slots[pos] := e;
      entries := entries + 1;
      PlaceIs(es, e, Contents());
    }

    /** Writes one kept entry behind the `count` kept so far; entry `i` has been read. */
    method Keep(count: nat, i: nat, e: Extent)
      requires Valid() && count <= i < entries
      modifies slots
      ensures Valid() && slots[..count + 1] == old(slots[..count]) + [e]
      ensures slots[i + 1..entries] == old(slots[i + 1..entries])
    {
      slots[count] := e;
    }

    method Truncate(size: nat)
      requires Valid()
      modifies this, slots
      ensures Valid() && Contents() == Shortened(old(Contents()), size)
    {
      hide Shortened;
      ghost var es := Contents();
      var count, i := 0, 0;
      ShortenedNone(size);
      while i < entries
        invariant 0 <= count <= i <= entries == |es| && Valid()
        invariant slots[..count] == Shortened(es[..i], size)
        invariant slots[i..entries] == es[i..]
      {
        var e := slots[i];
        ReadNext(es, i, slots[i..entries]);
        ShortenedNext(es, i, size);
        if e.logical >= size {
        } else if e.logical + e.length > size {
          Keep(count, i, e.(length := size - e.logical, physicalLength := Minus(e.physicalLength, e.logical + e.length - size)));
          count := count + 1;
        } else {
          Keep(count, i, e);
          count := count + 1;
        }
        i := i + 1;
      }
      assert es[..i] == es;
      entries := count;
    }

    /** Treats entry `i`: writes what the hole leaves of it behind the `count` entries kept. */
    method PunchOne(count: nat, i: nat, from: nat, end: nat) returns (n: nat)
      requires Valid() && i < entries && from < end
      requires count + |Pieces(slots[i], from, end)| <= NODE_SLOTS
      modifies slots
      ensures Valid() && n == count + |Pieces(old(slots[i]), from, end)| <= NODE_SLOTS
      ensures slots[..n] == old(slots[..count]) + Pieces(old(slots[i]), from, end)
      ensures n <= i + 1 ==> slots[i + 1..entries] == old(slots[i + 1..entries])
    {
      var e := slots[i];
      n := count;
      if e.logical + e.length <= from || e.logical >= end {
        slots[n] := e;
        n := n + 1;
      } else if e.logical < from && e.logical + e.length > end {
        slots[n] := LeftPiece(e, from);
        n := n + 1;
        slots[n] := RightPiece(e, end, from - e.logical);
        n := n + 1;
      } else if e.logical < from {
        slots[n] := LeftPiece(e, from);
        n := n + 1;
      } else if e.logical + e.length > end {
        slots[n] := RightPiece(e, end, 0);
        n := n + 1;
      }
    }

    /** Compacts the leaf around a hole, over the entries still to be read. */
    method RemoveRange(from: nat, end: nat)
      requires Valid() && from < end && |Punched(Contents(), from, end)| <= NODE_SLOTS
      modifies this, slots
      ensures Valid() && Contents() == Punched(old(Contents()), from, end)
    {
      hide Compacted;
      hide Pieces;
      hide Repeated;
      ghost var es := Contents();
      ghost var aim := Compacted(es, from, end, 0);
      ghost var spoilt: Option<Extent> := None;
      var count, i := 0, 0;
      assert es[0..] == es;
      while i < entries
        invariant 0 <= i <= entries == |es| && 0 <= count <= i + 1 && count <= NODE_SLOTS && Valid()
        invariant spoilt == None ==> count <= i && slots[i..entries] == es[i..]
        invariant spoilt == None ==> slots[..count] + Compacted(es[i..], from, end, i - count) == aim
        invariant spoilt.Some? ==> count == i + 1 && slots[..count][i] == spoilt.value && Outside(spoilt.value, from, end)
        invariant spoilt.Some? ==> slots[..count] + Repeated(spoilt.value, entries - i) == aim
      {
        if spoilt == None {
          CompactStep(slots[..count], es[i..], from, end, i - count);
          assert es[i..][1..] == es[i + 1..] && slots[i] == es[i..][0] == slots[i..entries][0];
          assert slots[i + 1..entries] == slots[i..entries][1..];
        } else {
          assert slots[i] == slots[..count][i];
          RepeatStep(slots[..count], spoilt.value, from, end, entries - i);
        }
        ghost var p := Pieces(slots[i], from, end);
        ghost var was := count;
        assert count + |p| <= |aim|;
        count := PunchOne(count, i, from, end);
        if spoilt == None && |p| == 2 && was == i {
          spoilt := Some(p[1]);
        }
        i := i + 1;
      }
      CompactNone(from, end);
      assert es[i..] == [];
      entries := count;
    }

    /** The entries and one more, in order: the copying loop of a split. */
    method CollectWith(e: Extent) returns (all: array<Extent>, count: nat)
      requires Valid() && entries <= MAX_LEAF_ENTRIES
      ensures fresh(all) && count <= all.Length && all[..count] == Place(Contents(), e)
    {
      hide InsertPos;
      ghost var es := Contents();
      ghost var pos := InsertPos(es, e.logical);
      all := new Extent[MAX_LEAF_ENTRIES + 1](_ => e);
      count := 0;
      var inserted := false;
      var i := 0;
      while i < entries
        invariant 0 <= i <= entries == |es| && inserted == (i > pos) && count == (if inserted then i + 1 else i) <= all.Length
        invariant forall k :: 0 <= k < i && k < pos ==> all[k] == es[k]
        invariant inserted ==> all[pos] == e
        invariant forall k :: pos < k < count ==> all[k] == es[k - 1]
        invariant Contents() == es
        invariant all != slots
      {
        if !inserted && e.logical < slots[i].logical {
          InsertPosAt(es, e.logical, i);
          all[count] := e;
          count := count + 1;
          inserted := true;
        }
        all[count] := slots[i];
        count := count + 1;
        i := i + 1;
      }
      if !inserted {
        all[count] := e;
        count := count + 1;
      }
      PlaceIs(es, e, all[..count]);
    }

    /** The same merge as the migration of a full inline root runs it. */
    method MergeWith(e: Extent) returns (all: array<Extent>, count: nat)
      requires Valid() && entries < MAX_LEAF_ENTRIES
      ensures fresh(all) && count <= all.Length && all[..count] == Place(Contents(), e)
    {
      hide InsertPos;
      ghost var es := Contents();
      ghost var pos := InsertPos(es, e.logical);
      all := new Extent[MAX_LEAF_ENTRIES](_ => e);
      count := 0;
      var i, inserted := 0, false;
      while i < entries || !inserted
        invariant 0 <= i <= entries == |es| && count == (if inserted then i + 1 else i) <= all.Length
        invariant if inserted then i >= pos else i <= pos
        invariant forall k :: 0 <= k < i && k < pos ==> all[k] == es[k]
        invariant inserted ==> all[pos] == e
        invariant forall k :: pos < k < count ==> all[k] == es[k - 1]
        invariant Contents() == es
        decreases entries - i, !inserted
      {
        var useNew := if i >= entries then true else if inserted then false else e.logical < slots[i].logical;
        if useNew {
          if i < entries {
            InsertPosAt(es, e.logical, i);
          }
          all[count] := e;
          count := count + 1;
          inserted := true;
        } else {
          all[count] := slots[i];
          count := count + 1;
          i := i + 1;
        }
      }
      PlaceIs(es, e, all[..count]);
    }
  }

  lemma InsertPosAt(es: Leaf, logical: nat, i: nat)
    requires i < |es| && i <= InsertPos(es, logical) && es[i].logical > logical
    ensures InsertPos(es, logical) == i
  {
    hide InsertPos;
  }

  lemma CompactStep(done: Leaf, es: Leaf, from: nat, end: nat, gap: nat)
    requires es != [] && from < end
    ensures var p := Pieces(es[0], from, end);
            && |p| <= 2 && (|p| == 2 ==> Outside(p[1], from, end))
            && (|p| == 2 && gap == 0 ==> done + Compacted(es, from, end, gap) == (done + p) + Repeated(p[1], |es| - 1))
            && (|p| < 2 || gap > 0 ==> done + Compacted(es, from, end, gap) == (done + p) + Compacted(es[1..], from, end, gap + 1 - |p|))
  {
    hide Repeated;
  }

  lemma RepeatStep(done: Leaf, e: Extent, from: nat, end: nat, n: nat)
    requires Outside(e, from, end) && from < end && n > 0
    ensures Pieces(e, from, end) == [e] && done + Repeated(e, n) == (done + [e]) + Repeated(e, n - 1)
  {
    assert Repeated(e, n) == [e] + Repeated(e, n - 1);
  }

  lemma CompactNone(from: nat, end: nat)
    requires from < end
    ensures forall gap: nat :: Compacted([], from, end, gap) == []
    ensures forall e :: Repeated(e, 0) == []
  {
  }

  lemma PlaceIs(es: Leaf, e: Extent, r: Leaf)
    requires |r| == |es| + 1
    requires var i := InsertPos(es, e.logical);
             && r[i] == e
             && (forall k :: 0 <= k < i ==> r[k] == es[k])
             && (forall k :: i < k < |r| ==> r[k] == es[k - 1])
    ensures r == Place(es, e)
  {
    hide InsertPos;
    SpliceIs(es, InsertPos(es, e.logical), e, r);
  }

  lemma SpliceIs(es: Leaf, i: nat, e: Extent, r: Leaf)
    requires |r| == |es| + 1 && i <= |es| && r[i] == e
    requires forall k :: 0 <= k < i ==> r[k] == es[k]
    requires forall k :: i < k < |r| ==> r[k] == es[k - 1]
    ensures r == es[..i] + [e] + es[i..]
  {
  }

  lemma ReadNext(es: Leaf, i: nat, rest: Leaf)
    requires i < |es| && rest == es[i..]
    ensures rest[0] == es[i] && rest[1..] == es[i + 1..]
  {
  }

  lemma ShortenedNone(size: nat)
    ensures Shortened([], size) == []
  {
  }

  lemma ShortenedNext(es: Leaf, i: nat, size: nat)
    requires i < |es|
    ensures Shortened(es[..i + 1], size) == Shortened(es[..i], size) + Short(es[i], size)
  {
    assert es[..i + 1][..i] == es[..i];
  }

  class IndexBuf {
    const slots: array<Index>
    var entries: nat

    ghost predicate Valid()
      reads this
    {
      slots.Length == INDEX_SLOTS && entries <= INDEX_SLOTS
    }

    ghost function Contents(): seq<Index>
      requires Valid()
      reads this, slots
    {
      slots[..entries]
    }

    constructor (index: seq<Index>)
      requires |index| <= INDEX_SLOTS
      ensures Valid() && Contents() == index && fresh(slots)
    {
      slots := new Index[INDEX_SLOTS](i => if 0 <= i < |index| then index[i] else Index(0, 0));
      entries := |index|;
      new;
      assert slots[..entries] == index;
    }

    /** Binary search for the last entry with a key of at most `x`; `Route` on any keys. */
    method FindChildIndex(x: nat) returns (c: nat)
      requires Valid() && entries > 0
      ensures c == Route(Contents(), x)
    {
      ghost var index := Contents();
      var lo, hi: int := 0, entries - 1;
      while lo <= hi
        invariant 0 <= lo <= hi + 1 <= entries == |index|
        invariant Search(index, x, lo, hi) == Search(index, x, 0, entries - 1)
      {
        var mid := (lo + hi) / 2;
        if slots[mid].key <= x {
          lo := mid + 1;
        } else {
          hi := mid - 1;
        }
      }
      c := if hi < 0 then 0 else hi;
    }

    method InsertAfter(c: nat, entry: Index)
      requires Valid() && c < entries < INDEX_SLOTS
      modifies this, slots
      ensures Valid() && Contents() == WithEntry(old(Contents()), c, entry)
    {
      ghost var index := Contents();
      var j := entries;
      while j > c + 1
        invariant c < j <= entries == |index| < INDEX_SLOTS
        invariant forall k :: 0 <= k < j ==> slots[k] == index[k]
        invariant forall k :: j < k <= entries ==> slots[k] == index[k - 1]
      {
        slots[j] := slots[j - 1];
        j := j - 1;
      }
      slots[c + 1] := entry;
      entries := entries + 1;
      EntryIs(index, c, entry, Contents());
    }
  }

  lemma EntryIs(index: seq<Index>, c: nat, entry: Index, r: seq<Index>)
    requires c < |index| && |r| == |index| + 1 && r[c + 1] == entry
    requires forall k :: 0 <= k <= c ==> r[k] == index[k]
    requires forall k :: c + 1 < k < |r| ==> r[k] == index[k - 1]
    ensures r == WithEntry(index, c, entry)
  {
    hide WithEntry;
  }
}
