/** The free-space node: entries compacted in place and merged through a scratch array. */
module SpaceList {
  import opened FreeSpace
  import opened Options
  import opened SpaceAlloc

  /** Entries of 16 bytes behind a header of 14 bytes in a node of 4096 bytes. */
  const NODE_SLOTS: nat := 255

  class FreeSpaceTree {
    /** Device offset of the root node; 0 before the file system is set up. */
    var root: nat
    var entries: nat
    const slots: array<Range>

    ghost predicate Valid()
      reads this
    {
      slots.Length == NODE_SLOTS && entries <= NODE_SLOTS
    }

    ghost function List(): FreeList
      requires Valid()
      reads this, slots
    {
      slots[..entries]
    }

    constructor (root: nat)
      ensures Valid() && List() == [] && this.root == root
    {
      this.root := root;
      entries := 0;
      slots := new Range[NODE_SLOTS](_ => Range(0, 0));
    }

    /** Adds up the lengths of the entries. */
    method FreeBytes() returns (total: nat)
      requires Valid()
      ensures total == if root == 0 then 0 else Total(List())
    {
      total := 0;
      if root == 0 {
        return;
      }
      var i := 0;
      while i < entries
        invariant 0 <= i <= entries && total == Total(slots[..i])
      {
        assert slots[..i + 1][..i] == slots[..i];
        total := total + slots[i].length;
        i := i + 1;
      }
    }

    /** One pass for the shortest entry that is long enough, keeping the first among equals. */
    method FindBest(length: nat) returns (best: nat, found: bool)
      requires Valid()
      ensures found == (BestFit(List(), length) < entries) && (found ==> best == BestFit(List(), length))
    {
      hide BestFit;
      best, found := 0, false;
      var i := 0;
      while i < entries
        invariant 0 <= i <= entries && (found ==> best < i && slots[best].length >= length)
        invariant found ==> forall k :: 0 <= k < i && slots[k].length >= length ==> slots[best].length <= slots[k].length
        invariant found ==> forall k :: 0 <= k < best && slots[k].length >= length ==> slots[best].length < slots[k].length
        invariant !found ==> forall k :: 0 <= k < i ==> slots[k].length < length
      {
        if slots[i].length >= length && (!found || slots[i].length - length < slots[best].length - length) {
          best, found := i, true;
        }
        i := i + 1;
      }
      BestIs(List(), length, if found then best else entries);
    }

    /** Treats entry `i`: writes what is left of it behind the `count` entries kept. */
    method RemoveOne(count: nat, i: nat, from: nat, end: nat) returns (n: nat)
      requires Valid() && i < entries && from <= end && count <= i + 1
      requires count + |Pieces(slots[i], from, end)| <= NODE_SLOTS
      modifies slots
      ensures n == count + |Pieces(old(slots[i]), from, end)| <= NODE_SLOTS
      ensures slots[..n] == old(slots[..count]) + Pieces(old(slots[i]), from, end)
      ensures n <= i + 1 ==> slots[i + 1..entries] == old(slots[i + 1..entries])
    {
      var e := slots[i];
      n := count;
      if End(e) <= from || e.start >= end {
        slots[n] := e;
        n := n + 1;
      } else if e.start < from && End(e) > end {
        slots[n] := Range(e.start, from - e.start);
        n := n + 1;
        slots[n] := Range(end, End(e) - end);
        n := n + 1;
      } else if e.start < from {
        slots[n] := Range(e.start, from - e.start);
        n := n + 1;
      } else if End(e) > end {
        slots[n] := Range(end, End(e) - end);
        n := n + 1;
      }
    }

    /** Compacts the node in place, over the entries still to be read. The result has to fit into the
        node: the code would write behind its buffer. */
    method RemoveRange(from: nat, end: nat)
      requires Valid() && from <= end && |Carved(List(), from, end, 0)| <= NODE_SLOTS
      modifies this`entries, slots
      ensures Valid() && List() == Carved(old(List()), from, end, 0)
    {
      hide Carved;
      hide Pieces;
      hide Copies;
      ghost var list := List();
      ghost var aim := Carved(list, from, end, 0);
      ghost var spoilt: Option<Range> := None;
      var count, i := 0, 0;
      while i < entries
        invariant 0 <= i <= entries == |list| && 0 <= count <= i + 1 && count <= NODE_SLOTS && Valid()
        invariant spoilt == None ==> count <= i && slots[i..entries] == list[i..]
        invariant spoilt == None ==> slots[..count] + Carved(list[i..], from, end, i - count) == aim
        invariant spoilt.Some? ==> count == i + 1 && slots[..count][i] == spoilt.value && Outside(spoilt.value, from, end)
        invariant spoilt.Some? ==> slots[..count] + Copies(spoilt.value, entries - i) == aim
      {
        if spoilt == None {
          CarveStep(slots[..count], list[i..], from, end, i - count);
          assert list[i..][1..] == list[i + 1..] && slots[i] == list[i..][0] == slots[i..entries][0];
          assert slots[i + 1..entries] == slots[i..entries][1..];
        } else {
          assert slots[i] == slots[..count][i];
          CopyStep(slots[..count], spoilt.value, from, end, entries - i);
        }
        ghost var p := Pieces(slots[i], from, end);
        ghost var was := count;
        assert count + |p| <= |aim|;
        count := RemoveOne(count, i, from, end);
        if spoilt == None && |p| == 2 && was == i {
          spoilt := Some(p[1]);
        }
        i := i + 1;
      }
      UnfoldNone(from, end);
      assert list[i..] == [];
      entries := count;
    }

    /** One entry of the merging pass. */
    method VisitOne(merged: array<Range>, count: nat, pending: Range, inserted: bool, e: Range) returns (c: nat, p: Range, ins: bool)
      requires count <= merged.Length && |Visit(Scan(merged[..count], pending, inserted), e).done| <= merged.Length
      modifies merged
      ensures c <= merged.Length && Scan(merged[..c], p, ins) == old(Visit(Scan(merged[..count], pending, inserted), e))
    {
      c, p, ins := count, pending, inserted;
      if !ins && e.start >= End(p) {
        if e.start == End(p) {
          p := Longer(p, e.length);
          return;
        }
        if c > 0 && End(merged[c - 1]) == p.start {
          merged[c - 1] := Longer(merged[c - 1], p.length);
        } else {
          merged[c] := p;
          c := c + 1;
        }
        ins := true;
        merged[c] := e;
        c := c + 1;
      } else if !ins && End(e) <= p.start {
        if End(e) == p.start {
          p := Range(e.start, p.length + e.length);
        } else {
          merged[c] := e;
          c := c + 1;
        }
      } else if !ins {
        merged[c] := p;
        c := c + 1;
        ins := true;
        merged[c] := e;
        c := c + 1;
      } else {
        merged[c] := e;
        c := c + 1;
      }
    }

    /** One pass of merges into a scratch array, which is then written back. */
    method FreeRange(r: Range)
      requires Valid() && (root != 0 ==> |Freed(List(), r)| <= MAX_FREE_ENTRIES)
      modifies this`entries, slots
      ensures Valid() && List() == if root == 0 then old(List()) else Freed(old(List()), r)
    {
      if r.length == 0 || root == 0 {
        return;
      }
      var merged, count := Merge(r);
      var i := 0;
      while i < count
        invariant 0 <= i <= count && slots[..i] == merged[..i]
        modifies slots
      {
        slots[i] := merged[i];
        i := i + 1;
      }
      entries := count;
    }

    method Merge(r: Range) returns (merged: array<Range>, count: nat)
      requires Valid() && r.length > 0 && |Freed(List(), r)| <= MAX_FREE_ENTRIES
      ensures fresh(merged) && count <= merged.Length == MAX_FREE_ENTRIES && merged[..count] == Freed(List(), r)
    {
      hide Visit;
      hide Finish;
      ghost var list := List();
      merged := new Range[MAX_FREE_ENTRIES](_ => Range(0, 0));
      count := 0;
      var pending, inserted := r, false;
      var i := 0;
      while i < entries
        invariant 0 <= i <= entries == |list| && count <= merged.Length && List() == list
        invariant Scan(merged[..count], pending, inserted) == Scanned(list, r, i)
      {
        ScanGrows(list, r, i + 1);
        count, pending, inserted := VisitOne(merged, count, pending, inserted, slots[i]);
        i := i + 1;
      }
      assert list[..i] == list;
      count := FinishMerge(merged, count, pending, inserted);
    }

    method FinishMerge(merged: array<Range>, count: nat, pending: Range, inserted: bool) returns (c: nat)
      requires count <= merged.Length && |Finish(Scan(merged[..count], pending, inserted))| <= merged.Length
      modifies merged
      ensures c <= merged.Length && merged[..c] == old(Finish(Scan(merged[..count], pending, inserted)))
    {
      c := count;
      if !inserted {
        if c > 0 && End(merged[c - 1]) == pending.start {
          merged[c - 1] := Longer(merged[c - 1], pending.length);
        } else {
          merged[c] := pending;
          c := c + 1;
        }
      }
    }

    /** The call fits: the removal stays inside the node and the merge inside its scratch array. */
    ghost predicate AllocFits(length: nat)
      requires Valid()
      reads this, slots
    {
      var aligned := Aligned(length);
      var b := BestFit(List(), aligned);
      root != 0 && b < entries ==>
        && |Carved(List(), List()[b].start, List()[b].start + aligned, 0)| <= NODE_SLOTS
        && (List()[b].length > aligned ==> |Allocated(List(), length).1| <= MAX_FREE_ENTRIES)
    }

    method Alloc(length: nat) returns (offset: Option<nat>)
      requires Valid() && AllocFits(length)
      modifies this`entries, slots
      ensures Valid()
      ensures root == 0 ==> offset == None && List() == old(List())
      ensures root != 0 ==> (offset, List()) == Allocated(old(List()), length)
    {
      hide BestFit;
      hide Carved;
      hide Freed;
      if root == 0 {
        return None;
      }
      var aligned := (length + FS_MIN_ALLOC - 1) % TWO_64 / FS_MIN_ALLOC * FS_MIN_ALLOC;
      var best, found := FindBest(aligned);
      if !found {
        return None;
      }
      var e := slots[best];
      RemoveRange(e.start, e.start + aligned);
      if e.length > aligned {
        FreeRange(Range(e.start + aligned, e.length - aligned));
      }
      offset := Some(e.start);
    }
  }

  lemma BestIs(list: FreeList, length: nat, b: nat)
    requires b <= |list| && (b < |list| ==> list[b].length >= length)
    requires b < |list| ==> forall i :: 0 <= i < |list| && list[i].length >= length ==> list[b].length <= list[i].length
    requires b < |list| ==> forall i :: 0 <= i < b && list[i].length >= length ==> list[b].length < list[i].length
    requires b == |list| ==> forall i :: 0 <= i < |list| ==> list[i].length < length
    ensures BestFit(list, length) == b
  {
    hide BestFit;
    var a := BestFit(list, length);
    assert a < |list| <==> b < |list|;
  }

  lemma CarveStep(done: FreeList, list: FreeList, from: nat, end: nat, gap: nat)
    requires list != [] && from <= end
    ensures var p := Pieces(list[0], from, end);
            && (|p| == 2 ==> Outside(p[1], from, end))
            && (|p| == 2 && gap == 0 ==> done + Carved(list, from, end, gap) == (done + p) + Copies(p[1], |list| - 1))
            && (|p| < 2 || gap > 0 ==> done + Carved(list, from, end, gap) == (done + p) + Carved(list[1..], from, end, gap + 1 - |p|))
  {
    hide Copies;
  }

  lemma CopyStep(done: FreeList, e: Range, from: nat, end: nat, n: nat)
    requires Outside(e, from, end) && from <= end && n > 0
    ensures Pieces(e, from, end) == [e] && done + Copies(e, n) == (done + [e]) + Copies(e, n - 1)
  {
    assert Copies(e, n) == [e] + Copies(e, n - 1);
  }

  lemma UnfoldNone(from: nat, end: nat)
    requires from <= end
    ensures forall gap: nat :: Carved([], from, end, gap) == []
    ensures forall e :: Copies(e, 0) == []
  {
  }

  lemma VisitGrows(s: Scan, e: Range)
    ensures |Visit(s, e).done| >= |s.done|
  {
  }

  /** The scratch array never holds more than the list that results. */
  lemma {:induction false} ScanGrows(list: FreeList, r: Range, n: nat)
    requires r.length > 0 && n <= |list|
    ensures |Scanned(list, r, n).done| <= |Freed(list, r)|
    decreases |list| - n
  {
    if n < |list| {
      VisitGrows(Scanned(list, r, n), list[n]);
      ScanGrows(list, r, n + 1);
    }
  }
}
