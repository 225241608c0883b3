/** The extent tree of one inode: nodes are read into buffers, changed there and written back. */
module ExtentStore {
  import opened Extents
  import opened ExtentCuts
  import opened ExtentTrees
  import opened ExtentInsert
  import opened ExtentShrink
  import opened NodeBuffers
  import opened Options

  predicate Stored(t: Tree) {
    && Formed(t)
    && match t.root
       case LeafRoot(es) => |es| <= NODE_SLOTS
       case Branch(index) =>
         && |index| < INDEX_SLOTS
         && (forall i :: 0 <= i < |index| ==> |LeafAt(t, i)| <= NODE_SLOTS)
         && (forall i, j :: 0 <= i < j < |index| ==> index[i].child != index[j].child)
  }

  predicate Roomy(t: Tree, e: Extent)
    requires Formed(t)
  {
    match t.root
    case LeafRoot(es) => |es| < MAX_LEAF_ENTRIES
    case Branch(index) => |LeafFor(t, e.logical)| <= MAX_LEAF_ENTRIES
  }

  predicate HoleFits(t: Tree, from: nat, length: nat)
    requires Formed(t)
  {
    length > 0 ==>
      match t.root
      case LeafRoot(es) => |Punched(es, from, from + length)| <= NODE_SLOTS
      case Branch(index) => forall i :: 0 <= i < |index| ==> |Punched(LeafAt(t, i), from, from + length)| <= NODE_SLOTS
  }

  /** A sound tree is stored so, and no insertion or hole is too large for it. */
  lemma SoundIsStored(t: Tree)
    requires Sound(t)
    ensures Stored(t) && (forall e :: Roomy(t, e)) && forall from: nat, length: nat :: HoleFits(t, from, length)
  {
    forall e
      ensures Roomy(t, e)
    {
      LeafIsSmall(t, e.logical);
    }
    forall from: nat, length: nat
      ensures HoleFits(t, from, length)
    {
      HoleIsSmall(t, from, length);
    }
    if t.root.Branch? {
      forall i | 0 <= i < |t.root.index|
        ensures |LeafAt(t, i)| <= NODE_SLOTS
      {
        assert SoundLeaf(t, i);
      }
    }
  }

  lemma LeafIsSmall(t: Tree, x: nat)
    requires Sound(t)
    ensures |LeafFor(t, x)| <= MAX_LEAF_ENTRIES
  {
    hide Route;
    if t.root.Branch? {
      assert SoundLeaf(t, Route(t.root.index, x));
    }
  }

  lemma HoleIsSmall(t: Tree, from: nat, length: nat)
    requires Sound(t)
    ensures HoleFits(t, from, length)
  {
    hide Punched, Holed;
    if length > 0 {
      match t.root
      case LeafRoot(es) => PunchedIsOrderedIff(es, from, from + length);
      case Branch(index) =>
        forall i | 0 <= i < |index|
          ensures |Punched(LeafAt(t, i), from, from + length)| <= NODE_SLOTS
        {
          assert SoundLeaf(t, i);
          PunchedIsOrderedIff(LeafAt(t, i), from, from + length);
        }
    }
  }

  class ExtentTree {
    /** The root stored in the inode. */
    var root: Node
    /** The leaves stored in nodes of their own, by device offset. */
    var nodes: map<nat, Leaf>
    /** The file size in the inode. */
    var size: nat
    /** The entry count of the cached root header. */
    var cached: nat

    ghost function State(): Tree
      reads this
    {
      Tree(root, nodes, size)
    }

    /** The cached header agrees with the stored root. */
    ghost predicate CacheRight()
      reads this
    {
      cached == match root case LeafRoot(es) => |es| case Branch(index) => |index|
    }

    /** What the code relies on: children named in the index are stored, once each, and nodes and root
        fit the buffers they are read into. Whether extents and keys are in order does not matter. */
    ghost predicate Valid()
      reads this
    {
      Stored(State()) && CacheRight()
    }

    constructor ()
      ensures Valid() && Sound(State()) && Blank(State())
    {
      root := LeafRoot([]);
      nodes := map[];
      size := 0;
      cached := 0;
    }

    method Lookup(x: nat) returns (m: Option<Mapping>)
      requires Valid()
      ensures m == ExtentTrees.Lookup(State(), x)
    {
      if cached == 0 {
        return None;
      }
      var leaf := [];
      match root {
        case LeafRoot(es) =>
          leaf := es;
        case Branch(index) =>
          var ibuf := new IndexBuf(index);
          var c := ibuf.FindChildIndex(x);
          assert |LeafAt(State(), c)| <= NODE_SLOTS;
          leaf := nodes[index[c].child];
      }
      var buf := new LeafBuf(leaf);
      m := buf.FindIn(x);
    }

    method Bmap(x: nat) returns (r: Option<(nat, nat)>)
      requires Valid()
      ensures r == ExtentTrees.Bmap(State(), x)
    {
      var m := Lookup(x);
      r := if m.Some? then Some((m.value.physical, m.value.physicalLength)) else None;
    }

    /** The scratch arrays of a migration and of a split hold 85 and 86 extents. */
    method Insert(e: Extent, room: Option<nat>) returns (outcome: Outcome)
      requires Valid() && Roomy(State(), e)
      modifies this
      ensures (outcome, State()) == ExtentInsert.Insert(old(State()), e, room) && CacheRight()
    {
      if e.length == 0 || e.physicalLength == 0 {
        return Einval;
      }
      match root {
        case LeafRoot(es) =>
          outcome := InsertIntoLeaf(es, e, room);
        case Branch(index) =>
          outcome := InsertBelow(index, e, room);
      }
    }

    method InsertIntoLeaf(es: Leaf, e: Extent, room: Option<nat>) returns (outcome: Outcome)
      requires Valid() && root == LeafRoot(es) && |es| < MAX_LEAF_ENTRIES
      modifies this
      ensures (outcome, State()) == IntoLeafRoot(old(State()), es, e, room) && CacheRight()
    {
      hide MergeAt;
      hide Place;
      var buf := new LeafBuf(es);
      var merged := buf.TryMerge(e);
      if !merged {
        if buf.entries >= MAX_INLINE_EXTENTS {
          if room == None {
            return Enospc;
          }
          var all, count := buf.MergeWith(e);
          nodes := nodes[room.value := all[..count]];
          PlaceIsLonger(es, e);
          root := Branch([Index(all[0].logical, room.value)]);
          cached := 1;
          return Done;
        }
        buf.InsertSorted(e);
      }
      root := LeafRoot(buf.slots[..buf.entries]);
      cached := buf.entries;
      outcome := Done;
    }

    method InsertBelow(index: seq<Index>, e: Extent, room: Option<nat>) returns (outcome: Outcome)
      requires Valid() && Roomy(State(), e) && root == Branch(index) && e.length > 0 && e.physicalLength > 0
      modifies this
      ensures (outcome, State()) == ExtentInsert.Insert(old(State()), e, room) && CacheRight()
    {
      hide Place;
      hide Split;
      var ibuf := new IndexBuf(index);
      var c := ibuf.FindChildIndex(e.logical);
      var child := index[c].child;
      var buf := new LeafBuf(nodes[child]);
      if buf.entries >= MAX_LEAF_ENTRIES {
        outcome := SplitChild(ibuf, index, c, buf, e, room);
      } else {
        buf.InsertSorted(e);
        nodes := nodes[child := buf.slots[..buf.entries]];
        outcome := Done;
      }
    }

    method SplitChild(ibuf: IndexBuf, index: seq<Index>, c: nat, buf: LeafBuf, e: Extent, room: Option<nat>) returns (outcome: Outcome)
      requires root == Branch(index) && CacheRight() && ibuf.Valid() && ibuf.Contents() == index && c < |index|
      requires index[c].child in nodes && buf.Valid() && buf.Contents() == nodes[index[c].child] && buf.entries <= MAX_LEAF_ENTRIES
      modifies this, ibuf, ibuf.slots
      ensures (outcome, State()) == Split(old(State()), index, c, e, room) && CacheRight()
    {
      hide Place;
      hide WithEntry;
      var all, count := buf.CollectWith(e);
      PlaceIsLonger(buf.Contents(), e);
      var half := count / 2;
      assert all[..count][..half] == all[..half] && all[..count][half..] == all[half..count];
      assert all[..count][half] == all[half];
      nodes := nodes[index[c].child := all[..half]];
      if room == None {
        return Enospc;
      }
      nodes := nodes[room.value := all[half..count]];
      if ibuf.entries >= MAX_INLINE_INDEX {
        return Enospc;
      }
      ibuf.InsertAfter(c, Index(all[half].logical, room.value));
      root := Branch(ibuf.slots[..ibuf.entries]);
      cached := ibuf.entries;
      outcome := Done;
    }

    method Truncate(newSize: nat)
      requires Valid()
      modifies this
      ensures State() == ExtentShrink.Truncate(old(State()), newSize) && CacheRight()
      ensures old(Sound(State())) ==> Sound(State())
    {
      hide Shortened, Rewritten, Sound;
      if Sound(State()) {
        TruncateRestricts(State(), newSize);
      }
      if cached == 0 {
        return;
      }
      match root {
        case LeafRoot(es) =>
          var buf := new LeafBuf(es);
          buf.Truncate(newSize);
          root := LeafRoot(buf.slots[..buf.entries]);
          cached := buf.entries;
        case Branch(index) =>
          TruncateChildren(index, newSize);
      }
      size := newSize;
    }

    method TruncateNode(child: nat, newSize: nat)
      requires child in nodes && |nodes[child]| <= NODE_SLOTS
      modifies this`nodes
      ensures nodes == old(nodes)[child := Shortened(old(nodes)[child], newSize)]
    {
      var buf := new LeafBuf(nodes[child]);
      buf.Truncate(newSize);
      nodes := nodes[child := buf.slots[..buf.entries]];
    }

    method RemoveFromNode(child: nat, from: nat, end: nat)
      requires child in nodes && |nodes[child]| <= NODE_SLOTS && from < end && |Punched(nodes[child], from, end)| <= NODE_SLOTS
      modifies this`nodes
      ensures nodes == old(nodes)[child := Punched(old(nodes)[child], from, end)]
    {
      var buf := new LeafBuf(nodes[child]);
      buf.RemoveRange(from, end);
      nodes := nodes[child := buf.slots[..buf.entries]];
    }

    method TruncateChildren(index: seq<Index>, newSize: nat)
      requires Valid() && root == Branch(index)
      modifies this`nodes
      ensures nodes == Rewritten(old(nodes), index, |index|, es => Shortened(es, newSize))
    {
      hide Shortened, Stored;
      StoredIndex(State());
      ghost var was := nodes;
      ghost var f := es => Shortened(es, newSize);
      var i := 0;
      while i < |index|
        invariant 0 <= i <= |index|
        invariant nodes == Rewritten(was, index, i, f)
      {
        var child := index[i].child;
        RewrittenOnce(was, index, i, f, i);
        TruncateNode(child, newSize);
        i := i + 1;
      }
    }

    /** What the hole leaves has to fit into the buffer: the code would write behind it. */
    method Remove(from: nat, length: nat)
      requires Valid() && HoleFits(State(), from, length)
      modifies this
      ensures State() == ExtentShrink.Remove(old(State()), from, length) && CacheRight()
    {
      hide Rewritten;
      hide Punched;
      if length == 0 || cached == 0 {
        return;
      }
      match root {
        case LeafRoot(es) =>
          var buf := new LeafBuf(es);
          buf.RemoveRange(from, from + length);
          root := LeafRoot(buf.slots[..buf.entries]);
          cached := buf.entries;
        case Branch(index) =>
          RemoveFromChildren(index, from, from + length);
      }
    }

    method RemoveFromChildren(index: seq<Index>, from: nat, end: nat)
      requires Valid() && root == Branch(index) && from < end && HoleFits(State(), from, end - from)
      modifies this`nodes
      ensures nodes == Rewritten(old(nodes), index, |index|, es => Punched(es, from, end))
    {
      hide Punched, Stored, HoleFits;
      StoredIndex(State());
      FitsIndex(State(), from, end);
      ghost var was := nodes;
      ghost var f := es => Punched(es, from, end);
      var i := 0;
      while i < |index|
        invariant 0 <= i <= |index|
        invariant nodes == Rewritten(was, index, i, f)
      {
        var child := index[i].child;
        RewrittenOnce(was, index, i, f, i);
        RemoveFromNode(child, from, end);
        i := i + 1;
      }
    }
  }

  lemma StoredIndex(t: Tree)
    requires Stored(t) && t.root.Branch?
    ensures Formed(t) && Distinct(t.root.index)
    ensures forall i :: 0 <= i < |t.root.index| ==> t.root.index[i].child in t.nodes && |t.nodes[t.root.index[i].child]| <= NODE_SLOTS
  {
    forall i | 0 <= i < |t.root.index|
      ensures t.root.index[i].child in t.nodes && |t.nodes[t.root.index[i].child]| <= NODE_SLOTS
    {
      assert |LeafAt(t, i)| <= NODE_SLOTS;
    }
  }

  lemma FitsIndex(t: Tree, from: nat, end: nat)
    requires Formed(t) && t.root.Branch? && from < end && HoleFits(t, from, end - from)
    ensures forall i :: 0 <= i < |t.root.index| ==> |Punched(t.nodes[t.root.index[i].child], from, end)| <= NODE_SLOTS
  {
    hide Punched;
    forall i | 0 <= i < |t.root.index|
      ensures |Punched(t.nodes[t.root.index[i].child], from, end)| <= NODE_SLOTS
    {
      assert |Punched(LeafAt(t, i), from, from + (end - from))| <= NODE_SLOTS;
    }
  }
}
