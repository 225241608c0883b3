/** Truncating the whole file and punching a hole in it: every leaf is treated, the index stays. */
module ExtentShrink {
  import opened Extents
  import opened ExtentCuts
  import opened ExtentTrees
  import opened Options

  /** The nodes after the first `k` children have been rewritten by `f`. */
  function Rewritten(nodes: map<nat, Leaf>, index: seq<Index>, k: nat, f: Leaf -> Leaf): (r: map<nat, Leaf>)
    requires k <= |index| && forall i :: 0 <= i < |index| ==> index[i].child in nodes
    ensures r.Keys == nodes.Keys
  {
    if k == 0 then nodes
    else
      var before := Rewritten(nodes, index, k - 1, f);
      before[index[k - 1].child := f(before[index[k - 1].child])]
  }

  lemma {:induction false} RewrittenOnce(nodes: map<nat, Leaf>, index: seq<Index>, k: nat, f: Leaf -> Leaf, i: nat)
    requires k <= |index| && (forall j :: 0 <= j < |index| ==> index[j].child in nodes)
    requires Distinct(index) && i < |index|
    ensures Rewritten(nodes, index, k, f)[index[i].child] == if i < k then f(nodes[index[i].child]) else nodes[index[i].child]
  {
    if k > 0 {
      RewrittenOnce(nodes, index, k - 1, f, i);
      if i == k - 1 {
      } else {
        assert index[i].child != index[k - 1].child;
      }
    }
  }

  /** An empty root is left alone; otherwise every leaf is treated. */
  function OnLeaves(t: Tree, f: Leaf -> Leaf): Tree
    requires Formed(t)
  {
    match t.root
    case LeafRoot(es) => t.(root := LeafRoot(f(es)))
    case Branch(index) => t.(nodes := Rewritten(t.nodes, index, |index|, f))
  }

  predicate Blank(t: Tree) {
    t.root == LeafRoot([])
  }

  /** `truncate`: on an empty tree even the recorded size stays. */
  function Truncate(t: Tree, size: nat): Tree
    requires Formed(t)
  {
    if Blank(t) then t else OnLeaves(t, es => Shortened(es, size)).(size := size)
  }

  /** `remove` */
  function Remove(t: Tree, from: nat, length: nat): Tree
    requires Formed(t)
  {
    if length == 0 || Blank(t) then t else OnLeaves(t, es => Punched(es, from, from + length))
  }

  // ---- what treating every leaf does --------------------------------------------------------------

  lemma LeavesAfter(t: Tree, f: Leaf -> Leaf)
    requires Sound(t)
    ensures var n := OnLeaves(t, f);
            && Formed(n) && n.nodes.Keys == t.nodes.Keys && n.size == t.size
            && (t.root.LeafRoot? ==> n.root == LeafRoot(f(t.root.extents)))
            && (t.root.Branch? ==> n.root == t.root && forall i :: 0 <= i < |t.root.index| ==> LeafAt(n, i) == f(LeafAt(t, i)))
    ensures forall x: nat :: LeafFor(OnLeaves(t, f), x) == f(LeafFor(t, x))
  {
    if t.root.Branch? {
      var index := t.root.index;
      forall i | 0 <= i < |index|
        ensures Rewritten(t.nodes, index, |index|, f)[index[i].child] == f(LeafAt(t, i))
      {
        RewrittenOnce(t.nodes, index, |index|, f, i);
      }
    }
  }

  ghost predicate FlatTree(t: Tree)
    requires Formed(t)
  {
    match t.root
    case LeafRoot(es) => Flat(es)
    case Branch(index) => forall i :: 0 <= i < |index| ==> Flat(LeafAt(t, i))
  }

  // ---- truncation -----------------------------------------------------------------------------------

  /** Truncation keeps the tree sound and keeps exactly the bytes below the new size, on leaf
      roots and on trees of depth one alike. */
  lemma TruncateRestricts(t: Tree, size: nat)
    requires Sound(t)
    ensures Sound(Truncate(t, size))
    ensures forall x: nat :: TreeBytes(Truncate(t, size), x) == if x < size then TreeBytes(t, x) else None
    ensures FlatTree(t) ==> FlatTree(Truncate(t, size))
    ensures Truncate(t, size).size == if Blank(t) then t.size else size
  {
    hide Bytes;
    hide Shortened;
    if Blank(t) {
      forall x: nat
        ensures TreeBytes(t, x) == None
      {
        BytesOne(Extent(0, 0, 0, 0, 0, 0), x);
      }
    } else {
      var f := es => Shortened(es, size);
      LeavesAfter(t, f);
      forall x: nat
        ensures TreeBytes(Truncate(t, size), x) == if x < size then TreeBytes(t, x) else None
      {
        ShortenedBytes(LeafFor(t, x), size, x);
      }
      TruncateIsSound(t, size);
    }
  }

  lemma TruncateIsSound(t: Tree, size: nat)
    requires Sound(t) && !Blank(t)
    ensures Sound(Truncate(t, size)) && (FlatTree(t) ==> FlatTree(Truncate(t, size)))
  {
    hide Shortened;
    hide Rewritten;
    var f := es => Shortened(es, size);
    var n := Truncate(t, size);
    LeavesAfter(t, f);
    match t.root
    case LeafRoot(es) => ShortenedIsOrdered(es, size);
    case Branch(index) =>
      forall i | 0 <= i < |index|
        ensures SoundLeaf(n, i) && (FlatTree(t) ==> Flat(LeafAt(n, i)))
      {
        assert SoundLeaf(t, i);
        assert LeafAt(n, i) == Shortened(LeafAt(t, i), size);
        ShortenedIsOrdered(LeafAt(t, i), size);
      }
  }

  // ---- holes ----------------------------------------------------------------------------------------

  /** A leaf that takes the hole: an extent with the hole strictly inside is the last of the leaf,
      and there is a spare slot for its second part. */
  predicate Takes(es: Leaf, from: nat, end: nat, slots: nat) {
    Clean(es, from, end) && (Holed(es, from, end) < |es| ==> |es| < slots)
  }

  predicate TreeTakes(t: Tree, from: nat, end: nat)
    requires Formed(t)
  {
    match t.root
    case LeafRoot(es) => Takes(es, from, end, INLINE_SLOTS)
    case Branch(index) => forall i :: 0 <= i < |index| ==> Takes(LeafAt(t, i), from, end, MAX_LEAF_ENTRIES)
  }

  lemma LeafTakesIff(es: Leaf, from: nat, end: nat, slots: nat)
    requires Ordered(es) && |es| <= slots && from < end
    ensures Ordered(Punched(es, from, end)) && |Punched(es, from, end)| <= slots <==> Takes(es, from, end, slots)
    ensures Takes(es, from, end, slots)
       ==> && (forall low :: Above(es, low) ==> Above(Punched(es, from, end), low))
           && (forall high :: Below(es, high) ==> Below(Punched(es, from, end), high))
  {
    hide Bytes;
    hide Punched;
    hide Holed;
    PunchedIsOrderedIff(es, from, end);
    PunchedSize(es, from, end);
    if Clean(es, from, end) {
      PunchedIsCut(es, from, end);
      CutIsOrdered(es, from, end);
    }
  }

  lemma PunchedSize(es: Leaf, from: nat, end: nat)
    requires Ordered(es) && from < end
    ensures Holed(es, from, end) < |es| ==> |Punched(es, from, end)| == |es| + 1
  {
    PunchedIsSpoilt(es, from, end);
    hide Punched;
  }

  /** Every leaf gives up exactly the hole. */
  predicate TreeClean(t: Tree, from: nat, end: nat)
    requires Formed(t)
  {
    match t.root
    case LeafRoot(es) => Clean(es, from, end)
    case Branch(index) => forall i :: 0 <= i < |index| ==> Clean(LeafAt(t, i), from, end)
  }

  /** A byte that a leaf which is not clean loses with the hole. */
  lemma LostByte(es: Leaf, from: nat, end: nat) returns (x: nat)
    requires Ordered(es) && from < end && !Clean(es, from, end)
    ensures Bytes(es, x).Some? && Bytes(Punched(es, from, end), x) != Hole(Bytes(es, x), from, end, x)
  {
    hide Bytes, Holed, Punched;
    var i := Holed(es, from, end);
    x := es[i + 1].logical;
    PunchedBytes(es, from, end, x);
    BytesAt(es, x, i + 1);
    BytesAt(es[..i + 1], x, i + 1);
  }

  /** A byte mapped in a leaf of a sound tree is searched for in that leaf. */
  lemma MappedIsRouted(t: Tree, i: nat, x: nat)
    requires Sound(t) && t.root.Branch? && i < |t.root.index| && Bytes(LeafAt(t, i), x).Some?
    ensures Route(t.root.index, x) == i
  {
    hide Route, Bytes, Sound;
    SoundIsFormed(t);
    if Route(t.root.index, x) != i {
      NotRouted(t, i, x);
    }
  }

  lemma HoleBytes(t: Tree, from: nat, length: nat, x: nat)
    requires Sound(t) && length > 0 && !Blank(t)
    ensures var n := Remove(t, from, length);
            Formed(n) && TreeBytes(n, x) == Bytes(Punched(LeafFor(t, x), from, from + length), x)
  {
    hide Bytes, Punched, Rewritten;
    LeavesAfter(t, es => Punched(es, from, from + length));
  }

  /** Exactly the hole is gone from the byte map. */
  ghost predicate Hollowed(t: Tree, from: nat, end: nat, n: Tree)
    requires Formed(t) && Formed(n)
  {
    forall x: nat :: TreeBytes(n, x) == Hole(TreeBytes(t, x), from, end, x)
  }

  lemma HoleIsExactIff(t: Tree, from: nat, length: nat)
    requires Sound(t) && length > 0 && !Blank(t)
    ensures var n := Remove(t, from, length);
            Formed(n) && (Hollowed(t, from, from + length, n) <==> TreeClean(t, from, from + length))
  {
    hide Bytes, Punched, Clean, Sound, Remove, Route;
    SoundIsFormed(t);
    var end := from + length;
    var n := Remove(t, from, length);
    forall x: nat
      ensures Formed(n) && TreeBytes(n, x) == Bytes(Punched(LeafFor(t, x), from, end), x)
    {
      HoleBytes(t, from, length, x);
    }
    HoleBytes(t, from, length, 0);
    match t.root
    case LeafRoot(es) =>
      LeavesAreOrdered(t, 0);
      PunchIsExactIff(es, from, end);
      assert forall x: nat :: TreeBytes(t, x) == Bytes(es, x) && TreeBytes(n, x) == Bytes(Punched(es, from, end), x);
    case Branch(index) =>
      if TreeClean(t, from, end) {
        forall x: nat
          ensures TreeBytes(n, x) == Hole(TreeBytes(t, x), from, end, x)
        {
          LeavesAreOrdered(t, Route(index, x));
          PunchIsExactIff(LeafFor(t, x), from, end);
        }
      } else {
        var i :| 0 <= i < |index| && !Clean(LeafAt(t, i), from, end);
        LeavesAreOrdered(t, i);
        var x := LostByte(LeafAt(t, i), from, end);
        MappedIsRouted(t, i, x);
        assert TreeBytes(n, x) != Hole(TreeBytes(t, x), from, end, x);
      }
  }

  lemma LeavesAreOrdered(t: Tree, i: nat)
    requires Sound(t)
    ensures t.root.LeafRoot? ==> Ordered(t.root.extents)
    ensures t.root.Branch? && i < |t.root.index| ==> Ordered(LeafAt(t, i))
  {
    if t.root.Branch? && i < |t.root.index| {
      assert SoundLeaf(t, i);
    }
  }

  lemma HoleKeepsSoundIff(t: Tree, from: nat, length: nat)
    requires Sound(t) && length > 0 && !Blank(t)
    ensures var n := Remove(t, from, length);
            Formed(n) && (Sound(n) <==> TreeTakes(t, from, from + length))
  {
    hide Punched;
    hide Takes;
    hide Rewritten;
    var end := from + length;
    var f := es => Punched(es, from, end);
    var n := Remove(t, from, length);
    LeavesAfter(t, f);
    match t.root
    case LeafRoot(es) =>
      LeafTakesIff(es, from, end, INLINE_SLOTS);
    case Branch(index) =>
      forall i | 0 <= i < |index|
        ensures SoundLeaf(n, i) <==> Takes(LeafAt(t, i), from, end, MAX_LEAF_ENTRIES)
      {
        assert SoundLeaf(t, i);
        LeafTakesIff(LeafAt(t, i), from, end, MAX_LEAF_ENTRIES);
      }
  }

  /** Removing a range takes exactly the hole out of the map just when every leaf is clean, and leaves a
      sound tree just when every leaf also has a spare slot for what it splits. */
  lemma RemoveIsExactIff(t: Tree, from: nat, length: nat)
    requires Sound(t) && length > 0 && !Blank(t)
    ensures var n := Remove(t, from, length);
            && Formed(n)
            && (Sound(n) <==> TreeTakes(t, from, from + length))
            && (Hollowed(t, from, from + length, n) <==> TreeClean(t, from, from + length))
            && (TreeTakes(t, from, from + length) ==> TreeClean(t, from, from + length))
  {
    hide Sound, Hollowed, Remove, Clean;
    HoleIsExactIff(t, from, length);
    HoleKeepsSoundIff(t, from, length);
  }
}
