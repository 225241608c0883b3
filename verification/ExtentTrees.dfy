/** The extent tree: a root kept in the inode that is a leaf or an index over leaves kept in
    nodes of their own. Inner nodes deeper than the root are never made. */
module ExtentTrees {
  import opened Extents
  import opened ExtentCuts
  import opened Options

  const MAX_INLINE_EXTENTS: nat := 7
  const MAX_LEAF_ENTRIES: nat := 85
  const MAX_INLINE_INDEX: nat := 19

  /** As many extents of 34 bytes fit in the 317 bytes an inode has for entries. */
  const INLINE_SLOTS: nat := 9

  datatype Index = Index(key: nat, child: nat)

  datatype Node = LeafRoot(extents: Leaf) | Branch(index: seq<Index>)

  datatype Tree = Tree(root: Node, nodes: map<nat, Leaf>, size: nat)

  datatype Outcome = Done | Einval | Enospc

  // ---- routing -------------------------------------------------------------------------------

  /** The binary search of `find_child_index` between `lo` and `hi`: where `hi` ends. */
  function Search(index: seq<Index>, x: nat, lo: nat, hi: int): (r: int)
    requires lo <= hi + 1 <= |index|
    ensures lo - 1 <= r <= hi
    decreases hi - lo + 1
  {
    if lo > hi then hi
    else
      var mid := (lo + hi) / 2;
      if index[mid].key <= x then Search(index, x, mid + 1, hi) else Search(index, x, lo, mid - 1)
  }

  /** The entry a search for `x` follows, whatever the keys are. */
  function Route(index: seq<Index>, x: nat): (c: nat)
    requires index != []
    ensures c < |index|
  {
    var h := Search(index, x, 0, |index| - 1);
    if h < 0 then 0 else h
  }

  lemma {:induction false} SearchIs(index: seq<Index>, x: nat, lo: nat, hi: int, c: int)
    requires lo <= hi + 1 <= |index| && lo - 1 <= c <= hi
    requires forall k :: 0 <= k < |index| ==> (index[k].key <= x <==> k <= c)
    ensures Search(index, x, lo, hi) == c
    decreases hi - lo + 1
  {
    if lo <= hi {
      var mid := (lo + hi) / 2;
      if mid <= c {
        SearchIs(index, x, mid + 1, hi, c);
      } else {
        SearchIs(index, x, lo, mid - 1, c);
      }
    }
  }

  /** The search finds the last key of at most `x` when all keys before it are at most `x` too. */
  lemma RouteIs(index: seq<Index>, x: nat, c: nat)
    requires c < |index| && (c > 0 ==> forall k :: 0 <= k <= c ==> index[k].key <= x) && forall k :: c < k < |index| ==> index[k].key > x
    ensures Route(index, x) == c
  {
    SearchIs(index, x, 0, |index| - 1, if index[c].key <= x then c else -1);
  }

  /** Among ascending keys the search finds the last one that is at most `x`, or the first entry. */
  lemma RouteIsLast(index: seq<Index>, x: nat)
    requires index != [] && Ascending(index)
    ensures var c := Route(index, x);
            (c > 0 ==> forall k :: 0 <= k <= c ==> index[k].key <= x) && forall k :: c < k < |index| ==> index[k].key > x
  {
    hide Route;
    var c := LastKey(index, x);
    RouteIs(index, x, c);
  }

  function LastKey(index: seq<Index>, x: nat): (c: nat)
    requires index != []
    ensures c < |index| && (c > 0 ==> index[c].key <= x)
    ensures forall k :: c < k < |index| ==> index[k].key > x
  {
    var n := |index| - 1;
    if n == 0 || index[n].key <= x then n else LastKey(index[..n], x)
  }

  predicate Formed(t: Tree) {
    t.root.Branch? ==> t.root.index != [] && forall i :: 0 <= i < |t.root.index| ==> t.root.index[i].child in t.nodes
  }

  function LeafAt(t: Tree, i: nat): Leaf
    requires Formed(t) && t.root.Branch? && i < |t.root.index|
  {
    t.nodes[t.root.index[i].child]
  }

  /** The one leaf a search for `x` reads. */
  function LeafFor(t: Tree, x: nat): Leaf
    requires Formed(t)
  {
    match t.root
    case LeafRoot(es) => es
    case Branch(index) => LeafAt(t, Route(index, x))
  }

  function Lookup(t: Tree, x: nat): Option<Mapping>
    requires Formed(t)
  {
    LookupIn(LeafFor(t, x), x)
  }

  /** `bmap`: the device byte and how many follow it. */
  function Bmap(t: Tree, x: nat): Option<(nat, nat)>
    requires Formed(t)
  {
    match Lookup(t, x)
    case None => None
    case Some(m) => Some((m.physical, m.physicalLength))
  }

  function TreeBytes(t: Tree, x: nat): Option<Byte>
    requires Formed(t)
  {
    Bytes(LeafFor(t, x), x)
  }

  // ---- well-formed trees -----------------------------------------------------------------------

  ghost predicate Ascending(index: seq<Index>) {
    forall i, j :: 0 <= i < j < |index| ==> index[i].key <= index[j].key
  }

  ghost predicate Distinct(index: seq<Index>) {
    forall i, j :: 0 <= i < j < |index| ==> index[i].child != index[j].child
  }

  /** The extents of child `i` lie between its separators. The first child has no lower one. */
  ghost predicate Reach(index: seq<Index>, i: nat, es: Leaf)
    requires i < |index|
  {
    (i > 0 ==> Above(es, index[i].key)) && (i + 1 < |index| ==> Below(es, index[i + 1].key))
  }

  ghost predicate SoundLeaf(t: Tree, i: nat)
    requires Formed(t) && t.root.Branch? && i < |t.root.index|
  {
    Ordered(LeafAt(t, i)) && |LeafAt(t, i)| <= MAX_LEAF_ENTRIES && Reach(t.root.index, i, LeafAt(t, i))
  }

  ghost predicate Sound(t: Tree) {
    && Formed(t)
    && match t.root
       case LeafRoot(es) => Ordered(es) && |es| <= INLINE_SLOTS
       case Branch(index) =>
         && |index| <= MAX_INLINE_INDEX && Ascending(index) && Distinct(index)
         && forall i :: 0 <= i < |index| ==> SoundLeaf(t, i)
  }

  // ---- lookup agrees with a search through everything --------------------------------------------

  /** The extents of the first `n` children, one after the other. */
  function FirstLeaves(t: Tree, n: nat): Leaf
    requires Formed(t) && t.root.Branch? && n <= |t.root.index|
  {
    if n == 0 then [] else FirstLeaves(t, n - 1) + LeafAt(t, n - 1)
  }

  /** All extents of the file. */
  function AllExtents(t: Tree): Leaf
    requires Formed(t)
  {
    match t.root
    case LeafRoot(es) => es
    case Branch(index) => FirstLeaves(t, |index|)
  }

  lemma NotRouted(t: Tree, i: nat, x: nat)
    requires Sound(t) && t.root.Branch? && i < |t.root.index| && i != Route(t.root.index, x)
    ensures LookupIn(LeafAt(t, i), x) == None && Bytes(LeafAt(t, i), x) == None
  {
    var index, es := t.root.index, LeafAt(t, i);
    var c := Route(index, x);
    RouteIsLast(index, x);
    hide Route;
    assert SoundLeaf(t, i);
    if i < c {
      assert index[i + 1].key <= x;
    } else {
      assert index[i].key > x;
    }
    FirstIs(es, x, |es|);
  }

  lemma {:induction false} FirstLeavesLookup(t: Tree, n: nat, x: nat)
    requires Sound(t) && t.root.Branch? && n <= |t.root.index|
    ensures LookupIn(FirstLeaves(t, n), x) == if Route(t.root.index, x) < n then Lookup(t, x) else None
  {
    hide Sound, Route;
    SoundIsFormed(t);
    if n > 0 {
      FirstLeavesLookup(t, n - 1, x);
      LookupJoins(FirstLeaves(t, n - 1), LeafAt(t, n - 1), x);
      if Route(t.root.index, x) != n - 1 {
        NotRouted(t, n - 1, x);
      }
    }
  }

  lemma SoundIsFormed(t: Tree)
    requires Sound(t)
    ensures Formed(t) && (t.root.Branch? ==> t.root.index != [])
  {
  }

  /** Routing by keys and searching one leaf answers what a search through all extents answers. */
  lemma LookupIsLinear(t: Tree, x: nat)
    requires Sound(t)
    ensures Lookup(t, x) == LookupIn(AllExtents(t), x)
  {
    match t.root
    case LeafRoot(_) =>
    case Branch(index) => FirstLeavesLookup(t, |index|, x);
  }

  lemma {:induction false} FirstLeavesOrdered(t: Tree, n: nat)
    requires Sound(t) && t.root.Branch? && n <= |t.root.index|
    ensures Ordered(FirstLeaves(t, n))
    ensures n < |t.root.index| ==> Below(FirstLeaves(t, n), t.root.index[n].key)
  {
    if n > 0 {
      FirstLeavesOrdered(t, n - 1);
      assert SoundLeaf(t, n - 1);
      OrderedJoin(FirstLeaves(t, n - 1), LeafAt(t, n - 1));
    }
  }

  /** Over the whole file the extents are ascending and disjoint. */
  lemma AllExtentsOrdered(t: Tree)
    requires Sound(t)
    ensures Ordered(AllExtents(t))
  {
    match t.root
    case LeafRoot(_) =>
    case Branch(index) => FirstLeavesOrdered(t, |index|);
  }

  // ---- the count of contiguous bytes ---------------------------------------------------------------

  /** In a sound tree a search inside an extent finds that extent. */
  lemma InsideOne(t: Tree, x: nat, i: nat, y: nat)
    requires Sound(t) && i < |LeafFor(t, x)| && Covers(LeafFor(t, x)[i], x) && Covers(LeafFor(t, x)[i], y) && x <= y
    ensures LeafFor(t, y) == LeafFor(t, x) && Find(LeafFor(t, x), y) == i
  {
    hide Route, Find;
    var es := LeafFor(t, x);
    if t.root.Branch? {
      var index := t.root.index;
      var c := Route(index, x);
      assert SoundLeaf(t, c);
      RouteIsLast(index, x);
      forall k | c < k < |index|
        ensures index[k].key > y
      {
        assert index[c + 1].key <= index[k].key;
      }
      RouteIs(index, y, c);
    }
    assert Ordered(es);
    forall k | 0 <= k < i
      ensures !Covers(es[k], y)
    {
      assert End(es[k]) <= es[i].logical;
    }
    FirstIs(es, y, i);
  }

  /** The `n` bytes of the file from `x` on follow one another on the device. */
  ghost predicate Contiguous(t: Tree, x: nat, m: Mapping, n: nat)
    requires Formed(t)
  {
    forall y: nat :: x <= y < x + n ==> TreeBytes(t, y) == Some(Byte(m.physical + (y - x), m.compression))
  }

  /** What `bmap` says about the bytes behind the one asked for. All that is left of the extent follows on
      the device, and with equal lengths the count is just that. Otherwise all bytes counted follow on it
      exactly when the physical length left is at most the length left - unless the first byte behind the
      extent happens to be mapped to the next byte of the device. */
  lemma BmapCounts(t: Tree, x: nat)
    requires Sound(t) && Lookup(t, x).Some?
    ensures var m := Lookup(t, x).value;
            && Bmap(t, x) == Some((m.physical, m.physicalLength)) && m.length > 0 && Contiguous(t, x, m, m.length)
            && (Flat(LeafFor(t, x)) ==> m.physicalLength == m.length)
            && (TreeBytes(t, x + m.length) != Some(Byte(m.physical + m.length, m.compression)) ==>
                  (Contiguous(t, x, m, m.physicalLength) <==> m.physicalLength <= m.length))
  {
    hide Find, Sound, Route;
    SoundIsFormed(t);
    var es := LeafFor(t, x);
    var i := Find(es, x);
    var m := Lookup(t, x).value;
    forall y: nat | x <= y < x + m.length
      ensures TreeBytes(t, y) == Some(Byte(m.physical + (y - x), m.compression))
    {
      InsideOne(t, x, i, y);
    }
    assert m.physicalLength > m.length ==> x <= x + m.length < x + m.physicalLength;
  }
}
