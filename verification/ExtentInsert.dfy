/** Inserting an extent: left merge or ordered insertion at a leaf root, migration of a full inline
    root to a node of its own, ordered insertion below an index, and splitting a full leaf. */
module ExtentInsert {
  import opened Extents
  import opened ExtentCuts
  import opened ExtentTrees
  import opened Options

  /** At a leaf root; `room` is the node the space allocator hands out, if any. */
  function IntoLeafRoot(t: Tree, es: Leaf, e: Extent, room: Option<nat>): (Outcome, Tree) {
    var m := MergeAt(es, e);
    if m < |es| then (Done, t.(root := LeafRoot(es[m := Merged(es[m], e)])))
    else if |es| < MAX_INLINE_EXTENTS then (Done, t.(root := LeafRoot(Place(es, e))))
    else match room
      case None => (Enospc, t)
      case Some(p) =>
        var all := Place(es, e);
        (Done, t.(root := Branch([Index(all[0].logical, p)]), nodes := t.nodes[p := all]))
  }

  /** A full leaf below the index: the first half is written back before a node for the second
      half is sought and before the index is found to be full. */
  function Split(t: Tree, index: seq<Index>, c: nat, e: Extent, room: Option<nat>): (Outcome, Tree)
    requires c < |index| && index[c].child in t.nodes
  {
    var all := Place(t.nodes[index[c].child], e);
    var half := |all| / 2;
    var first := t.(nodes := t.nodes[index[c].child := all[..half]]);
    match room
    case None => (Enospc, first)
    case Some(p) =>
      var both := first.(nodes := first.nodes[p := all[half..]]);
      if |index| >= MAX_INLINE_INDEX then (Enospc, both)
      else (Done, both.(root := Branch(WithEntry(index, c, Index(all[half].logical, p)))))
  }

  /** The index with one more entry behind entry `c`. */
  function WithEntry(index: seq<Index>, c: nat, entry: Index): (r: seq<Index>)
    requires c < |index|
    ensures |r| == |index| + 1 && r[c + 1] == entry
    ensures forall i :: 0 <= i <= c ==> r[i] == index[i]
    ensures forall i :: c + 2 <= i < |r| ==> r[i] == index[i - 1]
  {
    index[..c + 1] + [entry] + index[c + 1..]
  }

  function Insert(t: Tree, e: Extent, room: Option<nat>): (Outcome, Tree)
    requires Formed(t)
  {
    if e.length == 0 || e.physicalLength == 0 then (Einval, t)
    else match t.root
      case LeafRoot(es) => IntoLeafRoot(t, es, e, room)
      case Branch(index) =>
        var c := Route(index, e.logical);
        var leaf := LeafAt(t, c);
        if |leaf| >= MAX_LEAF_ENTRIES then Split(t, index, c, e, room)
        else (Done, t.(nodes := t.nodes[index[c].child := Place(leaf, e)]))
  }

  // ---- what a caller can check ------------------------------------------------------------------

  /** No byte of the new extent is mapped. */
  ghost predicate Unmapped(t: Tree, e: Extent)
    requires Formed(t)
  {
    match t.root
    case LeafRoot(es) => Apart(es, e)
    case Branch(index) => forall i :: 0 <= i < |index| ==> Apart(LeafAt(t, i), e)
  }

  ghost predicate Fresh(t: Tree, room: Option<nat>) {
    room.Some? ==> room.value !in t.nodes
  }

  /** The new extent ends before the next separator. */
  predicate EndsInTime(index: seq<Index>, c: nat, e: Extent)
    requires c < |index|
  {
    c + 1 < |index| ==> End(e) <= index[c + 1].key
  }

  /** The extent goes into a full first leaf whose split yields a separator below the first key, which
      is never lowered. */
  predicate Undercut(t: Tree, e: Extent)
    requires Formed(t)
  {
    t.root.Branch? && Route(t.root.index, e.logical) == 0 && |LeafAt(t, 0)| >= MAX_LEAF_ENTRIES
    && var all := Place(LeafAt(t, 0), e); all[|all| / 2].logical < t.root.index[0].key
  }

  /** A binary search over the entries up to `h` looks at entry 1 before entry 0. */
  predicate ProbesSecond(h: nat) {
    if h < 4 then h >= 2 else ProbesSecond(h / 2 - 1)
  }

  /** What keeps the map exact: a merge goes onto an extent with equal physical and logical length;
      below an index the extent does not straddle a separator, and a separator below the first key
      is still found. */
  predicate Exact(t: Tree, e: Extent)
    requires Formed(t)
  {
    match t.root
    case LeafRoot(es) =>
      var m := MergeAt(es, e);
      m < |es| ==> es[m].physicalLength == es[m].length
    case Branch(index) =>
      EndsInTime(index, Route(index, e.logical), e) && (Undercut(t, e) ==> ProbesSecond(|index|))
  }

  /** What keeps the tree sound. */
  predicate InForm(t: Tree, e: Extent)
    requires Formed(t)
  {
    t.root.Branch? ==> EndsInTime(t.root.index, Route(t.root.index, e.logical), e) && !Undercut(t, e)
  }

  predicate Fits(t: Tree, e: Extent)
    requires Formed(t)
  {
    Exact(t, e) && InForm(t, e)
  }

  ghost predicate Grown(t: Tree, e: Extent, n: Tree)
    requires Formed(t) && Formed(n)
  {
    forall x: nat :: TreeBytes(n, x) == OrElse(OneByte(e, x), TreeBytes(t, x))
  }

  // ---- leaf roots -----------------------------------------------------------------------------------

  lemma LeafRootGrows(t: Tree, e: Extent, room: Option<nat>)
    requires Sound(t) && t.root.LeafRoot? && e.length > 0 && Unmapped(t, e)
    requires IntoLeafRoot(t, t.root.extents, e, room).0 == Done
    ensures var n := IntoLeafRoot(t, t.root.extents, e, room).1; Sound(n) && (Grown(t, e, n) <==> Exact(t, e))
  {
    hide Bytes;
    hide MergeAt;
    hide InsertPos;
    var es := t.root.extents;
    var m := MergeAt(es, e);
    var n := IntoLeafRoot(t, es, e, room).1;
    if m < |es| {
      MergeIsOrdered(es, e, m);
      MergeAddsBytesIff(es, e, m);
      var now := es[m := Merged(es[m], e)];
      assert forall x: nat :: TreeBytes(n, x) == Bytes(now, x) && TreeBytes(t, x) == Bytes(es, x);
    } else {
      PlaceIsOrdered(es, e);
      forall x: nat
        ensures TreeBytes(n, x) == OrElse(OneByte(e, x), TreeBytes(t, x))
      {
        PlaceAddsBytes(es, e, x);
        assert LeafFor(n, x) == Place(es, e);
      }
      if n.root.Branch? {
        assert SoundLeaf(n, 0);
      }
    }
  }

  // ---- a leaf with room below the index -----------------------------------------------------------

  lemma PlaceBounds(es: Leaf, e: Extent)
    ensures forall low: nat :: Above(Place(es, e), low) <==> Above(es, low) && low <= e.logical
    ensures forall high: nat :: Below(Place(es, e), high) <==> Below(es, high) && End(e) <= high
    ensures |Place(es, e)| == |es| + 1
  {
    hide InsertPos;
    var i := InsertPos(es, e.logical);
    var p := Place(es, e);
    assert p[i] == e;
    assert forall k :: 0 <= k < i ==> p[k] == es[k];
    assert forall k :: i <= k < |es| ==> p[k + 1] == es[k];
    assert forall k :: i < k < |p| ==> p[k] == es[k - 1];
  }

  /** A byte of an extent that does not straddle a separator is routed where the extent went. */
  lemma RoutedTogether(index: seq<Index>, e: Extent, x: nat)
    requires index != [] && Ascending(index) && EndsInTime(index, Route(index, e.logical), e) && Covers(e, x)
    ensures Route(index, x) == Route(index, e.logical)
  {
    hide Route;
    var c := Route(index, e.logical);
    RouteIsLast(index, e.logical);
    forall k | c < k < |index|
      ensures index[k].key > x
    {
      assert index[c + 1].key <= index[k].key;
    }
    RouteIs(index, x, c);
  }

  /** The next separator is routed past the leaf it ends; a straddling extent covers it. */
  lemma StraddlerIsMissed(t: Tree, e: Extent)
    requires Sound(t) && t.root.Branch? && Unmapped(t, e)
    requires !EndsInTime(t.root.index, Route(t.root.index, e.logical), e)
    ensures var c := Route(t.root.index, e.logical);
            var x := t.root.index[c + 1].key;
            Route(t.root.index, x) > c && Covers(e, x) && TreeBytes(t, x) == None
  {
    hide Route, Bytes;
    var index := t.root.index;
    var c := Route(index, e.logical);
    var x := index[c + 1].key;
    RouteIsLast(index, e.logical);
    RouteIsLast(index, x);
    NotCovered(LeafFor(t, x), e, x);
  }

  /** Into a leaf with room below the index: the tree stays sound, and the bytes become the old ones
      with exactly the new ones added, just when the extent does not straddle the next separator. */
  lemma ChildGrows(t: Tree, e: Extent)
    requires Sound(t) && t.root.Branch? && e.length > 0 && Unmapped(t, e)
    requires |LeafFor(t, e.logical)| < MAX_LEAF_ENTRIES
    ensures var index := t.root.index;
            var c := Route(index, e.logical);
            var n := t.(nodes := t.nodes[index[c].child := Place(LeafAt(t, c), e)]);
            Formed(n) && (Sound(n) <==> EndsInTime(index, c, e)) && (Grown(t, e, n) <==> EndsInTime(index, c, e))
  {
    hide Bytes;
    hide Place;
    hide Route;
    var index := t.root.index;
    var c := Route(index, e.logical);
    var leaf := LeafAt(t, c);
    var n := t.(nodes := t.nodes[index[c].child := Place(leaf, e)]);
    assert SoundLeaf(t, c) && Apart(leaf, e);
    RouteIsLast(index, e.logical);
    PlaceIsOrdered(leaf, e);
    PlaceBounds(leaf, e);
    forall i | 0 <= i < |index|
      ensures LeafAt(n, i) == if i == c then Place(leaf, e) else LeafAt(t, i)
      ensures SoundLeaf(n, i) <==> (i == c ==> EndsInTime(index, c, e))
    {
      assert SoundLeaf(t, i);
    }
    forall x: nat | EndsInTime(index, c, e)
      ensures TreeBytes(n, x) == OrElse(OneByte(e, x), TreeBytes(t, x))
    {
      PlaceAddsBytes(leaf, e, x);
      if Covers(e, x) {
        RoutedTogether(index, e, x);
      }
    }
    if !EndsInTime(index, c, e) {
      StraddlerIsMissed(t, e);
      var x := index[c + 1].key;
      assert TreeBytes(n, x) != OrElse(OneByte(e, x), TreeBytes(t, x));
    }
  }

  /** Whatever the tree and the extent: below an index, into a leaf with room, only the leaf searched for
      the first byte changes, and there the extent stands behind those that start no later. */
  lemma ChildBytes(t: Tree, e: Extent, x: nat)
    requires Formed(t) && t.root.Branch? && Distinct(t.root.index)
    requires e.length > 0 && e.physicalLength > 0 && |LeafFor(t, e.logical)| < MAX_LEAF_ENTRIES
    ensures var index := t.root.index;
            var leaf := LeafFor(t, e.logical);
            var (outcome, n) := Insert(t, e, None);
            var i := InsertPos(leaf, e.logical);
            && outcome == Done && Formed(n)
            && TreeBytes(n, x) == if Route(index, x) == Route(index, e.logical)
                                  then OrElse(Bytes(leaf[..i], x), OrElse(OneByte(e, x), Bytes(leaf[i..], x)))
                                  else TreeBytes(t, x)
  {
    hide Place, Route, Bytes, InsertPos;
    PlaceBytes(LeafFor(t, e.logical), e, x);
  }

  // ---- splitting a full leaf ------------------------------------------------------------------------

  lemma Halves(all: Leaf, half: nat)
    requires Ordered(all) && half < |all|
    ensures Ordered(all[..half]) && Ordered(all[half..])
    ensures Below(all[..half], all[half].logical) && Above(all[half..], all[half].logical)
    ensures forall high: nat :: Below(all[half..], high) ==> Below(all, high)
  {
    var back := all[half..];
    assert forall k :: 0 <= k < |back| ==> back[k] == all[half + k];
    forall high: nat | Below(back, high)
      ensures Below(all, high)
    {
      assert End(back[0]) <= high;
      forall k | half <= k < |all|
        ensures End(all[k]) <= high
      {
        assert all[k] == back[k - half];
      }
    }
  }

  lemma HalvesBytes(all: Leaf, half: nat, x: nat)
    requires Ordered(all) && half < |all|
    ensures Bytes(all, x) == Bytes(if x < all[half].logical then all[..half] else all[half..], x)
  {
    hide Bytes;
    var front, back := all[..half], all[half..];
    Halves(all, half);
    assert all == front + back;
    BytesJoin(front, back, x);
    if x < all[half].logical {
      BytesAt(back, x, |back|);
    } else {
      BytesAt(front, x, |front|);
    }
  }

  lemma RouteWithEntry(index: seq<Index>, c: nat, entry: Index, x: nat)
    requires c < |index| && Ascending(index) && Ascending(WithEntry(index, c, entry))
    ensures var r := Route(index, x);
            Route(WithEntry(index, c, entry), x)
            == if r < c then r else if r > c then r + 1 else if x < entry.key then c else c + 1
  {
    hide Route;
    var r, next := Route(index, x), WithEntry(index, c, entry);
    RouteIsLast(index, x);
    var s := if r < c then r else if r > c then r + 1 else if x < entry.key then c else c + 1;
    hide WithEntry;
    forall k | s < k < |next|
      ensures next[k].key > x
    {
      assert k > c + 1 ==> next[k] == index[k - 1];
      assert r < c ==> next[r + 1] == index[r + 1] && next[r + 1].key <= next[k].key;
    }
    assert s > 0 && s != c + 1 ==> next[s] == index[r];
    RouteIs(next, x, s);
  }

  /** Of the keys up to `h` only the one of entry 1 is at most `x`. */
  lemma {:induction false} SearchForSecond(index: seq<Index>, x: nat, h: nat)
    requires 1 < |index| && h < |index| && index[1].key <= x
    requires forall k :: 0 <= k < |index| && k != 1 ==> index[k].key > x
    ensures Search(index, x, 0, h) == if ProbesSecond(h) then 1 else -1
    decreases h
  {
    if h == 0 {
      assert Search(index, x, 0, -1) == -1;
    } else if h == 1 {
      assert Search(index, x, 0, -1) == -1;
    } else if h < 4 {
      assert Search(index, x, 2, 1) == 1;
      assert Search(index, x, 2, 2) == 1;
      assert h == 3 ==> Search(index, x, 2, 3) == 1;
    } else {
      SearchForSecond(index, x, h / 2 - 1);
    }
  }

  /** A second key below the first: between the two the search is right only if it looks at the second
      entry before the first. */
  lemma RouteUndercut(index: seq<Index>, entry: Index, x: nat)
    requires index != [] && Ascending(index) && entry.key < index[0].key
    ensures Route(WithEntry(index, 0, entry), x)
         == if x < entry.key then 0
            else if x < index[0].key then (if ProbesSecond(|index|) then 1 else 0)
            else Route(index, x) + 1
  {
    var next := WithEntry(index, 0, entry);
    assert next[0] == index[0] && next[1] == entry;
    hide WithEntry;
    if entry.key <= x < index[0].key {
      SearchForSecond(next, x, |index|);
    } else {
      hide Route;
      RouteIsLast(index, x);
      var s := if x < entry.key then 0 else Route(index, x) + 1;
      forall k | 2 <= k < |next|
        ensures next[k] == index[k - 1] && index[0].key <= next[k].key
      {
      }
      RouteIs(next, x, s);
    }
  }

  /** The tree a split leaves when both the node and the index entry are found. */
  function AfterSplit(t: Tree, c: nat, e: Extent, p: nat): Tree
    requires Formed(t) && t.root.Branch? && c < |t.root.index|
  {
    var index := t.root.index;
    var all := Place(LeafAt(t, c), e);
    var half := |all| / 2;
    t.(root := Branch(WithEntry(index, c, Index(all[half].logical, p))),
       nodes := t.nodes[index[c].child := all[..half]][p := all[half..]])
  }

  lemma LeavesAfterSplit(t: Tree, c: nat, e: Extent, p: nat)
    requires Sound(t) && t.root.Branch? && c < |t.root.index| && p !in t.nodes
    ensures var n := AfterSplit(t, c, e, p);
            var all := Place(LeafAt(t, c), e);
            var half := |all| / 2;
            && Formed(n) && Distinct(n.root.index)
            && LeafAt(n, c) == all[..half] && LeafAt(n, c + 1) == all[half..]
            && (forall i :: 0 <= i < c ==> LeafAt(n, i) == LeafAt(t, i))
            && (forall i :: c + 1 < i < |n.root.index| ==> LeafAt(n, i) == LeafAt(t, i - 1))
  {
    hide Place;
    var n := AfterSplit(t, c, e, p);
    var was, now := t.root.index, n.root.index;
    hide WithEntry;
    forall i | 0 <= i < |now|
      ensures now[i].child in n.nodes
      ensures now[i].child == if i <= c then was[i].child else if i == c + 1 then p else was[i - 1].child
    {
    }
  }

  /** A full leaf for the extent, enough room, and the halves. */
  ghost predicate Splitting(t: Tree, e: Extent, p: nat) {
    && Sound(t) && t.root.Branch? && e.length > 0 && Unmapped(t, e) && p !in t.nodes
    && |LeafFor(t, e.logical)| == MAX_LEAF_ENTRIES && |t.root.index| < MAX_INLINE_INDEX
  }

  lemma PlaceStarts(es: Leaf, e: Extent, high: nat)
    requires e.logical < high && forall i :: 0 <= i < |es| ==> es[i].logical < high
    ensures forall i :: 0 <= i < |Place(es, e)| ==> Place(es, e)[i].logical < high
  {
    hide InsertPos;
    var i := InsertPos(es, e.logical);
    var p := Place(es, e);
    assert forall k :: i < k < |p| ==> p[k] == es[k - 1];
  }

  lemma SplitFacts(t: Tree, e: Extent, p: nat)
    requires Splitting(t, e, p)
    ensures var c := Route(t.root.index, e.logical);
            var all := Place(LeafAt(t, c), e);
            && Ordered(all) && |all| == MAX_LEAF_ENTRIES + 1
            && (c > 0 ==> Above(all, t.root.index[c].key) && t.root.index[c].key < all[|all| / 2].logical)
            && (c + 1 < |t.root.index| ==> all[|all| / 2].logical < t.root.index[c + 1].key)
            && (EndsInTime(t.root.index, c, e) && c + 1 < |t.root.index| ==> Below(all, t.root.index[c + 1].key))
            && (forall high: nat :: Below(all, high) ==> End(e) <= high)
  {
    hide Place;
    hide Route;
    var c := Route(t.root.index, e.logical);
    var leaf := LeafAt(t, c);
    RouteIsLast(t.root.index, e.logical);
    assert SoundLeaf(t, c) && Apart(leaf, e);
    PlaceIsOrdered(leaf, e);
    PlaceBounds(leaf, e);
    var all := Place(leaf, e);
    assert End(all[0]) <= all[|all| / 2].logical;
    if c + 1 < |t.root.index| {
      PlaceStarts(leaf, e, t.root.index[c + 1].key);
    }
  }

  lemma SplitAscends(t: Tree, e: Extent, p: nat)
    requires Splitting(t, e, p) && !Undercut(t, e)
    ensures Ascending(AfterSplit(t, Route(t.root.index, e.logical), e, p).root.index)
  {
    hide Place;
    hide Route;
    SplitFacts(t, e, p);
    var index := t.root.index;
    var c := Route(index, e.logical);
    var next := AfterSplit(t, c, e, p).root.index;
    hide WithEntry;
    assert index[c].key <= next[c + 1].key;
    forall i, j | 0 <= i < j < |next|
      ensures next[i].key <= next[j].key
    {
      assert i > c + 1 ==> next[i] == index[i - 1];
      assert j > c + 1 ==> next[j] == index[j - 1];
    }
  }

  /** With separators in order the tree is sound again. */
  lemma SplitIsSound(t: Tree, e: Extent, p: nat)
    requires Splitting(t, e, p) && InForm(t, e)
    ensures Sound(AfterSplit(t, Route(t.root.index, e.logical), e, p))
  {
    hide Place;
    hide Route;
    hide WithEntry;
    hide SoundLeaf;
    var c := Route(t.root.index, e.logical);
    var n := AfterSplit(t, c, e, p);
    LeavesAfterSplit(t, c, e, p);
    SplitAscends(t, e, p);
    forall i | 0 <= i < |n.root.index|
      ensures SoundLeaf(n, i)
    {
      if i == c || i == c + 1 {
        HalfIsSound(t, e, p);
      } else {
        OtherLeafIsSound(t, e, p, i);
      }
    }
  }

  lemma HalfIsSound(t: Tree, e: Extent, p: nat)
    requires Splitting(t, e, p) && InForm(t, e)
    ensures var c := Route(t.root.index, e.logical);
            var n := AfterSplit(t, c, e, p);
            Formed(n) && SoundLeaf(n, c) && SoundLeaf(n, c + 1)
  {
    hide Place;
    hide Route;
    hide WithEntry;
    var c := Route(t.root.index, e.logical);
    var all := Place(LeafAt(t, c), e);
    SplitFacts(t, e, p);
    Halves(all, |all| / 2);
    LeavesAfterSplit(t, c, e, p);
  }

  lemma OtherLeafIsSound(t: Tree, e: Extent, p: nat, i: nat)
    requires Splitting(t, e, p) && i <= |t.root.index| && i != Route(t.root.index, e.logical) && i != Route(t.root.index, e.logical) + 1
    ensures var n := AfterSplit(t, Route(t.root.index, e.logical), e, p); Formed(n) && SoundLeaf(n, i)
  {
    hide Place;
    hide Route;
    hide WithEntry;
    var c := Route(t.root.index, e.logical);
    LeavesAfterSplit(t, c, e, p);
    assert SoundLeaf(t, if i < c then i else i - 1);
  }

  lemma SoundSplitFits(t: Tree, e: Extent, p: nat)
    requires Splitting(t, e, p) && Sound(AfterSplit(t, Route(t.root.index, e.logical), e, p))
    ensures InForm(t, e)
  {
    hide Place;
    hide Route;
    hide WithEntry;
    var index := t.root.index;
    var c := Route(index, e.logical);
    var n := AfterSplit(t, c, e, p);
    var all := Place(LeafAt(t, c), e);
    SplitFacts(t, e, p);
    Halves(all, |all| / 2);
    LeavesAfterSplit(t, c, e, p);
    assert SoundLeaf(n, c + 1);
    assert n.root.index[c].key <= n.root.index[c + 1].key;
    assert c + 1 < |index| ==> n.root.index[c + 2] == index[c + 1];
  }

  /** The byte lies between the new separator and a first key above it, and the search goes to the
      first half although the byte is in the second. */
  ghost predicate Misrouted(t: Tree, e: Extent, x: nat)
    requires Formed(t) && t.root.Branch?
  {
    Undercut(t, e) && !ProbesSecond(|t.root.index|)
    && var all := Place(LeafAt(t, 0), e); all[|all| / 2].logical <= x < t.root.index[0].key
  }

  lemma RouteAfterSplit(t: Tree, e: Extent, p: nat, x: nat)
    requires Splitting(t, e, p)
    ensures var c := Route(t.root.index, e.logical);
            var r := Route(t.root.index, x);
            var all := Place(LeafAt(t, c), e);
            && (Misrouted(t, e, x) ==> r == 0 == c && all[|all| / 2].logical <= x)
            && Route(AfterSplit(t, c, e, p).root.index, x)
               == if r < c then r else if r > c then r + 1
                  else if x < all[|all| / 2].logical || Misrouted(t, e, x) then c else c + 1
  {
    hide Place, Route, WithEntry, ProbesSecond;
    var index := t.root.index;
    var c := Route(index, e.logical);
    var all := Place(LeafAt(t, c), e);
    SplitFacts(t, e, p);
    if Undercut(t, e) {
      RouteUndercut(index, Index(all[|all| / 2].logical, p), x);
      RouteIsLast(index, x);
    } else {
      SplitAscends(t, e, p);
      RouteWithEntry(index, c, Index(all[|all| / 2].logical, p), x);
    }
  }

  /** Every byte after a split: those of the leaf that was split are in the half they are searched in,
      but for misrouted ones, which are not found; the rest is as it was. */
  lemma SplitBytes(t: Tree, e: Extent, p: nat, x: nat)
    requires Splitting(t, e, p)
    ensures var c := Route(t.root.index, e.logical);
            var n := AfterSplit(t, c, e, p);
            && Formed(n)
            && TreeBytes(n, x) == if Route(t.root.index, x) != c then TreeBytes(t, x)
                                  else if Misrouted(t, e, x) then None else OrElse(OneByte(e, x), TreeBytes(t, x))
  {
    hide Place, Route, WithEntry, Bytes, Misrouted;
    var c := Route(t.root.index, e.logical);
    var leaf := LeafAt(t, c);
    var all := Place(leaf, e);
    assert Apart(leaf, e);
    SplitFacts(t, e, p);
    LeavesAfterSplit(t, c, e, p);
    RouteAfterSplit(t, e, p, x);
    HalvesBytes(all, |all| / 2, x);
    PlaceAddsBytes(leaf, e, x);
    if Misrouted(t, e, x) {
      Halves(all, |all| / 2);
      BytesAt(all[..|all| / 2], x, |all| / 2);
    }
  }

  /** A split that succeeds: the tree stays sound just when the extent does not straddle the separator
      and the new separator is not below the first key; the map is exact also when such a separator
      happens to be found. */
  lemma SplitGrows(t: Tree, e: Extent, p: nat)
    requires Splitting(t, e, p)
    ensures var n := AfterSplit(t, Route(t.root.index, e.logical), e, p);
            Formed(n) && (Sound(n) <==> InForm(t, e)) && (Grown(t, e, n) <==> Exact(t, e))
  {
    hide Place, Route, WithEntry, Bytes, Sound, ProbesSecond;
    SoundIsFormed(t);
    var index := t.root.index;
    var c := Route(index, e.logical);
    var n := AfterSplit(t, c, e, p);
    SoundOfSplit(t, e, p);
    SoundAscends(t);
    forall x: nat
      ensures TreeBytes(n, x) == if Route(index, x) != c then TreeBytes(t, x)
                                 else if Misrouted(t, e, x) then None else OrElse(OneByte(e, x), TreeBytes(t, x))
    {
      SplitBytes(t, e, p, x);
    }
    if !EndsInTime(index, c, e) {
      StraddlerIsMissed(t, e);
      var x := index[c + 1].key;
      assert TreeBytes(n, x) != OrElse(OneByte(e, x), TreeBytes(t, x));
    } else {
      forall x: nat | Covers(e, x)
        ensures Route(index, x) == c
      {
        RoutedTogether(index, e, x);
      }
      if Undercut(t, e) && !ProbesSecond(|index|) {
        SeparatorIsMapped(t, e, p);
      }
    }
  }

  lemma SoundOfSplit(t: Tree, e: Extent, p: nat)
    requires Splitting(t, e, p)
    ensures var n := AfterSplit(t, Route(t.root.index, e.logical), e, p); Formed(n) && (Sound(n) <==> InForm(t, e))
  {
    hide Place, Route, WithEntry, Sound, InForm;
    SoundIsFormed(t);
    LeavesAfterSplit(t, Route(t.root.index, e.logical), e, p);
    if InForm(t, e) {
      SplitIsSound(t, e, p);
    } else if Sound(AfterSplit(t, Route(t.root.index, e.logical), e, p)) {
      SoundSplitFits(t, e, p);
    }
  }

  lemma SoundAscends(t: Tree)
    requires Sound(t) && t.root.Branch?
    ensures t.root.index != [] && Ascending(t.root.index)
  {
  }

  /** The separator is a mapped byte, or one of the new extent. */
  lemma SeparatorIsMapped(t: Tree, e: Extent, p: nat)
    requires Splitting(t, e, p) && Undercut(t, e) && !ProbesSecond(|t.root.index|)
    ensures var all := Place(LeafAt(t, 0), e);
            var x := all[|all| / 2].logical;
            && Misrouted(t, e, x) && Route(t.root.index, x) == 0
            && OrElse(OneByte(e, x), TreeBytes(t, x)).Some?
  {
    hide Place, Bytes, WithEntry, ProbesSecond;
    SplitFacts(t, e, p);
    var leaf := LeafAt(t, 0);
    var all := Place(leaf, e);
    var x := all[|all| / 2].logical;
    RouteAfterSplit(t, e, p, x);
    hide Route;
    assert Apart(leaf, e);
    PlaceAddsBytes(leaf, e, x);
    BytesAt(all, x, |all| / 2);
  }

  // ---- the whole operation ------------------------------------------------------------------------------

  /** A successful insertion of an unmapped extent: the byte map is the old one with exactly the new
      bytes added just when the extent is exact, and the tree stays sound just when it is in form. */
  lemma InsertGrowsIff(t: Tree, e: Extent, room: Option<nat>)
    requires Sound(t) && Unmapped(t, e) && Fresh(t, room) && Insert(t, e, room).0 == Done
    ensures var n := Insert(t, e, room).1;
            Formed(n) && (Grown(t, e, n) <==> Exact(t, e)) && (Sound(n) <==> InForm(t, e))
  {
    hide Place, Route, Bytes, ProbesSecond;
    match t.root
    case LeafRoot(es) => LeafRootGrows(t, e, room);
    case Branch(index) =>
      var c := Route(index, e.logical);
      assert SoundLeaf(t, c);
      if |LeafAt(t, c)| < MAX_LEAF_ENTRIES {
        ChildGrows(t, e);
      } else {
        SplitGrows(t, e, room.value);
      }
  }

  /** When the split fails for want of a node or of an index entry, everything of that leaf from
      the separator on is lost, the new extent too if it lies there; other leaves are untouched. */
  lemma FailedSplitLoses(t: Tree, e: Extent, room: Option<nat>, x: nat)
    requires Sound(t) && t.root.Branch? && e.length > 0 && e.physicalLength > 0 && Unmapped(t, e) && Fresh(t, room)
    requires |LeafFor(t, e.logical)| == MAX_LEAF_ENTRIES && Insert(t, e, room).0 == Enospc
    ensures var c := Route(t.root.index, e.logical);
            var all := Place(LeafAt(t, c), e);
            var n := Insert(t, e, room).1;
            && Formed(n)
            && TreeBytes(n, x) == if Route(t.root.index, x) != c then TreeBytes(t, x)
                                  else if all[|all| / 2].logical <= x then None else OrElse(OneByte(e, x), TreeBytes(t, x))
  {
    hide Place;
    hide Route;
    hide Bytes;
    var index := t.root.index;
    var c := Route(index, e.logical);
    var leaf, n := LeafAt(t, c), Insert(t, e, room).1;
    var all := Place(leaf, e);
    assert n.root == t.root && LeafAt(n, c) == all[..|all| / 2];
    FirstHalfBytes(leaf, e, x) by {
      assert SoundLeaf(t, c) && Apart(leaf, e);
    }
  }

  lemma FirstHalfBytes(leaf: Leaf, e: Extent, x: nat)
    requires Ordered(leaf) && Apart(leaf, e) && e.length > 0
    ensures var all := Place(leaf, e);
            |all| > 0 && Bytes(all[..|all| / 2], x) == if all[|all| / 2].logical <= x then None else OrElse(OneByte(e, x), Bytes(leaf, x))
  {
    hide Place;
    hide Bytes;
    var all := Place(leaf, e);
    PlaceIsOrdered(leaf, e);
    PlaceBounds(leaf, e);
    PlaceAddsBytes(leaf, e, x);
    HalvesBytes(all, |all| / 2, x);
    Halves(all, |all| / 2);
    if all[|all| / 2].logical <= x {
      BytesAt(all[..|all| / 2], x, |all| / 2);
    }
  }

  /** The half a full leaf keeps lies between its separators, however far the extent reaches. */
  lemma KeptHalf(t: Tree, e: Extent, c: nat)
    requires Sound(t) && t.root.Branch? && e.length > 0 && Unmapped(t, e)
    requires c == Route(t.root.index, e.logical) && |LeafAt(t, c)| == MAX_LEAF_ENTRIES
    ensures var all := Place(LeafAt(t, c), e);
            var half := |all| / 2;
            && |all| == MAX_LEAF_ENTRIES + 1 && Ordered(all[..half]) && Reach(t.root.index, c, all[..half])
            && (c > 0 ==> t.root.index[c].key <= all[half].logical)
            && (c + 1 < |t.root.index| ==> all[half].logical < t.root.index[c + 1].key)
  {
    hide Place, Route;
    var index, leaf := t.root.index, LeafAt(t, c);
    assert SoundLeaf(t, c) && Apart(leaf, e);
    RouteIsLast(index, e.logical);
    PlaceIsOrdered(leaf, e);
    PlaceBounds(leaf, e);
    Halves(Place(leaf, e), |Place(leaf, e)| / 2);
    if c + 1 < |index| {
      PlaceStarts(leaf, e, index[c + 1].key);
    }
  }

  /** A failed split leaves a sound tree all the same. */
  lemma FailedSplitKeeps(t: Tree, e: Extent, room: Option<nat>)
    requires Sound(t) && t.root.Branch? && e.length > 0 && e.physicalLength > 0 && Unmapped(t, e) && Fresh(t, room)
    requires |LeafFor(t, e.logical)| == MAX_LEAF_ENTRIES && Insert(t, e, room).0 == Enospc
    ensures Sound(Insert(t, e, room).1)
  {
    hide Place, Route, Reach, Ordered, Unmapped;
    var index := t.root.index;
    var c := Route(index, e.logical);
    var n := Insert(t, e, room).1;
    KeptHalf(t, e, c);
    forall i | 0 <= i < |index|
      ensures SoundLeaf(n, i)
    {
      assert SoundLeaf(t, i);
      assert i != c ==> LeafAt(n, i) == LeafAt(t, i);
    }
  }

  /** Which outcome an insertion has, and that no other failure changes anything. */
  lemma InsertOutcome(t: Tree, e: Extent, room: Option<nat>)
    requires Sound(t)
    ensures var (outcome, n) := Insert(t, e, room);
            && (outcome == Einval <==> e.length == 0 || e.physicalLength == 0)
            && (outcome == Einval ==> n == t)
            && (t.root.LeafRoot? && outcome == Enospc
                ==> n == t && room == None && |t.root.extents| >= MAX_INLINE_EXTENTS && MergeAt(t.root.extents, e) == |t.root.extents|)
            && (t.root.Branch? && outcome == Enospc
                ==> |LeafFor(t, e.logical)| == MAX_LEAF_ENTRIES && (room == None || |t.root.index| == MAX_INLINE_INDEX))
  {
    if t.root.Branch? {
      assert SoundLeaf(t, Route(t.root.index, e.logical));
    }
  }
}
