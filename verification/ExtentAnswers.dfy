/** What lookups answer after each operation - lengths, physical lengths and flags, not only the byte they
    point to - and which extents the tree then holds. */
module ExtentAnswers {
  import opened Options
  import opened Extents
  import opened ExtentCuts
  import opened ExtentTrees
  import opened ExtentInsert
  import opened ExtentShrink
  import opened ExtentRuns

  /** The first extent that covers a byte. */
  function Owner(es: Leaf, x: nat): Option<Extent> {
    var i := Find(es, x);
    if i < |es| then Some(es[i]) else None
  }

  function Mapped(o: Option<Extent>, x: nat): Option<Mapping>
    requires o.Some? ==> Covers(o.value, x)
  {
    match o
    case None => None
    case Some(e) => Some(MappingAt(e, x))
  }

  function Flags(o: Option<Extent>): Option<nat> {
    match o
    case None => None
    case Some(e) => Some(e.flags)
  }

  function TreeOwner(t: Tree, x: nat): Option<Extent>
    requires Formed(t)
  {
    Owner(LeafFor(t, x), x)
  }

  lemma OwnerCovers(es: Leaf, x: nat)
    ensures Owner(es, x).Some? ==> Covers(Owner(es, x).value, x)
    ensures LookupIn(es, x) == Mapped(Owner(es, x), x)
  {
  }

  lemma OwnerJoins(a: Leaf, b: Leaf, x: nat)
    ensures Owner(a + b, x) == OrElse(Owner(a, x), Owner(b, x))
  {
    hide Find;
    FindJoins(a, b, x);
  }

  lemma OwnerOne(e: Extent, x: nat)
    ensures Owner([e], x) == if Covers(e, x) then Some(e) else None
    ensures Owner([], x) == None
  {
  }

  /** In an ordered leaf the owner of a byte is the one extent that covers it. */
  lemma OwnerIs(es: Leaf, x: nat, e: Extent)
    requires Ordered(es)
    ensures Owner(es, x) == Some(e) <==> e in es && Covers(e, x)
    ensures Owner(es, x) == None <==> forall k :: 0 <= k < |es| ==> !Covers(es[k], x)
  {
    hide Find;
    if e in es && Covers(e, x) {
      var i :| 0 <= i < |es| && es[i] == e;
      forall k | 0 <= k < i
        ensures !Covers(es[k], x)
      {
        assert End(es[k]) <= es[i].logical;
      }
      FirstIs(es, x, i);
    }
  }

  // ---- truncation --------------------------------------------------------------------------------

  /** A mapping cut to at most `n` bytes: what it loses in length it loses in physical length. */
  function Clip(m: Option<Mapping>, n: nat): Option<Mapping> {
    if m.None? || m.value.length <= n then m
    else Some(m.value.(length := n, physicalLength := Minus(m.value.physicalLength, m.value.length - n)))
  }

  lemma {:induction false} ShortenedOwner(es: Leaf, size: nat, x: nat)
    ensures var o := Owner(es, x);
            Owner(Shortened(es, size), x) == if x < size && o.Some? && Short(o.value, size) != [] then Some(Short(o.value, size)[0]) else None
    decreases |es|
  {
    hide Owner;
    OwnerOne(Extent(0, 0, 0, 0, 0, 0), x);
    if es != [] {
      var front, last := es[..|es| - 1], es[|es| - 1];
      assert es == front + [last];
      ShortenedOwner(front, size, x);
      OwnerJoins(Shortened(front, size), Short(last, size), x);
      OwnerJoins(front, [last], x);
      OwnerOne(last, x);
      if Short(last, size) != [] {
        OwnerOne(Short(last, size)[0], x);
      }
      CoveredIsKept(front, size, x);
    }
  }

  lemma CoveredIsKept(es: Leaf, size: nat, x: nat)
    ensures x < size && Owner(es, x).Some? ==> Short(Owner(es, x).value, size) != []
  {
    hide Find;
  }

  /** Truncation: a lookup below the new size answers as before, cut off at the new size. */
  lemma TruncateAnswers(t: Tree, size: nat, x: nat)
    requires Sound(t)
    ensures var n := Truncate(t, size);
            && Formed(n)
            && Lookup(n, x) == (if x < size then Clip(Lookup(t, x), size - x) else None)
            && Flags(TreeOwner(n, x)) == if x < size then Flags(TreeOwner(t, x)) else None
  {
    hide Owner, Shortened, Find, Route;
    if Blank(t) {
      OwnerOne(Extent(0, 0, 0, 0, 0, 0), x);
    } else {
      LeavesAfter(t, es => Shortened(es, size));
    }
    var es := LeafFor(t, x);
    ShortenedOwner(es, size, x);
    OwnerCovers(es, x);
    OwnerCovers(LeafFor(Truncate(t, size), x), x);
  }

  // ---- holes -------------------------------------------------------------------------------------

  /** What a hole leaves around byte `x` of an extent. */
  function PieceAt(e: Extent, from: nat, end: nat, x: nat): Extent
    requires Covers(e, x) && from < end && !(from <= x < end)
  {
    if Outside(e, from, end) then e
    else if x < from then LeftPiece(e, from)
    else RightPiece(e, end, if Inside(e, from, end) then from - e.logical else 0)
  }

  lemma {:induction false} CutOwner(es: Leaf, from: nat, end: nat, x: nat)
    requires from < end
    ensures var o := Owner(es, x);
            && (o.Some? ==> Covers(o.value, x))
            && Owner(Cut(es, from, end), x) == if o.None? || from <= x < end then None else Some(PieceAt(o.value, from, end, x))
    decreases |es|
  {
    hide Owner, Pieces, PieceAt;
    OwnerOne(Extent(0, 0, 0, 0, 0, 0), x);
    OwnerCovers(es, x);
    if es != [] {
      var front, last := es[..|es| - 1], es[|es| - 1];
      assert es == front + [last];
      CutOwner(front, from, end, x);
      OwnerJoins(Cut(front, from, end), Pieces(last, from, end), x);
      OwnerJoins(front, [last], x);
      OwnerOne(last, x);
      PiecesOwner(last, from, end, x);
    }
  }

  lemma PiecesOwner(e: Extent, from: nat, end: nat, x: nat)
    requires from < end
    ensures Owner(Pieces(e, from, end), x) == if !Covers(e, x) || from <= x < end then None else Some(PieceAt(e, from, end, x))
  {
    hide Owner;
    OwnerOne(e, x);
    var p := Pieces(e, from, end);
    if |p| == 1 {
      OwnerOne(p[0], x);
    } else if |p| == 2 {
      assert p == [p[0]] + [p[1]];
      OwnerJoins([p[0]], [p[1]], x);
      OwnerOne(p[0], x);
      OwnerOne(p[1], x);
    }
  }

  /** A hole that every leaf gives up exactly: in front of it lookups end at the hole, with a physical length
      that is what is left of the length; behind it they answer as before, but for an extent that has the
      hole inside: there the physical length is short by the part in front of the hole. */
  lemma RemoveAnswers(t: Tree, from: nat, length: nat, x: nat)
    requires Sound(t) && length > 0 && TreeClean(t, from, from + length)
    ensures var n := Remove(t, from, length);
            var end := from + length;
            var m := Lookup(t, x);
            && Formed(n) && n.size == t.size
            && (from <= x < end || m.None? ==> Lookup(n, x) == None)
            && (x < from && m.Some? ==>
                  Lookup(n, x) == Some(if m.value.length <= from - x then m.value
                                       else m.value.(length := from - x, physicalLength := from - x)))
            && (end <= x && m.Some? ==>
                  var s := TreeOwner(t, x).value.logical;
                  Lookup(n, x) == Some(if s < from then m.value.(physicalLength := Minus(m.value.physicalLength, from - s)) else m.value))
            && Flags(TreeOwner(n, x)) == if from <= x < end then None else Flags(TreeOwner(t, x))
  {
    hide Owner, Punched, Find, Route, Clean, Cut, Sound;
    SoundIsFormed(t);
    var es, end := LeafFor(t, x), from + length;
    OwnerCovers(es, x);
    if Blank(t) {
      OwnerOne(Extent(0, 0, 0, 0, 0, 0), x);
    } else {
      LeavesAfter(t, es => Punched(es, from, end));
      LeavesAreOrdered(t, RouteIn(t, x));
      PunchedIsCut(es, from, end);
    }
    CutOwner(es, from, end, x);
    OwnerCovers(LeafFor(Remove(t, from, length), x), x);
  }

  function RouteIn(t: Tree, x: nat): nat
    requires Formed(t)
  {
    match t.root
    case LeafRoot(_) => 0
    case Branch(index) => Route(index, x)
  }

  // ---- insertion ---------------------------------------------------------------------------------

  /** Physical bytes of the extents of a leaf. */
  function Physical(es: Leaf): nat {
    if es == [] then 0 else Physical(es[..|es| - 1]) + es[|es| - 1].physicalLength
  }

  lemma {:induction false} PhysicalJoins(a: Leaf, b: Leaf)
    ensures Physical(a + b) == Physical(a) + Physical(b)
    decreases |b|
  {
    if b == [] {
      assert a + b == a;
    } else {
      assert (a + b)[..|a + b| - 1] == a + b[..|b| - 1];
      PhysicalJoins(a, b[..|b| - 1]);
    }
  }

  /** The leaf holds the same extents and `e` besides. */
  ghost predicate Joined(was: Leaf, e: Extent, now: Leaf) {
    multiset(now) == multiset(was) + multiset{e} && Physical(now) == Physical(was) + e.physicalLength
  }

  lemma PlaceJoins(es: Leaf, e: Extent)
    ensures Joined(es, e, Place(es, e))
  {
    hide InsertPos, Physical;
    var i := InsertPos(es, e.logical);
    assert es == es[..i] + es[i..];
    PhysicalJoins(es[..i], es[i..]);
    PhysicalJoins(es[..i] + [e], es[i..]);
    PhysicalJoins(es[..i], [e]);
    PhysicalOne(e);
  }

  lemma PhysicalOne(e: Extent)
    ensures Physical([e]) == e.physicalLength
  {
    assert [e][..0] == [];
  }

  lemma JoinedAfter(front: Leaf, front': Leaf, was: Leaf, e: Extent, now: Leaf)
    requires multiset(front') == multiset(front) && Physical(front') == Physical(front) && Joined(was, e, now)
    ensures Joined(front + was, e, front' + now)
  {
    hide Physical;
    PhysicalJoins(front, was);
    PhysicalJoins(front', now);
  }

  lemma JoinedBefore(was: Leaf, e: Extent, now: Leaf, back: Leaf)
    requires Joined(was, e, now)
    ensures Joined(was + back, e, now + back)
  {
    hide Physical;
    PhysicalJoins(was, back);
    PhysicalJoins(now, back);
  }

  /** Below the index, one leaf taking the extent: the extents of the first `k` leaves. */
  lemma {:induction false} ChildJoins(t: Tree, n: Tree, c: nat, e: Extent, k: nat)
    requires Formed(t) && Formed(n) && t.root.Branch? && n.root == t.root && c < |t.root.index| && k <= |t.root.index|
    requires forall i :: 0 <= i < |t.root.index| ==> LeafAt(n, i) == if i == c then Place(LeafAt(t, c), e) else LeafAt(t, i)
    ensures if k <= c then FirstLeaves(n, k) == FirstLeaves(t, k) else Joined(FirstLeaves(t, k), e, FirstLeaves(n, k))
  {
    hide Place, Joined;
    if k > 0 {
      ChildJoins(t, n, c, e, k - 1);
      if k - 1 == c {
        PlaceJoins(LeafAt(t, c), e);
        JoinedAfter(FirstLeaves(t, c), FirstLeaves(n, c), LeafAt(t, c), e, Place(LeafAt(t, c), e));
      } else if k - 1 > c {
        JoinedBefore(FirstLeaves(t, k - 1), e, FirstLeaves(n, k - 1), LeafAt(t, k - 1));
      }
    }
  }

  /** A leaf taking the extent and being split: the extents of the first leaves. */
  lemma {:induction false} SplitJoins(t: Tree, n: Tree, c: nat, e: Extent, half: nat, k: nat)
    requires Formed(t) && Formed(n) && t.root.Branch? && n.root.Branch? && c < |t.root.index| && k <= |t.root.index|
    requires |n.root.index| == |t.root.index| + 1 && half <= |Place(LeafAt(t, c), e)|
    requires forall i :: 0 <= i < c ==> LeafAt(n, i) == LeafAt(t, i)
    requires LeafAt(n, c) == Place(LeafAt(t, c), e)[..half] && LeafAt(n, c + 1) == Place(LeafAt(t, c), e)[half..]
    requires forall i :: c + 1 < i < |n.root.index| ==> LeafAt(n, i) == LeafAt(t, i - 1)
    ensures if k <= c then FirstLeaves(n, k) == FirstLeaves(t, k) else Joined(FirstLeaves(t, k), e, FirstLeaves(n, k + 1))
  {
    hide Place, Joined;
    if k > 0 {
      SplitJoins(t, n, c, e, half, k - 1);
      if k - 1 == c {
        PlaceJoins(LeafAt(t, c), e);
        JoinedAfter(FirstLeaves(t, c), FirstLeaves(n, c), LeafAt(t, c), e, Place(LeafAt(t, c), e));
        TwoHalves(n, c, Place(LeafAt(t, c), e), half);
      } else if k - 1 > c {
        JoinedBefore(FirstLeaves(t, k - 1), e, FirstLeaves(n, k), LeafAt(t, k - 1));
      }
    }
  }

  lemma TwoHalves(n: Tree, c: nat, all: Leaf, half: nat)
    requires Formed(n) && n.root.Branch? && c + 1 < |n.root.index| && half <= |all|
    requires LeafAt(n, c) == all[..half] && LeafAt(n, c + 1) == all[half..]
    ensures FirstLeaves(n, c + 2) == FirstLeaves(n, c) + all
  {
    assert FirstLeaves(n, c + 2) == FirstLeaves(n, c + 1) + all[half..];
    assert FirstLeaves(n, c) + all[..half] + all[half..] == FirstLeaves(n, c) + all;
  }

  predicate Merges(t: Tree, e: Extent) {
    t.root.LeafRoot? && MergeAt(t.root.extents, e) < |t.root.extents|
  }

  ghost predicate Named(t: Tree) {
    Formed(t) && (t.root.Branch? ==> Distinct(t.root.index))
  }

  /** Whatever the tree and the extent: a successful insertion keeps every extent and adds the new one, or
      makes one extent longer by it; the physical bytes grow by those of the extent. */
  lemma InsertHolds(t: Tree, e: Extent, room: Option<nat>)
    requires Named(t) && Fresh(t, room) && Insert(t, e, room).0 == Done
    ensures var n := Insert(t, e, room).1;
            && Formed(n) && n.size == t.size && OthersKept(t, n, e)
            && (!Merges(t, e) ==> Joined(AllExtents(t), e, AllExtents(n)))
            && (Merges(t, e) ==>
                  var m := MergeAt(t.root.extents, e);
                  var was := AllExtents(t)[m];
                  var one := AllExtents(n)[m];
                  && |AllExtents(n)| == |AllExtents(t)| && AllExtents(n) == AllExtents(t)[m := one]
                  && one.logical == was.logical && End(one) == End(e) && one.physical == was.physical
                  && one.physicalLength == was.physicalLength + e.physicalLength
                  && one.compression == was.compression && one.flags == 0
                  && Physical(AllExtents(n)) == Physical(AllExtents(t)) + e.physicalLength)
  {
    hide Place, Route, MergeAt, Joined, WithEntry, Physical;
    match t.root
    case LeafRoot(es) =>
      var m := MergeAt(es, e);
      if m < |es| {
        PhysicalMerged(es, m, Merged(es[m], e));
      } else {
        PlaceJoins(es, e);
        InsertAtRoot(t, e, room);
      }
    case Branch(index) =>
      var c := Route(index, e.logical);
      var n := Insert(t, e, room).1;
      if |LeafAt(t, c)| < MAX_LEAF_ENTRIES {
        forall i | 0 <= i < |index|
          ensures LeafAt(n, i) == if i == c then Place(LeafAt(t, c), e) else LeafAt(t, i)
        {
        }
        ChildJoins(t, n, c, e, |index|);
      } else {
        SplitLeaves(t, e, room);
        SplitJoins(t, n, c, e, |Place(LeafAt(t, c), e)| / 2, |index|);
      }
  }

  /** No node but the one searched for the first byte is written over. */
  ghost predicate OthersKept(t: Tree, n: Tree, e: Extent)
    requires Formed(t)
  {
    forall p :: p in t.nodes && (t.root.Branch? ==> p != t.root.index[Route(t.root.index, e.logical)].child)
                ==> p in n.nodes && n.nodes[p] == t.nodes[p]
  }

  lemma PhysicalMerged(es: Leaf, m: nat, one: Extent)
    requires m < |es| && one.physicalLength >= es[m].physicalLength
    ensures Physical(es[m := one]) == Physical(es) + (one.physicalLength - es[m].physicalLength)
  {
    hide Physical;
    assert es == es[..m] + [es[m]] + es[m + 1..];
    assert es[m := one] == es[..m] + [one] + es[m + 1..];
    PhysicalJoins(es[..m] + [es[m]], es[m + 1..]);
    PhysicalJoins(es[..m], [es[m]]);
    PhysicalJoins(es[..m] + [one], es[m + 1..]);
    PhysicalJoins(es[..m], [one]);
    PhysicalOne(es[m]);
    PhysicalOne(one);
  }

  lemma InsertAtRoot(t: Tree, e: Extent, room: Option<nat>)
    requires t.root.LeafRoot? && !Merges(t, e) && Insert(t, e, room).0 == Done
    ensures Formed(Insert(t, e, room).1) && AllExtents(Insert(t, e, room).1) == Place(t.root.extents, e)
  {
    hide Place;
    var n := Insert(t, e, room).1;
    if n.root.Branch? {
      assert FirstLeaves(n, 0) == [];
      assert FirstLeaves(n, 1) == FirstLeaves(n, 0) + LeafAt(n, 0);
    }
  }

  lemma SplitLeaves(t: Tree, e: Extent, room: Option<nat>)
    requires Named(t) && t.root.Branch? && Fresh(t, room) && Insert(t, e, room).0 == Done
    requires |LeafFor(t, e.logical)| >= MAX_LEAF_ENTRIES
    ensures var c := Route(t.root.index, e.logical);
            var n := Insert(t, e, room).1;
            var all := Place(LeafAt(t, c), e);
            var half := |all| / 2;
            && Formed(n) && n.root.Branch? && |n.root.index| == |t.root.index| + 1
            && LeafAt(n, c) == all[..half] && LeafAt(n, c + 1) == all[half..]
            && (forall i :: 0 <= i < c ==> LeafAt(n, i) == LeafAt(t, i))
            && (forall i :: c + 1 < i < |n.root.index| ==> LeafAt(n, i) == LeafAt(t, i - 1))
  {
    hide Place, Route;
    var n := Insert(t, e, room).1;
    var c := Route(t.root.index, e.logical);
    PlaceBounds(LeafAt(t, c), e);
    var was, now := t.root.index, n.root.index;
    hide WithEntry;
    forall i | 0 <= i < |now|
      ensures now[i].child in n.nodes
      ensures now[i].child == if i <= c then was[i].child else if i == c + 1 then room.value else was[i - 1].child
    {
    }
  }

  /** The extent has to go into a leaf that is full: seven at the root, 85 below the index. */
  predicate NeedsNode(t: Tree, e: Extent)
    requires Formed(t)
  {
    match t.root
    case LeafRoot(es) => !Merges(t, e) && |es| >= MAX_INLINE_EXTENTS
    case Branch(_) => |LeafFor(t, e.logical)| >= MAX_LEAF_ENTRIES
  }

  /** An insertion fails for want of room just when it needs a node and there is none, or the index is full; a
      node is taken just when one is needed, and only then does a root in the inode become an index. */
  lemma InsertTakesNodeIff(t: Tree, e: Extent, room: Option<nat>)
    requires Named(t) && Fresh(t, room) && e.length > 0 && e.physicalLength > 0
    ensures var (outcome, n) := Insert(t, e, room);
            && (outcome == Enospc <==> NeedsNode(t, e) && (room == None || (t.root.Branch? && |t.root.index| >= MAX_INLINE_INDEX)))
            && (outcome == Done ==>
                  && n.nodes.Keys == t.nodes.Keys + (if NeedsNode(t, e) then {room.value} else {})
                  && (n.root.LeafRoot? <==> t.root.LeafRoot? && !NeedsNode(t, e))
                  && (n.root.Branch? ==> |n.root.index| == (if t.root.LeafRoot? then 1 else if NeedsNode(t, e) then |t.root.index| + 1 else |t.root.index|)))
  {
    hide Place, Route, MergeAt;
    match t.root
    case LeafRoot(es) =>
    case Branch(index) => PlaceIsLonger(LeafFor(t, e.logical), e);
  }

  // ---- equal lengths -----------------------------------------------------------------------------

  lemma {:induction false} FlatLeaves(t: Tree, k: nat)
    requires Formed(t) && t.root.Branch? && k <= |t.root.index|
    ensures Flat(FirstLeaves(t, k)) <==> forall i :: 0 <= i < k ==> Flat(LeafAt(t, i))
  {
    if k > 0 {
      FlatLeaves(t, k - 1);
      FlatJoinIff(FirstLeaves(t, k - 1), LeafAt(t, k - 1));
    }
  }

  lemma FlatJoinIff(a: Leaf, b: Leaf)
    ensures Flat(a + b) <==> Flat(a) && Flat(b)
  {
    assert forall i :: 0 <= i < |a| ==> (a + b)[i] == a[i];
    assert forall i :: 0 <= i < |b| ==> (a + b)[|a| + i] == b[i];
  }

  lemma FlatTreeIs(t: Tree)
    requires Formed(t)
    ensures FlatTree(t) <==> Flat(AllExtents(t))
  {
    if t.root.Branch? {
      FlatLeaves(t, |t.root.index|);
    }
  }

  lemma FlatIsAll(es: Leaf)
    ensures Flat(es) <==> forall f :: f in multiset(es) ==> f.physicalLength == f.length
  {
    assert forall i :: 0 <= i < |es| ==> es[i] in multiset(es);
  }

  /** Extents of equal length and physical length stay so when one more of them is inserted. */
  lemma InsertKeepsFlat(t: Tree, e: Extent, room: Option<nat>)
    requires Named(t) && Fresh(t, room) && Insert(t, e, room).0 == Done
    requires FlatTree(t) && e.physicalLength == e.length
    ensures Formed(Insert(t, e, room).1) && FlatTree(Insert(t, e, room).1)
  {
    hide Insert, FlatTree, Flat;
    var n := Insert(t, e, room).1;
    InsertHolds(t, e, room);
    FlatTreeIs(t);
    FlatTreeIs(n);
    FlatIsAll(AllExtents(t));
    FlatIsAll(AllExtents(n));
    if Merges(t, e) {
      MergeKeepsFlat(AllExtents(t), AllExtents(n), MergeAt(t.root.extents, e), e);
    }
  }

  lemma MergeKeepsFlat(was: Leaf, now: Leaf, m: nat, e: Extent)
    requires m < |was| == |now| && now == was[m := now[m]] && Flat(was) && e.physicalLength == e.length && Extends(was[m], e)
    requires now[m].logical == was[m].logical && End(now[m]) == End(e) && now[m].physicalLength == was[m].physicalLength + e.physicalLength
    ensures Flat(now)
  {
  }

  // ---- what an insertion answers -------------------------------------------------------------------

  /** A new extent of its own: lookups in it answer from it, all others as before. */
  lemma InsertAnswers(t: Tree, e: Extent, room: Option<nat>, x: nat)
    requires Sound(t) && Unmapped(t, e) && Fresh(t, room) && Insert(t, e, room).0 == Done && InForm(t, e) && !Merges(t, e)
    ensures var n := Insert(t, e, room).1;
            && Formed(n)
            && Lookup(n, x) == (if Covers(e, x) then Some(MappingAt(e, x)) else Lookup(t, x))
            && Flags(TreeOwner(n, x)) == if Covers(e, x) then Some(e.flags) else Flags(TreeOwner(t, x))
  {
    hide Insert, Sound, InForm, Unmapped, Joined, Owner, Find, Route;
    SoundIsFormed(t);
    SoundIsNamed(t);
    var n := Insert(t, e, room).1;
    InsertGrowsIff(t, e, room);
    InsertHolds(t, e, room);
    SoundIsFormed(n);
    OwnerIsLinear(t, x);
    OwnerIsLinear(n, x);
    AllExtentsOrdered(t);
    AllExtentsOrdered(n);
    OwnerAfter(AllExtents(t), e, AllExtents(n), x);
    OwnerCovers(LeafFor(t, x), x);
    OwnerCovers(LeafFor(n, x), x);
  }

  lemma SoundIsNamed(t: Tree)
    requires Sound(t)
    ensures Named(t)
  {
  }

  lemma OwnerAfter(was: Leaf, e: Extent, now: Leaf, x: nat)
    requires Ordered(was) && Ordered(now) && Joined(was, e, now)
    ensures Owner(now, x) == if Covers(e, x) then Some(e) else Owner(was, x)
  {
    hide Owner, Physical, Ordered;
    assert forall f :: f in now <==> f in multiset(now);
    assert forall f :: f in was <==> f in multiset(was);
    OwnerIs(now, x, e);
    if !Covers(e, x) {
      var o := Owner(was, x);
      if o.Some? {
        OwnerIs(was, x, o.value);
        OwnerIs(now, x, o.value);
      } else if Owner(now, x).Some? {
        OwnerIs(now, x, Owner(now, x).value);
        OwnerIs(was, x, Owner(now, x).value);
      }
    }
  }

  lemma {:induction false} FirstLeavesOwner(t: Tree, n: nat, x: nat)
    requires Sound(t) && t.root.Branch? && n <= |t.root.index|
    ensures Owner(FirstLeaves(t, n), x) == if Route(t.root.index, x) < n then TreeOwner(t, x) else None
  {
    hide Sound, Route, Owner;
    SoundIsFormed(t);
    OwnerOne(Extent(0, 0, 0, 0, 0, 0), x);
    if n > 0 {
      FirstLeavesOwner(t, n - 1, x);
      OwnerJoins(FirstLeaves(t, n - 1), LeafAt(t, n - 1), x);
      if Route(t.root.index, x) != n - 1 {
        NotRouted(t, n - 1, x);
        NoOwner(LeafAt(t, n - 1), x);
      }
    }
  }

  lemma NoOwner(es: Leaf, x: nat)
    requires LookupIn(es, x) == None
    ensures Owner(es, x) == None
  {
  }

  /** The owner found by routing is the one among all extents. */
  lemma OwnerIsLinear(t: Tree, x: nat)
    requires Sound(t)
    ensures TreeOwner(t, x) == Owner(AllExtents(t), x)
  {
    hide Owner;
    match t.root
    case LeafRoot(_) =>
    case Branch(index) => FirstLeavesOwner(t, |index|, x);
  }

  /** An extent merged into one of equal lengths, itself of equal lengths: lookups in it answer from it, those
      in the extent it continues reach further by it, all others are as before. */
  lemma MergeAnswers(t: Tree, e: Extent, room: Option<nat>, x: nat)
    requires Sound(t) && Unmapped(t, e) && e.length > 0 && Merges(t, e)
    requires FlatTree(t) && e.physicalLength == e.length
    ensures var (outcome, n) := Insert(t, e, room);
            var was := t.root.extents[MergeAt(t.root.extents, e)];
            && outcome == Done && Formed(n)
            && Lookup(n, x) == (if Covers(e, x) then Some(MappingAt(e, x))
                                else if Covers(was, x)
                                then var m := MappingAt(was, x); Some(m.(length := m.length + e.length, physicalLength := m.physicalLength + e.physicalLength))
                                else Lookup(t, x))
  {
    hide LookupIn, MergeAt, Ordered, Apart, MappingAt, Place, Route, WithEntry;
    var es := t.root.extents;
    MergedLookup(es, e, MergeAt(es, e), x);
  }

  lemma MergedLookup(es: Leaf, e: Extent, i: nat, x: nat)
    requires Ordered(es) && e.length > 0 && Apart(es, e) && i < |es| && Extends(es[i], e)
    requires es[i].physicalLength == es[i].length && e.physicalLength == e.length
    ensures LookupIn(es[i := Merged(es[i], e)], x)
         == (if Covers(e, x) then Some(MappingAt(e, x))
             else if Covers(es[i], x)
             then var m := MappingAt(es[i], x); Some(m.(length := m.length + e.length, physicalLength := m.physicalLength + e.physicalLength))
             else LookupIn(es, x))
  {
    hide Owner, Ordered, Apart;
    var now := es[i := Merged(es[i], e)];
    OwnerCovers(es, x);
    OwnerCovers(now, x);
    MergedOwner(es, e, i, x);
  }

  lemma MergedOwner(es: Leaf, e: Extent, i: nat, x: nat)
    requires Ordered(es) && e.length > 0 && Apart(es, e) && i < |es| && Extends(es[i], e)
    ensures Owner(es[i := Merged(es[i], e)], x) == if Covers(Merged(es[i], e), x) then Some(Merged(es[i], e)) else Owner(es, x)
  {
    hide Owner;
    var one := Merged(es[i], e);
    assert es == es[..i] + [es[i]] + es[i + 1..];
    assert es[i := one] == es[..i] + [one] + es[i + 1..];
    OwnerJoins(es[..i] + [es[i]], es[i + 1..], x);
    OwnerJoins(es[..i], [es[i]], x);
    OwnerJoins(es[..i] + [one], es[i + 1..], x);
    OwnerJoins(es[..i], [one], x);
    OwnerOne(es[i], x);
    OwnerOne(one, x);
    if Covers(one, x) {
      assert Ordered(es[..i]);
      OwnerIs(es[..i], x, one);
    }
  }

  // ---- runs --------------------------------------------------------------------------------------

  /** Insertions of extents of equal lengths, and holes that split no extent. */
  ghost predicate Even(t: Tree, op: Op)
    requires Formed(t)
  {
    match op
    case InsertOp(e, _) => e.physicalLength == e.length
    case TruncateOp(_) => true
    case RemoveOp(from, length) => length > 0 ==> Splitless(t, from, from + length)
  }

  ghost predicate Splitless(t: Tree, from: nat, end: nat)
    requires Formed(t)
  {
    match t.root
    case LeafRoot(es) => Holed(es, from, end) == |es|
    case Branch(index) => forall i :: 0 <= i < |index| ==> Holed(LeafAt(t, i), from, end) == |LeafAt(t, i)|
  }

  lemma OpKeepsFlat(t: Tree, op: Op)
    requires Sound(t) && FlatTree(t) && Allowed(t, op) && Even(t, op)
    ensures Formed(Apply(t, op)) && FlatTree(Apply(t, op))
  {
    hide Sound, FlatTree, Insert, Truncate, Remove;
    SoundIsNamed(t);
    match op
    case InsertOp(e, room) =>
      InsertOutcome(t, e, room);
      if Insert(t, e, room).0 == Done {
        InsertKeepsFlat(t, e, room);
      } else if Insert(t, e, room).0 == Enospc && t.root.Branch? {
        FailedSplitKeepsFlat(t, e, room);
      }
    case TruncateOp(size) =>
      TruncateRestricts(t, size);
      SoundIsFormed(Truncate(t, size));
    case RemoveOp(from, length) => HoleKeepsFlat(t, from, length);
  }

  lemma FailedSplitKeepsFlat(t: Tree, e: Extent, room: Option<nat>)
    requires Named(t) && FlatTree(t) && e.physicalLength == e.length && Fresh(t, room)
    requires t.root.Branch? && Insert(t, e, room).0 == Enospc
    ensures Formed(Insert(t, e, room).1) && FlatTree(Insert(t, e, room).1)
  {
    hide Place, Route, Flat;
    var index := t.root.index;
    var c := Route(index, e.logical);
    var n := Insert(t, e, room).1;
    var all := Place(LeafAt(t, c), e);
    PlaceJoins(LeafAt(t, c), e);
    FlatIsAll(LeafAt(t, c));
    FlatIsAll(all);
    FlatJoinIff(all[..|all| / 2], all[|all| / 2..]);
    assert all == all[..|all| / 2] + all[|all| / 2..];
    forall i | 0 <= i < |index|
      ensures LeafAt(n, i) == if i == c then all[..|all| / 2] else LeafAt(t, i)
    {
    }
  }

  lemma HoleKeepsFlat(t: Tree, from: nat, length: nat)
    requires Sound(t) && FlatTree(t) && (length > 0 ==> Splitless(t, from, from + length))
    ensures Formed(Remove(t, from, length)) && FlatTree(Remove(t, from, length))
  {
    hide Punched, Holed, Rewritten, Flat;
    if length > 0 && !Blank(t) {
      var end := from + length;
      LeavesAfter(t, es => Punched(es, from, end));
      var n := Remove(t, from, length);
      match t.root
      case LeafRoot(es) => PunchedIsFlatIff(es, from, end);
      case Branch(index) =>
        forall i | 0 <= i < |index|
          ensures Flat(LeafAt(n, i))
        {
          LeavesAreOrdered(t, i);
          PunchedIsFlatIff(LeafAt(t, i), from, end);
        }
    }
  }

  /** Over every such run `bmap` counts bytes that really follow on the device: the count is what is left of
      the extent found, and all of it is contiguous. */
  lemma RunsCountRight(states: seq<Tree>, ops: seq<Op>, n: nat, x: nat)
    requires IsRun(states, ops) && n <= |ops| && forall i :: 0 <= i < |ops| ==> Even(states[i], ops[i])
    ensures Sound(states[n]) && FlatTree(states[n])
    ensures var m := Lookup(states[n], x);
            m.Some? ==> Bmap(states[n], x) == Some((m.value.physical, m.value.length)) && Contiguous(states[n], x, m.value, m.value.length)
  {
    hide Sound, Lookup, Bmap, Contiguous, FlatTree;
    RunsStayFlat(states, ops, n);
    SoundIsFormed(states[n]);
    if Lookup(states[n], x).Some? {
      BmapCounts(states[n], x);
      FlatFor(states[n], x);
    }
  }

  lemma FlatFor(t: Tree, x: nat)
    requires Formed(t) && FlatTree(t)
    ensures Flat(LeafFor(t, x))
  {
  }

  lemma {:induction false} RunsStayFlat(states: seq<Tree>, ops: seq<Op>, n: nat)
    requires IsRun(states, ops) && n <= |ops| && forall i :: 0 <= i < |ops| ==> Even(states[i], ops[i])
    ensures Sound(states[n]) && FlatTree(states[n])
  {
    RunsAreFlat(states, ops, n, 0);
    hide Sound, Bytes;
    if n > 0 {
      RunsStayFlat(states, ops, n - 1);
      OpKeepsFlat(states[n - 1], ops[n - 1]);
    }
  }
}
