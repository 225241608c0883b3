/** A slab cache as sets of slots: which pages it has, which slots of each are free and in which
    order, and what every run of allocations and frees keeps. */
module SlabPages {
  import opened Options

  const PAGE_SIZE: nat := 4096
  const HEAD_BYTES: nat := 32
  const WORD_BYTES: nat := 8

  // ---- slots of a page ---------------------------------------------------------------------------

  /** A slot must be able to hold a link. */
  function SlotSize(objSize: nat): nat {
    if objSize < WORD_BYTES then WORD_BYTES else objSize
  }

  /** How many slots fit behind the header of a page. */
  function SlotsPerPage(size: nat): nat
    requires size > 0
  {
    (PAGE_SIZE - HEAD_BYTES) / size
  }

  function Slot(page: nat, size: nat, i: nat): nat {
    page + HEAD_BYTES + i * size
  }

  function PageOf(a: nat): nat {
    a - a % PAGE_SIZE
  }

  /** A page of the cache: aligned and not at address zero, which stands for no page. */
  predicate IsPage(p: nat) {
    p > 0 && p % PAGE_SIZE == 0
  }

  ghost predicate IsSlotOf(page: nat, size: nat, a: nat)
    requires size > 0
  {
    exists i: nat :: i < SlotsPerPage(size) && a == Slot(page, size, i)
  }

  lemma SlotInPage(page: nat, size: nat, i: nat)
    requires size > 0 && i < SlotsPerPage(size)
    ensures page + HEAD_BYTES <= Slot(page, size, i) && Slot(page, size, i) + size <= page + PAGE_SIZE
  {
    var n := SlotsPerPage(size);
    assert (i + 1) * size <= n * size <= PAGE_SIZE - HEAD_BYTES;
    assert (i + 1) * size == i * size + size;
  }

  lemma SlotsApart(page: nat, size: nat, i: nat, j: nat)
    requires size > 0 && i < j
    ensures Slot(page, size, i) + size <= Slot(page, size, j)
  {
    assert (i + 1) * size <= j * size;
    assert (i + 1) * size == i * size + size;
  }

  lemma PageOfSlot(page: nat, size: nat, a: nat)
    requires size > 0 && IsPage(page) && IsSlotOf(page, size, a)
    ensures PageOf(a) == page && a > page && page + HEAD_BYTES <= a && a + size <= page + PAGE_SIZE
  {
    var i: nat :| i < SlotsPerPage(size) && a == Slot(page, size, i);
    SlotInPage(page, size, i);
    hide Slot;
    hide SlotsPerPage;
    PageIs(page, a);
  }

  lemma PageIs(page: nat, a: nat)
    requires page % PAGE_SIZE == 0 && page <= a < page + PAGE_SIZE
    ensures PageOf(a) == page
  {
    var q := page / PAGE_SIZE;
    assert a / PAGE_SIZE == q;
  }

  /** There is room for a slot just up to a page less its header. */
  lemma HasSlotsIff(size: nat)
    requires size > 0
    ensures SlotsPerPage(size) > 0 <==> size <= PAGE_SIZE - HEAD_BYTES
  {
    if size <= PAGE_SIZE - HEAD_BYTES {
      OneFits(size);
    }
  }

  /** A page holds as many slots as fit: one more would pass its end. */
  lemma PageIsFilled(size: nat)
    requires size > 0
    ensures HEAD_BYTES + SlotsPerPage(size) * size <= PAGE_SIZE < HEAD_BYTES + (SlotsPerPage(size) + 1) * size
  {
  }

  /** A slot holds the object and a link, and no more than the larger of the two. */
  lemma SlotHolds(objSize: nat)
    ensures objSize <= SlotSize(objSize) && WORD_BYTES <= SlotSize(objSize)
    ensures SlotSize(objSize) == objSize || SlotSize(objSize) == WORD_BYTES
  {
  }

  lemma OneFits(size: nat)
    requires 0 < size <= PAGE_SIZE - HEAD_BYTES
    ensures (PAGE_SIZE - HEAD_BYTES) / size >= 1
  {
    var q := (PAGE_SIZE - HEAD_BYTES) / size;
    assert q * size <= PAGE_SIZE - HEAD_BYTES < (q + 1) * size;
  }

  // ---- size classes --------------------------------------------------------------------------------

  const SIZES: seq<nat> := [8, 16, 32, 64, 128, 256, 512, 1024, 2048, 4096]

  /** The smallest class that holds the size, or the number of classes. */
  function KmallocIndex(size: nat): (i: nat)
    ensures i <= |SIZES|
    ensures i < |SIZES| ==> SIZES[i] >= size
    ensures forall k :: 0 <= k < i ==> SIZES[k] < size
  {
    ClassFrom(size, 0)
  }

  function ClassFrom(size: nat, k: nat): (i: nat)
    requires k <= |SIZES| && forall j :: 0 <= j < k ==> SIZES[j] < size
    ensures k <= i <= |SIZES| && (i < |SIZES| ==> SIZES[i] >= size) && forall j :: 0 <= j < i ==> SIZES[j] < size
    decreases |SIZES| - k
  {
    if k < |SIZES| && SIZES[k] < size then ClassFrom(size, k + 1) else k
  }

  /** A request finds a class just up to 4096 bytes; no class wastes half of it or more, except the
      smallest; and the class found has no slot at all just for requests over 2048 bytes. */
  lemma ClassFits(size: nat)
    requires size > 0
    ensures KmallocIndex(size) < |SIZES| <==> size <= 4096
    ensures size <= 4096 ==> var s := SIZES[KmallocIndex(size)];
              s >= size && (s == 8 || s < 2 * size) && (SlotsPerPage(s) == 0 <==> size > 2048)
  {
    var i := KmallocIndex(size);
    assert SIZES[9] == 4096;
    if i < |SIZES| {
      assert i > 0 ==> SIZES[i - 1] < size;
      assert i > 0 ==> SIZES[i] == 2 * SIZES[i - 1];
      HasSlotsIff(SIZES[i]);
    }
  }

  // ---- the cache --------------------------------------------------------------------------------------

  /** Partly free pages and full pages, first in the list first, and each page's free slots in the
      order of its free list. */
  datatype Shape = Shape(partial: seq<nat>, filled: seq<nat>, frees: map<nat, seq<nat>>)

  const EMPTY: Shape := Shape([], [], map[])

  predicate NoRepeats(s: seq<nat>) {
    forall i, j :: 0 <= i < j < |s| ==> s[i] != s[j]
  }

  ghost predicate PageValid(g: Shape, size: nat, p: nat)
    requires size > 0 && p in g.frees
  {
    && IsPage(p) && NoRepeats(g.frees[p])
    && (forall i :: 0 <= i < |g.frees[p]| ==> IsSlotOf(p, size, g.frees[p][i]))
    && (p in g.partial <==> g.frees[p] != []) && (p in g.filled <==> g.frees[p] == [])
  }

  /** The invariant: a page is on the list of full pages just when none of its slots is free, each list
      names a page once, and a free list names slots of its own page once. */
  ghost predicate Valid(g: Shape, size: nat)
    requires size > 0
  {
    && NoRepeats(g.partial) && NoRepeats(g.filled)
    && (forall i :: 0 <= i < |g.partial| ==> g.partial[i] in g.frees)
    && (forall i :: 0 <= i < |g.filled| ==> g.filled[i] in g.frees)
    && (forall p :: p in g.frees ==> PageValid(g, size, p))
  }

  /** A slot of some page that is not on that page's free list. */
  ghost predicate Live(g: Shape, size: nat, a: nat)
    requires size > 0
  {
    PageOf(a) in g.frees && IsSlotOf(PageOf(a), size, a) && a !in g.frees[PageOf(a)]
  }

  // ---- operations ---------------------------------------------------------------------------------------

  function AllSlots(page: nat, size: nat, n: nat): (r: seq<nat>)
    ensures |r| == n && forall i :: 0 <= i < n ==> r[i] == Slot(page, size, i)
  {
    seq(n, i requires 0 <= i < n => Slot(page, size, i))
  }

  /** `grow` with a page from the page allocator. */
  function Grown(g: Shape, size: nat, page: nat): Shape
    requires size > 0
  {
    g.(partial := [page] + g.partial, frees := g.frees[page := AllSlots(page, size, SlotsPerPage(size))])
  }

  predicate Ready(g: Shape) {
    g.partial != [] && g.partial[0] in g.frees && g.frees[g.partial[0]] != []
  }

  function NextSlot(g: Shape): nat
    requires Ready(g)
  {
    g.frees[g.partial[0]][0]
  }

  /** `alloc` from the first partly free page; a page with no slot left moves to the full pages. */
  function Taken(g: Shape): Shape
    requires Ready(g)
  {
    var p := g.partial[0];
    var rest := g.frees[p][1..];
    var n := g.(frees := g.frees[p := rest]);
    if rest == [] then n.(partial := g.partial[1..], filled := [p] + g.filled) else n
  }

  function Without(s: seq<nat>, x: nat): seq<nat> {
    if s == [] then [] else if s[0] == x then s[1..] else [s[0]] + Without(s[1..], x)
  }

  /** `free`: a page that was full moves back to the front of the partly free ones. */
  function Returned(g: Shape, a: nat): Shape
    requires PageOf(a) in g.frees
  {
    var p := PageOf(a);
    var n := g.(frees := g.frees[p := [a] + g.frees[p]]);
    if g.frees[p] == [] then n.(partial := [p] + g.partial, filled := Without(g.filled, p)) else n
  }

  // ---- each operation keeps the invariant ----------------------------------------------------------------

  lemma AllSlotsAreSlots(page: nat, size: nat)
    requires size > 0
    ensures var r := AllSlots(page, size, SlotsPerPage(size));
            NoRepeats(r) && (forall i :: 0 <= i < |r| ==> IsSlotOf(page, size, r[i])) && (forall a :: IsSlotOf(page, size, a) ==> a in r)
  {
    hide Slot;
    hide SlotsPerPage;
    var r := AllSlots(page, size, SlotsPerPage(size));
    forall i, j | 0 <= i < j < |r|
      ensures r[i] != r[j]
    {
      SlotsApart(page, size, i, j);
    }
    forall a | IsSlotOf(page, size, a)
      ensures a in r
    {
      var i: nat :| i < SlotsPerPage(size) && a == Slot(page, size, i);
      assert r[i] == a;
    }
  }

  lemma Prepended(p: nat, s: seq<nat>)
    requires NoRepeats(s) && p !in s
    ensures NoRepeats([p] + s)
    ensures forall x :: x in [p] + s <==> x == p || x in s
  {
  }

  lemma Tailed(s: seq<nat>)
    requires NoRepeats(s) && s != []
    ensures NoRepeats(s[1..])
    ensures forall x :: x in s[1..] <==> x in s && x != s[0]
  {
    forall x | x in s && x != s[0]
      ensures x in s[1..]
    {
      var i :| 0 <= i < |s| && s[i] == x;
      assert s[1..][i - 1] == x;
    }
  }

  lemma {:induction false} Removed(s: seq<nat>, x: nat)
    requires NoRepeats(s)
    ensures NoRepeats(Without(s, x))
    ensures forall y :: y in Without(s, x) <==> y in s && y != x
  {
    if s != [] {
      Tailed(s);
      if s[0] != x {
        Removed(s[1..], x);
        Prepended(s[0], Without(s[1..], x));
        assert forall y :: y in s <==> y == s[0] || y in s[1..];
      }
    }
  }

  /** A new page adds free slots only. */
  lemma GrownKeeps(g: Shape, size: nat, page: nat)
    requires 0 < size <= PAGE_SIZE - HEAD_BYTES && Valid(g, size) && IsPage(page) && page !in g.frees
    ensures Valid(Grown(g, size, page), size) && Ready(Grown(g, size, page))
    ensures forall a :: Live(Grown(g, size, page), size, a) <==> Live(g, size, a)
  {
    hide Slot;
    hide SlotsPerPage;
    hide IsSlotOf;
    HasSlotsIff(size);
    AllSlotsAreSlots(page, size);
    var n := Grown(g, size, page);
    Prepended(page, g.partial);
    forall p | p in n.frees
      ensures PageValid(n, size, p)
    {
      assert p != page ==> PageValid(g, size, p);
    }
  }

  lemma PartialIsReady(g: Shape, size: nat)
    requires size > 0 && Valid(g, size) && g.partial != []
    ensures Ready(g) && IsPage(g.partial[0]) && NoRepeats(g.frees[g.partial[0]]) && g.partial[0] !in g.filled
    ensures IsSlotOf(g.partial[0], size, NextSlot(g)) && PageOf(NextSlot(g)) == g.partial[0]
  {
    hide Slot;
    hide IsSlotOf;
    assert PageValid(g, size, g.partial[0]) && g.partial[0] in g.partial;
    PageOfSlot(g.partial[0], size, NextSlot(g));
  }

  lemma TakenIsValid(g: Shape, size: nat)
    requires size > 0 && Valid(g, size) && g.partial != []
    ensures Ready(g) && Valid(Taken(g), size)
  {
    hide Slot;
    hide IsSlotOf;
    PartialIsReady(g, size);
    var p := g.partial[0];
    Tailed(g.frees[p]);
    Tailed(g.partial);
    var n := Taken(g);
    if g.frees[p][1..] == [] {
      Prepended(p, g.filled);
    }
    forall q | q in n.frees
      ensures PageValid(n, size, q)
    {
      assert PageValid(g, size, q);
    }
  }

  /** Allocation hands out a slot that was free, and makes live that slot and no other. */
  lemma TakenKeeps(g: Shape, size: nat)
    requires size > 0 && Valid(g, size) && g.partial != []
    ensures Ready(g) && Valid(Taken(g), size)
    ensures !Live(g, size, NextSlot(g))
    ensures forall a :: Live(Taken(g), size, a) <==> Live(g, size, a) || a == NextSlot(g)
  {
    hide Valid;
    hide IsSlotOf;
    hide PageOf;
    TakenIsValid(g, size);
    PartialIsReady(g, size);
    Tailed(g.frees[g.partial[0]]);
  }

  /** Freeing a live slot makes dead that slot and no other. */
  lemma ReturnedKeeps(g: Shape, size: nat, a: nat)
    requires size > 0 && Valid(g, size) && Live(g, size, a)
    ensures Valid(Returned(g, a), size)
    ensures forall b :: Live(Returned(g, a), size, b) <==> Live(g, size, b) && b != a
    ensures Returned(g, a).frees.Keys == g.frees.Keys
  {
    hide Slot;
    hide IsSlotOf;
    var p := PageOf(a);
    assert PageValid(g, size, p);
    var n := Returned(g, a);
    Prepended(a, g.frees[p]);
    if g.frees[p] == [] {
      Prepended(p, g.partial);
      Removed(g.filled, p);
    }
    forall q | q in n.frees
      ensures PageValid(n, size, q)
    {
      assert PageValid(g, size, q);
    }
    forall i | 0 <= i < |n.filled|
      ensures n.filled[i] in n.frees
    {
      assert n.filled[i] in n.filled;
    }
  }

  /** Freeing what was just allocated restores the cache exactly, the order of its lists included. */
  lemma FreeUndoesAlloc(g: Shape, size: nat)
    requires size > 0 && Valid(g, size) && g.partial != []
    ensures Ready(g) && PageOf(NextSlot(g)) in Taken(g).frees && Returned(Taken(g), NextSlot(g)) == g
  {
    hide Valid;
    hide IsSlotOf;
    hide PageOf;
    PartialIsReady(g, size);
    var p := g.partial[0];
    assert [NextSlot(g)] + g.frees[p][1..] == g.frees[p];
    assert [p] + g.partial[1..] == g.partial;
    assert ([p] + g.filled)[0] == p && ([p] + g.filled)[1..] == g.filled;
    assert g.frees[p := g.frees[p]] == g.frees;
  }

  // ---- live slots do not overlap, and are counted right ----------------------------------------------------

  /** Live slots lie behind the header of their page and inside it, and share no byte. */
  lemma LiveSlotsApart(g: Shape, size: nat, a: nat, b: nat)
    requires size > 0 && Valid(g, size) && Live(g, size, a) && Live(g, size, b) && a != b
    ensures PageOf(a) + HEAD_BYTES <= a && a + size <= PageOf(a) + PAGE_SIZE
    ensures a + size <= b || b + size <= a
  {
    var p, q := PageOf(a), PageOf(b);
    assert PageValid(g, size, p) && PageValid(g, size, q);
    PageOfSlot(p, size, a);
    PageOfSlot(q, size, b);
    if p == q {
      SamePageApart(p, size, a, b);
    } else {
      PagesApart(p, q);
    }
  }

  lemma PagesApart(p: nat, q: nat)
    requires IsPage(p) && IsPage(q) && p != q
    ensures p + PAGE_SIZE <= q || q + PAGE_SIZE <= p
  {
  }

  lemma SamePageApart(p: nat, size: nat, a: nat, b: nat)
    requires size > 0 && IsSlotOf(p, size, a) && IsSlotOf(p, size, b) && a != b
    ensures a + size <= b || b + size <= a
  {
    hide Slot;
    hide SlotsPerPage;
    var i: nat :| i < SlotsPerPage(size) && a == Slot(p, size, i);
    var j: nat :| j < SlotsPerPage(size) && b == Slot(p, size, j);
    if i < j {
      SlotsApart(p, size, i, j);
    } else if j < i {
      SlotsApart(p, size, j, i);
    }
  }

  /** The live slots of a page among its first `n`. */
  ghost function LiveSlots(g: Shape, size: nat, p: nat, n: nat): set<nat>
    requires size > 0 && p in g.frees
  {
    set i | 0 <= i < n && Slot(p, size, i) !in g.frees[p] :: Slot(p, size, i)
  }

  function Elements(s: seq<nat>): set<nat> {
    set x | x in s
  }

  lemma {:induction false} ElementsCount(s: seq<nat>)
    requires NoRepeats(s)
    ensures |Elements(s)| == |s|
  {
    if s != [] {
      Tailed(s);
      ElementsCount(s[1..]);
      assert Elements(s) == Elements(s[1..]) + {s[0]};
    }
  }

  /** What the page header counts as in use - all slots less the length of the free list - is the number
      of its live slots. */
  lemma InuseCountsLive(g: Shape, size: nat, p: nat)
    requires size > 0 && Valid(g, size) && p in g.frees
    ensures |LiveSlots(g, size, p, SlotsPerPage(size))| == SlotsPerPage(size) - |g.frees[p]|
    ensures forall a :: a in LiveSlots(g, size, p, SlotsPerPage(size)) <==> Live(g, size, a) && PageOf(a) == p
  {
    hide Slot;
    var n := SlotsPerPage(size);
    hide SlotsPerPage;
    var all := AllSlots(p, size, n);
    var live, free := LiveSlots(g, size, p, n), Elements(g.frees[p]);
    assert PageValid(g, size, p);
    AllSlotsAreSlots(p, size);
    ElementsCount(all);
    ElementsCount(g.frees[p]);
    var every := Elements(all);
    assert forall x :: x in free ==> x in every;
    forall x
      ensures x in live <==> x in every - free
    {
      assert x in every ==> exists i :: 0 <= i < n && all[i] == x;
      assert forall i :: 0 <= i < n ==> all[i] == Slot(p, size, i);
    }
    assert live == every - free;
    assert |every - free| == |every| - |free|;
    forall a
      ensures a in live <==> Live(g, size, a) && PageOf(a) == p
    {
      if IsSlotOf(p, size, a) {
        PageOfSlot(p, size, a);
      }
    }
  }

  // ---- runs ------------------------------------------------------------------------------------------------

  /** `room` is the page the page allocator would hand out. */
  datatype Call = AllocCall(room: Option<nat>) | FreeCall(a: nat)

  /** `alloc` after a `grow` if no page is partly free. */
  function Stocked(g: Shape, size: nat, room: Option<nat>): Shape
    requires size > 0
  {
    if g.partial == [] && room.Some? then Grown(g, size, room.value) else g
  }

  function Perform(g: Shape, size: nat, c: Call): Shape
    requires size > 0 && (c.FreeCall? ==> PageOf(c.a) in g.frees)
  {
    match c
    case AllocCall(room) => var s := Stocked(g, size, room); if Ready(s) then Taken(s) else s
    case FreeCall(a) => Returned(g, a)
  }

  /** The page offered is aligned and not yet in use; what is freed is live. */
  ghost predicate Allowed(g: Shape, size: nat, c: Call)
    requires size > 0
  {
    match c
    case AllocCall(room) => room.Some? ==> IsPage(room.value) && room.value !in g.frees
    case FreeCall(a) => Live(g, size, a)
  }

  ghost predicate IsRun(size: nat, states: seq<Shape>, calls: seq<Call>)
    requires size > 0
  {
    && |states| == |calls| + 1 && states[0] == EMPTY
    && (forall i :: 0 <= i < |calls| ==> Allowed(states[i], size, calls[i]) && states[i + 1] == Perform(states[i], size, calls[i]))
  }

  /** What the callers hold: everything handed out and not given back. */
  ghost function Held(size: nat, states: seq<Shape>, calls: seq<Call>, n: nat): set<nat>
    requires size > 0 && |states| == |calls| + 1 && n <= |calls|
  {
    if n == 0 then {}
    else
      var before := Held(size, states, calls, n - 1);
      match calls[n - 1]
      case AllocCall(room) =>
        var s := Stocked(states[n - 1], size, room);
        if Ready(s) then before + {NextSlot(s)} else before
      case FreeCall(a) => before - {a}
  }

  lemma StockedKeeps(g: Shape, size: nat, room: Option<nat>)
    requires 0 < size <= PAGE_SIZE - HEAD_BYTES && Valid(g, size) && Allowed(g, size, AllocCall(room))
    ensures var s := Stocked(g, size, room);
            && Valid(s, size) && (Ready(s) <==> g.partial != [] || room.Some?)
            && (forall a :: Live(s, size, a) <==> Live(g, size, a))
  {
    hide Live;
    if g.partial == [] && room.Some? {
      GrownKeeps(g, size, room.value);
    } else if g.partial != [] {
      TakenIsValid(g, size);
    }
  }

  /** A page with a free slot. */
  ghost predicate HasFree(g: Shape) {
    exists p :: p in g.frees && g.frees[p] != []
  }

  /** An allocation fails just when no page has a free slot and there is no new page; a new page is taken just
      when no page has a free slot, and no page is ever given back. */
  lemma AllocTakesPageIff(g: Shape, size: nat, room: Option<nat>)
    requires 0 < size <= PAGE_SIZE - HEAD_BYTES && Valid(g, size) && Allowed(g, size, AllocCall(room))
    ensures var n := Perform(g, size, AllocCall(room));
            && n.frees.Keys == g.frees.Keys + (if !HasFree(g) && room.Some? then {room.value} else {})
            && (n == g <==> !HasFree(g) && room == None)
  {
    hide Slot, SlotsPerPage, IsSlotOf;
    StockedKeeps(g, size, room);
    PartialHasFree(g, size);
    var s := Stocked(g, size, room);
    if Ready(s) {
      var p := s.partial[0];
      assert Taken(s).frees[p] == s.frees[p][1..];
      if s == g {
        assert |Taken(s).frees[p]| != |g.frees[p]|;
      }
    }
  }

  lemma PartialHasFree(g: Shape, size: nat)
    requires size > 0 && Valid(g, size)
    ensures HasFree(g) <==> g.partial != []
  {
    hide Slot, SlotsPerPage, IsSlotOf;
    if g.partial != [] {
      assert g.partial[0] in g.partial && PageValid(g, size, g.partial[0]);
    }
    if HasFree(g) {
      var p :| p in g.frees && g.frees[p] != [];
      assert PageValid(g, size, p);
    }
  }

  /** Over every run the cache stays valid and its live slots are exactly what the callers hold: no slot
      is handed out while somebody holds it. */
  lemma {:induction false} RunsHoldLive(size: nat, states: seq<Shape>, calls: seq<Call>, n: nat)
    requires 0 < size <= PAGE_SIZE - HEAD_BYTES && IsRun(size, states, calls) && n <= |calls|
    ensures Valid(states[n], size)
    ensures forall a :: a in Held(size, states, calls, n) <==> Live(states[n], size, a)
  {
    hide Valid;
    hide Live;
    hide Taken;
    hide Returned;
    if n == 0 {
      EmptyIsValid(size);
    } else {
      RunsHoldLive(size, states, calls, n - 1);
      var g := states[n - 1];
      match calls[n - 1]
      case AllocCall(room) =>
        StockedKeeps(g, size, room);
        var s := Stocked(g, size, room);
        if Ready(s) {
          TakenKeeps(s, size);
        }
      case FreeCall(a) => ReturnedKeeps(g, size, a);
    }
  }

  lemma EmptyIsValid(size: nat)
    requires size > 0
    ensures Valid(EMPTY, size) && forall a :: !Live(EMPTY, size, a)
  {
  }
}
