/** The slab cache in memory: page headers on two singly linked lists, and free lists threaded through
    the first word of each free slot. */
module SlabCaches {
  import opened Options
  import opened SlabPages

  datatype Head = Head(free: nat, next: nat, inuse: nat, total: nat)

  /** The list heads, the page headers by page address, and the first words of the slots. */
  datatype Mem = Mem(pages: nat, full: nat, heads: map<nat, Head>, words: map<nat, nat>)

  function At(list: seq<nat>, i: nat): nat {
    if i < |list| then list[i] else 0
  }

  /** The headers link the pages of the list in order, and the last one to nothing. */
  ghost predicate PageChain(heads: map<nat, Head>, from: nat, list: seq<nat>) {
    && from == At(list, 0)
    && forall i :: 0 <= i < |list| ==> list[i] in heads && heads[list[i]].next == At(list, i + 1)
  }

  /** The first words of the slots link them in order, and the last one to nothing. */
  ghost predicate SlotChain(words: map<nat, nat>, from: nat, list: seq<nat>) {
    && from == At(list, 0)
    && forall i :: 0 <= i < |list| ==> list[i] in words && words[list[i]] == At(list, i + 1)
  }

  ghost predicate HeadHolds(m: Mem, g: Shape, size: nat, p: nat)
    requires size > 0 && p in g.frees && p in m.heads
  {
    && SlotChain(m.words, m.heads[p].free, g.frees[p])
    && m.heads[p].total == SlotsPerPage(size) && m.heads[p].inuse + |g.frees[p]| == m.heads[p].total
  }

  /** Memory represents the shape. */
  ghost predicate Holds(m: Mem, g: Shape, size: nat)
    requires size > 0
  {
    && Valid(g, size) && m.heads.Keys == g.frees.Keys
    && PageChain(m.heads, m.pages, g.partial) && PageChain(m.heads, m.full, g.filled)
    && forall p :: p in g.frees ==> HeadHolds(m, g, size, p)
  }

  // ---- chains ------------------------------------------------------------------------------------

  lemma PageTail(heads: map<nat, Head>, from: nat, list: seq<nat>)
    requires PageChain(heads, from, list) && list != []
    ensures from in heads && PageChain(heads, heads[from].next, list[1..])
  {
  }

  lemma PageFrame(heads: map<nat, Head>, now: map<nat, Head>, from: nat, list: seq<nat>)
    requires PageChain(heads, from, list)
    requires forall p :: p in list ==> p in now && (p in heads ==> now[p].next == heads[p].next)
    ensures PageChain(now, from, list)
  {
    assert forall i :: 0 <= i < |list| ==> list[i] in list;
  }

  lemma PagePush(heads: map<nat, Head>, from: nat, list: seq<nat>, p: nat)
    requires PageChain(heads, from, list) && p in heads && heads[p].next == from
    ensures PageChain(heads, p, [p] + list)
  {
    var s := [p] + list;
    forall i | 0 <= i < |s|
      ensures s[i] in heads && heads[s[i]].next == At(s, i + 1)
    {
      assert i > 0 ==> s[i] == list[i - 1] && At(s, i + 1) == At(list, i);
    }
  }

  lemma SlotTail(words: map<nat, nat>, from: nat, list: seq<nat>)
    requires SlotChain(words, from, list) && list != []
    ensures from in words && SlotChain(words, words[from], list[1..])
  {
  }

  lemma SlotFrame(words: map<nat, nat>, now: map<nat, nat>, from: nat, list: seq<nat>)
    requires SlotChain(words, from, list)
    requires forall a :: a in list ==> a in now && (a in words ==> now[a] == words[a])
    ensures SlotChain(now, from, list)
  {
    assert forall i :: 0 <= i < |list| ==> list[i] in list;
  }

  lemma SlotPush(words: map<nat, nat>, from: nat, list: seq<nat>, a: nat)
    requires SlotChain(words, from, list) && a in words && words[a] == from
    ensures SlotChain(words, a, [a] + list)
  {
    var s := [a] + list;
    forall i | 0 <= i < |s|
      ensures s[i] in words && words[s[i]] == At(s, i + 1)
    {
      assert i > 0 ==> s[i] == list[i - 1] && At(s, i + 1) == At(list, i);
    }
  }

  lemma HeldHead(m: Mem, g: Shape, size: nat, p: nat)
    requires size > 0 && Holds(m, g, size) && p in g.frees
    ensures p in m.heads && HeadHolds(m, g, size, p)
  {
  }

  // ---- allocation ------------------------------------------------------------------------------

  function TakeMem(m: Mem): Mem
    requires m.pages in m.heads && m.heads[m.pages].free in m.words
  {
    var h := m.heads[m.pages];
    var used := h.(free := m.words[h.free], inuse := h.inuse + 1);
    if used.inuse >= used.total
    then Mem(h.next, m.pages, m.heads[m.pages := used.(next := m.full)], m.words)
    else m.(heads := m.heads[m.pages := used])
  }

  lemma TakeReady(m: Mem, g: Shape, size: nat)
    requires size > 0 && Holds(m, g, size) && m.pages != 0
    ensures g.partial != [] && Ready(g) && m.pages == g.partial[0] && m.pages in m.heads
    ensures m.heads[m.pages].free in m.words && m.heads[m.pages].free == NextSlot(g)
    ensures m.pages !in g.filled && m.pages !in g.partial[1..]
    ensures m.heads[m.pages].inuse + 1 >= m.heads[m.pages].total <==> g.frees[m.pages][1..] == []
  {
    hide Slot;
    hide IsSlotOf;
    PartialIsReady(g, size);
    HeldHead(m, g, size, m.pages);
  }

  lemma TakeHeads(m: Mem, g: Shape, size: nat, q: nat)
    requires size > 0 && Holds(m, g, size) && m.pages != 0 && q in g.frees
    ensures m.pages in m.heads && m.heads[m.pages].free in m.words && Ready(g)
    ensures q in TakeMem(m).heads && HeadHolds(TakeMem(m), Taken(g), size, q)
  {
    hide Valid;
    hide SlotsPerPage;
    TakeReady(m, g, size);
    HeldHead(m, g, size, q);
    hide Holds;
    if q == m.pages {
      SlotTail(m.words, m.heads[q].free, g.frees[q]);
    }
  }

  lemma TakeChains(m: Mem, g: Shape, size: nat)
    requires size > 0 && Holds(m, g, size) && m.pages != 0
    ensures m.pages in m.heads && m.heads[m.pages].free in m.words && Ready(g)
    ensures var n, t := TakeMem(m), Taken(g); PageChain(n.heads, n.pages, t.partial) && PageChain(n.heads, n.full, t.filled)
  {
    hide Valid;
    hide PageChain;
    hide HeadHolds;
    TakeReady(m, g, size);
    var n, p := TakeMem(m), m.pages;
    MembersKnown(m, g, size);
    if g.frees[p][1..] == [] {
      PageTail(m.heads, p, g.partial);
      PageFrame(m.heads, n.heads, n.pages, g.partial[1..]);
      PageFrame(m.heads, n.heads, m.full, g.filled);
      PagePush(n.heads, m.full, g.filled, p);
    } else {
      PageFrame(m.heads, n.heads, m.pages, g.partial);
      PageFrame(m.heads, n.heads, m.full, g.filled);
    }
  }

  lemma MembersKnown(m: Mem, g: Shape, size: nat)
    requires size > 0 && Holds(m, g, size)
    ensures forall p :: p in g.partial || p in g.filled ==> p in m.heads
    ensures g.partial != [] ==> forall p :: p in g.partial[1..] ==> p in m.heads
  {
  }

  /** Allocation in memory does what it does to the shape. */
  lemma TakeStep(m: Mem, g: Shape, size: nat)
    requires size > 0 && Holds(m, g, size) && m.pages != 0
    ensures m.pages in m.heads && m.heads[m.pages].free in m.words && Ready(g) && Holds(TakeMem(m), Taken(g), size)
  {
    hide HeadHolds;
    hide PageChain;
    TakeReady(m, g, size);
    TakenIsValid(g, size);
    TakeChains(m, g, size);
    forall q | q in g.frees
      ensures q in TakeMem(m).heads && HeadHolds(TakeMem(m), Taken(g), size, q)
    {
      TakeHeads(m, g, size, q);
    }
    hide Valid;
  }

  // ---- unlinking -----------------------------------------------------------------------------------

  /** The position of a page on a list, or the length of the list. */
  function Where(list: seq<nat>, p: nat): (k: nat)
    ensures k <= |list| && (k < |list| ==> list[k] == p) && forall i :: 0 <= i < k ==> list[i] != p
  {
    if list == [] || list[0] == p then 0 else 1 + Where(list[1..], p)
  }

  /** The page at position `k` taken out of the list of full pages. */
  function Unlinked(m: Mem, list: seq<nat>, k: nat): Mem
    requires k < |list| && list[k] in m.heads && (k > 0 ==> list[k - 1] in m.heads)
  {
    var after := m.heads[list[k]].next;
    if k == 0 then m.(full := after)
    else m.(heads := m.heads[list[k - 1] := m.heads[list[k - 1]].(next := after)])
  }

  lemma {:induction false} WithoutIs(list: seq<nat>, k: nat)
    requires k < |list| && forall i :: 0 <= i < k ==> list[i] != list[k]
    ensures Without(list, list[k]) == list[..k] + list[k + 1..]
  {
    if k > 0 {
      WithoutIs(list[1..], k - 1);
      assert list[1..][..k - 1] == list[1..k];
      assert [list[0]] + list[1..k] == list[..k];
    }
  }

  lemma UnlinkedChain(m: Mem, list: seq<nat>, k: nat)
    requires PageChain(m.heads, m.full, list) && NoRepeats(list) && k < |list|
    ensures list[k] in m.heads && (k > 0 ==> list[k - 1] in m.heads)
    ensures var n := Unlinked(m, list, k); PageChain(n.heads, n.full, Without(list, list[k]))
  {
    WithoutIs(list, k);
    var n := Unlinked(m, list, k);
    var r := list[..k] + list[k + 1..];
    forall i | 0 <= i < |r|
      ensures r[i] in n.heads && n.heads[r[i]].next == At(r, i + 1)
    {
      assert r[i] == list[if i < k then i else i + 1];
      assert i + 1 < |r| ==> r[i + 1] == list[if i + 1 < k then i + 1 else i + 2];
    }
  }

  // ---- freeing ---------------------------------------------------------------------------------------

  /** The slot goes to the front of its page's free list. */
  function DropMem(m: Mem, a: nat): Mem
    requires PageOf(a) in m.heads && m.heads[PageOf(a)].inuse > 0
  {
    var p := PageOf(a);
    var h := m.heads[p];
    m.(heads := m.heads[p := h.(free := a, inuse := h.inuse - 1)], words := m.words[a := h.free])
  }

  /** A page goes to the front of the partly free pages. */
  function PutFirst(m: Mem, p: nat): Mem
    requires p in m.heads
  {
    m.(pages := p, heads := m.heads[p := m.heads[p].(next := m.pages)])
  }

  lemma DropReady(m: Mem, g: Shape, size: nat, a: nat)
    requires size > 0 && Holds(m, g, size) && Live(g, size, a)
    ensures PageOf(a) in m.heads && m.heads[PageOf(a)].inuse > 0
    ensures m.heads[PageOf(a)].inuse >= m.heads[PageOf(a)].total <==> g.frees[PageOf(a)] == []
    ensures g.frees[PageOf(a)] == [] <==> PageOf(a) in g.filled
    ensures forall p :: p in g.partial ==> p !in g.filled
    ensures forall q :: q in g.frees && q != PageOf(a) ==> a !in g.frees[q]
  {
    hide Slot;
    var p := PageOf(a);
    HeldHead(m, g, size, p);
    InuseCountsLive(g, size, p);
    assert a in LiveSlots(g, size, p, SlotsPerPage(size));
    assert |LiveSlots(g, size, p, SlotsPerPage(size))| > 0;
    FreesStayHome(g, size, a);
    assert PageValid(g, size, p);
    forall q | q in g.partial
      ensures q !in g.filled
    {
      assert q in g.frees && PageValid(g, size, q);
    }
  }

  lemma FreesStayHome(g: Shape, size: nat, a: nat)
    requires size > 0 && Valid(g, size)
    ensures forall q :: q in g.frees && q != PageOf(a) ==> a !in g.frees[q]
  {
    hide Slot;
    hide IsSlotOf;
    forall q | q in g.frees && a in g.frees[q]
      ensures q == PageOf(a)
    {
      assert PageValid(g, size, q);
      PageOfSlot(q, size, a);
    }
  }

  lemma SlotDropped(words: map<nat, nat>, from: nat, list: seq<nat>, a: nat, link: nat)
    requires SlotChain(words, from, list) && a !in list
    ensures SlotChain(words[a := link], from, list)
    ensures link == from ==> SlotChain(words[a := link], a, [a] + list)
  {
    SlotFrame(words, words[a := link], from, list);
    if link == from {
      SlotPush(words[a := link], from, list, a);
    }
  }

  lemma DropHeads(m: Mem, g: Shape, size: nat, a: nat, q: nat)
    requires size > 0 && Holds(m, g, size) && Live(g, size, a) && q in g.frees
    ensures PageOf(a) in m.heads && m.heads[PageOf(a)].inuse > 0
    ensures q in DropMem(m, a).heads && HeadHolds(DropMem(m, a), Returned(g, a), size, q)
  {
    hide SlotsPerPage;
    hide SlotChain;
    DropReady(m, g, size, a);
    HeldHead(m, g, size, q);
    LiveIsNotFree(g, size, a);
    hide Live;
    hide PageOf;
    hide Valid;
    hide Holds;
    SlotDropped(m.words, m.heads[q].free, g.frees[q], a, m.heads[PageOf(a)].free);
  }

  lemma LiveIsNotFree(g: Shape, size: nat, a: nat)
    requires size > 0 && Live(g, size, a)
    ensures PageOf(a) in g.frees && a !in g.frees[PageOf(a)]
  {
  }

  /** Freeing in memory; `filled` is the list of full pages, on which a page that was full is found. */
  function ReturnMem(m: Mem, filled: seq<nat>, a: nat): Mem
    requires PageOf(a) in m.heads && m.heads[PageOf(a)].inuse > 0
    requires forall p :: p in filled ==> p in m.heads
  {
    var p := PageOf(a);
    var n := DropMem(m, a);
    var k := Where(filled, p);
    if m.heads[p].inuse < m.heads[p].total then n
    else if k < |filled| then PutFirst(Unlinked(n, filled, k), p)
    else PutFirst(n, p)
  }

  /** The headers agree but for their links. */
  ghost predicate SameCounts(m: Mem, n: Mem) {
    && n.words == m.words && n.heads.Keys == m.heads.Keys
    && forall q :: q in m.heads ==> n.heads[q].(next := m.heads[q].next) == m.heads[q]
  }

  lemma CountsKept(m: Mem, n: Mem, g: Shape, size: nat, q: nat)
    requires size > 0 && q in g.frees && q in m.heads && SameCounts(m, n) && HeadHolds(m, g, size, q)
    ensures q in n.heads && HeadHolds(n, g, size, q)
  {
    assert n.heads[q].(next := m.heads[q].next) == m.heads[q];
  }

  lemma ReturnCounts(m: Mem, filled: seq<nat>, a: nat)
    requires PageOf(a) in m.heads && m.heads[PageOf(a)].inuse > 0
    requires forall p :: p in filled ==> p in m.heads
    ensures SameCounts(DropMem(m, a), ReturnMem(m, filled, a))
  {
    hide PageOf;
  }

  /** The chains after a page that was full has been moved. */
  lemma MovedChains(n: Mem, partial: seq<nat>, filled: seq<nat>, p: nat)
    requires PageChain(n.heads, n.pages, partial) && PageChain(n.heads, n.full, filled) && NoRepeats(filled)
    requires p in filled && forall q :: q in partial ==> q !in filled
    ensures forall q :: q in filled ==> q in n.heads
    ensures var r := PutFirst(Unlinked(n, filled, Where(filled, p)), p);
            PageChain(r.heads, r.pages, [p] + partial) && PageChain(r.heads, r.full, Without(filled, p))
  {
    var k := Where(filled, p);
    MembersLinked(n.heads, n.full, filled);
    MembersLinked(n.heads, n.pages, partial);
    UnlinkedChain(n, filled, k);
    Removed(filled, p);
    hide PageChain;
    hide NoRepeats;
    var u := Unlinked(n, filled, k);
    var r := PutFirst(u, p);
    PageFrame(n.heads, r.heads, n.pages, partial);
    MembersLinked(u.heads, u.full, Without(filled, p));
    PageFrame(u.heads, r.heads, u.full, Without(filled, p));
    PagePush(r.heads, n.pages, partial, p);
  }

  lemma MembersLinked(heads: map<nat, Head>, from: nat, list: seq<nat>)
    requires PageChain(heads, from, list)
    ensures forall q :: q in list ==> q in heads
  {
  }

  lemma ReturnHeads(m: Mem, g: Shape, size: nat, a: nat, q: nat)
    requires size > 0 && Holds(m, g, size) && Live(g, size, a) && q in g.frees
    ensures PageOf(a) in m.heads && m.heads[PageOf(a)].inuse > 0 && (forall p :: p in g.filled ==> p in m.heads)
    ensures q in ReturnMem(m, g.filled, a).heads && HeadHolds(ReturnMem(m, g.filled, a), Returned(g, a), size, q)
  {
    hide HeadHolds;
    hide PageChain;
    hide Live;
    DropReady(m, g, size, a);
    MembersKnown(m, g, size);
    DropHeads(m, g, size, a, q);
    hide Holds;
    hide Returned;
    ReturnCounts(m, g.filled, a);
    CountsKept(DropMem(m, a), ReturnMem(m, g.filled, a), Returned(g, a), size, q);
  }

  lemma ReturnChains(m: Mem, g: Shape, size: nat, a: nat)
    requires size > 0 && Holds(m, g, size) && Live(g, size, a)
    ensures PageOf(a) in m.heads && m.heads[PageOf(a)].inuse > 0 && (forall p :: p in g.filled ==> p in m.heads)
    ensures PageOf(a) in g.frees
    ensures var r, t := ReturnMem(m, g.filled, a), Returned(g, a);
            PageChain(r.heads, r.pages, t.partial) && PageChain(r.heads, r.full, t.filled)
  {
    hide HeadHolds;
    hide PageChain;
    DropReady(m, g, size, a);
    MembersKnown(m, g, size);
    LiveIsNotFree(g, size, a);
    hide Live;
    hide PageOf;
    var n := DropMem(m, a);
    PageFrame(m.heads, n.heads, n.pages, g.partial);
    PageFrame(m.heads, n.heads, n.full, g.filled);
    if g.frees[PageOf(a)] == [] {
      MovedChains(n, g.partial, g.filled, PageOf(a));
    }
  }

  /** Freeing in memory does what it does to the shape. */
  lemma ReturnStep(m: Mem, g: Shape, size: nat, a: nat)
    requires size > 0 && Holds(m, g, size) && Live(g, size, a)
    ensures PageOf(a) in m.heads && m.heads[PageOf(a)].inuse > 0 && (forall p :: p in g.filled ==> p in m.heads)
    ensures PageOf(a) in g.frees && Holds(ReturnMem(m, g.filled, a), Returned(g, a), size)
  {
    hide HeadHolds;
    hide PageChain;
    hide Live;
    hide PageOf;
    ReturnChains(m, g, size, a);
    ReturnedKeeps(g, size, a);
    forall q | q in g.frees
      ensures q in ReturnMem(m, g.filled, a).heads && HeadHolds(ReturnMem(m, g.filled, a), Returned(g, a), size, q)
    {
      ReturnHeads(m, g, size, a, q);
    }
    ReturnCounts(m, g.filled, a);
    hide Valid;
  }

  // ---- growing -----------------------------------------------------------------------------------------

  /** The first words after `n` slots of a new page have been threaded. */
  function Threaded(words: map<nat, nat>, page: nat, size: nat, n: nat): map<nat, nat> {
    if n == 0 then words
    else
      var w := Threaded(words, page, size, n - 1);
      var linked := if n == 1 then w else w[Slot(page, size, n - 2) := Slot(page, size, n - 1)];
      linked[Slot(page, size, n - 1) := 0]
  }

  lemma {:induction false} ThreadedSpells(words: map<nat, nat>, page: nat, size: nat, n: nat)
    requires size > 0
    ensures var w := Threaded(words, page, size, n);
            && (forall i :: 0 <= i < n ==> Slot(page, size, i) in w)
            && (forall i :: 0 <= i < n - 1 ==> w[Slot(page, size, i)] == Slot(page, size, i + 1))
            && (n > 0 ==> w[Slot(page, size, n - 1)] == 0)
            && (forall a :: a in words && (forall i :: 0 <= i < n ==> a != Slot(page, size, i)) ==> a in w && w[a] == words[a])
  {
    hide Slot;
    if n > 0 {
      ThreadedSpells(words, page, size, n - 1);
      forall i, j | 0 <= i < j < n
        ensures Slot(page, size, i) != Slot(page, size, j)
      {
        SlotsApart(page, size, i, j);
      }
    }
  }

  function GrowMem(m: Mem, size: nat, page: nat): Mem
    requires size > 0
  {
    var n := SlotsPerPage(size);
    Mem(page, m.full, m.heads[page := Head(if n > 0 then Slot(page, size, 0) else 0, m.pages, 0, n)],
        Threaded(m.words, page, size, n))
  }

  lemma NewSlotChain(words: map<nat, nat>, page: nat, size: nat, n: nat)
    requires size > 0 && n > 0
    ensures SlotChain(Threaded(words, page, size, n), Slot(page, size, 0), AllSlots(page, size, n))
  {
    hide Slot;
    hide Threaded;
    ThreadedSpells(words, page, size, n);
    var list, w := AllSlots(page, size, n), Threaded(words, page, size, n);
    forall i | 0 <= i < |list|
      ensures list[i] in w && w[list[i]] == At(list, i + 1)
    {
      assert list[i] == Slot(page, size, i);
      assert i + 1 < n ==> list[i + 1] == Slot(page, size, i + 1);
    }
  }

  lemma OldSlotChain(words: map<nat, nat>, page: nat, size: nat, n: nat, p: nat, from: nat, list: seq<nat>)
    requires size > 0 && n <= SlotsPerPage(size) && IsPage(page) && IsPage(p) && p != page
    requires SlotChain(words, from, list) && forall i :: 0 <= i < |list| ==> IsSlotOf(p, size, list[i])
    ensures SlotChain(Threaded(words, page, size, n), from, list)
  {
    hide Threaded;
    ThreadedSpells(words, page, size, n);
    forall a | a in list
      ensures a in words && forall i :: 0 <= i < n ==> a != Slot(page, size, i)
    {
      PageOfSlot(p, size, a);
      forall i | 0 <= i < n
        ensures a != Slot(page, size, i)
      {
        SlotInPage(page, size, i);
        assert IsSlotOf(page, size, Slot(page, size, i));
        PageOfSlot(page, size, Slot(page, size, i));
      }
    }
    hide Slot;
    SlotFrame(words, Threaded(words, page, size, n), from, list);
  }

  lemma GrowStep(m: Mem, g: Shape, size: nat, page: nat)
    requires 0 < size <= PAGE_SIZE - HEAD_BYTES && Holds(m, g, size) && IsPage(page) && page !in g.frees
    ensures Holds(GrowMem(m, size, page), Grown(g, size, page), size)
  {
    hide Threaded;
    hide Slot;
    hide PageChain;
    hide SlotChain;
    HasSlotsIff(size);
    GrownKeeps(g, size, page);
    var n, t := GrowMem(m, size, page), Grown(g, size, page);
    NewSlotChain(m.words, page, size, SlotsPerPage(size));
    forall p | p in g.frees
      ensures HeadHolds(n, t, size, p)
    {
      HeldHead(m, g, size, p);
      assert PageValid(g, size, p);
      OldSlotChain(m.words, page, size, SlotsPerPage(size), p, m.heads[p].free, g.frees[p]);
    }
    assert HeadHolds(n, t, size, page);
    MembersKnown(m, g, size);
    PageFrame(m.heads, n.heads, m.pages, g.partial);
    PageFrame(m.heads, n.heads, m.full, g.filled);
    PagePush(n.heads, m.pages, g.partial, page);
    hide Valid;
  }

  // ---- writes by the holder of a slot ---------------------------------------------------------------------

  /** Whoever holds a slot may write into it: its first word is no link. */
  lemma UserWriteStep(m: Mem, g: Shape, size: nat, a: nat, value: nat)
    requires size > 0 && Holds(m, g, size) && Live(g, size, a)
    ensures Holds(m.(words := m.words[a := value]), g, size)
  {
    hide SlotChain;
    LiveIsNotFree(g, size, a);
    FreesStayHome(g, size, a);
    hide Live;
    var n := m.(words := m.words[a := value]);
    forall p | p in g.frees
      ensures HeadHolds(n, g, size, p)
    {
      HeldHead(m, g, size, p);
      SlotDropped(m.words, m.heads[p].free, g.frees[p], a, value);
    }
    hide Valid;
  }

  // ---- the cache object --------------------------------------------------------------------------------------

  class SlabCache {
    const objSize: nat
    var pages: nat
    var fullPages: nat
    var heads: map<nat, Head>
    var words: map<nat, nat>
    ghost var shape: Shape

    ghost function Memory(): Mem
      reads this
    {
      Mem(pages, fullPages, heads, words)
    }

    ghost predicate Valid()
      reads this
    {
      SlotSize(objSize) <= PAGE_SIZE - HEAD_BYTES && Holds(Memory(), shape, SlotSize(objSize))
    }

    constructor (objSize: nat)
      requires SlotSize(objSize) <= PAGE_SIZE - HEAD_BYTES
      ensures Valid() && shape == EMPTY && this.objSize == objSize
    {
      this.objSize := objSize;
      pages, fullPages, heads, words, shape := 0, 0, map[], map[], EMPTY;
    }

    /** Threads the slots of a new page, if there is one. */
    method Grow(room: Option<nat>) returns (ok: bool)
      requires Valid() && (room.Some? ==> IsPage(room.value) && room.value !in shape.frees)
      modifies this
      ensures Valid() && ok == room.Some?
      ensures shape == if ok then Grown(old(shape), SlotSize(objSize), room.value) else old(shape)
    {
      if room == None {
        return false;
      }
      GrowStep(Memory(), shape, SlotSize(objSize), room.value);
      ghost var g := Grown(shape, SlotSize(objSize), room.value);
      hide Holds;
      AddPage(room.value);
      shape := g;
      ok := true;
    }

    method AddPage(page: nat)
      requires SlotSize(objSize) > 0
      modifies this`pages, this`heads, this`words
      ensures Memory() == GrowMem(old(Memory()), SlotSize(objSize), page)
    {
      hide Slot;
      hide Threaded;
      var size := if objSize < WORD_BYTES then WORD_BYTES else objSize;
      var avail := (PAGE_SIZE - HEAD_BYTES) / size;
      ghost var was := words;
      var first, prev, i := 0, 0, 0;
      ThreadedSteps(was, page, size, 0);
      while i < avail
        invariant 0 <= i <= avail && words == Threaded(was, page, size, i)
        invariant i > 0 ==> first == Slot(page, size, 0) && prev == Slot(page, size, i - 1)
        invariant i == 0 ==> first == 0
        modifies this`words
      {
        ThreadedSteps(was, page, size, i + 1);
        SlotIs(page, size, i);
        var slot := page + HEAD_BYTES + i * size;
        if i == 0 {
          first := slot;
        } else {
          words := words[prev := slot];
        }
        words := words[slot := 0];
        prev := slot;
        i := i + 1;
      }
      heads := heads[page := Head(first, pages, 0, avail)];
      pages := page;
    }

    /** Takes the first free slot of the first partly free page, growing the cache if there is none. */
    method Alloc(room: Option<nat>) returns (slot: Option<nat>)
      requires Valid() && (room.Some? ==> IsPage(room.value) && room.value !in shape.frees)
      modifies this
      ensures Valid()
      ensures var s := Stocked(old(shape), SlotSize(objSize), room);
              slot == (if Ready(s) then Some(NextSlot(s)) else None) && shape == Perform(old(shape), SlotSize(objSize), AllocCall(room))
    {
      EmptyChain(Memory(), shape, SlotSize(objSize));
      if pages == 0 {
        var grown := Grow(room);
        if !grown {
          return None;
        }
      }
      EmptyChain(Memory(), shape, SlotSize(objSize));
      var taken := TakeFirst();
      slot := Some(taken);
    }

    method TakeFirst() returns (slot: nat)
      requires Valid() && pages != 0
      modifies this
      ensures Valid() && Ready(old(shape)) && slot == NextSlot(old(shape)) && shape == Taken(old(shape))
    {
      TakeReady(Memory(), shape, SlotSize(objSize));
      TakeStep(Memory(), shape, SlotSize(objSize));
      hide Holds;
      ghost var g := Taken(shape);
      slot := Pop();
      shape := g;
    }

    method Pop() returns (slot: nat)
      requires pages in heads && heads[pages].free in words
      modifies this`pages, this`fullPages, this`heads
      ensures Memory() == TakeMem(old(Memory())) && slot == old(heads[pages].free)
    {
      var head := pages;
      slot := heads[head].free;
      heads := heads[head := heads[head].(free := words[slot])];
      heads := heads[head := heads[head].(inuse := heads[head].inuse + 1)];
      if heads[head].inuse >= heads[head].total {
        pages := heads[head].next;
        heads := heads[head := heads[head].(next := fullPages)];
        fullPages := head;
      }
    }

    /** Puts a slot back on its page's free list; a page that was full goes back to the partly free ones. */
    method Free(a: nat)
      requires Valid() && Live(shape, SlotSize(objSize), a)
      modifies this
      ensures Valid() && PageOf(a) in old(shape).frees && shape == Returned(old(shape), a)
    {
      hide Holds, HeadHolds, PageChain, SlotChain, DropMem, ReturnMem, Returned;
      hide SlabPages.Valid, PageValid, Live, IsSlotOf, PageOf, NoRepeats, SlotsPerPage;
      FilledChain(Memory(), shape, SlotSize(objSize), a);
      ReturnStep(Memory(), shape, SlotSize(objSize), a);
      ghost var g := Returned(shape, a);
      PutBack(a, shape.filled);
      shape := g;
    }

    method PutBack(a: nat, ghost filled: seq<nat>)
      requires PageOf(a) in heads && heads[PageOf(a)].inuse > 0
      requires PageChain(DropMem(Memory(), a).heads, fullPages, filled) && 0 !in filled && NoRepeats(filled)
      modifies this`pages, this`fullPages, this`heads, this`words
      ensures forall p :: p in filled ==> p in old(heads)
      ensures Memory() == ReturnMem(old(Memory()), filled, a)
    {
      hide PageChain;
      ghost var m := Memory();
      MembersLinked(DropMem(m, a).heads, fullPages, filled);
      var head := a - a % PAGE_SIZE;
      words := words[a := heads[head].free];
      heads := heads[head := heads[head].(free := a)];
      heads := heads[head := heads[head].(inuse := heads[head].inuse - 1)];
      assert Memory() == DropMem(m, a);
      if heads[head].inuse + 1 >= heads[head].total {
        UnlinkFull(head, filled);
        heads := heads[head := heads[head].(next := pages)];
        pages := head;
      }
    }

    /** Walks the list of full pages to the target and links around it. */
    method UnlinkFull(target: nat, ghost list: seq<nat>)
      requires PageChain(heads, fullPages, list) && 0 !in list && NoRepeats(list)
      modifies this`heads, this`fullPages
      ensures forall p :: p in list ==> p in old(heads)
      ensures var k := Where(list, target);
              Memory() == if k < |list| then Unlinked(old(Memory()), list, k) else old(Memory())
    {
      MembersLinked(heads, fullPages, list);
      var curr, prev := fullPages, 0;
      ghost var k := 0;
      while curr != 0
        invariant 0 <= k <= |list| && curr == At(list, k) && prev == (if k == 0 then 0 else list[k - 1])
        invariant forall i :: 0 <= i < k ==> list[i] != target
        invariant heads == old(heads) && fullPages == old(fullPages)
        decreases |list| - k
      {
        assert curr in list;
        if curr == target {
          WhereIs(list, target, k);
          assert k > 0 ==> prev in list;
          if prev == 0 {
            fullPages := heads[curr].next;
          } else {
            heads := heads[prev := heads[prev].(next := heads[curr].next)];
          }
          return;
        }
        prev := curr;
        curr := heads[curr].next;
        k := k + 1;
      }
      AtEnd(list, k);
      WhereIs(list, target, k);
    }

    /** The holder of a slot writes its first word. */
    method UserWrite(a: nat, value: nat)
      requires Valid() && Live(shape, SlotSize(objSize), a)
      modifies this`words
      ensures Valid() && words == old(words)[a := value]
    {
      UserWriteStep(Memory(), shape, SlotSize(objSize), a, value);
      hide Holds;
      words := words[a := value];
    }
  }

  /** The search through the table of sizes. */
  method FindClass(size: nat) returns (i: nat)
    ensures i == KmallocIndex(size)
  {
    i := 0;
    while i < |SIZES| && SIZES[i] < size
      invariant i <= |SIZES| && forall k :: 0 <= k < i ==> SIZES[k] < size
    {
      i := i + 1;
    }
    ClassIs(size, i);
  }

  lemma ClassIs(size: nat, i: nat)
    requires i <= |SIZES| && (i < |SIZES| ==> SIZES[i] >= size) && forall k :: 0 <= k < i ==> SIZES[k] < size
    ensures KmallocIndex(size) == i
  {
    hide KmallocIndex;
  }

  lemma AtEnd(list: seq<nat>, k: nat)
    requires k <= |list| && At(list, k) == 0 && 0 !in list
    ensures k == |list|
  {
  }

  lemma WhereIs(list: seq<nat>, p: nat, k: nat)
    requires k <= |list| && (k < |list| ==> list[k] == p) && forall i :: 0 <= i < k ==> list[i] != p
    ensures Where(list, p) == k
  {
    hide Where;
  }

  lemma ThreadedSteps(words: map<nat, nat>, page: nat, size: nat, n: nat)
    ensures n == 0 ==> Threaded(words, page, size, n) == words
    ensures n == 1 ==> Threaded(words, page, size, n) == Threaded(words, page, size, 0)[Slot(page, size, 0) := 0]
    ensures n > 1 ==> Threaded(words, page, size, n) ==
                      Threaded(words, page, size, n - 1)[Slot(page, size, n - 2) := Slot(page, size, n - 1)][Slot(page, size, n - 1) := 0]
  {
    hide Slot;
  }

  lemma SlotIs(page: nat, size: nat, i: nat)
    ensures Slot(page, size, i) == page + HEAD_BYTES + i * size
  {
  }

  /** The list of partly free pages is empty just when its head is null. */
  lemma EmptyChain(m: Mem, g: Shape, size: nat)
    requires size > 0 && Holds(m, g, size)
    ensures m.pages == 0 <==> g.partial == []
    ensures g.partial != [] ==> Ready(g)
  {
    if g.partial != [] {
      PartialIsReady(g, size);
    }
  }

  lemma FilledChain(m: Mem, g: Shape, size: nat, a: nat)
    requires size > 0 && Holds(m, g, size) && Live(g, size, a)
    ensures PageOf(a) in m.heads && m.heads[PageOf(a)].inuse > 0
    ensures PageChain(DropMem(m, a).heads, m.full, g.filled) && 0 !in g.filled && NoRepeats(g.filled)
  {
    hide Slot;
    hide Live;
    DropReady(m, g, size, a);
    MembersKnown(m, g, size);
    PageFrame(m.heads, DropMem(m, a).heads, m.full, g.filled);
    forall p | p in g.filled
      ensures p != 0
    {
      assert PageValid(g, size, p);
    }
  }
}
