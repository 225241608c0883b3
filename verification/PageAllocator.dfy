/** `BuddyAllocator`: the search, split and merge loops over the shared state. */
module PageAllocator {
  import opened Blocks
  import opened FreeLists
  import opened Options
  import opened Zones
  import opened Pmm
  import opened PageSteps

  /** No zone has a free block of the wanted order or above. */
  ghost predicate Exhausted(views: seq<View>, order: nat) {
    forall y, b :: 0 <= y < |views| && b in views[y].free ==> b.order < order
  }

  /** One entry of the boot memory map, in page frame numbers. */
  datatype MemoryRange = MemoryRange(start: nat, end: nat, usable: bool)

  predicate InRange(r: MemoryRange, x: nat) {
    r.usable && r.start <= x < r.end
  }

  ghost predicate Offered(mmap: seq<MemoryRange>, x: nat) {
    exists i :: 0 <= i < |mmap| && InRange(mmap[i], x)
  }

  ghost predicate NoOverlap(mmap: seq<MemoryRange>) {
    forall i, j, x: nat :: 0 <= i < j < |mmap| && InRange(mmap[i], x) ==> !InRange(mmap[j], x)
  }

  /** The map offers page frame `x` before `y`: in an earlier entry, or in the same entry and lower. */
  ghost predicate OfferedBefore(mmap: seq<MemoryRange>, x: nat, y: nat) {
    exists i, j :: 0 <= i <= j < |mmap| && InRange(mmap[i], x) && InRange(mmap[j], y) && (i < j || x < y)
  }

  /** The list holds offered page frames, the one offered last in front. */
  ghost predicate Piled(mmap: seq<MemoryRange>, list: seq<nat>) {
    && (forall x :: x in list ==> Offered(mmap, x))
    && forall i, j :: 0 <= i < j < |list| ==> OfferedBefore(mmap, list[j], list[i])
  }

  /** The same while the page frames of entry `r` below `hi` are being added. */
  ghost predicate Piling(done: seq<MemoryRange>, r: MemoryRange, hi: nat, list: seq<nat>) {
    && (forall x :: x in list ==> Offered(done, x) || (InRange(r, x) && x < hi))
    && forall i, j :: 0 <= i < j < |list| ==> OfferedBefore(done + [r], list[j], list[i])
  }

  lemma PileStarts(done: seq<MemoryRange>, r: MemoryRange, hi: nat, list: seq<nat>)
    requires Piled(done, list)
    ensures Piling(done, r, hi, list)
  {
    forall i, j | 0 <= i < j < |list|
      ensures OfferedBefore(done + [r], list[j], list[i])
    {
      var a, b :| 0 <= a <= b < |done| && InRange(done[a], list[j]) && InRange(done[b], list[i]) && (a < b || list[j] < list[i]);
      assert InRange((done + [r])[a], list[j]) && InRange((done + [r])[b], list[i]);
    }
  }

  lemma PileGrows(done: seq<MemoryRange>, r: MemoryRange, p: nat, list: seq<nat>)
    requires Piling(done, r, p, list) && InRange(r, p)
    ensures Piling(done, r, p + 1, [p] + list)
  {
    var all, more := done + [r], [p] + list;
    forall i, j | 0 <= i < j < |more|
      ensures OfferedBefore(all, more[j], more[i])
    {
      assert more[j] == list[j - 1];
      if i == 0 {
        var x := list[j - 1];
        assert x in list && InRange(all[|done|], p);
        if Offered(done, x) {
          var a :| 0 <= a < |done| && InRange(done[a], x);
          assert InRange(all[a], x);
        }
      } else {
        assert more[i] == list[i - 1];
      }
    }
  }

  lemma PileEnds(done: seq<MemoryRange>, r: MemoryRange, hi: nat, list: seq<nat>)
    requires Piling(done, r, hi, list)
    ensures Piled(done + [r], list)
  {
    hide OfferedBefore;
    OfferedMore(done, r);
  }

  function Min(a: nat, b: nat): nat {
    if a < b then a else b
  }

  const DMA_END: nat := 16 * 1024 * 1024 / PAGE_SIZE
  const NORMAL_END: nat := 4096 * 1024 * 1024 / PAGE_SIZE
  const NO_LISTS: seq<nat> := [0, 0, 0, 0, 0, 0, 0, 0, 0, 0, 0]

  function BootZones(maxPfn: nat): seq<Zone> {
    [Zone(0, Min(DMA_END, maxPfn), NO_LISTS),
     Zone(DMA_END, Min(NORMAL_END, maxPfn), NO_LISTS),
     Zone(NORMAL_END, maxPfn, NO_LISTS)]
  }

  /** Sentinels of every zone and order, each linked to itself. */
  function BootLinks(): Links {
    var heads := set z, o | 0 <= z < ZONE_COUNT && 0 <= o <= MAX_ORDER :: Sentinel(z, o);
    Links(map h | h in heads :: h, map h | h in heads :: h)
  }

  const NO_BLOCKS: View := View({}, {}, {})

  ghost function BootMachine(maxPfn: nat): Machine {
    var none := seq(MAX_ORDER + 1, i => []);
    Machine(seq(maxPfn, i => PhysPage(NONE, 0, 0)), BootZones(maxPfn), BootLinks(),
            [none, none, none], [NO_BLOCKS, NO_BLOCKS, NO_BLOCKS])
  }

  /** Every page frame below the last lies in exactly one zone. */
  lemma ZonesTile(maxPfn: nat, x: nat)
    ensures x < maxPfn <==> InZone(BootZones(maxPfn)[0], x) || InZone(BootZones(maxPfn)[1], x) || InZone(BootZones(maxPfn)[2], x)
    ensures forall y, z :: 0 <= y < z < ZONE_COUNT && InZone(BootZones(maxPfn)[y], x) ==> !InZone(BootZones(maxPfn)[z], x)
  {
  }

  /** Some zone manages the page frame. */
  ghost predicate Managed(views: seq<View>, x: nat) {
    exists z :: 0 <= z < |views| && x in views[z].managed
  }

  lemma AllManaged(views: seq<View>, maxPfn: nat, mmap: seq<MemoryRange>, descs: MemoryRange)
    requires |views| == ZONE_COUNT
    requires forall z :: 0 <= z < ZONE_COUNT ==> Manages(views[z].managed, BootZones(maxPfn)[z], mmap, 0, 0, descs)
    ensures forall x: nat :: x < maxPfn && Offered(mmap, x) && !InRange(descs, x) <==> Managed(views, x)
  {
    hide Offered, InRange;
    forall x: nat
      ensures x < maxPfn && Offered(mmap, x) && !InRange(descs, x) <==> Managed(views, x)
    {
      ZonesTile(maxPfn, x);
    }
  }

  lemma BootLinked(lists: seq<seq<seq<nat>>>)
    requires |lists| == ZONE_COUNT && forall z :: 0 <= z < ZONE_COUNT ==> |lists[z]| == MAX_ORDER + 1
    requires forall z, o :: 0 <= z < ZONE_COUNT && 0 <= o <= MAX_ORDER ==> lists[z][o] == []
    ensures Linked(BootLinks(), lists)
  {
    forall z, o | 0 <= z < ZONE_COUNT && 0 <= o <= MAX_ORDER
      ensures Spells(BootLinks(), Sentinel(z, o), lists[z][o])
    {
      assert lists[z][o] == [];
      assert Sentinel(z, o) in BootLinks().next;
    }
  }

  lemma BootAgrees(zone: Zone, pages: seq<PhysPage>, lists: seq<seq<nat>>)
    requires zone.nrFree == NO_LISTS && zone.end <= |pages| && |lists| == MAX_ORDER + 1
    requires forall o :: 0 <= o <= MAX_ORDER ==> lists[o] == []
    requires forall x :: 0 <= x < |pages| ==> pages[x].flags == NONE
    ensures Agrees(zone, pages, lists, NO_BLOCKS, {})
  {
  }

  lemma BootHolds(maxPfn: nat)
    ensures Holds(BootMachine(maxPfn), 0, {})
    ensures TotalWeight(BootZones(maxPfn)) == 0
  {
    hide Linked, Agrees, Weight;
    var m := BootMachine(maxPfn);
    BootLinked(m.lists);
    forall i | 0 <= i < ZONE_COUNT
      ensures Agrees(m.zones[i], m.pages, m.lists[i], m.views[i], {})
    {
      BootAgrees(m.zones[i], m.pages, m.lists[i]);
    }
    WeightZero(NO_LISTS);
    var zs := BootZones(maxPfn);
    assert zs[..2][..1] == [zs[0]] && zs[..2] == [zs[0], zs[1]];
    assert TotalWeight([zs[0]]) == 0;
  }

  lemma {:induction false} WeightZero(nr: seq<nat>)
    requires forall i :: 0 <= i < |nr| ==> nr[i] == 0
    ensures Weight(nr) == 0
  {
    if |nr| > 0 {
      WeightZero(nr[..|nr| - 1]);
    }
  }

  /** Every block is a single page frame. */
  ghost predicate AllSingle(free: set<Block>) {
    forall b :: b in free ==> b.order == 0
  }

  /** A zone manages what its bounds and the memory map entries so far give it, and page
      frames [lo, hi) of the current entry; never the descriptor array. */
  ghost predicate Manages(managed: set<nat>, bound: Zone, done: seq<MemoryRange>, lo: nat, hi: nat, descs: MemoryRange) {
    forall x: nat :: x in managed <==> InZone(bound, x) && (Offered(done, x) || lo <= x < hi) && !InRange(descs, x)
  }

  lemma ManagesMore(managed: set<nat>, bound: Zone, done: seq<MemoryRange>, lo: nat, hi: nat, descs: MemoryRange, hi': nat, now: set<nat>)
    requires Manages(managed, bound, done, lo, hi, descs) && lo <= hi <= hi'
    requires forall x: nat :: x in now <==> x in managed || (hi <= x < hi' && InZone(bound, x) && !InRange(descs, x))
    ensures Manages(now, bound, done, lo, hi', descs)
  {
  }

  lemma ManagesSame(managed: set<nat>, bound: Zone, done: seq<MemoryRange>, lo: nat, hi: nat, descs: MemoryRange, hi': nat)
    requires Manages(managed, bound, done, lo, hi, descs)
    requires forall x: nat :: (lo <= x < hi && InZone(bound, x) && !InRange(descs, x)) <==> (lo <= x < hi' && InZone(bound, x) && !InRange(descs, x))
    ensures Manages(managed, bound, done, lo, hi', descs)
  {
  }

  lemma NotYetManaged(managed: set<nat>, bound: Zone, done: seq<MemoryRange>, lo: nat, hi: nat, descs: MemoryRange)
    requires Manages(managed, bound, done, lo, hi, descs) && !Offered(done, hi)
    ensures hi !in managed
  {
  }

  lemma ManagesNone(managed: set<nat>, bound: Zone, done: seq<MemoryRange>, lo: nat, descs: MemoryRange)
    requires Manages(managed, bound, done, 0, 0, descs)
    ensures Manages(managed, bound, done, lo, lo, descs)
  {
  }

  lemma ManagesNext(managed: set<nat>, bound: Zone, done: seq<MemoryRange>, r: MemoryRange, descs: MemoryRange)
    requires Manages(managed, bound, done, if r.usable then r.start else 0, if r.usable then r.end else 0, descs)
    ensures Manages(managed, bound, done + [r], 0, 0, descs)
  {
    OfferedMore(done, r);
  }

  class BuddyAllocator {
    var zones: seq<Zone>
    var links: Links
    var totalPages: nat
    var freePages: nat
    const pages: array<PhysPage>
    ghost var lists: seq<seq<seq<nat>>>
    ghost var views: seq<View>

    ghost function State(): Machine
      reads this, pages
    {
      Machine(pages[..], zones, links, lists, views)
    }

    /** The lists, descriptors and counters describe the block views, and the scalar
        counter is never below the pages actually on the lists. */
    ghost predicate Valid()
      reads this, pages
    {
      Holds(State(), 0, {}) && freePages >= TotalWeight(zones)
    }

    /** `init`: zone bounds, then every usable page frame outside the descriptor array goes
        on the order-0 list of its zone. */
    constructor (maxPfn: nat, mmap: seq<MemoryRange>, descs: MemoryRange)
      requires NoOverlap(mmap) && descs.usable
      ensures Valid() && pages.Length == maxPfn
      ensures zones[0].start == 0 && zones[0].end == Min(DMA_END, maxPfn)
      ensures zones[1].start == DMA_END && zones[1].end == Min(NORMAL_END, maxPfn)
      ensures zones[2].start == NORMAL_END && zones[2].end == maxPfn
      ensures forall z, x: nat :: 0 <= z < ZONE_COUNT ==>
                (x in views[z].managed <==> InZone(zones[z], x) && Offered(mmap, x) && !InRange(descs, x))
      ensures forall x: nat :: x < maxPfn && Offered(mmap, x) && !InRange(descs, x) <==> Managed(views, x)
      ensures forall z :: 0 <= z < ZONE_COUNT ==> views[z].live == {} && AllSingle(views[z].free)
      ensures forall order: nat :: order >= 1 ==> Exhausted(views, order)
      ensures |lists| == ZONE_COUNT && forall z :: 0 <= z < ZONE_COUNT ==> |lists[z]| == MAX_ORDER + 1 && Piled(mmap, lists[z][0])
      ensures freePages == totalPages == TotalWeight(zones)
    {
      pages := new PhysPage[maxPfn](i => PhysPage(NONE, 0, 0));
      zones := BootZones(maxPfn);
      links := BootLinks();
      totalPages, freePages := 0, 0;
      var none := seq(MAX_ORDER + 1, i => []);
      lists := [none, none, none];
      views := [NO_BLOCKS, NO_BLOCKS, NO_BLOCKS];
      new;
      hide Holds, TotalWeight;
      BootHolds(maxPfn);
      assert State() == BootMachine(maxPfn);
      FillZones(maxPfn, mmap, descs);
      AllManaged(views, maxPfn, mmap, descs);
    }

    /** The page frame loop of `init` over the whole memory map. */
    method FillZones(maxPfn: nat, mmap: seq<MemoryRange>, descs: MemoryRange)
      requires State() == BootMachine(maxPfn) && Valid() && freePages == totalPages == TotalWeight(zones) == 0
      requires NoOverlap(mmap) && descs.usable
      modifies this, pages
      ensures Filling(maxPfn, BootZones(maxPfn), mmap, 0, 0, descs) && Stacked(mmap)
    {
      hide Holds, TotalWeight, Offered, NoOverlap, Manages, Piled, Piling;
      var i := 0;
      StartsEmpty(maxPfn, descs);
      assert mmap[..0] == [];
      assert zones == BootZones(maxPfn) && |pages[..]| == maxPfn;
      assert forall z :: 0 <= z < ZONE_COUNT ==> views[z] == NO_BLOCKS;
      NothingPiled();
      while i < |mmap|
        invariant 0 <= i <= |mmap|
        invariant Filling(maxPfn, BootZones(maxPfn), mmap[..i], 0, 0, descs) && Stacked(mmap[..i])
      {
        NotOffered(mmap, i);
        forall z | 0 <= z < ZONE_COUNT
          ensures Piling(mmap[..i], mmap[i], mmap[i].start, lists[z][0]) && Piled(mmap[..i] + [mmap[i]], lists[z][0])
        {
          PileStarts(mmap[..i], mmap[i], mmap[i].start, lists[z][0]);
          PileEnds(mmap[..i], mmap[i], mmap[i].start, lists[z][0]);
        }
        if mmap[i].usable {
          FillRange(maxPfn, BootZones(maxPfn), mmap[..i], mmap[i], descs);
        }
        forall z | 0 <= z < ZONE_COUNT
          ensures Manages(views[z].managed, BootZones(maxPfn)[z], mmap[..i] + [mmap[i]], 0, 0, descs)
        {
          ManagesNext(views[z].managed, BootZones(maxPfn)[z], mmap[..i], mmap[i], descs);
        }
        assert mmap[..i + 1] == mmap[..i] + [mmap[i]];
        i := i + 1;
      }
      assert mmap[..i] == mmap;
    }

    /** Marks a page frame free at order `o`, pushes it on that list and counts it. */
    method MarkAndPush(z: nat, p: nat, o: nat)
      requires |zones| == ZONE_COUNT && z < ZONE_COUNT && o <= MAX_ORDER && p < pages.Length
      requires |zones[z].nrFree| == MAX_ORDER + 1
      requires Linked(links, lists) && Unlisted(lists, p)
      modifies this`zones, this`links, this`lists, pages
      ensures Pushed(old(State()), z, p, o, State())
    {
      LinkedPush(links, lists, z, o, p);
      pages[p] := PhysPage(BUDDY, o, pages[p].refcount);
      links := Push(links, Sentinel(z, o), Page(p));
      zones := zones[z := zones[z].(nrFree := zones[z].nrFree[o := zones[z].nrFree[o] + 1])];
      lists := lists[z := lists[z][o := [p] + lists[z][o]]];
    }

    /** Splices the node of page frame `p` out of the list of order `o` and counts it off. */
    method Detach(z: nat, o: nat, p: nat, ghost k: nat)
      requires |zones| == ZONE_COUNT && z < ZONE_COUNT && o <= MAX_ORDER
      requires |zones[z].nrFree| == MAX_ORDER + 1
      requires Linked(links, lists)
      requires k < |lists[z][o]| == zones[z].nrFree[o] && lists[z][o][k] == p
      modifies this`zones, this`links, this`lists
      ensures Detached(old(State()), z, o, k, State())
    {
      LinkedUnlink(links, lists, z, o, k);
      links := Unlink(links, Page(p));
      zones := zones[z := zones[z].(nrFree := zones[z].nrFree[o := zones[z].nrFree[o] - 1])];
      lists := lists[z := lists[z][o := Without(lists[z][o], k)]];
    }

    /** Part way through `init`: the zones manage what the entries so far, and page frames
        [lo, hi) of the current one, offer. */
    ghost predicate Filling(maxPfn: nat, bounds: seq<Zone>, done: seq<MemoryRange>, lo: nat, hi: nat, descs: MemoryRange)
      reads this, pages
    {
      && Valid() && pages.Length == maxPfn && freePages == totalPages == TotalWeight(zones)
      && |bounds| == |zones| == |views| == ZONE_COUNT
      && forall z :: 0 <= z < ZONE_COUNT ==>
           && zones[z].start == bounds[z].start && zones[z].end == bounds[z].end && views[z].live == {}
           && AllSingle(views[z].free)
           && Manages(views[z].managed, bounds[z], done, lo, hi, descs)
    }

    ghost predicate Stacked(done: seq<MemoryRange>)
      reads this
    {
      |lists| == ZONE_COUNT && forall z :: 0 <= z < ZONE_COUNT ==> |lists[z]| == MAX_ORDER + 1 && Piled(done, lists[z][0])
    }

    ghost predicate Stacking(done: seq<MemoryRange>, r: MemoryRange, hi: nat)
      reads this
    {
      |lists| == ZONE_COUNT && forall z :: 0 <= z < ZONE_COUNT ==> |lists[z]| == MAX_ORDER + 1 && Piling(done, r, hi, lists[z][0])
    }

    /** The inner loop of `init` over one usable memory map entry. */
    method FillRange(maxPfn: nat, ghost bounds: seq<Zone>, ghost done: seq<MemoryRange>, r: MemoryRange, descs: MemoryRange)
      requires Filling(maxPfn, bounds, done, 0, 0, descs) && r.usable && descs.usable
      requires forall x: nat :: InRange(r, x) ==> !Offered(done, x)
      requires forall z, x: nat :: 0 <= z < |bounds| && InZone(bounds[z], x) ==> x < maxPfn
      requires Stacking(done, r, r.start)
      modifies this, pages
      ensures Filling(maxPfn, bounds, done, r.start, r.end, descs) && Stacked(done + [r])
    {
      hide Holds, TotalWeight, Offered, Manages, Piled, Piling;
      var pfn := r.start;
      var end := Min(r.end, maxPfn);
      forall z | 0 <= z < ZONE_COUNT
        ensures Manages(views[z].managed, bounds[z], done, r.start, r.start, descs)
      {
        ManagesNone(views[z].managed, bounds[z], done, r.start, descs);
      }
      while pfn < end
        invariant r.start <= pfn
        invariant Filling(maxPfn, bounds, done, r.start, pfn, descs) && Stacking(done, r, pfn)
        invariant forall x: nat :: r.start <= x && r.end <= x < pfn ==> InRange(descs, x)
        decreases end - pfn
      {
        if InRange(descs, pfn) && pfn < maxPfn {
          var next := Min(descs.end, maxPfn);
          forall z | 0 <= z < ZONE_COUNT
            ensures Manages(views[z].managed, bounds[z], done, r.start, next, descs)
          {
            ManagesMore(views[z].managed, bounds[z], done, r.start, pfn, descs, next, views[z].managed);
          }
          PilesReach(done, r, pfn, next);
          pfn := next;
        } else {
          FillPage(maxPfn, bounds, done, r, pfn, descs);
          pfn := pfn + 1;
        }
      }
      forall z | 0 <= z < ZONE_COUNT
        ensures Manages(views[z].managed, bounds[z], done, r.start, r.end, descs)
      {
        ManagesSame(views[z].managed, bounds[z], done, r.start, pfn, descs, r.end);
      }
      forall z | 0 <= z < ZONE_COUNT
        ensures Piled(done + [r], lists[z][0])
      {
        PileEnds(done, r, pfn, lists[z][0]);
      }
    }

    lemma PilesReach(done: seq<MemoryRange>, r: MemoryRange, hi: nat, hi': nat)
      requires Stacking(done, r, hi) && hi <= hi'
      ensures Stacking(done, r, hi')
    {
    }

    /** One turn of the inner loop outside the descriptor array. */
    method FillPage(maxPfn: nat, ghost bounds: seq<Zone>, ghost done: seq<MemoryRange>, ghost r: MemoryRange, pfn: nat, ghost descs: MemoryRange)
      requires Filling(maxPfn, bounds, done, r.start, pfn, descs) && InRange(r, pfn) && Stacking(done, r, pfn)
      requires !Offered(done, pfn) && !InRange(descs, pfn)
      modifies this, pages
      ensures Filling(maxPfn, bounds, done, r.start, pfn + 1, descs) && Stacking(done, r, pfn + 1)
    {
      hide Holds, TotalWeight, Offered, Manages, Agrees, Linked, Piled, Piling;
      Shape(State(), 0, {}, 0);
      ghost var managed := seq(ZONE_COUNT, z requires 0 <= z < |views| reads this => views[z].managed);
      PilesReach(done, r, pfn, pfn + 1);
      ghost var piles := lists;
      var z := FindZone(pfn);
      if z < ZONE_COUNT {
        NotYetManaged(views[z].managed, bounds[z], done, r.start, pfn, descs);
        PileGrows(done, r, pfn, lists[z][0]);
        AddPage(z, pfn);
      }
      forall y | 0 <= y < ZONE_COUNT
        ensures Manages(views[y].managed, bounds[y], done, r.start, pfn + 1, descs)
      {
        assert views[y].managed == if y == z then managed[y] + {pfn} else managed[y];
        ManagesMore(managed[y], bounds[y], done, r.start, pfn, descs, pfn + 1, views[y].managed);
      }
    }

    /** One usable page frame: marked free at order 0 and pushed on its zone's list. */
    method AddPage(z: nat, p: nat)
      requires Valid() && z < ZONE_COUNT && InZone(zones[z], p) && p !in views[z].managed
      modifies this, pages
      ensures Valid() && SameElsewhere(zones, old(zones), z) && zones[z].start == old(zones[z].start) && zones[z].end == old(zones[z].end)
      ensures views == old(views)[z := View(old(views[z].free) + {Block(p, 0)}, old(views[z].live), old(views[z].managed) + {p})]
      ensures |old(lists)| == ZONE_COUNT && |old(lists[z])| == MAX_ORDER + 1
      ensures lists == old(lists)[z := old(lists[z])[0 := [p] + old(lists[z][0])]]
      ensures totalPages == old(totalPages) + 1 && freePages == old(freePages) + 1
      ensures TotalWeight(zones) == TotalWeight(old(zones)) + 1
    {
      hide Holds, Agrees, Linked, Spells, Partition, Weight, TotalWeight;
      ghost var b := Block(p, 0);
      AnyZone(State(), 0, z);
      Shape(State(), z, {}, z);
      GrowStep(State(), z, p);
      views := views[z := views[z].(managed := views[z].managed + {p})];
      PutReady(State(), z, b);
      ghost var m := State();
      MarkAndPush(z, p, 0);
      PutStep(m, z, b, State());
      views := views[z := views[z].(free := views[z].free + {b})];
      AnyZone(State(), z, 0);
      totalPages := totalPages + 1;
      freePages := freePages + 1;
    }

    /** The first zone with a free block of at least the wanted order, and the smallest
        such order in it. */
    method Search(order: nat) returns (z: nat, o: nat)
      requires Valid() && order <= MAX_ORDER
      ensures z <= ZONE_COUNT && |zones| == |views| == ZONE_COUNT
      ensures z == ZONE_COUNT ==> Exhausted(views, order)
      ensures z < ZONE_COUNT ==>
                && order <= o <= MAX_ORDER && |zones[z].nrFree| == MAX_ORDER + 1 && zones[z].nrFree[o] > 0
                && (exists b :: b in views[z].free && b.order == o)
                && (forall b :: b in views[z].free && order <= b.order ==> o <= b.order)
                && (forall y, b :: 0 <= y < z && b in views[y].free ==> b.order < order)
    {
      hide Holds, Agrees, Linked, Spells, Partition, TotalWeight;
      z, o := 0, 0;
      Shape(State(), 0, {}, 0);
      while z < ZONE_COUNT
        invariant z <= ZONE_COUNT
        invariant forall y, b :: 0 <= y < z && b in views[y].free ==> b.order < order
      {
        Shape(State(), 0, {}, z);
        if zones[z].start < zones[z].end {
          o := order;
          while o <= MAX_ORDER
            invariant order <= o <= MAX_ORDER + 1
            invariant forall q :: order <= q < o ==> zones[z].nrFree[q] == 0
          {
            if zones[z].nrFree[o] > 0 {
              SmallestOrder(zones[z], pages[..], lists[z], views[z], order, o);
              return;
            }
            o := o + 1;
          }
        } else {
          EmptyZone(zones[z], pages[..], lists[z], views[z]);
        }
        z := z + 1;
      }
    }

    /** `FreeList::pop` of a list that is not empty: the first page frame, spliced out. */
    method PopBlock(z: nat, o: nat) returns (pfn: nat)
      requires Holds(State(), z, {}) && z < ZONE_COUNT && o <= MAX_ORDER && zones[z].nrFree[o] > 0
      modifies this`zones, this`links, this`lists, this`views
      ensures Block(pfn, o) in old(views[z]).free && Holds(State(), z, {Block(pfn, o)})
      ensures o < |old(lists[z])| && old(lists[z][o]) != [] && pfn == old(lists[z][o][0])
      ensures lists == old(lists)[z := old(lists[z])[o := old(lists[z][o])[1..]]]
      ensures SameElsewhere(zones, old(zones), z)
      ensures views == old(views)[z := old(views[z]).(free := old(views[z]).free - {Block(pfn, o)})]
      ensures Weight(zones[z].nrFree) + Pow2(o) == Weight(old(zones[z].nrFree))
      ensures TotalWeight(zones) + Pow2(o) == TotalWeight(old(zones))
    {
      hide Holds, Agrees, Linked, Spells, Partition, Weight, TotalWeight;
      Shape(State(), z, {}, z);
      FirstOfRing(links, Sentinel(z, o), lists[z][o]);
      pfn := links.next[Sentinel(z, o)].pfn;
      ghost var m := State();
      Detach(z, o, pfn, 0);
      TakeStep(m, z, o, State());
      views := views[z := views[z].(free := views[z].free - {Block(pfn, o)})];
      assert Without(m.lists[z][o], 0) == m.lists[z][o][1..];
    }

    /** The splitting loop: upper halves go on their lists until the held block has the
        wanted order. */
    method SplitDown(z: nat, pfn: nat, o: nat, order: nat)
      requires z < ZONE_COUNT && order <= o && Holds(State(), z, {Block(pfn, o)})
      modifies this`zones, this`links, this`lists, this`views, pages
      ensures Holds(State(), z, {Block(pfn, order)})
      ensures SameElsewhere(zones, old(zones), z)
      ensures views == old(views)[z := old(views[z]).(free := old(views[z]).free + Remainders(Block(pfn, o), order))]
      ensures SameElsewhere(lists, old(lists), z) && Cut(old(lists[z]), lists[z], pfn, o, order)
      ensures OnlyIn(old(pages[..]), pages[..], Block(pfn, o))
      ensures Weight(zones[z].nrFree) + Pow2(order) == Weight(old(zones[z].nrFree)) + Pow2(o)
      ensures TotalWeight(zones) + Pow2(order) == TotalWeight(old(zones)) + Pow2(o)
    {
      hide Holds, Agrees, Linked, Spells, Partition, Weight, TotalWeight, Pow2, Cut, OnlyIn;
      Shape(State(), z, {Block(pfn, o)}, z);
      ghost var free0 := views[z].free;
      var c := o;
      NothingYet(lists[z], pages[..], pfn, o);
      while c > order
        invariant order <= c <= o && Holds(State(), z, {Block(pfn, c)})
        invariant SameElsewhere(zones, old(zones), z) && SameElsewhere(views, old(views), z)
        invariant views[z].managed == old(views[z]).managed && views[z].live == old(views[z]).live
        invariant views[z].free + Remainders(Block(pfn, c), order) == free0 + Remainders(Block(pfn, o), order)
        invariant SameElsewhere(lists, old(lists), z) && |lists[z]| == MAX_ORDER + 1
        invariant Cut(old(lists[z]), lists[z], pfn, o, c) && OnlyIn(old(pages[..]), pages[..], Block(pfn, o))
        invariant Weight(zones[z].nrFree) + Pow2(c) == Weight(old(zones[z].nrFree)) + Pow2(o)
        invariant TotalWeight(zones) + Pow2(c) == TotalWeight(old(zones)) + Pow2(o)
      {
        ghost var lists0, pages0 := lists[z], pages[..];
        SplitOnce(z, pfn, c);
        CutMore(old(lists[z]), lists0, pfn, o, c);
        OnlyInMore(old(pages[..]), pages0, pfn, o, c);
        c := c - 1;
      }
      assert views[z].free == free0 + Remainders(Block(pfn, o), order);
      assert views == old(views)[z := views[z]];
    }

    method SplitOnce(z: nat, pfn: nat, c: nat)
      requires z < ZONE_COUNT && c > 0 && Holds(State(), z, {Block(pfn, c)})
      modifies this`zones, this`links, this`lists, this`views, pages
      ensures Holds(State(), z, {Block(pfn, c - 1)}) && Pow2(c) == 2 * Pow2(c - 1)
      ensures SameElsewhere(zones, old(zones), z)
      ensures views == old(views)[z := old(views[z]).(free := old(views[z]).free + {RightHalf(Block(pfn, c))})]
      ensures c <= MAX_ORDER && pfn + Pow2(c - 1) < pages.Length && |old(lists)| == ZONE_COUNT && |old(lists[z])| == MAX_ORDER + 1
      ensures lists == old(lists)[z := old(lists[z])[c - 1 := [pfn + Pow2(c - 1)] + old(lists[z][c - 1])]]
      ensures pages[..] == old(pages[..])[pfn + Pow2(c - 1) := PhysPage(BUDDY, c - 1, old(pages[pfn + Pow2(c - 1)].refcount))]
      ensures Weight(zones[z].nrFree) == Weight(old(zones[z].nrFree)) + Pow2(c - 1)
      ensures TotalWeight(zones) == TotalWeight(old(zones)) + Pow2(c - 1)
    {
      hide Holds, Agrees, Linked, Spells, Partition, Weight, TotalWeight;
      ghost var b := Block(pfn, c);
      Shape(State(), z, {b}, z);
      SplitReady(State(), z, b);
      var buddy := pfn + Pow2(c - 1);
      ghost var m := State();
      MarkAndPush(z, buddy, c - 1);
      SplitStep(m, z, b, State());
      views := views[z := views[z].(free := views[z].free + {RightHalf(b)})];
    }

    /** Pops a block of order `o`, cuts it down and hands it out. */
    method AllocIn(z: nat, o: nat, order: nat) returns (pfn: nat)
      requires Valid() && z < ZONE_COUNT && order <= o <= MAX_ORDER && zones[z].nrFree[o] > 0
      modifies this, pages
      ensures Valid() && z < |old(views)| == |old(zones)|
      ensures Block(pfn, o) in old(views[z]).free
      ensures views == old(views)[z := AfterAlloc(old(views[z]), Block(pfn, o), order)]
      ensures Allotted(old(State()), State(), z, Block(pfn, o), order)
      ensures SameElsewhere(zones, old(zones), z)
      ensures Weight(zones[z].nrFree) + Pow2(order) == Weight(old(zones[z].nrFree))
      ensures freePages + Pow2(order) == old(freePages) && totalPages == old(totalPages)
    {
      hide Holds, Agrees, Linked, Spells, Partition, Weight, TotalWeight, Remainders, Cut, Dealt, OnlyIn, Contains;
      AnyZone(State(), 0, z);
      Shape(State(), z, {}, z);
      pfn := PopBlock(z, o);
      SplitDown(z, pfn, o, order);
      CutIsDealt(old(lists[z]), lists[z], Block(pfn, o), order);
      GiveStep(State(), z, Block(pfn, order));
      ghost var m := State();
      OnlyInAlloc(old(pages[..]), pages[..], Block(pfn, o), order);
      pages[pfn] := PhysPage(ALLOCATED, order, 0);
      views := views[z := views[z].(live := views[z].live + {Block(pfn, order)})];
      assert State() == m.(pages := m.pages[pfn := PhysPage(ALLOCATED, order, 0)],
                           views := m.views[z := m.views[z].(live := m.views[z].live + {Block(pfn, order)})]);
      AnyZone(State(), z, 0);
      freePages := freePages - Pow2(order);
    }

    /** `alloc_pages`: hands out 2^order page frames, or reports that no zone has a block
        large enough. */
    method AllocPages(order: nat) returns (r: Option<nat>, ghost z: nat, ghost from: Block)
      requires Valid()
      modifies this, pages
      ensures Valid() && z < |old(views)| == |old(zones)|
      ensures r.None? <==> order > MAX_ORDER || Exhausted(old(views), order)
      ensures r.None? ==> State() == old(State()) && freePages == old(freePages)
      ensures r.Some? ==> from in old(views[z]).free && order <= from.order
      ensures r.Some? ==> forall b :: b in old(views[z]).free && order <= b.order ==> from.order <= b.order
      ensures r.Some? ==> forall y, b :: 0 <= y < z && b in old(views[y]).free ==> b.order < order
      ensures r.Some? ==> Allotted(old(State()), State(), z, from, order)
      ensures r.Some? ==> r.value == from.pfn * PAGE_SIZE
      ensures r.Some? ==> views == old(views)[z := AfterAlloc(old(views[z]), from, order)]
      ensures r.Some? ==> SameElsewhere(zones, old(zones), z)
      ensures r.Some? ==> Weight(zones[z].nrFree) + Pow2(order) == Weight(old(zones[z].nrFree))
      ensures r.Some? ==> freePages + Pow2(order) == old(freePages)
      ensures totalPages == old(totalPages)
    {
      hide Holds, Agrees, Linked, Spells, Partition, Weight, TotalWeight, Remainders, AfterAlloc, Allotted;
      z, from := 0, Block(0, 0);
      Shape(State(), 0, {}, 0);
      if order > MAX_ORDER {
        return None, z, from;
      }
      var zi, o := Search(order);
      if zi == ZONE_COUNT {
        return None, z, from;
      }
      z := zi;
      var pfn := AllocIn(zi, o, order);
      from := Block(pfn, o);
      r := Some(pfn * PAGE_SIZE);
    }

    /** `find_zone` */
    method FindZone(pfn: nat) returns (z: nat)
      requires |zones| == ZONE_COUNT
      ensures z <= ZONE_COUNT
      ensures z < ZONE_COUNT ==> InZone(zones[z], pfn)
      ensures forall y :: 0 <= y < z ==> !InZone(zones[y], pfn)
    {
      z := 0;
      while z < ZONE_COUNT
        invariant z <= ZONE_COUNT
        invariant forall y :: 0 <= y < z ==> !InZone(zones[y], pfn)
      {
        if InZone(zones[z], pfn) {
          return;
        }
        z := z + 1;
      }
    }

    /** One turn of the merging loop: reads the buddy's descriptor and, if it is free at this
        order, takes it off its list and continues with the parent block. */
    method MergeOnce(z: nat, p: nat, c: nat) returns (more: bool, p': nat, c': nat)
      requires z < ZONE_COUNT && c < MAX_ORDER
      requires Holds(State(), z, {Block(p, c)}) && Aligned(Block(p, c))
      modifies this`zones, this`links, this`lists, this`views
      ensures more <==> Buddy(Block(p, c)) in old(views[z]).free
      ensures !more ==> p' == p && c' == c && State() == old(State())
      ensures more ==> Block(p', c') == Parent(Block(p, c)) && c' == c + 1 && Pow2(c') == 2 * Pow2(c)
                       && views == old(views)[z := old(views[z]).(free := old(views[z]).free - {Buddy(Block(p, c))})]
                       && SameElsewhere(zones, old(zones), z)
                       && Weight(zones[z].nrFree) + Pow2(c) == Weight(old(zones[z].nrFree))
                       && TotalWeight(zones) + Pow2(c) == TotalWeight(old(zones))
                       && |old(lists)| == ZONE_COUNT && |old(lists[z])| == MAX_ORDER + 1
                       && exists k :: 0 <= k < |old(lists[z][c])|
                                      && lists == old(lists)[z := old(lists[z])[c := Without(old(lists[z][c]), k)]]
      ensures Aligned(Block(p', c')) && Holds(State(), z, {Block(p', c')})
    {
      hide Holds, Agrees, Linked, Spells, Partition, Weight, TotalWeight;
      ghost var b := Block(p, c);
      Shape(State(), z, {b}, z);
      BuddyTestSound(zones[z], pages[..], lists[z], views[z], b);
      XorNamesBuddy(b);
      more, p', c' := false, p, c;
      var u := Xor(p, Pow2(c));
      if !InZone(zones[z], u) {
        return;
      }
      if !IsFree(pages[u]) || pages[u].order != c {
        return;
      }
      ghost var k :| 0 <= k < |lists[z][c]| && lists[z][c][k] == u;
      ghost var m := State();
      Detach(z, c, u, k);
      MergeStep(m, z, b, k, State());
      views := views[z := views[z].(free := views[z].free - {Buddy(b)})];
      more := true;
      p' := if u < p then u else p;
      c' := c + 1;
    }

    /** The merging loop. */
    method MergeUp(z: nat, pfn: nat, order: nat) returns (p: nat, c: nat)
      requires z < ZONE_COUNT && order <= MAX_ORDER && Aligned(Block(pfn, order))
      requires Holds(State(), z, {Block(pfn, order)})
      modifies this`zones, this`links, this`lists, this`views
      ensures order <= c <= MAX_ORDER && Holds(State(), z, {Block(p, c)})
      ensures (views[z].free, Block(p, c)) == Coalesce(old(views[z]).free, Block(pfn, order))
      ensures views == old(views)[z := old(views[z]).(free := views[z].free)]
      ensures c == MAX_ORDER || (Aligned(Block(p, c)) && Buddy(Block(p, c)) !in views[z].free)
      ensures SameElsewhere(zones, old(zones), z)
      ensures |old(lists)| == |lists| && SameElsewhere(lists, old(lists), z) && Climbed(old(lists[z]), lists[z], order, c)
      ensures Weight(zones[z].nrFree) + Pow2(c) == Weight(old(zones[z].nrFree)) + Pow2(order)
      ensures TotalWeight(zones) + Pow2(c) == TotalWeight(old(zones)) + Pow2(order)
    {
      hide Holds, Agrees, Linked, Spells, Partition, Weight, TotalWeight, Coalesce, Aligned, Buddy, Parent, Pow2, Climbed;
      Shape(State(), z, {Block(pfn, order)}, z);
      NotClimbed(lists[z], order);
      p, c := pfn, order;
      var more := true;
      while more && c < MAX_ORDER
        invariant order <= c <= MAX_ORDER && Aligned(Block(p, c)) && Holds(State(), z, {Block(p, c)})
        invariant SameElsewhere(zones, old(zones), z) && SameElsewhere(views, old(views), z)
        invariant views[z].managed == old(views[z]).managed && views[z].live == old(views[z]).live
        invariant Coalesce(views[z].free, Block(p, c)) == Coalesce(old(views[z]).free, Block(pfn, order))
        invariant SameElsewhere(lists, old(lists), z) && |lists[z]| == MAX_ORDER + 1 && Climbed(old(lists[z]), lists[z], order, c)
        invariant !more ==> c == MAX_ORDER || Buddy(Block(p, c)) !in views[z].free
        invariant Weight(zones[z].nrFree) + Pow2(c) == Weight(old(zones[z].nrFree)) + Pow2(order)
        invariant TotalWeight(zones) + Pow2(c) == TotalWeight(old(zones)) + Pow2(order)
        decreases MAX_ORDER - c, more
      {
        CoalesceUnfolds(views[z].free, Block(p, c));
        ghost var lists0, c0 := lists, c;
        more, p, c := MergeOnce(z, p, c);
        if more {
          ghost var k :| 0 <= k < |lists0[z][c0]| && lists == lists0[z := lists0[z][c0 := Without(lists0[z][c0], k)]];
          ClimbedMore(old(lists[z]), lists0[z], order, c0, k);
        }
      }
      CoalesceUnfolds(views[z].free, Block(p, c));
    }

    /** Takes back a block of zone `z` and merges it upwards. */
    method FreeIn(z: nat, pfn: nat, order: nat) returns (ghost merged: Block)
      requires Valid() && z < ZONE_COUNT && Block(pfn, order) in views[z].live
      modifies this, pages
      ensures Valid() && z < |old(zones)| == |old(views)|
      ensures var b := Block(pfn, order);
              && Aligned(b) && order <= MAX_ORDER
              && views == old(views)[z := AfterFree(old(views[z]), b)]
              && merged == Coalesce(old(views[z]).free, b).1
              && (merged.order == MAX_ORDER || Buddy(merged) !in views[z].free)
              && Regained(old(State()), State(), z, order, merged)
      ensures SameElsewhere(zones, old(zones), z)
      ensures Weight(zones[z].nrFree) == Weight(old(zones[z].nrFree)) + Pow2(order)
      ensures freePages == old(freePages) + Pow2(merged.order) && totalPages == old(totalPages)
    {
      hide Holds, Agrees, Linked, Spells, Partition, Weight, TotalWeight, Coalesce, Pow2;
      ghost var b := Block(pfn, order);
      AnyZone(State(), 0, z);
      Shape(State(), z, {}, z);
      PickUpStep(State(), z, b);
      views := views[z := views[z].(live := views[z].live - {b})];
      var p, c := MergeUp(z, pfn, order);
      merged := Block(p, c);
      Shape(State(), z, {merged}, z);
      PutReady(State(), z, merged);
      ghost var m := State();
      MarkAndPush(z, p, c);
      PutStep(m, z, merged, State());
      views := views[z := views[z].(free := views[z].free + {merged})];
      AnyZone(State(), z, 0);
      PowAtLeast(order, c);
      if c < MAX_ORDER {
        BuddyFacts(merged);
      }
      freePages := freePages + Pow2(c);
    }

    /** `free_pages`: takes back a block that is handed out and merges it upwards as far as
        free buddies allow.  Addresses outside every zone are ignored. */
    method FreePages(paddr: nat, order: nat) returns (ghost z: nat, ghost merged: Block)
      requires Valid()
      requires forall y :: 0 <= y < ZONE_COUNT && InZone(zones[y], paddr / PAGE_SIZE)
                           ==> Block(paddr / PAGE_SIZE, order) in views[y].live
      modifies this, pages
      ensures Valid() && z <= |old(zones)| == |old(views)|
      ensures z == ZONE_COUNT <==> forall y :: 0 <= y < |old(zones)| ==> !InZone(old(zones[y]), paddr / PAGE_SIZE)
      ensures z == ZONE_COUNT ==> State() == old(State()) && freePages == old(freePages)
      ensures z < ZONE_COUNT ==>
                var b := Block(paddr / PAGE_SIZE, order);
                && b in old(views[z]).live && Aligned(b) && order <= MAX_ORDER
                && views == old(views)[z := AfterFree(old(views[z]), b)]
                && merged == Coalesce(old(views[z]).free, b).1
                && (merged.order == MAX_ORDER || Buddy(merged) !in views[z].free)
                && Regained(old(State()), State(), z, order, merged)
      ensures z < ZONE_COUNT ==> SameElsewhere(zones, old(zones), z)
      ensures z < ZONE_COUNT ==> Weight(zones[z].nrFree) == Weight(old(zones[z].nrFree)) + Pow2(order)
      ensures z < ZONE_COUNT ==> freePages == old(freePages) + Pow2(merged.order)
      ensures totalPages == old(totalPages)
    {
      hide Holds, Agrees, Linked, Spells, Partition, Weight, TotalWeight, Coalesce, AfterFree, Regained;
      var pfn := paddr / PAGE_SIZE;
      z, merged := ZONE_COUNT, Block(0, 0);
      Shape(State(), 0, {}, 0);
      if pfn >= pages.Length {
        forall y | 0 <= y < ZONE_COUNT
          ensures !InZone(zones[y], pfn)
        {
          Shape(State(), 0, {}, y);
        }
        return;
      }
      var zi := FindZone(pfn);
      if zi == ZONE_COUNT {
        return;
      }
      z := zi;
      merged := FreeIn(zi, pfn, order);
    }

    /** A release without a merge, into the first zone able to serve its order, and then an allocation of
        that order: the block released is handed out again, and views and lists are as before. */
    method FreeThenAlloc(paddr: nat, order: nat) returns (r: Option<nat>, ghost z: nat, ghost merged: Block)
      requires Valid()
      requires forall y :: 0 <= y < ZONE_COUNT && InZone(zones[y], paddr / PAGE_SIZE)
                           ==> Block(paddr / PAGE_SIZE, order) in views[y].live
      modifies this, pages
      ensures Valid()
      ensures z < ZONE_COUNT == |old(views)| && merged == Block(paddr / PAGE_SIZE, order)
              && (forall y, b :: 0 <= y < z && b in old(views[y]).free ==> b.order < order)
              ==> r == Some(paddr / PAGE_SIZE * PAGE_SIZE) && views == old(views) && lists == old(lists)
    {
      hide Holds, Agrees, Linked, Spells, Partition, Weight, TotalWeight, Coalesce, AfterFree, AfterAlloc, Allotted, Regained, Aligned, Buddy, Exhausted, Apart;
      ghost var m := State();
      z, merged := FreePages(paddr, order);
      ghost var m1 := State();
      ghost var y, from;
      r, y, from := AllocPages(order);
      if z < ZONE_COUNT && merged == Block(paddr / PAGE_SIZE, order)
         && (forall y, b :: 0 <= y < z && b in m.views[y].free ==> b.order < order) {
        ReleasedIsNext(m, m1, State(), z, merged, r.None?, y, from);
      }
    }

    /** An allocation and the release of its block: where the block taken was maximal or had no free buddy,
        views and lists are as before, the order of every list included. */
    method AllocThenFree(order: nat) returns (r: Option<nat>, ghost z: nat, ghost from: Block)
      requires Valid()
      modifies this, pages
      ensures Valid() && |old(views)| == ZONE_COUNT
      ensures r.Some? ==> z < ZONE_COUNT && from in old(views[z]).free
      ensures r.None? || from.order == MAX_ORDER || Buddy(from) !in old(views[z]).free ==> views == old(views) && lists == old(lists)
    {
      hide Holds, Agrees, Linked, Spells, Partition, Weight, TotalWeight, Coalesce, AfterFree, AfterAlloc, Allotted, Regained, Aligned, Buddy, Exhausted, Apart;
      ghost var m := State();
      Shape(m, 0, {}, 0);
      r, z, from := AllocPages(order);
      if r.Some? {
        FreeIsAligned(m, z, from);
        ghost var m1 := State();
        AllottedIsLive(m1, z, Block(from.pfn, order), m.views[z], from, order);
        ghost var y, merged := FreePages(r.value, order);
        if from.order == MAX_ORDER || Buddy(from) !in m.views[z].free {
          ReturnedIsSame(m, m1, State(), z, from, order, merged);
        }
      }
    }
  }

  lemma ReleasedIsNext(m: Machine, m1: Machine, m2: Machine, z: nat, b: Block, refused: bool, y: nat, from: Block)
    requires Holds(m, 0, {}) && z < ZONE_COUNT && b in m.views[z].live && Aligned(b) && b.order <= MAX_ORDER
    requires Coalesce(m.views[z].free, b).1 == b && m1.views == m.views[z := AfterFree(m.views[z], b)]
    requires Regained(m, m1, z, b.order, b)
    requires forall y, c :: 0 <= y < z && c in m.views[y].free ==> c.order < b.order
    requires refused <==> Exhausted(m1.views, b.order)
    requires !refused ==> y < |m1.views| && from in m1.views[y].free && b.order <= from.order
    requires !refused ==> forall c :: c in m1.views[y].free && b.order <= c.order ==> from.order <= c.order
    requires !refused ==> forall x, c :: 0 <= x < y && c in m1.views[x].free ==> c.order < b.order
    requires !refused ==> m2.views == m1.views[y := AfterAlloc(m1.views[y], from, b.order)] && Allotted(m1, m2, y, from, b.order)
    ensures !refused && from == b && m2.views == m.views && m2.lists == m.lists
  {
    hide Holds, Linked, Spells, Partition, Aligned, Agrees, Allotted, Regained, Exhausted, Coalesce, Buddy, AfterAlloc, AfterFree;
    Shape(m, 0, {}, z);
    LiveIsNotFree(m.zones[z], m.pages, m.lists[z], m.views[z], b);
    ViewAgain(m.views[z], b);
    FirstServer(m.views, m1.views, z, b, refused, y, from);
    ListIsNext(m.lists, m1.lists, m2.lists, z, b, from) by {
      assert Regained(m, m1, z, b.order, b) && Allotted(m1, m2, z, from, b.order);
      RegainedAllotted(m, m1, m2, z, b, from);
    }
  }

  lemma ViewAgain(v: View, b: Block)
    requires Aligned(b) && b.order <= MAX_ORDER && b in v.live && b !in v.free && Coalesce(v.free, b).1 == b
    ensures b in AfterFree(v, b).free && AfterAlloc(AfterFree(v, b), b, b.order) == v
  {
    CoalesceStays(v.free, b);
    hide Coalesce;
    assert v.free + {b} - {b} + {} == v.free && v.live - {b} + {b} == v.live;
  }

  /** The zone of a released block is the first able to serve its order, with no smaller block. */
  lemma FirstServer(was: seq<View>, now: seq<View>, z: nat, b: Block, refused: bool, y: nat, from: Block)
    requires z < |was| == |now| && SameElsewhere(now, was, z) && b in now[z].free
    requires forall x, c :: 0 <= x < z && c in was[x].free ==> c.order < b.order
    requires refused <==> Exhausted(now, b.order)
    requires !refused ==> y < |now| && from in now[y].free && b.order <= from.order
    requires !refused ==> forall c :: c in now[y].free && b.order <= c.order ==> from.order <= c.order
    requires !refused ==> forall x, c :: 0 <= x < y && c in now[x].free ==> c.order < b.order
    ensures !refused && y == z && from.order == b.order
  {
  }

  lemma RegainedAllotted(m: Machine, m1: Machine, m2: Machine, z: nat, b: Block, from: Block)
    requires Regained(m, m1, z, b.order, b) && Allotted(m1, m2, z, from, b.order)
    ensures z < |m.lists| == |m1.lists| == |m2.lists| && SameElsewhere(m1.lists, m.lists, z) && SameElsewhere(m2.lists, m1.lists, z)
    ensures Returned(m.lists[z], m1.lists[z], b.order, b) && Dealt(m1.lists[z], m2.lists[z], from, b.order)
  {
    hide Returned, Dealt, OnlyIn;
  }

  lemma ListIsNext(a: seq<seq<seq<nat>>>, b: seq<seq<seq<nat>>>, c: seq<seq<seq<nat>>>, z: nat, block: Block, from: Block)
    requires z < |a| == |b| == |c| && SameElsewhere(b, a, z) && SameElsewhere(c, b, z)
    requires Returned(a[z], b[z], block.order, block) && Dealt(b[z], c[z], from, block.order) && from.order == block.order
    ensures from == block && c == a
  {
    assert b[z][block.order] == [block.pfn] + a[z][block.order];
    assert c[z] == a[z];
  }

  lemma LiveIsNotFree(zone: Zone, pages: seq<PhysPage>, lists: seq<seq<nat>>, v: View, b: Block)
    requires Agrees(zone, pages, lists, v, {}) && b in v.live
    ensures b !in v.free
  {
  }

  /** A climb that ends where it starts takes nothing. */
  lemma CoalesceStays(free: set<Block>, b: Block)
    requires Aligned(b) && b.order <= MAX_ORDER && Coalesce(free, b).1 == b
    ensures Coalesce(free, b).0 == free
  {
    CoalesceUnfolds(free, b);
  }

  lemma AllottedIsLive(m: Machine, z: nat, b: Block, v: View, from: Block, order: nat)
    requires Holds(m, 0, {}) && z < ZONE_COUNT && m.views[z] == AfterAlloc(v, from, order) && b == Block(from.pfn, order)
    ensures b in m.views[z].live && InZone(m.zones[z], b.pfn)
    ensures forall y :: 0 <= y < ZONE_COUNT && InZone(m.zones[y], b.pfn) ==> y == z
    ensures forall y :: 0 <= y < ZONE_COUNT && b in m.views[y].live ==> y == z
  {
    hide Linked, Agrees, Holds;
    Shape(m, 0, {}, z);
    PickUp(m.zones[z], m.pages, m.lists[z], m.views[z], b);
    forall y | 0 <= y < ZONE_COUNT && b in m.views[y].live
      ensures y == z
    {
      Shape(m, 0, {}, y);
      PickUp(m.zones[y], m.pages, m.lists[y], m.views[y], b);
    }
  }

  lemma FreeIsAligned(m: Machine, z: nat, b: Block)
    requires Holds(m, 0, {}) && z < ZONE_COUNT && b in m.views[z].free
    ensures Aligned(b)
  {
    hide Linked, Agrees, Holds;
    Shape(m, 0, {}, z);
    assert Agrees(m.zones[z], m.pages, m.lists[z], m.views[z], {});
    FreeAligned(m.zones[z], m.pages, m.lists[z], m.views[z], b);
  }

  lemma FreeAligned(zone: Zone, pages: seq<PhysPage>, lists: seq<seq<nat>>, v: View, b: Block)
    requires Agrees(zone, pages, lists, v, {}) && b in v.free
    ensures Aligned(b)
  {
    assert b in v.free + v.live + {};
  }

  lemma ReturnedIsSame(m: Machine, m1: Machine, m2: Machine, z: nat, from: Block, order: nat, merged: Block)
    requires Holds(m, 0, {}) && Holds(m1, 0, {}) && Holds(m2, 0, {}) && z < ZONE_COUNT && from in m.views[z].free && order <= from.order
    requires from.order == MAX_ORDER || Buddy(from) !in m.views[z].free
    requires m1.views == m.views[z := AfterAlloc(m.views[z], from, order)] && Allotted(m, m1, z, from, order)
    requires Aligned(Block(from.pfn, order)) && order <= MAX_ORDER
    requires m2.views == m1.views[z := AfterFree(m1.views[z], Block(from.pfn, order))]
    requires merged == Coalesce(m1.views[z].free, Block(from.pfn, order)).1 && Regained(m1, m2, z, order, merged)
    ensures m2.views == m.views && m2.lists == m.lists
  {
    hide Holds, Linked, Spells, Partition, OnlyIn, AfterAlloc, AfterFree, Coalesce, Aligned, Buddy, Pow2, Agrees, Returned, Dealt;
    Shape(m, 0, {}, z);
    Shape(m1, 0, {}, z);
    Shape(m2, 0, {}, z);
    ViewIsBack(m.zones[z], m.pages, m.lists[z], m.views[z], from, order);
    assert m2.views == m.views;
    ListsAreBack(m.lists[z], m1.lists[z], m2.lists[z], from, order) by {
      forall q, x: nat | 0 <= q <= MAX_ORDER
        ensures x in m2.lists[z][q] <==> x in m.lists[z][q]
      {
        ListedIff(m.zones[z], m.pages, m.lists[z], m.views[z], q, x);
        ListedIff(m2.zones[z], m2.pages, m2.lists[z], m2.views[z], q, x);
      }
    }
    assert m2.lists == m.lists;
  }

  lemma ListedIff(zone: Zone, pages: seq<PhysPage>, lists: seq<seq<nat>>, v: View, q: nat, x: nat)
    requires Agrees(zone, pages, lists, v, {}) && q <= MAX_ORDER
    ensures x in lists[q] <==> Block(x, q) in v.free
  {
  }

  lemma ViewIsBack(zone: Zone, pages: seq<PhysPage>, lists: seq<seq<nat>>, v: View, from: Block, order: nat)
    requires Agrees(zone, pages, lists, v, {}) && from in v.free && order <= from.order
    requires from.order == MAX_ORDER || Buddy(from) !in v.free
    ensures Aligned(Block(from.pfn, order)) && order <= MAX_ORDER
    ensures var w := AfterAlloc(v, from, order);
            AfterFree(w, Block(from.pfn, order)) == v && Coalesce(w.free, Block(from.pfn, order)).1 == from
  {
    hide Partition, Coalesce, Buddy, Aligned;
    assert v.free + v.live + {} == v.free + v.live;
    FreeUndoesAllocIff(v, from, order);
    RemergedIs(v, from, order);
  }

  lemma ListsAreBack(was: seq<seq<nat>>, mid: seq<seq<nat>>, now: seq<seq<nat>>, from: Block, order: nat)
    requires |was| == MAX_ORDER + 1 && Dealt(was, mid, from, order) && Returned(mid, now, order, from)
    requires forall q :: 0 <= q < |was| ==> NoDuplicates(mid[q])
    requires forall q, x: nat :: 0 <= q <= MAX_ORDER ==> (x in now[q] <==> x in was[q])
    ensures now == was
  {
    hide Pow2;
    forall q: nat | q < |was|
      ensures now[q] == was[q]
    {
      ListIsBack(was, mid, now, from, order, q);
    }
  }

  lemma ListIsBack(was: seq<seq<nat>>, mid: seq<seq<nat>>, now: seq<seq<nat>>, from: Block, order: nat, q: nat)
    requires |was| == MAX_ORDER + 1 && Dealt(was, mid, from, order) && Returned(mid, now, order, from) && q < |was|
    requires NoDuplicates(mid[q]) && forall x: nat :: x in now[q] <==> x in was[q]
    ensures now[q] == was[q]
  {
    hide Pow2, NoDuplicates, Without;
    if order <= q < from.order {
      assert LessOne(mid[q], now[q]);
      var k :| 0 <= k < |mid[q]| && now[q] == Without(mid[q], k);
      FrontTakenBack(was[q], from.pfn + Pow2(q), k);
    } else if q == from.order {
      assert [was[q][0]] + was[q][1..] == was[q];
    }
  }

  lemma FrontTakenBack(was: seq<nat>, x: nat, k: nat)
    requires k <= |was| && NoDuplicates([x] + was)
    requires forall y: nat :: y in Without([x] + was, k) <==> y in was
    ensures Without([x] + was, k) == was
  {
    var all, now := [x] + was, Without([x] + was, k);
    assert x in now || k == 0 by {
      assert k > 0 ==> now[0] == x;
    }
    assert forall i :: 0 <= i < |was| ==> was[i] == all[i + 1] && all[0] != all[i + 1];
  }

  lemma NothingPiled()
    ensures Piled([], [])
  {
  }

  lemma NothingYet(list: seq<seq<nat>>, pages: seq<PhysPage>, pfn: nat, o: nat)
    ensures Cut(list, list, pfn, o, o) && OnlyIn(pages, pages, Block(pfn, o))
  {
  }

  lemma NotClimbed(list: seq<seq<nat>>, order: nat)
    ensures Climbed(list, list, order, order)
  {
  }

  lemma OfferedMore(done: seq<MemoryRange>, r: MemoryRange)
    ensures forall x: nat :: Offered(done + [r], x) <==> Offered(done, x) || InRange(r, x)
  {
    var all := done + [r];
    forall x: nat | Offered(done, x) || InRange(r, x)
      ensures Offered(all, x)
    {
      if InRange(r, x) {
        assert all[|done|] == r;
      } else {
        var i :| 0 <= i < |done| && InRange(done[i], x);
        assert all[i] == done[i];
      }
    }
  }

  lemma StartsEmpty(maxPfn: nat, descs: MemoryRange)
    ensures forall z :: 0 <= z < ZONE_COUNT ==> Manages({}, BootZones(maxPfn)[z], [], 0, 0, descs)
  {
  }

  lemma NotOffered(mmap: seq<MemoryRange>, i: nat)
    requires NoOverlap(mmap) && i < |mmap|
    ensures forall x: nat :: InRange(mmap[i], x) ==> !Offered(mmap[..i], x)
  {
  }
}
