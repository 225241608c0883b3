/** The steps of the buddy allocator on its whole state: each keeps every zone consistent. */
module PageSteps {
  import opened Blocks
  import opened FreeLists
  import opened Zones
  import opened Pmm

  /** Changing one zone, and descriptors inside it only, leaves the others as they were. */
  lemma Reassemble(m: Machine, z: nat, hand: set<Block>, pages: seq<PhysPage>, zone: Zone, links: Links,
                   list: seq<seq<nat>>, view: View, hand': set<Block>)
    requires Holds(m, z, hand) && z < ZONE_COUNT
    requires zone.start == m.zones[z].start && zone.end == m.zones[z].end
    requires Agrees(zone, pages, list, view, hand')
    requires Linked(links, m.lists[z := list])
    requires |pages| == |m.pages|
    requires forall x :: 0 <= x < |pages| && !InZone(m.zones[z], x) ==> pages[x] == m.pages[x]
    ensures Holds(Machine(pages, m.zones[z := zone], links, m.lists[z := list], m.views[z := view]), z, hand')
  {
    var zones := m.zones[z := zone];
    assert forall y, x: nat :: 0 <= y < ZONE_COUNT ==> InZone(zones[y], x) == InZone(m.zones[y], x);
    forall i | 0 <= i < ZONE_COUNT
      ensures Agrees(zones[i], pages, m.lists[z := list][i], m.views[z := view][i], if i == z then hand' else {})
    {
      if i != z {
        assert forall x: nat :: InZone(m.zones[i], x) ==> !InZone(m.zones[z], x);
        ZoneFrame(m.zones[i], m.pages, pages, m.lists[i], m.views[i]);
      }
    }
  }

  /** A page frame of zone `z` at which no free block starts is on no list at all. */
  lemma NotListed(m: Machine, z: nat, hand: set<Block>, p: nat)
    requires Holds(m, z, hand) && z < ZONE_COUNT
    requires InZone(m.zones[z], p) && forall c :: c in m.views[z].free ==> c.pfn != p
    ensures Unlisted(m.lists, p)
  {
    forall y, q | 0 <= y < ZONE_COUNT && 0 <= q <= MAX_ORDER
      ensures p !in m.lists[y][q]
    {
      var h := if y == z then hand else {};
      var v, zone, c := m.views[y], m.zones[y], Block(p, q);
      assert Agrees(zone, m.pages, m.lists[y], v, h);
      assert c in v.free <==> p in m.lists[y][q];
      assert c in v.free ==> c in v.free + v.live + h && Contains(c, c.pfn) && InZone(zone, p);
    }
  }

  ghost predicate Unlisted(lists: seq<seq<seq<nat>>>, p: nat)
    requires |lists| == ZONE_COUNT && forall z :: 0 <= z < ZONE_COUNT ==> |lists[z]| == MAX_ORDER + 1
  {
    forall y, q :: 0 <= y < ZONE_COUNT && 0 <= q <= MAX_ORDER ==> p !in lists[y][q]
  }

  /** The shape of the state, and what it says of one zone. */
  lemma Shape(m: Machine, z: nat, hand: set<Block>, y: nat)
    requires Holds(m, z, hand) && y < ZONE_COUNT
    ensures |m.zones| == |m.lists| == |m.views| == ZONE_COUNT && Linked(m.links, m.lists) && Apart(m.zones)
    ensures |m.zones[y].nrFree| == |m.lists[y]| == MAX_ORDER + 1 && m.zones[y].end <= |m.pages|
    ensures Agrees(m.zones[y], m.pages, m.lists[y], m.views[y], if y == z then hand else {})
    ensures forall o :: 0 <= o <= MAX_ORDER ==> m.zones[y].nrFree[o] == |m.lists[y][o]|
    ensures forall o :: 0 <= o <= MAX_ORDER ==> Spells(m.links, Sentinel(y, o), m.lists[y][o]) && NoDuplicates(m.lists[y][o])
    ensures forall b :: b in m.views[y].free ==> b.order <= MAX_ORDER && b.pfn in m.lists[y][b.order]
  {
  }

  /** With an empty hand it does not matter in which zone. */
  lemma AnyZone(m: Machine, y: nat, z: nat)
    requires Holds(m, y, {})
    ensures Holds(m, z, {})
  {
  }

  function TotalWeight(zones: seq<Zone>): nat {
    if |zones| == 0 then 0 else TotalWeight(zones[..|zones| - 1]) + Weight(zones[|zones| - 1].nrFree)
  }

  lemma {:induction false} TotalUpdate(zones: seq<Zone>, z: nat, zone: Zone)
    requires z < |zones|
    ensures TotalWeight(zones[z := zone]) + Weight(zones[z].nrFree) == TotalWeight(zones) + Weight(zone.nrFree)
  {
    var n := |zones| - 1;
    if z < n {
      TotalUpdate(zones[..n], z, zone);
      assert zones[z := zone][..n] == zones[..n][z := zone];
    } else {
      assert zones[z := zone][..n] == zones[..n];
    }
  }

  ghost predicate SameElsewhere<T>(a: seq<T>, b: seq<T>, z: nat) {
    |a| == |b| && forall i :: 0 <= i < |a| && i != z ==> a[i] == b[i]
  }


  lemma FirstOfRing(links: Links, head: Node, s: seq<nat>)
    requires Spells(links, head, s) && |s| > 0
    ensures head in links.next && links.next[head] == Page(s[0])
  {
    assert LinkedAt(links, head, s, 0);
  }

  lemma EmptyZone(zone: Zone, pages: seq<PhysPage>, lists: seq<seq<nat>>, v: View)
    requires Agrees(zone, pages, lists, v, {}) && zone.end <= zone.start
    ensures v.free == {}
  {
    assert forall b :: b in v.free ==> b in v.free + v.live + {} && Contains(b, b.pfn) && InZone(zone, b.pfn);
  }

  /** List lengths tell the orders of the free blocks. */
  lemma SmallestOrder(zone: Zone, pages: seq<PhysPage>, lists: seq<seq<nat>>, v: View, order: nat, o: nat)
    requires Agrees(zone, pages, lists, v, {}) && order <= o <= MAX_ORDER
    requires forall q :: order <= q < o ==> zone.nrFree[q] == 0
    ensures forall b :: b in v.free && order <= b.order ==> o <= b.order
    ensures zone.nrFree[o] > 0 ==> exists b :: b in v.free && b.order == o
  {
    if zone.nrFree[o] > 0 {
      var b := Block(lists[o][0], o);
      assert b.pfn in lists[b.order];
      assert b in v.free;
    }
  }

  lemma RightHalfIsNoHead(zone: Zone, pages: seq<PhysPage>, lists: seq<seq<nat>>, v: View, b: Block)
    requires Agrees(zone, pages, lists, v, {b}) && b.order > 0
    ensures forall h :: h in v.free ==> h.pfn != RightHalf(b).pfn
  {
    var all := v.free + v.live + {b};
    assert b in all && Contains(b, RightHalf(b).pfn);
    assert forall h :: h in v.free ==> h in all && Contains(h, h.pfn);
  }

  lemma {:induction false} PowAtLeast(a: nat, b: nat)
    requires a <= b
    ensures Pow2(a) <= Pow2(b)
    decreases b
  {
    if a < b {
      PowAtLeast(a, b - 1);
    }
  }

  // ---- the order of the lists ----------------------------------------------------

  /** The lists of a zone after the upper halves of a block at `pfn` of order `o` went in front of theirs. */
  ghost predicate Cut(was: seq<seq<nat>>, now: seq<seq<nat>>, pfn: nat, o: nat, order: nat) {
    && |now| == |was|
    && forall q :: 0 <= q < |was| ==> now[q] == if order <= q < o then [pfn + Pow2(q)] + was[q] else was[q]
  }

  /** The lists of a zone after an allocation: the first block of its list is taken and its upper halves
      go in front of theirs. */
  ghost predicate Dealt(was: seq<seq<nat>>, now: seq<seq<nat>>, from: Block, order: nat) {
    && |now| == |was| && from.order < |was| && was[from.order] != [] && was[from.order][0] == from.pfn
    && forall q :: 0 <= q < |was| ==>
         now[q] == if q == from.order then was[q][1..] else if order <= q < from.order then [from.pfn + Pow2(q)] + was[q] else was[q]
  }

  /** One page frame less, the others in their order. */
  ghost predicate LessOne(was: seq<nat>, now: seq<nat>) {
    exists k :: 0 <= k < |was| && now == Without(was, k)
  }

  /** The lists of a zone after a block of order `order` climbed to order `c`. */
  ghost predicate Climbed(was: seq<seq<nat>>, now: seq<seq<nat>>, order: nat, c: nat) {
    && |now| == |was|
    && forall q :: 0 <= q < |was| ==> if order <= q < c then LessOne(was[q], now[q]) else now[q] == was[q]
  }

  /** The lists of a zone after a release: a block less at every order merged through, and the merged block
      in front of its list. */
  ghost predicate Returned(was: seq<seq<nat>>, now: seq<seq<nat>>, order: nat, merged: Block) {
    && |now| == |was|
    && forall q :: 0 <= q < |was| ==>
         if order <= q < merged.order then LessOne(was[q], now[q])
         else now[q] == if q == merged.order then [merged.pfn] + was[q] else was[q]
  }

  /** Only descriptors in the block changed, and of reference counts at most the one at its start. */
  ghost predicate OnlyIn(was: seq<PhysPage>, now: seq<PhysPage>, b: Block) {
    && |now| == |was|
    && forall x :: 0 <= x < |was| ==> (!Contains(b, x) ==> now[x] == was[x]) && (x != b.pfn ==> now[x].refcount == was[x].refcount)
  }

  /** What an allocation from zone `z` does to lists and descriptors. */
  ghost predicate Allotted(m: Machine, m': Machine, z: nat, from: Block, order: nat) {
    && z < |m.lists| == |m'.lists| && SameElsewhere(m'.lists, m.lists, z) && Dealt(m.lists[z], m'.lists[z], from, order)
    && OnlyIn(m.pages, m'.pages, from)
    && from.pfn < |m'.pages| && m'.pages[from.pfn] == PhysPage(ALLOCATED, order, 0)
  }

  /** What a release to zone `z` at order `order` does to lists and descriptors. */
  ghost predicate Regained(m: Machine, m': Machine, z: nat, order: nat, merged: Block) {
    && z < |m.lists| == |m'.lists| && SameElsewhere(m'.lists, m.lists, z) && Returned(m.lists[z], m'.lists[z], order, merged)
    && merged.pfn < |m.pages|
    && m'.pages == m.pages[merged.pfn := PhysPage(BUDDY, merged.order, m.pages[merged.pfn].refcount)]
  }

  lemma CutIsDealt(was: seq<seq<nat>>, now: seq<seq<nat>>, from: Block, order: nat)
    requires from.order < |was| && was[from.order] != [] && was[from.order][0] == from.pfn && order <= from.order
    requires Cut(was[from.order := was[from.order][1..]], now, from.pfn, from.order, order)
    ensures Dealt(was, now, from, order)
  {
    hide Pow2;
  }

  lemma OnlyInAlloc(was: seq<PhysPage>, now: seq<PhysPage>, b: Block, order: nat)
    requires OnlyIn(was, now, b) && b.pfn < |now|
    ensures OnlyIn(was, now[b.pfn := PhysPage(ALLOCATED, order, 0)], b)
  {
  }

  lemma CutMore(was: seq<seq<nat>>, now: seq<seq<nat>>, pfn: nat, o: nat, c: nat)
    requires Cut(was, now, pfn, o, c) && 0 < c <= o && c <= |was|
    ensures Cut(was, now[c - 1 := [pfn + Pow2(c - 1)] + now[c - 1]], pfn, o, c - 1)
  {
    hide Pow2;
  }

  lemma OnlyInMore(was: seq<PhysPage>, now: seq<PhysPage>, pfn: nat, o: nat, c: nat)
    requires OnlyIn(was, now, Block(pfn, o)) && 0 < c <= o && pfn + Pow2(c - 1) < |now|
    ensures var u := pfn + Pow2(c - 1);
            OnlyIn(was, now[u := PhysPage(BUDDY, c - 1, now[u].refcount)], Block(pfn, o))
  {
    PowAtLeast(c, o);
  }

  lemma ClimbedMore(was: seq<seq<nat>>, now: seq<seq<nat>>, order: nat, c: nat, k: nat)
    requires Climbed(was, now, order, c) && order <= c < |was| && k < |now[c]|
    ensures Climbed(was, now[c := Without(now[c], k)], order, c + 1)
  {
    assert now[c] == was[c];
    assert LessOne(was[c], Without(now[c], k));
  }

  // ---- steps on the whole state ----------------------------------------------------

  /** The state after page frame `p` is marked free, pushed on the list of order `o` of
      zone `z` and counted. */
  ghost predicate Pushed(m: Machine, z: nat, p: nat, o: nat, m': Machine)
    requires |m.zones| == |m.lists| == ZONE_COUNT && z < ZONE_COUNT && o < |m.zones[z].nrFree| && o < |m.lists[z]|
    requires p < |m.pages|
  {
    && m'.pages == m.pages[p := PhysPage(BUDDY, o, m.pages[p].refcount)]
    && m'.zones == m.zones[z := Resized(m.zones[z], o, m.zones[z].nrFree[o] + 1)]
    && m'.lists == m.lists[z := m.lists[z][o := [p] + m.lists[z][o]]]
    && Linked(m'.links, m'.lists)
  }

  /** The state after the node at position `k` is spliced out and counted off. */
  ghost predicate Detached(m: Machine, z: nat, o: nat, k: nat, m': Machine)
    requires |m.zones| == |m.lists| == ZONE_COUNT && z < ZONE_COUNT && o < |m.zones[z].nrFree| && o < |m.lists[z]|
    requires k < |m.lists[z][o]| == m.zones[z].nrFree[o]
  {
    && m'.pages == m.pages
    && m'.zones == m.zones[z := Resized(m.zones[z], o, m.zones[z].nrFree[o] - 1)]
    && m'.lists == m.lists[z := m.lists[z][o := Without(m.lists[z][o], k)]]
    && Linked(m'.links, m'.lists)
  }

  /** Counting one block of order `o` more or less. */
  lemma CountUp(zones: seq<Zone>, z: nat, o: nat)
    requires z < |zones| && o < |zones[z].nrFree|
    ensures var zones' := zones[z := Resized(zones[z], o, zones[z].nrFree[o] + 1)];
            && Weight(zones'[z].nrFree) == Weight(zones[z].nrFree) + Pow2(o)
            && TotalWeight(zones') == TotalWeight(zones) + Pow2(o)
  {
    hide Weight, TotalWeight;
    WeightUp(zones[z].nrFree, o);
    TotalUpdate(zones, z, Resized(zones[z], o, zones[z].nrFree[o] + 1));
  }

  lemma CountDown(zones: seq<Zone>, z: nat, o: nat)
    requires z < |zones| && o < |zones[z].nrFree| && zones[z].nrFree[o] > 0
    ensures var zones' := zones[z := Resized(zones[z], o, zones[z].nrFree[o] - 1)];
            && Weight(zones'[z].nrFree) + Pow2(o) == Weight(zones[z].nrFree)
            && TotalWeight(zones') + Pow2(o) == TotalWeight(zones)
  {
    hide Weight, TotalWeight;
    var less := Resized(zones[z], o, zones[z].nrFree[o] - 1);
    WeightUp(less.nrFree, o);
    assert less.nrFree[o := less.nrFree[o] + 1] == zones[z].nrFree;
    TotalUpdate(zones, z, less);
  }

  lemma TakeStep(m: Machine, z: nat, o: nat, m': Machine)
    requires Holds(m, z, {}) && z < ZONE_COUNT && o <= MAX_ORDER && m.zones[z].nrFree[o] > 0
    requires Detached(m, z, o, 0, m')
    ensures var b := Block(m.lists[z][o][0], o);
            && b in m.views[z].free
            && Holds(m'.(views := m.views[z := m.views[z].(free := m.views[z].free - {b})]), z, {b})
    ensures Weight(m'.zones[z].nrFree) + Pow2(o) == Weight(m.zones[z].nrFree)
    ensures TotalWeight(m'.zones) + Pow2(o) == TotalWeight(m.zones)
  {
    hide Holds, Agrees, Linked, Spells, Partition, Weight, TotalWeight;
    Shape(m, z, {}, z);
    var b := Block(m.lists[z][o][0], o);
    Take(m.zones[z], m.pages, m.lists[z], m.views[z], o, 0);
    Reassemble(m, z, {}, m.pages, m'.zones[z], m'.links, m'.lists[z], m.views[z].(free := m.views[z].free - {b}), {b});
    CountDown(m.zones, z, o);
  }

  lemma SplitReady(m: Machine, z: nat, b: Block)
    requires Holds(m, z, {b}) && z < ZONE_COUNT && b.order > 0
    ensures var r := RightHalf(b);
            r.order < MAX_ORDER && r.pfn < |m.pages| && InZone(m.zones[z], r.pfn) && Unlisted(m.lists, r.pfn)
  {
    var d := PhysPage(BUDDY, b.order - 1, 0);
    HeldHead(m.zones[z], m.pages, m.lists[z], m.views[z], b);
    Split(m.zones[z], m.pages, m.lists[z], m.views[z], b, d);
    RightHalfIsNoHead(m.zones[z], m.pages, m.lists[z], m.views[z], b);
    NotListed(m, z, {b}, RightHalf(b).pfn);
  }

  lemma SplitStep(m: Machine, z: nat, b: Block, m': Machine)
    requires Holds(m, z, {b}) && z < ZONE_COUNT && 0 < b.order <= MAX_ORDER && RightHalf(b).pfn < |m.pages|
    requires Pushed(m, z, RightHalf(b).pfn, b.order - 1, m')
    ensures Holds(m'.(views := m.views[z := m.views[z].(free := m.views[z].free + {RightHalf(b)})]), z, {LeftHalf(b)})
    ensures Weight(m'.zones[z].nrFree) == Weight(m.zones[z].nrFree) + Pow2(b.order - 1)
    ensures TotalWeight(m'.zones) == TotalWeight(m.zones) + Pow2(b.order - 1)
  {
    hide Holds, Agrees, Linked, Spells, Partition, Weight, TotalWeight;
    Shape(m, z, {b}, z);
    var r := RightHalf(b);
    var d := PhysPage(BUDDY, r.order, m.pages[r.pfn].refcount);
    Split(m.zones[z], m.pages, m.lists[z], m.views[z], b, d);
    Reassemble(m, z, {b}, m'.pages, m'.zones[z], m'.links, m'.lists[z], m.views[z].(free := m.views[z].free + {r}), {LeftHalf(b)});
    CountUp(m.zones, z, r.order);
  }

  lemma GiveStep(m: Machine, z: nat, b: Block)
    requires Holds(m, z, {b}) && z < ZONE_COUNT
    ensures b.pfn < |m.pages|
    ensures Holds(m.(pages := m.pages[b.pfn := PhysPage(ALLOCATED, b.order, 0)],
                     views := m.views[z := m.views[z].(live := m.views[z].live + {b})]), z, {})
  {
    hide Holds, Agrees, Linked, Spells, Partition, Weight, TotalWeight;
    Shape(m, z, {b}, z);
    var d := PhysPage(ALLOCATED, b.order, 0);
    Give(m.zones[z], m.pages, m.lists[z], m.views[z], b, d);
    assert m.lists[z := m.lists[z]] == m.lists && m.zones[z := m.zones[z]] == m.zones;
    Reassemble(m, z, {b}, m.pages[b.pfn := d], m.zones[z], m.links, m.lists[z], m.views[z].(live := m.views[z].live + {b}), {});
  }

  lemma PickUpStep(m: Machine, z: nat, b: Block)
    requires Holds(m, z, {}) && z < ZONE_COUNT && b in m.views[z].live
    ensures Aligned(b) && b.order <= MAX_ORDER && InZone(m.zones[z], b.pfn)
    ensures Holds(m.(views := m.views[z := m.views[z].(live := m.views[z].live - {b})]), z, {b})
  {
    hide Holds, Agrees, Linked, Spells, Partition, Weight, TotalWeight;
    Shape(m, z, {}, z);
    PickUp(m.zones[z], m.pages, m.lists[z], m.views[z], b);
    assert m.lists[z := m.lists[z]] == m.lists && m.zones[z := m.zones[z]] == m.zones;
    Reassemble(m, z, {}, m.pages, m.zones[z], m.links, m.lists[z], m.views[z].(live := m.views[z].live - {b}), {b});
  }

  lemma MergeStep(m: Machine, z: nat, b: Block, k: nat, m': Machine)
    requires Holds(m, z, {b}) && z < ZONE_COUNT && b.order < MAX_ORDER && Aligned(b)
    requires k < |m.lists[z][b.order]| && m.lists[z][b.order][k] == Buddy(b).pfn
    requires Detached(m, z, b.order, k, m')
    ensures Aligned(Parent(b))
    ensures Holds(m'.(views := m.views[z := m.views[z].(free := m.views[z].free - {Buddy(b)})]), z, {Parent(b)})
    ensures Weight(m'.zones[z].nrFree) + Pow2(b.order) == Weight(m.zones[z].nrFree)
    ensures TotalWeight(m'.zones) + Pow2(b.order) == TotalWeight(m.zones)
  {
    hide Holds, Agrees, Linked, Spells, Partition, Weight, TotalWeight;
    Shape(m, z, {b}, z);
    Merge(m.zones[z], m.pages, m.lists[z], m.views[z], b, k);
    Reassemble(m, z, {b}, m.pages, m'.zones[z], m'.links, m'.lists[z], m.views[z].(free := m.views[z].free - {Buddy(b)}), {Parent(b)});
    CountDown(m.zones, z, b.order);
  }

  lemma PutReady(m: Machine, z: nat, b: Block)
    requires Holds(m, z, {b}) && z < ZONE_COUNT
    ensures b.order <= MAX_ORDER && b.pfn < |m.pages| && InZone(m.zones[z], b.pfn) && Unlisted(m.lists, b.pfn)
  {
    HeldHead(m.zones[z], m.pages, m.lists[z], m.views[z], b);
    NotListed(m, z, {b}, b.pfn);
  }

  lemma PutStep(m: Machine, z: nat, b: Block, m': Machine)
    requires Holds(m, z, {b}) && z < ZONE_COUNT && b.order <= MAX_ORDER && b.pfn < |m.pages|
    requires Pushed(m, z, b.pfn, b.order, m')
    ensures Holds(m'.(views := m.views[z := m.views[z].(free := m.views[z].free + {b})]), z, {})
    ensures Weight(m'.zones[z].nrFree) == Weight(m.zones[z].nrFree) + Pow2(b.order)
    ensures TotalWeight(m'.zones) == TotalWeight(m.zones) + Pow2(b.order)
  {
    hide Holds, Agrees, Linked, Spells, Partition, Weight, TotalWeight;
    Shape(m, z, {b}, z);
    var d := PhysPage(BUDDY, b.order, m.pages[b.pfn].refcount);
    Put(m.zones[z], m.pages, m.lists[z], m.views[z], b, d);
    Reassemble(m, z, {b}, m'.pages, m'.zones[z], m'.links, m'.lists[z], m.views[z].(free := m.views[z].free + {b}), {});
    CountUp(m.zones, z, b.order);
  }

  /** A new page frame of a zone joins as a held block of order 0. */
  lemma GrowStep(m: Machine, z: nat, p: nat)
    requires Holds(m, z, {}) && z < ZONE_COUNT && InZone(m.zones[z], p) && p !in m.views[z].managed
    ensures Holds(m.(views := m.views[z := m.views[z].(managed := m.views[z].managed + {p})]), z, {Block(p, 0)})
  {
    hide Holds, Agrees, Linked, Spells, Partition, Weight, TotalWeight;
    Shape(m, z, {}, z);
    Grow(m.zones[z], m.pages, m.lists[z], m.views[z], p);
    assert m.lists[z := m.lists[z]] == m.lists && m.zones[z := m.zones[z]] == m.zones;
    Reassemble(m, z, {}, m.pages, m.zones[z], m.links, m.lists[z], m.views[z].(managed := m.views[z].managed + {p}), {Block(p, 0)});
  }
}
