/** The buddy page allocator: descriptors, linked free lists and counters updated in
    place, refining the block view of each zone. */
module Pmm {
  import opened Blocks
  import opened FreeLists
  import opened Zones

  const PAGE_SIZE: nat := 4096
  const ZONE_COUNT: nat := 3

  const NONE: bv32 := 0
  const ALLOCATED: bv32 := 1
  const BUDDY: bv32 := 8

  /** The descriptor of one page frame. */
  datatype PhysPage = PhysPage(flags: bv32, order: nat, refcount: nat)

  predicate IsFree(p: PhysPage) {
    p.flags & BUDDY != 0
  }

  /** Page frames [start, end) and the length of the free list of every order. */
  datatype Zone = Zone(start: nat, end: nat, nrFree: seq<nat>)

  predicate InZone(z: Zone, pfn: nat) {
    z.start <= pfn < z.end
  }

  /** Pages counted by a row of list lengths. */
  function Weight(nr: seq<nat>): nat {
    if |nr| == 0 then 0 else Weight(nr[..|nr| - 1]) + nr[|nr| - 1] * Pow2(|nr| - 1)
  }

  /** One more list entry of order `o` weighs 2^o. */
  lemma {:induction false} WeightUp(nr: seq<nat>, o: nat)
    requires o < |nr|
    ensures Weight(nr[o := nr[o] + 1]) == Weight(nr) + Pow2(o)
  {
    var n := |nr| - 1;
    var now := nr[o := nr[o] + 1];
    if o < n {
      WeightUp(nr[..n], o);
      assert now[..n] == nr[..n][o := nr[..n][o] + 1];
    } else {
      assert now[..n] == nr[..n];
      assert now[n] * Pow2(n) == nr[n] * Pow2(n) + Pow2(n);
    }
  }

  ghost predicate Described(p: PhysPage, flags: bv32, order: nat) {
    p.flags == flags && p.order == order
  }

  /** Descriptors, list contents and counters of a zone agree with its block view.
      `hand` is the block an operation is holding, in neither list nor live.
      Only descriptors at the start of a block are described: those inside a block may
      still say anything. */
  ghost predicate Agrees(zone: Zone, pages: seq<PhysPage>, lists: seq<seq<nat>>, v: View, hand: set<Block>) {
    && |zone.nrFree| == |lists| == MAX_ORDER + 1
    && zone.end <= |pages|
    && (forall o :: 0 <= o <= MAX_ORDER ==> zone.nrFree[o] == |lists[o]|)
    && (forall b :: b in v.free <==> b.order <= MAX_ORDER && b.pfn in lists[b.order])
    && v.free !! v.live && v.free !! hand && v.live !! hand
    && Partition(v.free + v.live + hand, v.managed)
    && (forall x :: x in v.managed ==> InZone(zone, x))
    && (forall b :: b in v.free ==> b.pfn < |pages| && Described(pages[b.pfn], BUDDY, b.order))
    && (forall b :: b in v.live ==> b.pfn < |pages| && Described(pages[b.pfn], ALLOCATED, b.order))
    && (forall x: nat :: InZone(zone, x) && x !in v.managed ==> pages[x].flags == NONE)
  }

  /** Every list spells its contents, and no page frame is on two lists. */
  ghost predicate Linked(links: Links, lists: seq<seq<seq<nat>>>) {
    && |lists| == ZONE_COUNT
    && (forall z :: 0 <= z < ZONE_COUNT ==> |lists[z]| == MAX_ORDER + 1)
    && (forall z, o :: 0 <= z < ZONE_COUNT && 0 <= o <= MAX_ORDER ==> Spells(links, Sentinel(z, o), lists[z][o]))
    && (forall z, o, y, p, x | 0 <= z < ZONE_COUNT && 0 <= o <= MAX_ORDER && 0 <= y < ZONE_COUNT && 0 <= p <= MAX_ORDER ::
          x in lists[z][o] && x in lists[y][p] ==> z == y && o == p)
  }

  ghost predicate Apart(zones: seq<Zone>) {
    forall y, z, x :: 0 <= y < z < |zones| && InZone(zones[y], x) ==> !InZone(zones[z], x)
  }

  /** The whole state: descriptors, zones and links, and the contents and views they
      stand for. */
  datatype Machine = Machine(pages: seq<PhysPage>, zones: seq<Zone>, links: Links,
                             lists: seq<seq<seq<nat>>>, views: seq<View>)

  /** The state is consistent, with `hand` held in zone `z`. */
  ghost predicate Holds(m: Machine, z: nat, hand: set<Block>) {
    && |m.zones| == |m.lists| == |m.views| == ZONE_COUNT
    && Apart(m.zones)
    && Linked(m.links, m.lists)
    && forall i :: 0 <= i < ZONE_COUNT ==> Agrees(m.zones[i], m.pages, m.lists[i], m.views[i], if i == z then hand else {})
  }

  // ---- the buddy test -------------------------------------------------------------

  /** Reading BUDDY with the right order at the buddy's descriptor names a block that is on
      the free list of that order, and conversely; stale descriptors are never believed. */
  lemma BuddyTestSound(zone: Zone, pages: seq<PhysPage>, lists: seq<seq<nat>>, v: View, b: Block)
    requires Agrees(zone, pages, lists, v, {b}) && b.order < MAX_ORDER
    ensures Aligned(b) && InZone(zone, b.pfn)
    ensures var u := Buddy(b).pfn;
            (InZone(zone, u) && IsFree(pages[u]) && pages[u].order == b.order) <==> u in lists[b.order]
    ensures Buddy(b) in v.free <==> Buddy(b).pfn in lists[b.order]
  {
    var all := v.free + v.live + {b};
    assert b in all && Contains(b, b.pfn);
    BuddyFacts(b);
    var u := Buddy(b);
    assert Contains(u, u.pfn);
    if u in v.free {
      assert u in all;
    } else if u.pfn in v.managed {
      var h :| h in all && Contains(h, u.pfn);
      HeadOrLarger(all, v.managed, b, h);
      assert h != b;
      assert h in v.free ==> h.order != u.order;
    }
  }

  // ---- moves on one zone -----------------------------------------------------------

  /** Another zone does not notice a descriptor write outside it. */
  lemma ZoneFrame(zone: Zone, pages: seq<PhysPage>, now: seq<PhysPage>, lists: seq<seq<nat>>, v: View)
    requires Agrees(zone, pages, lists, v, {})
    requires |now| == |pages| && forall x: nat :: InZone(zone, x) ==> now[x] == pages[x]
    ensures Agrees(zone, now, lists, v, {})
  {
    var all := v.free + v.live + {};
    forall b | b in all
      ensures InZone(zone, b.pfn)
    {
      assert Contains(b, b.pfn);
    }
    assert forall b :: b in v.free || b in v.live ==> b in all;
  }

  ghost function Resized(zone: Zone, o: nat, n: nat): Zone
    requires o < |zone.nrFree|
  {
    zone.(nrFree := zone.nrFree[o := n])
  }

  /** Taking position `k` off the list of order `o` puts that block in the hand. */
  lemma Take(zone: Zone, pages: seq<PhysPage>, lists: seq<seq<nat>>, v: View, o: nat, k: nat)
    requires Agrees(zone, pages, lists, v, {}) && o <= MAX_ORDER && k < |lists[o]| && NoDuplicates(lists[o])
    ensures var b := Block(lists[o][k], o);
            && b in v.free
            && Agrees(Resized(zone, o, zone.nrFree[o] - 1), pages, lists[o := Without(lists[o], k)],
                      v.(free := v.free - {b}), {b})
  {
    var b := Block(lists[o][k], o);
    assert b.pfn in lists[b.order];
    assert v.free + v.live + {} == (v.free - {b}) + v.live + {b};
    RemovedOnly(lists[o], k);
  }

  lemma RemovedOnly(s: seq<nat>, k: nat)
    requires k < |s| && NoDuplicates(s)
    ensures forall x :: x in Without(s, k) <==> x in s && x != s[k]
    ensures NoDuplicates(Without(s, k))
  {
    var t := Without(s, k);
    forall x | x in s && x != s[k]
      ensures x in t
    {
      var i :| 0 <= i < |s| && s[i] == x;
      assert if i < k then t[i] == x else t[i - 1] == x;
    }
  }

  /** Merging the held block with its free buddy. */
  lemma Merge(zone: Zone, pages: seq<PhysPage>, lists: seq<seq<nat>>, v: View, b: Block, k: nat)
    requires Agrees(zone, pages, lists, v, {b}) && b.order < MAX_ORDER && Aligned(b) && NoDuplicates(lists[b.order])
    requires k < |lists[b.order]| && lists[b.order][k] == Buddy(b).pfn
    ensures var u := Buddy(b);
            && u in v.free && Aligned(Parent(b))
            && Agrees(Resized(zone, b.order, zone.nrFree[b.order] - 1), pages,
                      lists[b.order := Without(lists[b.order], k)], v.(free := v.free - {u}), {Parent(b)})
  {
    var u := Buddy(b);
    BuddyFacts(b);
    assert u.pfn in lists[u.order];
    var rest := (v.free - {u}) + v.live;
    assert v.free + v.live + {b} == rest + {b, u};
    MergeKeepsPartition(rest, b, v.managed);
    RemovedOnly(lists[b.order], k);
  }

  /** Putting the right half of the held block on its list. */
  lemma Split(zone: Zone, pages: seq<PhysPage>, lists: seq<seq<nat>>, v: View, b: Block, d: PhysPage)
    requires Agrees(zone, pages, lists, v, {b}) && b.order > 0
    requires Described(d, BUDDY, b.order - 1)
    ensures var r := RightHalf(b);
            && r !in v.free && r.pfn < |pages| && r.pfn !in lists[r.order] && InZone(zone, r.pfn)
            && Agrees(Resized(zone, r.order, zone.nrFree[r.order] + 1), pages[r.pfn := d],
                      lists[r.order := [r.pfn] + lists[r.order]], v.(free := v.free + {r}), {LeftHalf(b)})
  {
    var l, r := LeftHalf(b), RightHalf(b);
    var all := v.free + v.live + {b};
    assert b in all && Contains(b, r.pfn);
    assert all == (v.free + v.live) + {b};
    SplitKeepsPartition(v.free + v.live, b, v.managed);
    assert (v.free + {r}) + v.live + {l} == (v.free + v.live) + {l, r};
    forall c | c in v.free + v.live
      ensures c.pfn != r.pfn
    {
      assert c in all && Contains(c, c.pfn);
    }
  }

  /** Handing out the held block. */
  lemma Give(zone: Zone, pages: seq<PhysPage>, lists: seq<seq<nat>>, v: View, b: Block, d: PhysPage)
    requires Agrees(zone, pages, lists, v, {b})
    requires Described(d, ALLOCATED, b.order)
    ensures b.pfn < |pages| && InZone(zone, b.pfn)
    ensures Agrees(zone, pages[b.pfn := d], lists, v.(live := v.live + {b}), {})
  {
    HeldHead(zone, pages, lists, v, b);
    assert v.free + (v.live + {b}) + {} == v.free + v.live + {b};
  }

  /** Putting the held block on its list. */
  lemma Put(zone: Zone, pages: seq<PhysPage>, lists: seq<seq<nat>>, v: View, b: Block, d: PhysPage)
    requires Agrees(zone, pages, lists, v, {b})
    requires Described(d, BUDDY, b.order)
    ensures b.order <= MAX_ORDER && b.pfn < |pages| && InZone(zone, b.pfn) && b.pfn !in lists[b.order]
    ensures Agrees(Resized(zone, b.order, zone.nrFree[b.order] + 1), pages[b.pfn := d],
                   lists[b.order := [b.pfn] + lists[b.order]], v.(free := v.free + {b}), {})
  {
    HeldHead(zone, pages, lists, v, b);
    assert (v.free + {b}) + v.live + {} == v.free + v.live + {b};
  }

  lemma HeldHead(zone: Zone, pages: seq<PhysPage>, lists: seq<seq<nat>>, v: View, b: Block)
    requires Agrees(zone, pages, lists, v, {b})
    ensures b.order <= MAX_ORDER && Aligned(b) && b.pfn in v.managed && InZone(zone, b.pfn)
    ensures forall c :: c in v.free + v.live ==> c.pfn != b.pfn
  {
    var all := v.free + v.live + {b};
    assert b in all && Contains(b, b.pfn);
    forall c | c in v.free + v.live
      ensures c.pfn != b.pfn
    {
      assert c in all && Contains(c, c.pfn);
    }
  }

  /** Picking a handed-out block up again. */
  lemma PickUp(zone: Zone, pages: seq<PhysPage>, lists: seq<seq<nat>>, v: View, b: Block)
    requires Agrees(zone, pages, lists, v, {}) && b in v.live
    ensures Agrees(zone, pages, lists, v.(live := v.live - {b}), {b})
    ensures Aligned(b) && b.order <= MAX_ORDER && InZone(zone, b.pfn)
  {
    assert v.free + (v.live - {b}) + {b} == v.free + v.live + {};
    HeldHead(zone, pages, lists, v.(live := v.live - {b}), b);
  }

  /** Adding one new page frame while the zones are being filled. */
  lemma Grow(zone: Zone, pages: seq<PhysPage>, lists: seq<seq<nat>>, v: View, p: nat)
    requires Agrees(zone, pages, lists, v, {}) && InZone(zone, p) && p !in v.managed
    ensures Agrees(zone, pages, lists, v.(managed := v.managed + {p}), {Block(p, 0)})
  {
    var b := Block(p, 0);
    var all, more := v.free + v.live + {}, v.free + v.live + {b};
    assert Pow2(0) == 1;
    assert forall c :: c in more <==> c in all || c == b;
    assert forall x: nat :: Contains(b, x) <==> x == p;
    assert b !in all by { assert b in all ==> Contains(b, p); }
    forall x | x in v.managed + {p}
      ensures exists c :: c in more && Contains(c, x)
    {
      if x == p {
        assert b in more && Contains(b, x);
      } else {
        var c :| c in all && Contains(c, x);
        assert c in more;
      }
    }
  }

  // ---- list moves ------------------------------------------------------------------

  lemma LinkedPush(links: Links, lists: seq<seq<seq<nat>>>, z: nat, o: nat, p: nat)
    requires Linked(links, lists) && z < ZONE_COUNT && o <= MAX_ORDER
    requires forall y, q :: 0 <= y < ZONE_COUNT && 0 <= q <= MAX_ORDER ==> p !in lists[y][q]
    ensures Sentinel(z, o) in links.next && links.next[Sentinel(z, o)] in links.prev
    ensures Linked(Push(links, Sentinel(z, o), Page(p)), lists[z := lists[z][o := [p] + lists[z][o]]])
  {
    PushSpells(links, Sentinel(z, o), lists[z][o], p);
    var now := lists[z := lists[z][o := [p] + lists[z][o]]];
    forall y, q | 0 <= y < ZONE_COUNT && 0 <= q <= MAX_ORDER
      ensures Spells(Push(links, Sentinel(z, o), Page(p)), Sentinel(y, q), now[y][q])
    {
      if y != z || q != o {
        PushFrame(links, Sentinel(z, o), lists[z][o], p, Sentinel(y, q), lists[y][q]);
      }
    }
  }

  lemma LinkedUnlink(links: Links, lists: seq<seq<seq<nat>>>, z: nat, o: nat, k: nat)
    requires Linked(links, lists) && z < ZONE_COUNT && o <= MAX_ORDER && k < |lists[z][o]|
    ensures var n := Page(lists[z][o][k]);
            && links.Has(n) && links.prev[n] in links.next && links.next[n] in links.prev
            && Linked(Unlink(links, n), lists[z := lists[z][o := Without(lists[z][o], k)]])
  {
    assert Spells(links, Sentinel(z, o), lists[z][o]);
    UnlinkSpells(links, Sentinel(z, o), lists[z][o], k);
    RemovedOnly(lists[z][o], k);
    var now := lists[z := lists[z][o := Without(lists[z][o], k)]];
    forall y, q | 0 <= y < ZONE_COUNT && 0 <= q <= MAX_ORDER
      ensures Spells(Unlink(links, Page(lists[z][o][k])), Sentinel(y, q), now[y][q])
    {
      if y != z || q != o {
        UnlinkFrame(links, Sentinel(z, o), lists[z][o], k, Sentinel(y, q), lists[y][q]);
      }
    }
  }
}
