/** What the free list lengths count. */
module PageCount {
  import opened Blocks
  import opened FreeLists
  import opened Zones
  import opened Pmm

  /** The `n` page frames from `lo`. */
  function Interval(lo: nat, n: nat): (r: set<nat>)
    ensures forall x: nat :: x in r <==> lo <= x < lo + n
    ensures |r| == n
  {
    if n == 0 then {} else Interval(lo, n - 1) + {lo + n - 1}
  }

  function PagesOf(b: Block): (r: set<nat>)
    ensures forall x: nat :: x in r <==> Contains(b, x)
    ensures |r| == Pow2(b.order)
  {
    Interval(b.pfn, Pow2(b.order))
  }

  /** Page frames in the blocks of order `o` that start at the listed page frames. */
  function PagesAt(s: seq<nat>, o: nat): set<nat> {
    if |s| == 0 then {} else PagesAt(s[..|s| - 1], o) + PagesOf(Block(s[|s| - 1], o))
  }

  ghost predicate ListCovers(s: seq<nat>, o: nat, x: nat) {
    exists i :: 0 <= i < |s| && Contains(Block(s[i], o), x)
  }

  lemma {:induction false} PagesAtMeans(s: seq<nat>, o: nat, x: nat)
    ensures x in PagesAt(s, o) <==> ListCovers(s, o, x)
  {
    hide Contains, Pow2;
    if |s| > 0 {
      var n := |s| - 1;
      PagesAtMeans(s[..n], o, x);
      if ListCovers(s[..n], o, x) {
        var i :| 0 <= i < n && Contains(Block(s[..n][i], o), x);
        assert s[i] == s[..n][i];
      }
      if ListCovers(s, o, x) {
        var i :| 0 <= i < |s| && Contains(Block(s[i], o), x);
        assert i < n ==> s[..n][i] == s[i];
      }
    }
  }

  /** Blocks of one list that share no page frame. */
  ghost predicate ListDisjoint(s: seq<nat>, o: nat) {
    forall i, j, x: nat :: 0 <= i < j < |s| && Contains(Block(s[i], o), x) ==> !Contains(Block(s[j], o), x)
  }

  lemma Distribute(n: nat, k: nat)
    ensures (n + 1) * k == n * k + k
  {
  }

  lemma {:induction false} ListSize(s: seq<nat>, o: nat)
    requires ListDisjoint(s, o)
    ensures |PagesAt(s, o)| == |s| * Pow2(o)
  {
    if |s| > 0 {
      var n := |s| - 1;
      ListSize(s[..n], o);
      forall x | x in PagesAt(s[..n], o)
        ensures x !in PagesOf(Block(s[n], o))
      {
        PagesAtMeans(s[..n], o, x);
      }
      Distribute(n, Pow2(o));
    }
  }

  /** Page frames in free blocks of order below |lists|. */
  function PagesBelow(lists: seq<seq<nat>>): set<nat> {
    if |lists| == 0 then {}
    else PagesBelow(lists[..|lists| - 1]) + PagesAt(lists[|lists| - 1], |lists| - 1)
  }

  lemma {:induction false} PagesBelowMeans(lists: seq<seq<nat>>, x: nat)
    requires x in PagesBelow(lists)
    ensures exists o, i :: 0 <= o < |lists| && 0 <= i < |lists[o]| && Contains(Block(lists[o][i], o), x)
  {
    var n := |lists| - 1;
    if x in PagesAt(lists[n], n) {
      PagesAtMeans(lists[n], n, x);
    } else {
      PagesBelowMeans(lists[..n], x);
      var o, i :| 0 <= o < n && 0 <= i < |lists[..n][o]| && Contains(Block(lists[..n][o][i], o), x);
      assert lists[o] == lists[..n][o];
    }
  }

  lemma {:induction false} PagesBelowHas(lists: seq<seq<nat>>, o: nat, i: nat, x: nat)
    requires o < |lists| && i < |lists[o]| && Contains(Block(lists[o][i], o), x)
    ensures x in PagesBelow(lists)
  {
    var n := |lists| - 1;
    if o == n {
      PagesAtMeans(lists[n], n, x);
    } else {
      PagesBelowHas(lists[..n], o, i, x);
    }
  }

  ghost predicate AllDisjoint(lists: seq<seq<nat>>) {
    && (forall o :: 0 <= o < |lists| ==> ListDisjoint(lists[o], o))
    && forall o, i, p, j, x: nat | 0 <= o < p < |lists| && 0 <= i < |lists[o]| && 0 <= j < |lists[p]| ::
         Contains(Block(lists[o][i], o), x) ==> !Contains(Block(lists[p][j], p), x)
  }

  lemma FrontDisjoint(lists: seq<seq<nat>>)
    requires AllDisjoint(lists) && |lists| > 0
    ensures AllDisjoint(lists[..|lists| - 1]) && ListDisjoint(lists[|lists| - 1], |lists| - 1)
  {
    var front := lists[..|lists| - 1];
    assert forall o :: 0 <= o < |front| ==> front[o] == lists[o];
  }

  lemma FrontApart(lists: seq<seq<nat>>)
    requires AllDisjoint(lists) && |lists| > 0
    ensures PagesBelow(lists[..|lists| - 1]) !! PagesAt(lists[|lists| - 1], |lists| - 1)
  {
    var n := |lists| - 1;
    forall x | x in PagesBelow(lists[..n])
      ensures x !in PagesAt(lists[n], n)
    {
      PagesBelowMeans(lists[..n], x);
      var o, i :| 0 <= o < n && 0 <= i < |lists[..n][o]| && Contains(Block(lists[..n][o][i], o), x);
      assert lists[o] == lists[..n][o];
      PagesAtMeans(lists[n], n, x);
    }
  }

  lemma {:induction false} SizeBelow(lists: seq<seq<nat>>, nr: seq<nat>)
    requires |nr| == |lists| && AllDisjoint(lists)
    requires forall o :: 0 <= o < |lists| ==> nr[o] == |lists[o]|
    ensures |PagesBelow(lists)| == Weight(nr)
  {
    hide AllDisjoint, PagesAt, ListDisjoint;
    if |lists| > 0 {
      var n := |lists| - 1;
      FrontDisjoint(lists);
      assert forall o :: 0 <= o < n ==> lists[..n][o] == lists[o];
      SizeBelow(lists[..n], nr[..n]);
      ListSize(lists[n], n);
      FrontApart(lists);
    }
  }

  ghost predicate ListsName(lists: seq<seq<nat>>, free: set<Block>) {
    forall b :: b in free <==> b.order < |lists| && b.pfn in lists[b.order]
  }

  lemma ListedIsFree(lists: seq<seq<nat>>, free: set<Block>, o: nat, i: nat)
    requires ListsName(lists, free) && o < |lists| && i < |lists[o]|
    ensures Block(lists[o][i], o) in free
  {
    assert Block(lists[o][i], o).pfn in lists[o];
  }

  lemma FreeDisjoint(lists: seq<seq<nat>>, free: set<Block>)
    requires ListsName(lists, free)
    requires forall o :: 0 <= o < |lists| ==> NoDuplicates(lists[o])
    requires forall a, b, x: nat :: a in free && b in free && Contains(a, x) && Contains(b, x) ==> a == b
    ensures AllDisjoint(lists)
  {
    forall o, i | 0 <= o < |lists| && 0 <= i < |lists[o]|
      ensures Block(lists[o][i], o) in free
    {
      ListedIsFree(lists, free, o, i);
    }
  }

  lemma FreePages(lists: seq<seq<nat>>, free: set<Block>, x: nat)
    requires ListsName(lists, free)
    ensures x in PagesBelow(lists) <==> Covered(free, x)
  {
    if x in PagesBelow(lists) {
      PagesBelowMeans(lists, x);
      var o, i :| 0 <= o < |lists| && 0 <= i < |lists[o]| && Contains(Block(lists[o][i], o), x);
      ListedIsFree(lists, free, o, i);
    }
    if Covered(free, x) {
      var b :| b in free && Contains(b, x);
      var i :| 0 <= i < |lists[b.order]| && lists[b.order][i] == b.pfn;
      PagesBelowHas(lists, b.order, i, x);
    }
  }

  /** In every consistent zone, the list lengths weighted by block size count exactly the
      managed page frames that are in some free block. */
  lemma WeightCountsFreePages(zone: Zone, pages: seq<PhysPage>, lists: seq<seq<nat>>, v: View)
    requires Agrees(zone, pages, lists, v, {})
    requires forall o :: 0 <= o <= MAX_ORDER ==> NoDuplicates(lists[o])
    ensures Weight(zone.nrFree) == |set x | x in v.managed && Covered(v.free, x)|
  {
    hide Weight, PagesBelow, AllDisjoint;
    assert forall b :: b in v.free ==> b in v.free + v.live + {};
    FreeDisjoint(lists, v.free);
    SizeBelow(lists, zone.nrFree);
    forall x: nat
      ensures x in PagesBelow(lists) <==> x in v.managed && Covered(v.free, x)
    {
      FreePages(lists, v.free, x);
    }
    assert PagesBelow(lists) == set x | x in v.managed && Covered(v.free, x);
  }

  /** Every consistent allocator state is well cut in every zone. */
  lemma HoldsIsWellCut(m: Machine, z: nat)
    requires Holds(m, 0, {}) && z < ZONE_COUNT
    ensures WellCut(m.views[z])
    ensures Weight(m.zones[z].nrFree) == |set x | x in m.views[z].managed && Covered(m.views[z].free, x)|
  {
    var v := m.views[z];
    assert Agrees(m.zones[z], m.pages, m.lists[z], v, {});
    assert v.free + v.live + {} == v.free + v.live;
    forall o | 0 <= o <= MAX_ORDER
      ensures NoDuplicates(m.lists[z][o])
    {
      assert Spells(m.links, Sentinel(z, o), m.lists[z][o]);
    }
    WeightCountsFreePages(m.zones[z], m.pages, m.lists[z], v);
  }
}
