/** What allocation and release do to the blocks of one zone, and what every run of
    them keeps. */
module Zones {
  import opened Blocks

  /** The free and the handed-out blocks of a zone, over the page frames it manages. */
  datatype View = View(free: set<Block>, live: set<Block>, managed: set<nat>)

  ghost predicate WellCut(v: View) {
    v.free !! v.live && Partition(v.free + v.live, v.managed)
  }

  /** The halves put back while `b` is cut down to `order`. */
  ghost function Remainders(b: Block, order: nat): set<Block>
    decreases b.order
  {
    if b.order <= order then {} else {RightHalf(b)} + Remainders(LeftHalf(b), order)
  }

  /** Climbs through free buddies: what stays free, and the block that results. */
  ghost function Coalesce(free: set<Block>, b: Block): (r: (set<Block>, Block))
    requires Aligned(b) && b.order <= MAX_ORDER
    ensures r.0 <= free && Aligned(r.1) && b.order <= r.1.order <= MAX_ORDER
    decreases MAX_ORDER - b.order
  {
    if b.order < MAX_ORDER && Buddy(b) in free then
      BuddyFacts(b);
      Coalesce(free - {Buddy(b)}, Parent(b))
    else (free, b)
  }

  lemma CoalesceUnfolds(free: set<Block>, b: Block)
    requires Aligned(b) && b.order <= MAX_ORDER
    ensures Aligned(Parent(b))
    ensures Coalesce(free, b) == if b.order < MAX_ORDER && Buddy(b) in free
                                 then Coalesce(free - {Buddy(b)}, Parent(b)) else (free, b)
  {
    BuddyFacts(b);
  }

  ghost function AfterAlloc(v: View, from: Block, order: nat): View {
    v.(free := v.free - {from} + Remainders(from, order), live := v.live + {Block(from.pfn, order)})
  }

  ghost function AfterFree(v: View, b: Block): View
    requires Aligned(b) && b.order <= MAX_ORDER
  {
    var (rest, merged) := Coalesce(v.free, b);
    v.(free := rest + {merged}, live := v.live - {b})
  }

  /** Cutting a block down leaves the wanted block and the remainders in its place. */
  lemma {:induction false} CutDown(rest: set<Block>, b: Block, order: nat, pages: set<nat>)
    requires Partition(rest + {b}, pages) && b !in rest && order <= b.order
    ensures Partition(rest + Remainders(b, order) + {Block(b.pfn, order)}, pages)
    ensures rest !! Remainders(b, order)
    ensures Block(b.pfn, order) !in rest + Remainders(b, order)
    decreases b.order
  {
    if b.order == order {
      assert rest + Remainders(b, order) + {Block(b.pfn, order)} == rest + {b};
    } else {
      var l, r := LeftHalf(b), RightHalf(b);
      SplitKeepsPartition(rest, b, pages);
      assert rest + {l, r} == (rest + {r}) + {l};
      CutDown(rest + {r}, l, order, pages);
      assert rest + {r} + Remainders(l, order) == rest + Remainders(b, order);
    }
  }

  /** Merging upwards keeps the partition, and stops only where it must. */
  lemma {:induction false} Climb(free: set<Block>, others: set<Block>, b: Block, pages: set<nat>)
    requires Partition(free + others + {b}, pages) && free !! others && b !in free + others
    requires Aligned(b) && b.order <= MAX_ORDER
    ensures var (rest, merged) := Coalesce(free, b);
            && Partition(rest + others + {merged}, pages)
            && merged !in rest + others
            && (merged.order == MAX_ORDER || Buddy(merged) !in rest)
    decreases MAX_ORDER - b.order
  {
    if b.order < MAX_ORDER && Buddy(b) in free {
      var u := Buddy(b);
      BuddyFacts(b);
      var less := free - {u};
      assert free + others + {b} == (less + others) + {b, u};
      MergeKeepsPartition(less + others, b, pages);
      Climb(less, others, Parent(b), pages);
    }
  }

  lemma AllocKeepsCut(v: View, from: Block, order: nat)
    requires WellCut(v) && from in v.free && order <= from.order
    ensures WellCut(AfterAlloc(v, from, order))
    ensures Block(from.pfn, order) !in v.live
  {
    var rest := v.free + v.live - {from};
    assert v.free + v.live == rest + {from};
    CutDown(rest, from, order, v.managed);
    var w := AfterAlloc(v, from, order);
    assert w.free + w.live == rest + Remainders(from, order) + {Block(from.pfn, order)};
    assert Block(from.pfn, order) !in v.free - {from} + Remainders(from, order);
  }

  lemma FreeKeepsCut(v: View, b: Block)
    requires WellCut(v) && b in v.live
    ensures b in v.free + v.live && WellCut(AfterFree(v, b))
    ensures var (rest, merged) := Coalesce(v.free, b);
            merged.order == MAX_ORDER || Buddy(merged) !in AfterFree(v, b).free
  {
    assert b in v.free + v.live;
    var others := v.live - {b};
    assert v.free + others + {b} == v.free + v.live;
    Climb(v.free, others, b, v.managed);
    var (rest, merged) := Coalesce(v.free, b);
    var w := AfterFree(v, b);
    assert w.free + w.live == rest + others + {merged};
    if merged.order < MAX_ORDER {
      BuddyFacts(merged);
    }
  }

  /** One call on a zone. */
  datatype Call = Alloc(from: Block, order: nat) | Free(block: Block)

  /** A call the code can make: a free block at least as large as wanted is taken, or a
      block that is handed out is given back at the order it was handed out with. */
  ghost predicate Enabled(v: View, c: Call) {
    match c
    case Alloc(from, order) => from in v.free && order <= from.order
    case Free(b) => b in v.live && Aligned(b) && b.order <= MAX_ORDER
  }

  ghost function Perform(v: View, c: Call): View
    requires Enabled(v, c)
  {
    match c
    case Alloc(from, order) => AfterAlloc(v, from, order)
    case Free(b) => AfterFree(v, b)
  }

  ghost predicate IsRun(states: seq<View>, calls: seq<Call>) {
    && |states| == |calls| + 1
    && forall i :: 0 <= i < |calls| ==> Enabled(states[i], calls[i]) && states[i + 1] == Perform(states[i], calls[i])
  }

  /** Over every run, free and handed-out blocks stay aligned, disjoint and exactly cover
      the managed page frames. */
  lemma {:induction false} RunsStayCut(states: seq<View>, calls: seq<Call>, n: nat)
    requires IsRun(states, calls) && n < |states|
    requires WellCut(states[0])
    ensures WellCut(states[n]) && states[n].managed == states[0].managed
  {
    if n > 0 {
      RunsStayCut(states, calls, n - 1);
      var v, c := states[n - 1], calls[n - 1];
      match c {
        case Alloc(from, order) => AllocKeepsCut(v, from, order);
        case Free(b) => FreeKeepsCut(v, b);
      }
    }
  }

  /** Two blocks handed out at the same time never share a page frame. */
  lemma LiveBlocksDisjoint(states: seq<View>, calls: seq<Call>, n: nat, a: Block, b: Block, x: nat)
    requires IsRun(states, calls) && n < |states| && WellCut(states[0])
    requires a in states[n].live && b in states[n].live && a != b
    ensures !(Contains(a, x) && Contains(b, x))
    ensures Contains(a, x) ==> x in states[0].managed && !Covered(states[n].free, x)
  {
    RunsStayCut(states, calls, n);
    var v := states[n];
    assert a in v.free + v.live && b in v.free + v.live;
    assert forall c :: c in v.free ==> c in v.free + v.live;
  }

  /** Releasing the block just allocated first re-merges all remainders, and then goes on as the
      release of the whole block would: the view from before comes back exactly if the block taken
      was maximal or had no free buddy. `init` leaves single pages next to free buddies, so right
      after it the release may merge further. */
  lemma FreeUndoesAllocIff(v: View, from: Block, order: nat)
    requires WellCut(v) && from in v.free && order <= from.order
    ensures Aligned(from) && from.order <= MAX_ORDER && Aligned(Block(from.pfn, order))
    ensures var back := AfterFree(AfterAlloc(v, from, order), Block(from.pfn, order));
            var (rest, merged) := Coalesce(v.free - {from}, from);
            && back == v.(free := rest + {merged})
            && (back == v <==> from.order == MAX_ORDER || Buddy(from) !in v.free)
  {
    hide Partition, Coalesce;
    AllocReleased(v, from, order);
    Remerged(v, from, order);
    MergedBackIff(v.free, from);
  }

  lemma AllocReleased(v: View, from: Block, order: nat)
    requires WellCut(v) && from in v.free && order <= from.order
    ensures Aligned(from) && from.order <= MAX_ORDER && Aligned(Block(from.pfn, order))
    ensures Block(from.pfn, order) !in v.live
    ensures (v.free - {from}) !! Remainders(from, order)
  {
    assert from in v.free + v.live;
    AllocKeepsCut(v, from, order);
    var rest := v.free + v.live - {from};
    assert rest + {from} == v.free + v.live;
    CutDown(rest, from, order, v.managed);
    AlignedBelow(from.pfn, from.order, order);
  }

  lemma Remerged(v: View, from: Block, order: nat)
    requires Aligned(from) && from.order <= MAX_ORDER && order <= from.order
    requires Aligned(Block(from.pfn, order)) && Block(from.pfn, order) !in v.live
    requires (v.free - {from}) !! Remainders(from, order)
    ensures var (rest, merged) := Coalesce(v.free - {from}, from);
            AfterFree(AfterAlloc(v, from, order), Block(from.pfn, order)) == v.(free := rest + {merged})
  {
    hide Coalesce, Remainders;
    Reclimb(v.free - {from}, from, order);
    assert v.live + {Block(from.pfn, order)} - {Block(from.pfn, order)} == v.live;
  }

  /** The block released climbs to the block taken, when that has no free buddy. */
  lemma RemergedIs(v: View, from: Block, order: nat)
    requires WellCut(v) && from in v.free && order <= from.order
    requires from.order == MAX_ORDER || Buddy(from) !in v.free
    ensures Aligned(Block(from.pfn, order)) && order <= MAX_ORDER
    ensures Coalesce(AfterAlloc(v, from, order).free, Block(from.pfn, order)).1 == from
  {
    hide Partition, Coalesce, Remainders;
    AllocReleased(v, from, order);
    Reclimb(v.free - {from}, from, order);
    CoalesceUnfolds(v.free - {from}, from);
  }

  /** Putting a free block back among the others gives the same set, unless it merges. */
  lemma MergedBackIff(free: set<Block>, from: Block)
    requires Aligned(from) && from.order <= MAX_ORDER && from in free
    ensures var (rest, merged) := Coalesce(free - {from}, from);
            rest + {merged} == free <==> from.order == MAX_ORDER || Buddy(from) !in free
  {
    var others := free - {from};
    BuddyIsOther(from);
    if from.order == MAX_ORDER || Buddy(from) !in free {
      assert others + {from} == free;
    } else {
      CoalesceUnfolds(others, from);
      CoalesceShrinks(others - {Buddy(from)}, Parent(from));
    }
  }

  lemma BuddyIsOther(b: Block)
    requires Aligned(b)
    ensures Buddy(b) != b
  {
    BuddyFacts(b);
  }

  lemma {:induction false} CoalesceShrinks(free: set<Block>, b: Block)
    requires Aligned(b) && b.order <= MAX_ORDER
    ensures Coalesce(free, b).0 <= free && Coalesce(free, b).1.order >= b.order
    decreases MAX_ORDER - b.order
  {
    CoalesceUnfolds(free, b);
    if b.order < MAX_ORDER && Buddy(b) in free {
      CoalesceShrinks(free - {Buddy(b)}, Parent(b));
    }
  }

  lemma {:induction false} Reclimb(rest: set<Block>, b: Block, order: nat)
    requires Aligned(b) && order <= b.order <= MAX_ORDER
    requires rest !! Remainders(b, order)
    requires Aligned(Block(b.pfn, order))
    ensures Coalesce(rest + Remainders(b, order), Block(b.pfn, order)) == Coalesce(rest, b)
    decreases b.order - order
  {
    if b.order == order {
      assert rest + Remainders(b, order) == rest;
    } else {
      var s, p := Block(b.pfn, order), Block(b.pfn, order + 1);
      AlignedBelow(b.pfn, b.order, order + 1);
      HalvesAreBuddies(p);
      BuddyFacts(s);
      LastRemainder(b, order);
      assert Buddy(s) in rest + Remainders(b, order);
      assert (rest + Remainders(b, order)) - {Buddy(s)} == rest + Remainders(b, order + 1);
      Reclimb(rest, b, order + 1);
    }
  }

  /** The last half split off is the buddy of what remains. */
  lemma {:induction false} LastRemainder(b: Block, order: nat)
    requires order < b.order
    ensures RightHalf(Block(b.pfn, order + 1)) !in Remainders(b, order + 1)
    ensures Remainders(b, order) == Remainders(b, order + 1) + {RightHalf(Block(b.pfn, order + 1))}
    ensures forall c :: c in Remainders(b, order) ==> order <= c.order < b.order
    decreases b.order
  {
    if order + 1 < b.order {
      LastRemainder(LeftHalf(b), order);
    }
  }

  /** The counter kept beside the lists is raised by the merged size: it stays exact on a
      release if and only if the buddy was not free (or the block was maximal). */
  lemma CounterExactIff(free: set<Block>, b: Block)
    requires Aligned(b) && b.order <= MAX_ORDER
    ensures Pow2(Coalesce(free, b).1.order) == Pow2(b.order) <==> b.order == MAX_ORDER || Buddy(b) !in free
  {
    if b.order < MAX_ORDER && Buddy(b) in free {
      BuddyFacts(b);
      var m := Coalesce(free - {Buddy(b)}, Parent(b)).1;
      PowMonotone(b.order, m.order);
    }
  }

  lemma {:induction false} PowMonotone(a: nat, b: nat)
    requires a < b
    ensures Pow2(a) < Pow2(b)
    decreases b
  {
    if a + 1 < b {
      PowMonotone(a, b - 1);
    }
  }
}
