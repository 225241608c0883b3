/** `mmap_user`: anonymous regions of the user window, one fresh frame behind every page. */
module UserMaps {
  import opened Options
  import opened PageTables
  import opened VirtualMemory
  import opened PageRights
  import opened AddressSpace

  function PageFlags(prot: Word): Word {
    PRESENT | USER | (if prot & VMA_WRITE != 0 then WRITABLE else 0) | (if prot & VMA_EXEC == 0 then NO_EXEC else 0)
  }

  /** The entry `map_page` writes for a frame. */
  function EntryFor(frame: Frame, flags: Word): Word {
    frame.addr | flags | PRESENT
  }

  /** Some of the bits of an entry or a protection. */
  function Bits(e: Word, mask: Word): Word {
    e & mask
  }

  const ENTRY_BITS: Word := 0x800F_FFFF_FFFF_F007

  /** What an entry lets a region of this protection do: user pages, writable and executable just when
      asked for, and nothing else set but the address. */
  predicate Permits(e: Word, prot: Word) {
    && Bits(e, PRESENT) == PRESENT && Bits(e, USER) == USER
    && (Bits(e, WRITABLE) != 0 <==> Bits(prot, VMA_WRITE) != 0)
    && (Bits(e, NO_EXEC) != 0 <==> Bits(prot, VMA_EXEC) == 0)
    && Bits(e, ENTRY_BITS) == e
  }

  lemma EntryPointsBack(frame: Frame, prot: Word)
    requires IsFrame(frame)
    ensures Target(EntryFor(frame, PageFlags(prot))) == frame
    ensures Permits(EntryFor(frame, PageFlags(prot)), prot)
  {
    EntryTarget(frame, prot);
    EntryUser(frame, prot);
    EntryWritable(frame, prot);
    EntryNoExec(frame, prot);
    EntryOnly(frame, prot);
    hide Bits, EntryFor, PageFlags, Target;
  }

  lemma EntryTarget(frame: Frame, prot: Word)
    requires IsFrame(frame)
    ensures Target(EntryFor(frame, PageFlags(prot))) == frame
  {
  }

  lemma EntryUser(frame: Frame, prot: Word)
    ensures Bits(EntryFor(frame, PageFlags(prot)), USER) == USER
    ensures Bits(EntryFor(frame, PageFlags(prot)), PRESENT) == PRESENT
  {
  }

  lemma EntryWritable(frame: Frame, prot: Word)
    requires IsFrame(frame)
    ensures Bits(EntryFor(frame, PageFlags(prot)), WRITABLE) != 0 <==> Bits(prot, VMA_WRITE) != 0
  {
  }

  lemma EntryNoExec(frame: Frame, prot: Word)
    requires IsFrame(frame)
    ensures Bits(EntryFor(frame, PageFlags(prot)), NO_EXEC) != 0 <==> Bits(prot, VMA_EXEC) == 0
  {
  }

  lemma EntryOnly(frame: Frame, prot: Word)
    requires IsFrame(frame)
    ensures Bits(EntryFor(frame, PageFlags(prot)), ENTRY_BITS) == EntryFor(frame, PageFlags(prot))
  {
  }

  lemma ReadIsImplied(e: Word, prot: Word)
    ensures Permits(e, prot | VMA_READ) <==> Permits(e, prot)
  {
    ReadElsewhere(prot);
    hide Bits;
  }

  lemma ReadElsewhere(prot: Word)
    ensures Bits(prot | VMA_READ, VMA_WRITE) == Bits(prot, VMA_WRITE) && Bits(prot | VMA_READ, VMA_EXEC) == Bits(prot, VMA_EXEC)
  {
  }

  /** Every page handed out shows its entry, no frame is behind two pages, and no such frame
      is a page table or still free. */
  ghost predicate Backed(t: Tables, root: Frame, mapped: map<nat, Word>) {
    && (forall p :: p in mapped ==> GetEntry(t.mem, root, p * PAGE_SIZE) == Some(mapped[p]))
    && (forall p :: p in mapped ==> Target(mapped[p]) !in t.level && Target(mapped[p]) !in t.pool)
    && (forall p, q :: p in mapped && q in mapped && Target(mapped[p]) == Target(mapped[q]) ==> p == q)
  }

  ghost predicate WindowPlain(mem: Memory, root: Frame) {
    forall va :: USER_MMAP_BASE <= va < USER_MMAP_LIMIT ==> HugeFree(mem, root, 4, va)
  }

  /** Regions are page-aligned, inside the window, disjoint and below the bump pointer. */
  ghost predicate WellPlaced(regions: seq<VmArea>, next: nat) {
    && (forall i :: 0 <= i < |regions| ==>
          && regions[i].start % PAGE_SIZE == 0 && regions[i].end % PAGE_SIZE == 0
          && USER_MMAP_BASE <= regions[i].start <= regions[i].end <= next)
    && (forall i, j :: 0 <= i < j < |regions| ==> regions[i].end <= regions[j].start)
  }

  /** Every page of every region is mapped, with what the region permits. */
  ghost predicate AllMapped(regions: seq<VmArea>, mapped: map<nat, Word>) {
    forall i, p: nat :: 0 <= i < |regions| && regions[i].start <= p * PAGE_SIZE < regions[i].end
      ==> p in mapped && Permits(mapped[p], regions[i].flags)
  }

  lemma BumpKeeps(regions: seq<VmArea>, next: nat, mapped: map<nat, Word>, next': nat, mapped': map<nat, Word>)
    requires WellPlaced(regions, next) && AllMapped(regions, mapped) && next <= next'
    requires forall p :: p in mapped ==> p in mapped' && mapped'[p] == mapped[p]
    ensures WellPlaced(regions, next') && AllMapped(regions, mapped')
  {
  }

  lemma BumpAdds(regions: seq<VmArea>, next: nat, mapped: map<nat, Word>, area: VmArea)
    requires WellPlaced(regions, next) && AllMapped(regions, mapped)
    requires area.start == next && area.start % PAGE_SIZE == 0 && area.end % PAGE_SIZE == 0 && USER_MMAP_BASE <= next <= area.end
    requires forall p: nat :: next / PAGE_SIZE <= p < area.end / PAGE_SIZE ==> p in mapped && Permits(mapped[p], area.flags)
    ensures WellPlaced(regions + [area], area.end) && AllMapped(regions + [area], mapped)
  {
    forall i, p: nat | 0 <= i < |regions + [area]| && (regions + [area])[i].start <= p * PAGE_SIZE < (regions + [area])[i].end
      ensures p in mapped && Permits(mapped[p], (regions + [area])[i].flags)
    {
      if i == |regions| {
        assert next / PAGE_SIZE <= p < area.end / PAGE_SIZE;
      } else {
        assert (regions + [area])[i] == regions[i];
      }
    }
  }

  lemma WindowPages(p: nat, q: nat)
    requires p * PAGE_SIZE < USER_MMAP_LIMIT && q * PAGE_SIZE < USER_MMAP_LIMIT
    ensures SamePage(p * PAGE_SIZE, q * PAGE_SIZE) <==> p == q
  {
    assert p * PAGE_SIZE / PAGE_SIZE == p && q * PAGE_SIZE / PAGE_SIZE == q;
  }

  /** Adding a page whose frame just left the supply. */
  lemma BackOneMore(a: Tables, b: Tables, c: Tables, root: Frame, mapped: map<nat, Word>, p: nat, e: Word)
    requires Backed(a, root, mapped) && a.pool != [] && Target(e) == a.pool[0] && Fresh(a.pool, a.level)
    requires b.pool == a.pool[1..] && b.level == a.level && SameView(a.mem, b.mem, root)
    requires ViewUpdated(b.mem, c.mem, root, p * PAGE_SIZE, Some(e))
    requires Suffix(c.pool, b.pool)
    requires forall t :: t in c.level && t !in b.level ==> t in b.pool
    requires p !in mapped && p * PAGE_SIZE < USER_MMAP_LIMIT
    requires forall q :: q in mapped ==> q * PAGE_SIZE < USER_MMAP_LIMIT
    ensures Backed(c, root, mapped[p := e])
  {
    hide GetEntry, HugeFree, Target, SamePage;
    assert forall t :: t in c.pool ==> t in b.pool;
    assert forall t :: t in b.pool ==> t in a.pool;
    assert Target(e) in a.pool && Target(e) !in b.pool;
    WindowPages(p, p);
    forall q | q in mapped
      ensures GetEntry(c.mem, root, q * PAGE_SIZE) == Some(mapped[q])
    {
      WindowPages(q, p);
    }
  }

  class UserSpace {
    const pt: PageTable
    var next: nat
    var areas: seq<VmArea>
    /** regions handed out so far */
    ghost var regions: seq<VmArea>
    /** page number to entry, for every page mapped by a region */
    ghost var mapped: map<nat, Word>

    ghost predicate Valid()
      reads this, pt
    {
      && pt.Valid()
      && next % PAGE_SIZE == 0 && USER_MMAP_BASE <= next <= USER_MMAP_LIMIT
      && |areas| <= VMA_MAX
      && WindowPlain(pt.mem, pt.root)
      && Backed(pt.State(), pt.root, mapped)
      && (forall p :: p in mapped ==> p * PAGE_SIZE < next)
      && WellPlaced(regions, next) && AllMapped(regions, mapped)
    }

    constructor (table: PageTable, taken: seq<VmArea>)
      requires table.Valid() && WindowPlain(table.mem, table.root) && |taken| <= VMA_MAX
      ensures Valid() && pt == table && next == USER_MMAP_BASE && areas == taken && regions == [] && mapped == map[]
    {
      pt, next, areas, regions, mapped := table, USER_MMAP_BASE, taken, [], map[];
    }

    /** One turn of the mapping loop. */
    method MapFresh(va: nat, prot: Word) returns (r: MmapResult)
      requires pt.Valid() && WindowPlain(pt.mem, pt.root) && Backed(pt.State(), pt.root, mapped)
      requires va % PAGE_SIZE == 0 && USER_MMAP_BASE <= va < USER_MMAP_LIMIT && va / PAGE_SIZE !in mapped
      requires forall p :: p in mapped ==> p * PAGE_SIZE < USER_MMAP_LIMIT
      modifies this`mapped, pt
      ensures pt.Valid() && WindowPlain(pt.mem, pt.root) && Backed(pt.State(), pt.root, mapped)
      ensures r.Mapped? <==> mapped != old(mapped)
      ensures r.Mapped? ==> old(pt.pool) != [] && IsFrame(old(pt.pool)[0]) && pt.pool != old(pt.pool) && Suffix(pt.pool, old(pt.pool))
      ensures r.Mapped? ==> mapped == old(mapped)[va / PAGE_SIZE := EntryFor(old(pt.pool)[0], PageFlags(prot))]
      ensures r.Mapped? ==> ViewUpdated(old(pt.mem), pt.mem, pt.root, va, Some(EntryFor(old(pt.pool)[0], PageFlags(prot))))
      ensures !r.Mapped? ==> SameView(old(pt.mem), pt.mem, pt.root) && pt.pool == []
    {
      hide Tree, GetEntry, HugeFree, PageFlags;
      ghost var a := pt.State();
      var f := pt.AllocZeroed();
      ghost var b := pt.State();
      SameViewKeeps(a, b, pt.root, mapped);
      if f.None? {
        return Refused;
      }
      SuffixTail(a.pool);
      assert HugeFree(pt.mem, pt.root, 4, va);
      HugeFreeIsSafe(pt.mem, pt.root, pt.level, va);
      var ok := pt.MapPage(va, f.value.addr, PageFlags(prot));
      ghost var c := pt.State();
      if !ok {
        SameViewKeeps(b, c, pt.root, mapped);
        ViewTrans(a.mem, b.mem, c.mem, pt.root);
        return OutOfTables;
      }
      assert va / PAGE_SIZE * PAGE_SIZE == va;
      UpdateAfterSame(a.mem, b.mem, c.mem, pt.root, va, Some(EntryFor(f.value, PageFlags(prot))));
      EntryTarget(f.value, prot);
      BackOneMore(a, b, c, pt.root, mapped, va / PAGE_SIZE, EntryFor(f.value, PageFlags(prot)));
      SuffixTrans(c.pool, b.pool, a.pool);
      mapped := mapped[va / PAGE_SIZE := EntryFor(f.value, PageFlags(prot))];
      r := Mapped(va);
    }

    /** The mapping loop: one fresh frame behind each of the `pages` pages from `start`. */
    method MapRegion(start: nat, pages: nat, prot: Word) returns (r: MmapResult)
      requires pt.Valid() && WindowPlain(pt.mem, pt.root) && Backed(pt.State(), pt.root, mapped)
      requires start % PAGE_SIZE == 0 && USER_MMAP_BASE <= start && start + pages * PAGE_SIZE <= USER_MMAP_LIMIT
      requires forall p :: p in mapped ==> p * PAGE_SIZE < start
      modifies this`mapped, pt
      ensures pt.Valid() && WindowPlain(pt.mem, pt.root) && Backed(pt.State(), pt.root, mapped)
      ensures forall p :: p in old(mapped) ==> p in mapped && mapped[p] == old(mapped)[p]
      ensures forall p :: p in mapped && p !in old(mapped) ==>
                start / PAGE_SIZE <= p < start / PAGE_SIZE + pages && IsSupplied(mapped[p], old(pt.pool), prot)
      ensures UntouchedOutside(old(pt.mem), pt.mem, pt.root, start / PAGE_SIZE, pages)
      ensures r.Mapped? ==> r.start == start && forall p: nat :: start / PAGE_SIZE <= p < start / PAGE_SIZE + pages ==> p in mapped
      ensures !r.Mapped? ==> pt.pool == []
    {
      hide Tree, GetEntry, HugeFree, PageFlags, Backed, WindowPlain, SameView, ViewUpdated, Fresh;
      ghost var mapped0, pool0, mem0 := mapped, pt.pool, pt.mem;
      SuffixRefl(pool0);
      var i := 0;
      while i < pages
        invariant 0 <= i <= pages
        invariant pt.Valid() && WindowPlain(pt.mem, pt.root) && Backed(pt.State(), pt.root, mapped)
        invariant forall p: nat :: p in mapped <==> p in mapped0 || start / PAGE_SIZE <= p < start / PAGE_SIZE + i
        invariant forall p :: p in mapped0 ==> mapped[p] == mapped0[p]
        invariant forall p :: p in mapped && p !in mapped0 ==> IsSupplied(mapped[p], pool0, prot)
        invariant Suffix(pt.pool, pool0)
        invariant UntouchedOutside(mem0, pt.mem, pt.root, start / PAGE_SIZE, i)
      {
        var va := start + i * PAGE_SIZE;
        assert va / PAGE_SIZE == start / PAGE_SIZE + i && va % PAGE_SIZE == 0;
        ghost var mem1, pool1 := pt.mem, pt.pool;
        var one := MapFresh(va, prot);
        if !one.Mapped? {
          SameOutside(mem0, mem1, pt.mem, pt.root, start / PAGE_SIZE, i, pages);
          return one;
        }
        SuppliedFrom(pool1, pool0, prot);
        SuffixTrans(pt.pool, pool1, pool0);
        UpdatedOutside(mem0, mem1, pt.mem, pt.root, start / PAGE_SIZE, i, EntryFor(pool1[0], PageFlags(prot)));
        i := i + 1;
      }
      r := Mapped(start);
    }

    /** `mmap_user`: `len` bytes rounded up to pages, at the bump pointer. */
    method MmapUser(len: nat, prot: Word) returns (r: MmapResult)
      requires Valid() && len < U64
      modifies this, pt
      ensures Valid()
      ensures r.Mapped? ==> len != 0 && r.start == old(next) && next == r.start + AlignedLen(len)
      ensures var end := old(next) + AlignedLen(len);
              if len == 0 || end > USER_MMAP_LIMIT then r == Refused && next == old(next) && areas == old(areas)
              else next == end && areas == if |old(areas)| == VMA_MAX then old(areas)
                                           else old(areas) + [VmArea(old(next), end, prot | VMA_READ)]
      ensures |old(areas)| == VMA_MAX ==> !r.Mapped?
      ensures r.Mapped? ==> regions == old(regions) + [VmArea(r.start, next, prot | VMA_READ)]
      ensures r.Mapped? ==> forall p: nat :: r.start <= p * PAGE_SIZE < next ==>
                p in mapped && p !in old(mapped) && Shows(pt.mem, pt.root, p, old(pt.pool), prot)
      ensures !r.Mapped? ==> regions == old(regions)
      ensures forall p :: p in old(mapped) ==> p in mapped && mapped[p] == old(mapped)[p]
      ensures forall p :: p in mapped && p !in old(mapped) ==> IsSupplied(mapped[p], old(pt.pool), prot)
      ensures UntouchedOutside(old(pt.mem), pt.mem, pt.root, old(next) / PAGE_SIZE, AlignedLen(len) / PAGE_SIZE)
      ensures r.Mapped? || len == 0 || old(next) + AlignedLen(len) > USER_MMAP_LIMIT || |old(areas)| == VMA_MAX || pt.pool == []
    {
      hide Tree, GetEntry, HugeFree, PageFlags, Backed, WindowPlain, Fresh, AlignedLen, WellPlaced, AllMapped, UntouchedOutside, IsSupplied, Permits, Shows;
      NothingTouched(pt.mem, pt.root, next / PAGE_SIZE, AlignedLen(len) / PAGE_SIZE);
      if len == 0 {
        return Refused;
      }
      var alignedLen := AlignedLen(len);
      var start := (next + PAGE_SIZE - 1) / PAGE_SIZE * PAGE_SIZE;
      RoundAligned(next);
      var end := if start + alignedLen < U64 then start + alignedLen else U64 - 1;
      if end > USER_MMAP_LIMIT {
        return Refused;
      }
      BumpKeeps(regions, next, mapped, end, mapped);
      next := end;
      if |areas| >= VMA_MAX {
        return Refused;
      }
      areas := areas + [VmArea(start, end, prot | VMA_READ)];
      r := MapRegion(start, alignedLen / PAGE_SIZE, prot);
      assert start / PAGE_SIZE + alignedLen / PAGE_SIZE == end / PAGE_SIZE;
      if r.Mapped? {
        BumpKeeps(old(regions), old(next), old(mapped), old(next), mapped);
        NewPermitted(mapped, old(mapped), old(pt.pool), prot, start / PAGE_SIZE, end / PAGE_SIZE);
        forall p: nat | start <= p * PAGE_SIZE < end
          ensures p in mapped && p !in old(mapped) && Shows(pt.mem, pt.root, p, old(pt.pool), prot)
        {
          assert start / PAGE_SIZE <= p < end / PAGE_SIZE;
          NewShows(pt.State(), pt.root, mapped, p, old(pt.pool), prot);
        }
        BumpAdds(regions, old(next), mapped, VmArea(start, end, prot | VMA_READ));
        regions := regions + [VmArea(start, end, prot | VMA_READ)];
      } else {
        BumpKeeps(old(regions), old(next), old(mapped), end, mapped);
      }
    }
  }

  /** What `get_entry` answers for page `p`. */
  ghost predicate Shows(mem: Memory, root: Frame, p: nat, pool: seq<Frame>, prot: Word) {
    var e := GetEntry(mem, root, p * PAGE_SIZE);
    e.Some? && IsSupplied(e.value, pool, prot)
  }

  /** The entries of new pages permit what the area says. */
  lemma NewPermitted(mapped: map<nat, Word>, was: map<nat, Word>, pool: seq<Frame>, prot: Word, lo: nat, hi: nat)
    requires forall p: nat :: lo <= p < hi ==> p in mapped && p !in was
    requires forall p :: p in mapped && p !in was ==> IsSupplied(mapped[p], pool, prot)
    ensures forall p: nat :: lo <= p < hi ==> p in mapped && Permits(mapped[p], prot | VMA_READ)
  {
    hide Permits;
    forall p: nat | lo <= p < hi
      ensures p in mapped && Permits(mapped[p], prot | VMA_READ)
    {
      ReadIsImplied(mapped[p], prot);
    }
  }

  lemma NewShows(t: Tables, root: Frame, mapped: map<nat, Word>, p: nat, pool: seq<Frame>, prot: Word)
    requires Backed(t, root, mapped) && p in mapped && IsSupplied(mapped[p], pool, prot)
    ensures Shows(t.mem, root, p, pool, prot)
  {
  }

  lemma NothingTouched(mem: Memory, root: Frame, first: nat, n: nat)
    ensures UntouchedOutside(mem, mem, root, first, n)
  {
  }

  lemma RoundAligned(n: nat)
    requires n % PAGE_SIZE == 0
    ensures (n + PAGE_SIZE - 1) / PAGE_SIZE * PAGE_SIZE == n
  {
  }

  /** An entry that points to a frame of the supply and lets do what the protection says. */
  ghost predicate IsSupplied(e: Word, pool: seq<Frame>, prot: Word) {
    Target(e) in pool && Permits(e, prot)
  }

  lemma SuppliedFrom(pool: seq<Frame>, all: seq<Frame>, prot: Word)
    requires Suffix(pool, all) && pool != [] && IsFrame(pool[0])
    ensures IsSupplied(EntryFor(pool[0], PageFlags(prot)), all, prot)
  {
    assert pool[0] in all;
    EntryPointsBack(pool[0], prot);
  }

  /** Only the `n` pages from page `first` may show something else; the tables above allow what they did. */
  ghost predicate UntouchedOutside(a: Memory, b: Memory, root: Frame, first: nat, n: nat) {
    && (forall o: nat :: !(first <= PageNumber(o) < first + n) ==> GetEntry(b, root, o) == GetEntry(a, root, o))
    && SameGrants(a, b, root)
  }

  /** A page of a region can be written just when that was asked for, if the tables there were before granted
      writing; it can be reached from user mode only if tables were there before that are open to it - where
      none was, it never can, for all that its own entry says so. */
  lemma RegionAllows(a: Memory, b: Memory, root: Frame, first: nat, n: nat, p: nat, pool: seq<Frame>, prot: Word)
    requires UntouchedOutside(a, b, root, first, n) && Shows(b, root, p, pool, prot)
    ensures AllAllow(b, root, 4, p * PAGE_SIZE, false)
       <==> Bits(prot, VMA_WRITE) != 0 && Grants(a, root, 4, p * PAGE_SIZE, false)
    ensures AllAllow(b, root, 4, p * PAGE_SIZE, true) <==> Grants(a, root, 4, p * PAGE_SIZE, true)
    ensures !Present(Read(a, Slot(root, Pml4Index(p * PAGE_SIZE)))) ==> !AllAllow(b, root, 4, p * PAGE_SIZE, true)
  {
    hide GetEntry, Grants, AllAllow, Target, Bits, Present;
    var va := p * PAGE_SIZE;
    GetEntryIsWalk(b, root, va);
    AllowedIff(b, root, 4, va, true);
    AllowedIff(b, root, 4, va, false);
    if !Present(Read(a, Slot(root, Pml4Index(va)))) {
      NothingThere(a, root, va);
    }
    EntryAllows(GetEntry(b, root, va).value, prot);
  }

  lemma EntryAllows(e: Word, prot: Word)
    requires Permits(e, prot)
    ensures Allows(e, true) && (Allows(e, false) <==> Bits(prot, VMA_WRITE) != 0)
  {
  }

  lemma SameOutside(a: Memory, b: Memory, c: Memory, root: Frame, first: nat, n: nat, m: nat)
    requires UntouchedOutside(a, b, root, first, n) && SameView(b, c, root) && n <= m
    ensures UntouchedOutside(a, c, root, first, m)
  {
  }

  lemma UpdatedOutside(a: Memory, b: Memory, c: Memory, root: Frame, first: nat, n: nat, e: Word)
    requires UntouchedOutside(a, b, root, first, n)
    requires ViewUpdated(b, c, root, first * PAGE_SIZE + n * PAGE_SIZE, Some(e))
    requires (first + n) * PAGE_SIZE < USER_MMAP_LIMIT
    ensures UntouchedOutside(a, c, root, first, n + 1)
  {
    assert PageNumber((first + n) * PAGE_SIZE) == first + n;
  }

  lemma SuffixTail<T>(a: seq<T>)
    requires a != []
    ensures Suffix(a[1..], a)
  {
  }

  /** Shrinking the supply or turning supply frames into tables, with the view kept. */
  lemma SameViewKeeps(a: Tables, b: Tables, root: Frame, mapped: map<nat, Word>)
    requires Backed(a, root, mapped) && SameView(a.mem, b.mem, root) && Suffix(b.pool, a.pool)
    requires forall t :: t in b.level && t !in a.level ==> t in a.pool
    ensures Backed(b, root, mapped)
    ensures WindowPlain(a.mem, root) ==> WindowPlain(b.mem, root)
  {
    assert forall t :: t in b.pool ==> t in a.pool;
  }
}
