/** `PageTable` with `map_page`, `unmap_page` and `mmap_user`, over a supply of page frames
    from the physical allocator. */
module AddressSpace {
  import opened Options
  import opened PageTables
  import opened VirtualMemory
  import opened PageRights

  /** Frames that the allocator may still hand out: usable, distinct and not in use as tables. */
  ghost predicate Fresh(pool: seq<Frame>, level: map<Frame, nat>) {
    && (forall i :: 0 <= i < |pool| ==> IsFrame(pool[i]) && pool[i] !in level)
    && (forall i, j :: 0 <= i < j < |pool| ==> pool[i] != pool[j])
  }

  ghost predicate Suffix<T>(a: seq<T>, b: seq<T>) {
    |a| <= |b| && a == b[|b| - |a|..]
  }

  lemma SuffixTrans<T>(a: seq<T>, b: seq<T>, c: seq<T>)
    requires Suffix(a, b) && Suffix(b, c)
    ensures Suffix(a, c)
  {
  }

  lemma SuffixRefl<T>(a: seq<T>)
    ensures Suffix(a, a)
  {
  }

  lemma ViewTrans(a: Memory, b: Memory, c: Memory, root: Frame)
    requires SameView(a, b, root) && SameView(b, c, root)
    ensures SameView(a, c, root)
  {
  }

  lemma UpdateAfterSame(a: Memory, b: Memory, c: Memory, root: Frame, va: nat, e: Option<Word>)
    requires SameView(a, b, root) && ViewUpdated(b, c, root, va, e)
    ensures ViewUpdated(a, c, root, va, e)
  {
  }

  /** What creating tables may do: nothing to the view, and every new table is a frame taken
      from the supply. */
  datatype Tables = Tables(mem: Memory, pool: seq<Frame>, level: map<Frame, nat>)

  ghost predicate Grown(a: Tables, b: Tables, root: Frame) {
    && SameView(a.mem, b.mem, root) && Suffix(b.pool, a.pool)
    && (forall t :: t in a.level ==> t in b.level && b.level[t] == a.level[t])
    && (forall t :: t in b.level && t !in a.level ==> t in a.pool && t !in b.pool)
  }

  lemma GrownTrans(a: Tables, b: Tables, c: Tables, root: Frame)
    requires Grown(a, b, root) && Grown(b, c, root)
    ensures Grown(a, c, root)
  {
    SuffixTrans(c.pool, b.pool, a.pool);
    assert forall t :: t in c.pool ==> t in b.pool;
  }

  lemma GrownMeans(a: Tables, b: Tables, root: Frame)
    requires Grown(a, b, root)
    ensures SameView(a.mem, b.mem, root) && Suffix(b.pool, a.pool)
    ensures forall t :: t in a.level ==> t in b.level && b.level[t] == a.level[t]
    ensures forall t :: t in b.level && t !in a.level ==> t in a.pool && t !in b.pool
  {
  }

  class PageTable {
    var mem: Memory
    const root: Frame
    /** page frames `pmm::alloc_zeroed` will hand out next */
    var pool: seq<Frame>
    ghost var level: map<Frame, nat>

    ghost function State(): Tables
      reads this
    {
      Tables(mem, pool, level)
    }

    ghost predicate Valid()
      reads this
    {
      Tree(mem, root, level) && Fresh(pool, level)
    }

    /** `new_kernel`: adopts the tables already in memory. */
    constructor (mem: Memory, root: Frame, pool: seq<Frame>, ghost level: map<Frame, nat>)
      requires Tree(mem, root, level) && Fresh(pool, level)
      ensures Valid() && this.root == root && State() == Tables(mem, pool, level)
    {
      this.mem, this.root, this.pool, this.level := mem, root, pool, level;
    }

    /** `pmm::alloc_zeroed` */
    method AllocZeroed() returns (r: Option<Frame>)
      requires Valid()
      modifies this`mem, this`pool
      ensures Valid()
      ensures r.None? ==> old(pool) == [] && mem == old(mem) && pool == old(pool)
      ensures r.Some? ==> old(pool) != [] && r.value == old(pool)[0] && pool == old(pool)[1..]
                          && mem == Zeroed(old(mem), r.value)
      ensures SameView(old(mem), mem, root)
    {
      if pool == [] {
        return None;
      }
      ZeroKeepsView(mem, root, level, pool[0]);
      r := Some(pool[0]);
      mem := Zeroed(mem, pool[0]);
      pool := pool[1..];
    }

    /** The common step of `map_page`: an entry that is not present gets a new table. */
    method EnsureTable(s: Slot) returns (ok: bool, child: Frame)
      requires Valid() && s.table in level && level[s.table] >= 2
      modifies this
      ensures Valid() && Grown(old(State()), State(), root) && |old(pool)| <= |pool| + 1
      ensures s.table in level && level[s.table] == old(level)[s.table]
      ensures forall r: Slot :: r.table in old(level) && r != s ==> Read(mem, r) == Read(old(mem), r)
      ensures ok ==> Present(Read(mem, s)) && child == Target(Read(mem, s))
      ensures ok && Present(Read(old(mem), s)) ==> mem == old(mem) && pool == old(pool) && level == old(level)
      ensures ok && !Present(Read(old(mem), s)) ==> Leads(level[s.table], Read(mem, s)) && |pool| + 1 == |old(pool)|
                                                    && forall i :: !Present(Read(mem, Slot(child, i)))
      ensures !ok ==> pool == [] && level == old(level)
    {
      hide Tree, SameView;
      child := root;
      SameViewRefl(mem, root);
      if !Present(Read(mem, s)) {
        ghost var before := mem;
        var f := AllocZeroed();
        if f.None? {
          return false, child;
        }
        var frame := f.value;
        ghost var m1 := mem;
        assert Read(m1, s) == Read(before, s);
        assert Zeroed(m1, frame) == m1;
        HangKeepsTree(m1, root, level, s, frame);
        HangKeepsView(m1, root, level, s, frame);
        TableEntryPoints(frame);
        mem := mem[s := TableEntry(frame)];
        assert mem == Hang(m1, s, frame);
        forall r: Slot
          ensures Read(mem, r) == if r == s then TableEntry(frame) else if r.table == frame then 0 else Read(before, r)
        {
          HangReads(m1, s, frame, r);
        }
        level := level[frame := level[s.table] - 1];
        ViewTrans(before, m1, mem, root);
      }
      ok := true;
      child := Target(Read(mem, s));
    }

    /** The three table steps of `map_page`: the slot to write, and whether the walk stayed
        clear of a 2 MiB entry. */
    method MakeTables(va: nat) returns (ok: bool, s: Slot, ghost plain: bool)
      requires Valid() && PathSafe(mem, root, level, va)
      modifies this
      ensures Valid() && Grown(old(State()), State(), root) && |old(pool)| <= |pool| + 3
      ensures ok ==> s.index == PtIndex(va) && (plain <==> HugeFree(mem, root, 4, va))
      ensures ok ==> if plain then LastTable(mem, root, 4, va) == Some(s.table) else s.table !in level
      ensures !ok ==> pool == []
    {
      hide Tree, Grown, HugeFree, LastTable, Fresh, Present, Huge, Target, Pml4Index, PdptIndex, PdIndex, PtIndex;
      ghost var a := State();
      RootIsTop(mem, root, level);
      s, plain := Slot(root, 0), true;
      var s4 := Slot(root, Pml4Index(va));
      var pdpt: Frame;
      ok, pdpt := EnsureTable(s4);
      if !ok {
        return;
      }
      ghost var b := State();
      TargetLevel(mem, root, level, s4);
      var s3 := Slot(pdpt, PdptIndex(va));
      var pd: Frame;
      ok, pd := EnsureTable(s3);
      GrownTrans(a, b, State(), root);
      if !ok {
        return;
      }
      ghost var c := State();
      TargetLevel(mem, root, level, s3);
      var s2 := Slot(pd, PdIndex(va));
      var pt: Frame;
      ok, pt := EnsureTable(s2);
      GrownTrans(a, c, State(), root);
      if !ok {
        return;
      }
      ThreeTurns(mem, root, va);
      plain := !Huge(Read(mem, s2));
      s := Slot(pt, PtIndex(va));
    }

    /** `map_page`: false when the allocator runs out (the `expect`s).  The page shows the
        new entry exactly when no huge entry is met on the way down; over a 2 MiB entry the
        write lands in the mapped memory instead and nothing changes. */
    method MapPage(va: nat, pa: Word, f: Word) returns (ok: bool)
      requires Valid() && PathSafe(mem, root, level, va)
      modifies this
      ensures Valid() && Suffix(pool, old(pool)) && |old(pool)| <= |pool| + 3
      ensures forall t :: t in old(level) ==> t in level && level[t] == old(level)[t]
      ensures forall t :: t in level && t !in old(level) ==> t in old(pool) && t !in pool
      ensures ok && HugeFree(old(mem), root, 4, va) ==> ViewUpdated(old(mem), mem, root, va, Some(pa | f | PRESENT))
      ensures ok && !HugeFree(old(mem), root, 4, va) ==> SameView(old(mem), mem, root)
      ensures !ok ==> pool == [] && SameView(old(mem), mem, root)
    {
      hide Tree, SameView, ViewUpdated, HugeFree, LastTable, PathSafe, Suffix;
      ghost var m0 := mem;
      var s: Slot;
      ghost var plain: bool;
      ok, s, plain := MakeTables(va);
      if !ok {
        return;
      }
      GrownMeans(old(State()), State(), root);
      ghost var m1 := mem;
      SameHugeFree(m0, m1, root, va);
      PresentAlways(pa, f);
      if plain {
        LeafUpdatesView(m1, root, level, va, pa | f | PRESENT);
      } else {
        OffTreeKeepsView(m1, root, level, s, pa | f | PRESENT);
      }
      mem := mem[s := pa | f | PRESENT];
      if plain {
        UpdateAfterSame(m0, m1, mem, root, va, Some(pa | f | PRESENT));
      } else {
        ViewTrans(m0, m1, mem, root);
      }
    }

    /** `unmap_page`: the page shows nothing afterwards unless a huge entry covers it, and
        then memory is left alone. */
    method UnmapPage(va: nat)
      requires Valid()
      modifies this`mem
      ensures Valid()
      ensures HugeFree(old(mem), root, 4, va) ==> ViewUpdated(old(mem), mem, root, va, None)
      ensures !HugeFree(old(mem), root, 4, va) ==> mem == old(mem) && GetEntry(mem, root, va).Some?
    {
      ghost var m0 := mem;
      HugeShows(mem, root, va);
      GetEntryIsWalk(mem, root, va);
      if GetEntry(mem, root, va).Some? {
        var pte := GetPteSlot(mem, root, va);
        if pte.Some? {
          LeafUpdatesView(mem, root, level, va, 0);
          assert !Present(0);
          mem := mem[pte.value := 0];
        }
      } else {
        SamePageSameEntry(mem, root, va);
      }
    }

    /** Mapping a page and unmapping it again: afterwards the page shows nothing and all others show what
        they showed; where nothing was mapped, or a huge entry covers the page, nothing has changed. */
    method MapAndUnmap(va: nat, pa: Word, f: Word) returns (ok: bool)
      requires Valid() && PathSafe(mem, root, level, va)
      modifies this
      ensures Valid()
      ensures ok && HugeFree(old(mem), root, 4, va) ==> ViewUpdated(old(mem), mem, root, va, None)
      ensures !ok || !HugeFree(old(mem), root, 4, va) || GetEntry(old(mem), root, va) == None ==> SameView(old(mem), mem, root)
    {
      hide Tree, SameView, ViewUpdated, HugeFree, PathSafe, Suffix, GetEntry;
      ghost var m0 := mem;
      ok := MapPage(va, pa, f);
      if !ok {
        return;
      }
      ghost var m1 := mem;
      UnmapPage(va);
      if HugeFree(m0, root, 4, va) {
        UpdateKeepsHuge(m0, m1, root, va, Some(pa | f | PRESENT));
        UpdateTwice(m0, m1, mem, root, va, Some(pa | f | PRESENT));
        if GetEntry(m0, root, va) == None {
          UnmapUndoesMap(m0, m1, mem, root, va, pa | f | PRESENT);
        }
      } else {
        SameHugeFree(m0, m1, root, va);
      }
    }
  }

  /** After a page was mapped: it can be written, or reached from user mode, just when its entry says so and
      the tables above it granted that before; every other page allows what it allowed. */
  lemma MappedAllows(a: Memory, b: Memory, root: Frame, va: nat, e: Word, o: nat, user: bool)
    requires ViewUpdated(a, b, root, va, Some(e))
    ensures AllAllow(b, root, 4, o, user)
       <==> if SamePage(o, va) then Allows(e, user) && Grants(a, root, 4, o, user) else AllAllow(a, root, 4, o, user)
  {
    hide GetEntry, Grants, AllAllow, Allows;
    GetEntryIsWalk(a, root, o);
    GetEntryIsWalk(b, root, o);
    AllowedIff(a, root, 4, o, user);
    AllowedIff(b, root, 4, o, user);
  }

  lemma UpdateKeepsHuge(a: Memory, b: Memory, root: Frame, va: nat, e: Option<Word>)
    requires ViewUpdated(a, b, root, va, e)
    ensures HugeFree(a, root, 4, va) <==> HugeFree(b, root, 4, va)
  {
  }

  lemma UpdateTwice(a: Memory, b: Memory, c: Memory, root: Frame, va: nat, e: Option<Word>)
    requires ViewUpdated(a, b, root, va, e) && ViewUpdated(b, c, root, va, None)
    ensures ViewUpdated(a, c, root, va, None)
  {
  }

  lemma SameViewRefl(mem: Memory, root: Frame)
    ensures SameView(mem, mem, root)
  {
  }

  lemma SameHugeFree(a: Memory, b: Memory, root: Frame, va: nat)
    requires SameView(a, b, root)
    ensures HugeFree(a, root, 4, va) <==> HugeFree(b, root, 4, va)
  {
  }

  lemma RootIsTop(mem: Memory, root: Frame, level: map<Frame, nat>)
    requires Tree(mem, root, level)
    ensures root in level && level[root] == 4
  {
  }

  lemma TargetLevel(mem: Memory, root: Frame, level: map<Frame, nat>, s: Slot)
    requires Tree(mem, root, level) && s.table in level && Leads(level[s.table], Read(mem, s))
    ensures Target(Read(mem, s)) in level && level[Target(Read(mem, s))] == level[s.table] - 1
  {
  }

  /** A walk that meets a huge entry shows that entry, and has no last-level slot; a walk
      without one shows an entry only through its last-level slot. */
  lemma HugeShows(mem: Memory, root: Frame, va: nat)
    ensures !HugeFree(mem, root, 4, va) ==> GetEntry(mem, root, va).Some? && GetPteSlot(mem, root, va).None?
    ensures HugeFree(mem, root, 4, va) && GetEntry(mem, root, va).Some? ==> GetPteSlot(mem, root, va).Some?
  {
    var e4 := Read(mem, Slot(root, Pml4Index(va)));
    if Present(e4) {
      assert HugeFree(mem, root, 4, va) == HugeFree(mem, Target(e4), 3, va);
      var e3 := Read(mem, Slot(Target(e4), PdptIndex(va)));
      if Present(e3) && !Huge(e3) {
        assert HugeFree(mem, Target(e4), 3, va) == HugeFree(mem, Target(e3), 2, va);
      }
    }
  }

  lemma SamePageSameEntry(mem: Memory, root: Frame, va: nat)
    ensures forall o: nat :: SamePage(o, va) ==> GetEntry(mem, root, o) == GetEntry(mem, root, va)
  {
    forall o: nat | SamePage(o, va)
      ensures GetEntry(mem, root, o) == GetEntry(mem, root, va)
    {
      IndicesNamePage(o, va);
      assert Index(1, o) == Index(1, va) && Index(2, o) == Index(2, va);
      assert Index(3, o) == Index(3, va) && Index(4, o) == Index(4, va);
    }
  }

  /** Unmapping a page that was mapped where nothing was mapped gives back the old view. */
  lemma UnmapUndoesMap(a: Memory, b: Memory, c: Memory, root: Frame, va: nat, e: Word)
    requires GetEntry(a, root, va) == None
    requires ViewUpdated(a, b, root, va, Some(e)) && ViewUpdated(b, c, root, va, None)
    ensures SameView(a, c, root)
  {
    SamePageSameEntry(a, root, va);
  }
}
