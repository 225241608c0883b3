/** Mapping, unmapping and anonymous user regions over the page tables of one address
    space. */
module VirtualMemory {
  import opened Options
  import opened PageTables
  import opened PageRights

  const USER_MMAP_BASE: nat := 0x0000_0001_0000_0000
  const USER_MMAP_LIMIT: nat := 0x0000_7FFF_0000_0000
  const U64: nat := 0x1_0000_0000_0000_0000
  const VMA_MAX: nat := 64

  const VMA_READ: Word := 1
  const VMA_WRITE: Word := 2
  const VMA_EXEC: Word := 4

  datatype VmArea = VmArea(start: nat, end: nat, flags: Word)

  /** `mmap_user` gives a region, refuses, or runs into the `expect` of `map_page`. */
  datatype MmapResult = Mapped(start: nat) | Refused | OutOfTables

  /** `len` rounded up to pages in wrapping 64-bit arithmetic. */
  function AlignedLen(len: nat): (r: nat)
    ensures r % PAGE_SIZE == 0
  {
    (len + PAGE_SIZE - 1) % U64 / PAGE_SIZE * PAGE_SIZE
  }

  /** The rounded length covers the request exactly when the rounding does not wrap. */
  lemma AlignedLenCoversIff(len: nat)
    requires len < U64
    ensures AlignedLen(len) >= len <==> len <= U64 - PAGE_SIZE
    ensures len <= U64 - PAGE_SIZE ==> AlignedLen(len) < len + PAGE_SIZE
  {
  }

  /** What the walk to `va` must not meet: a 1 GiB entry, or a 2 MiB entry over memory that
      itself holds page tables. */
  ghost predicate PathSafe(mem: Memory, root: Frame, level: map<Frame, nat>, va: nat) {
    var e4 := Read(mem, Slot(root, Pml4Index(va)));
    Present(e4) ==>
      var e3 := Read(mem, Slot(Target(e4), PdptIndex(va)));
      Present(e3) ==>
        && !Huge(e3)
        && var e2 := Read(mem, Slot(Target(e3), PdIndex(va)));
           Present(e2) && Huge(e2) ==> Target(e2) !in level
  }

  lemma HugeFreeIsSafe(mem: Memory, root: Frame, level: map<Frame, nat>, va: nat)
    requires HugeFree(mem, root, 4, va)
    ensures PathSafe(mem, root, level, va)
  {
    var e4 := Read(mem, Slot(root, Pml4Index(va)));
    if Present(e4) {
      assert HugeFree(mem, Target(e4), 3, va);
      var e3 := Read(mem, Slot(Target(e4), PdptIndex(va)));
      if Present(e3) {
        assert HugeFree(mem, Target(e3), 2, va);
      }
    }
  }

  lemma {:induction false} ZeroKeepsWalk(mem: Memory, root: Frame, level: map<Frame, nat>, frame: Frame, t: Frame, l: nat, va: nat)
    requires Tree(mem, root, level) && frame !in level && 1 <= l <= 4 && t in level && level[t] == l
    ensures Walk(Zeroed(mem, frame), t, l, va) == Walk(mem, t, l, va)
    ensures HugeFree(Zeroed(mem, frame), t, l, va) <==> HugeFree(mem, t, l, va)
    decreases l
  {
    var s := Slot(t, Index(l, va));
    assert Read(Zeroed(mem, frame), s) == Read(mem, s);
    if Leads(l, Read(mem, s)) {
      ZeroKeepsWalk(mem, root, level, frame, Target(Read(mem, s)), l - 1, va);
    }
  }

  lemma {:induction false} OffTreeWalk(mem: Memory, root: Frame, level: map<Frame, nat>, s: Slot, e: Word, t: Frame, l: nat, va: nat)
    requires Tree(mem, root, level) && s.table !in level && 1 <= l <= 4 && t in level && level[t] == l
    ensures Walk(mem[s := e], t, l, va) == Walk(mem, t, l, va)
    ensures HugeFree(mem[s := e], t, l, va) <==> HugeFree(mem, t, l, va)
    decreases l
  {
    var r := Slot(t, Index(l, va));
    assert Read(mem[s := e], r) == Read(mem, r);
    if Leads(l, Read(mem, r)) {
      OffTreeWalk(mem, root, level, s, e, Target(Read(mem, r)), l - 1, va);
    }
  }

  /** The tables allow the same everywhere. */
  ghost predicate SameGrants(a: Memory, b: Memory, root: Frame) {
    forall va: nat, user :: Grants(a, root, 4, va, user) <==> Grants(b, root, 4, va, user)
  }

  /** Both memories show every address the same entry, and the tables above it allow the same. */
  ghost predicate SameView(a: Memory, b: Memory, root: Frame) {
    && (forall va: nat :: GetEntry(a, root, va) == GetEntry(b, root, va))
    && (forall va: nat :: HugeFree(a, root, 4, va) <==> HugeFree(b, root, 4, va))
    && SameGrants(a, b, root)
  }

  /** `b` is `a` with the page of `va` showing `e`. */
  ghost predicate ViewUpdated(a: Memory, b: Memory, root: Frame, va: nat, e: Option<Word>) {
    && (forall o: nat :: GetEntry(b, root, o) == if SamePage(o, va) then e else GetEntry(a, root, o))
    && (forall o: nat :: HugeFree(a, root, 4, o) <==> HugeFree(b, root, 4, o))
    && SameGrants(a, b, root)
  }

  lemma ZeroKeepsView(mem: Memory, root: Frame, level: map<Frame, nat>, frame: Frame)
    requires Tree(mem, root, level) && frame !in level
    ensures Tree(Zeroed(mem, frame), root, level)
    ensures SameView(mem, Zeroed(mem, frame), root)
  {
    forall va: nat, user
      ensures Grants(Zeroed(mem, frame), root, 4, va, user) <==> Grants(mem, root, 4, va, user)
    {
      ZeroKeepsGrants(mem, root, level, frame, root, 4, va, user);
    }
    assert forall s: Slot :: s.table in level ==> Read(Zeroed(mem, frame), s) == Read(mem, s);
    forall va: nat
      ensures GetEntry(Zeroed(mem, frame), root, va) == GetEntry(mem, root, va)
      ensures HugeFree(Zeroed(mem, frame), root, 4, va) <==> HugeFree(mem, root, 4, va)
    {
      ZeroKeepsWalk(mem, root, level, frame, root, 4, va);
      GetEntryIsWalk(mem, root, va);
      GetEntryIsWalk(Zeroed(mem, frame), root, va);
    }
  }

  lemma HangKeepsView(mem: Memory, root: Frame, level: map<Frame, nat>, s: Slot, frame: Frame)
    requires Tree(mem, root, level) && IsFrame(frame) && frame !in level
    requires s.table in level && level[s.table] >= 2 && !Present(Read(mem, s))
    ensures SameView(mem, Hang(mem, s, frame), root)
  {
    forall va: nat, user
      ensures Grants(Hang(mem, s, frame), root, 4, va, user) <==> Grants(mem, root, 4, va, user)
    {
      HangKeepsGrants(mem, root, level, s, frame, root, 4, va, user);
    }
    forall va: nat
      ensures GetEntry(Hang(mem, s, frame), root, va) == GetEntry(mem, root, va)
      ensures HugeFree(Hang(mem, s, frame), root, 4, va) <==> HugeFree(mem, root, 4, va)
    {
      HangKeepsWalk(mem, root, level, s, frame, root, 4, va);
      GetEntryIsWalk(mem, root, va);
      GetEntryIsWalk(Hang(mem, s, frame), root, va);
    }
  }

  lemma OffTreeKeepsView(mem: Memory, root: Frame, level: map<Frame, nat>, s: Slot, e: Word)
    requires Tree(mem, root, level) && s.table !in level
    ensures Tree(mem[s := e], root, level)
    ensures SameView(mem, mem[s := e], root)
  {
    forall va: nat, user
      ensures Grants(mem[s := e], root, 4, va, user) <==> Grants(mem, root, 4, va, user)
    {
      WriteKeepsGrants(mem, root, level, s, e, root, 4, va, user);
    }
    assert forall r: Slot :: r.table in level ==> Read(mem[s := e], r) == Read(mem, r);
    forall va: nat
      ensures GetEntry(mem[s := e], root, va) == GetEntry(mem, root, va)
      ensures HugeFree(mem[s := e], root, 4, va) <==> HugeFree(mem, root, 4, va)
    {
      OffTreeWalk(mem, root, level, s, e, root, 4, va);
      GetEntryIsWalk(mem, root, va);
      GetEntryIsWalk(mem[s := e], root, va);
    }
  }

  lemma LeafUpdatesView(mem: Memory, root: Frame, level: map<Frame, nat>, va: nat, e: Word)
    requires Tree(mem, root, level) && LastTable(mem, root, 4, va).Some?
    ensures var s := Slot(LastTable(mem, root, 4, va).value, PtIndex(va));
            && Tree(mem[s := e], root, level)
            && ViewUpdated(mem, mem[s := e], root, va, if Present(e) then Some(e) else None)
  {
    var s := Slot(LastTable(mem, root, 4, va).value, PtIndex(va));
    LastTableLevel(mem, root, level, root, 4, va);
    forall o: nat, user
      ensures Grants(mem[s := e], root, 4, o, user) <==> Grants(mem, root, 4, o, user)
    {
      WriteKeepsGrants(mem, root, level, s, e, root, 4, o, user);
    }
    LeafIsFlatUpdate(mem, root, level, va, e, va);
    forall o: nat
      ensures GetEntry(mem[s := e], root, o) == if SamePage(o, va) then (if Present(e) then Some(e) else None) else GetEntry(mem, root, o)
      ensures HugeFree(mem, root, 4, o) <==> HugeFree(mem[s := e], root, 4, o)
    {
      LeafIsFlatUpdate(mem, root, level, va, e, o);
    }
  }

  /** Three leading entries on the way down end at the last-level table. */
  lemma ThreeTurns(mem: Memory, root: Frame, va: nat)
    requires var e4 := Read(mem, Slot(root, Pml4Index(va)));
             var e3 := Read(mem, Slot(Target(e4), PdptIndex(va)));
             var e2 := Read(mem, Slot(Target(e3), PdIndex(va)));
             Leads(4, e4) && Leads(3, e3) && Present(e2)
    ensures var e4 := Read(mem, Slot(root, Pml4Index(va)));
            var e3 := Read(mem, Slot(Target(e4), PdptIndex(va)));
            var e2 := Read(mem, Slot(Target(e3), PdIndex(va)));
            && (LastTable(mem, root, 4, va) == if Huge(e2) then None else Some(Target(e2)))
            && (HugeFree(mem, root, 4, va) <==> !Huge(e2))
  {
    var e4 := Read(mem, Slot(root, Pml4Index(va)));
    var e3 := Read(mem, Slot(Target(e4), PdptIndex(va)));
    var e2 := Read(mem, Slot(Target(e3), PdIndex(va)));
    assert LastTable(mem, Target(e4), 3, va) == LastTable(mem, Target(e3), 2, va);
    assert HugeFree(mem, Target(e4), 3, va) == HugeFree(mem, Target(e3), 2, va);
    assert Leads(2, e2) ==> LastTable(mem, Target(e3), 2, va) == LastTable(mem, Target(e2), 1, va);
  }

  lemma PresentAlways(pa: Word, f: Word)
    ensures Present(pa | f | PRESENT)
  {
  }
}
