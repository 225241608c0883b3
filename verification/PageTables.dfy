/** Four-level page tables held in physical memory, and the flat map from 4 KiB pages to
    entries they stand for. */
module PageTables {
  import opened Options

  type Word = bv64

  const PRESENT: Word := 1
  const WRITABLE: Word := 2
  const USER: Word := 4
  const HUGE_PAGE: Word := 0x80
  const NO_EXEC: Word := 0x8000_0000_0000_0000
  const ADDR_MASK: Word := 0x000F_FFFF_FFFF_F000
  const PAGE_SIZE: nat := 4096

  // ---- index extraction ------------------------------------------------------------

  function Pml4Index(va: nat): nat { va / 0x80_0000_0000 % 512 }
  function PdptIndex(va: nat): nat { va / 0x4000_0000 % 512 }
  function PdIndex(va: nat): nat { va / 0x20_0000 % 512 }
  function PtIndex(va: nat): nat { va / 0x1000 % 512 }

  function Index(level: nat, va: nat): nat {
    match level
    case 4 => Pml4Index(va)
    case 3 => PdptIndex(va)
    case 2 => PdIndex(va)
    case _ => PtIndex(va)
  }

  /** The 36 page number bits the hardware translates. */
  function PageNumber(va: nat): nat {
    va / PAGE_SIZE % 0x10_0000_0000
  }

  predicate SamePage(a: nat, b: nat) {
    PageNumber(a) == PageNumber(b)
  }

  lemma PageDigits(va: nat)
    ensures PageNumber(va) == ((Pml4Index(va) * 512 + PdptIndex(va)) * 512 + PdIndex(va)) * 512 + PtIndex(va)
  {
    var p := va / 4096;
    assert va / 0x20_0000 == p / 512;
    assert va / 0x4000_0000 == p / 512 / 512;
    assert va / 0x80_0000_0000 == p / 512 / 512 / 512;
  }

  /** The four indices together are the page number. */
  lemma IndicesNamePage(a: nat, b: nat)
    ensures SamePage(a, b) <==> forall l :: 1 <= l <= 4 ==> Index(l, a) == Index(l, b)
  {
    PageDigits(a);
    PageDigits(b);
    DigitsDecide(Pml4Index(a), PdptIndex(a), PdIndex(a), PtIndex(a), Pml4Index(b), PdptIndex(b), PdIndex(b), PtIndex(b));
    hide Pml4Index, PdptIndex, PdIndex, PtIndex, PageNumber;
    assert Index(1, a) == PtIndex(a) && Index(2, a) == PdIndex(a) && Index(3, a) == PdptIndex(a) && Index(4, a) == Pml4Index(a);
    assert Index(1, b) == PtIndex(b) && Index(2, b) == PdIndex(b) && Index(3, b) == PdptIndex(b) && Index(4, b) == Pml4Index(b);
  }

  lemma DigitsDecide(a4: nat, a3: nat, a2: nat, a1: nat, b4: nat, b3: nat, b2: nat, b1: nat)
    requires a4 < 512 && a3 < 512 && a2 < 512 && a1 < 512 && b4 < 512 && b3 < 512 && b2 < 512 && b1 < 512
    ensures ((a4 * 512 + a3) * 512 + a2) * 512 + a1 == ((b4 * 512 + b3) * 512 + b2) * 512 + b1
       <==> a4 == b4 && a3 == b3 && a2 == b2 && a1 == b1
  {
  }

  // ---- physical memory --------------------------------------------------------------

  /** A 4 KiB frame of physical memory, by address. */
  datatype Frame = Frame(addr: Word)

  /** One 64-bit word of a table frame. */
  datatype Slot = Slot(table: Frame, index: nat)

  type Memory = map<Slot, Word>

  function Read(mem: Memory, s: Slot): Word {
    if s in mem then mem[s] else 0
  }

  /** A frame filled with zeroes. */
  function Zeroed(mem: Memory, frame: Frame): Memory {
    map s | s in mem && s.table != frame :: mem[s]
  }

  predicate Present(e: Word) { e & PRESENT != 0 }

  predicate Huge(e: Word) { e & HUGE_PAGE != 0 }

  function Target(e: Word): Frame { Frame(e & ADDR_MASK) }

  predicate IsFrame(f: Frame) { f.addr & ADDR_MASK == f.addr && f.addr != 0 }

  /** The entry written for a new table. */
  function TableEntry(frame: Frame): Word { frame.addr | PRESENT | WRITABLE }

  lemma TableEntryPoints(frame: Frame)
    requires IsFrame(frame)
    ensures Present(TableEntry(frame)) && !Huge(TableEntry(frame)) && Target(TableEntry(frame)) == frame
  {
  }

  // ---- get_entry, get_pte_pointer, translate ------------------------------------------

  /** `get_entry` */
  function GetEntry(mem: Memory, root: Frame, va: nat): Option<Word> {
    var pml4e := Read(mem, Slot(root, Pml4Index(va)));
    if !Present(pml4e) then None else
    var pdpte := Read(mem, Slot(Target(pml4e), PdptIndex(va)));
    if !Present(pdpte) then None else
    if Huge(pdpte) then Some(pdpte) else
    var pde := Read(mem, Slot(Target(pdpte), PdIndex(va)));
    if !Present(pde) then None else
    if Huge(pde) then Some(pde) else
    var pte := Read(mem, Slot(Target(pde), PtIndex(va)));
    if !Present(pte) then None else Some(pte)
  }

  /** `get_pte_pointer` */
  function GetPteSlot(mem: Memory, root: Frame, va: nat): Option<Slot> {
    var pml4e := Read(mem, Slot(root, Pml4Index(va)));
    if !Present(pml4e) then None else
    var pdpte := Read(mem, Slot(Target(pml4e), PdptIndex(va)));
    if !Present(pdpte) || Huge(pdpte) then None else
    var pde := Read(mem, Slot(Target(pdpte), PdIndex(va)));
    if !Present(pde) || Huge(pde) then None else
    Some(Slot(Target(pde), PtIndex(va)))
  }

  /** The offset inside a 4 KiB page. */
  function PageOffset(va: nat): Word {
    (va % PAGE_SIZE) as bv12 as Word
  }

  /** `translate` */
  function Translate(mem: Memory, root: Frame, va: nat): Option<Word> {
    match GetEntry(mem, root, va)
    case None => None
    case Some(entry) => Some((entry & ADDR_MASK) | PageOffset(va))
  }

  // ---- the walk, level by level --------------------------------------------------------

  /** An entry of a table of this level that leads to another table. */
  predicate Leads(level: nat, e: Word) {
    level >= 2 && Present(e) && !(level <= 3 && Huge(e))
  }

  function Walk(mem: Memory, table: Frame, level: nat, va: nat): Option<Word>
    requires 1 <= level <= 4
    decreases level
  {
    var e := Read(mem, Slot(table, Index(level, va)));
    if !Present(e) then None
    else if level == 1 || !Leads(level, e) then Some(e)
    else Walk(mem, Target(e), level - 1, va)
  }

  /** The last-level table of `va`, when the walk gets that far. */
  function LastTable(mem: Memory, table: Frame, level: nat, va: nat): Option<Frame>
    requires 1 <= level <= 4
    decreases level
  {
    if level == 1 then Some(table) else
    var e := Read(mem, Slot(table, Index(level, va)));
    if Leads(level, e) then LastTable(mem, Target(e), level - 1, va) else None
  }

  /** No 2 MiB or 1 GiB entry is met on the way down. */
  predicate HugeFree(mem: Memory, table: Frame, level: nat, va: nat)
    requires 1 <= level <= 4
    decreases level
  {
    level == 1 ||
    var e := Read(mem, Slot(table, Index(level, va)));
    Present(e) ==> Leads(level, e) && HugeFree(mem, Target(e), level - 1, va)
  }

  lemma GetEntryIsWalk(mem: Memory, root: Frame, va: nat)
    ensures GetEntry(mem, root, va) == Walk(mem, root, 4, va)
    ensures GetPteSlot(mem, root, va) ==
            match LastTable(mem, root, 4, va) case None => None case Some(t) => Some(Slot(t, PtIndex(va)))
  {
    var pml4e := Read(mem, Slot(root, Pml4Index(va)));
    if Present(pml4e) {
      var pdpte := Read(mem, Slot(Target(pml4e), PdptIndex(va)));
      if Present(pdpte) && !Huge(pdpte) {
        var pde := Read(mem, Slot(Target(pdpte), PdIndex(va)));
        if Present(pde) && !Huge(pde) {
          assert Walk(mem, Target(pde), 1, va) == Walk(mem, Target(pdpte), 2, va);
          assert LastTable(mem, Target(pde), 1, va) == LastTable(mem, Target(pdpte), 2, va);
        }
        assert Walk(mem, Target(pdpte), 2, va) == Walk(mem, Target(pml4e), 3, va);
        assert LastTable(mem, Target(pdpte), 2, va) == LastTable(mem, Target(pml4e), 3, va);
      }
    }
  }

  // ---- the tables form a tree ------------------------------------------------------------

  /** `level` gives the level of every table frame.  Entries lead one level down, and no two
      entries lead to the same table. */
  ghost predicate Tree(mem: Memory, root: Frame, level: map<Frame, nat>) {
    && root in level && level[root] == 4
    && (forall t :: t in level ==> 1 <= level[t] <= 4)
    && (forall s: Slot :: s.table in level && Leads(level[s.table], Read(mem, s)) ==>
          Target(Read(mem, s)) in level && level[Target(Read(mem, s))] == level[s.table] - 1)
    && (forall s: Slot, r: Slot | s.table in level && r.table in level
          && Leads(level[s.table], Read(mem, s)) && Leads(level[r.table], Read(mem, r)) ::
          Target(Read(mem, s)) == Target(Read(mem, r)) ==> s == r)
  }

  /** Two walks that end in the same last-level table took the same turns. */
  lemma {:induction false} SameTableSameTurns(mem: Memory, root: Frame, level: map<Frame, nat>, ta: Frame, tb: Frame, l: nat, a: nat, b: nat)
    requires Tree(mem, root, level) && 1 <= l <= 4
    requires ta in level && tb in level && level[ta] == l && level[tb] == l
    requires LastTable(mem, ta, l, a).Some? && LastTable(mem, ta, l, a) == LastTable(mem, tb, l, b)
    ensures ta == tb && forall k :: 2 <= k <= l ==> Index(k, a) == Index(k, b)
    decreases l
  {
    if l > 1 {
      var sa, sb := Slot(ta, Index(l, a)), Slot(tb, Index(l, b));
      SameTableSameTurns(mem, root, level, Target(Read(mem, sa)), Target(Read(mem, sb)), l - 1, a, b);
    }
  }

  lemma {:induction false} LastTableLevel(mem: Memory, root: Frame, level: map<Frame, nat>, t: Frame, l: nat, va: nat)
    requires Tree(mem, root, level) && 1 <= l <= 4 && t in level && level[t] == l
    ensures var r := LastTable(mem, t, l, va); r.Some? ==> r.value in level && level[r.value] == 1
    decreases l
  {
    if l > 1 {
      var s := Slot(t, Index(l, va));
      if Leads(l, Read(mem, s)) {
        LastTableLevel(mem, root, level, Target(Read(mem, s)), l - 1, va);
      }
    }
  }

  // ---- hanging a new table -------------------------------------------------------------------

  /** Memory after a fresh frame is zeroed and entered at `s`. */
  function Hang(mem: Memory, s: Slot, frame: Frame): Memory {
    Zeroed(mem, frame)[s := TableEntry(frame)]
  }

  lemma HangReads(mem: Memory, s: Slot, frame: Frame, r: Slot)
    requires s.table != frame
    ensures Read(Hang(mem, s, frame), r) ==
            if r == s then TableEntry(frame) else if r.table == frame then 0 else Read(mem, r)
  {
  }

  /** A fresh table under an empty entry keeps the tree and every walk. */
  lemma HangKeepsTree(mem: Memory, root: Frame, level: map<Frame, nat>, s: Slot, frame: Frame)
    requires Tree(mem, root, level) && IsFrame(frame) && frame !in level
    requires s.table in level && level[s.table] >= 2 && !Present(Read(mem, s))
    ensures Tree(Hang(mem, s, frame), root, level[frame := level[s.table] - 1])
  {
    var now := Hang(mem, s, frame);
    var level' := level[frame := level[s.table] - 1];
    TableEntryPoints(frame);
    forall r: Slot
      ensures Read(now, r) == if r == s then TableEntry(frame) else if r.table == frame then 0 else Read(mem, r)
    {
      HangReads(mem, s, frame, r);
    }
    assert !Present(0);
    forall r: Slot | r.table in level' && Leads(level'[r.table], Read(now, r)) && r != s
      ensures r.table in level && Leads(level[r.table], Read(mem, r))
      ensures Read(now, r) == Read(mem, r) && Target(Read(now, r)) in level
    {
      assert r.table == frame ==> Read(now, r) == 0 && !Present(Read(now, r));
      assert r.table != frame;
      assert r.table in level && level'[r.table] == level[r.table];
      assert Read(now, r) == Read(mem, r);
      assert Leads(level[r.table], Read(mem, r));
    }
  }

  lemma {:induction false} HangKeepsWalk(mem: Memory, root: Frame, level: map<Frame, nat>, s: Slot, frame: Frame, t: Frame, l: nat, va: nat)
    requires Tree(mem, root, level) && IsFrame(frame) && frame !in level
    requires s.table in level && level[s.table] >= 2 && !Present(Read(mem, s))
    requires 1 <= l <= 4 && t in level && level[t] == l
    ensures Walk(Hang(mem, s, frame), t, l, va) == Walk(mem, t, l, va)
    ensures HugeFree(Hang(mem, s, frame), t, l, va) <==> HugeFree(mem, t, l, va)
    ensures LastTable(mem, t, l, va).Some? ==> LastTable(Hang(mem, s, frame), t, l, va) == LastTable(mem, t, l, va)
    decreases l
  {
    var now := Hang(mem, s, frame);
    var r := Slot(t, Index(l, va));
    HangReads(mem, s, frame, r);
    TableEntryPoints(frame);
    assert !Present(0);
    if r == s {
      var below := Slot(frame, Index(l - 1, va));
      HangReads(mem, s, frame, below);
      assert Walk(now, frame, l - 1, va) == None;
    } else if Leads(l, Read(mem, r)) {
      HangKeepsWalk(mem, root, level, s, frame, Target(Read(mem, r)), l - 1, va);
    }
  }

  // ---- writing a last-level entry ---------------------------------------------------------------

  /** A write at level 1 keeps the tree. */
  lemma LeafKeepsTree(mem: Memory, root: Frame, level: map<Frame, nat>, s: Slot, e: Word)
    requires Tree(mem, root, level) && s.table in level && level[s.table] == 1
    ensures Tree(mem[s := e], root, level)
  {
    var now := mem[s := e];
    assert forall r: Slot :: r != s ==> Read(now, r) == Read(mem, r);
  }

  /** A write at level 1 is seen only by walks that end at that very slot. */
  lemma {:induction false} LeafWalk(mem: Memory, root: Frame, level: map<Frame, nat>, s: Slot, e: Word, t: Frame, l: nat, va: nat)
    requires Tree(mem, root, level) && s.table in level && level[s.table] == 1
    requires 1 <= l <= 4 && t in level && level[t] == l
    ensures HugeFree(mem[s := e], t, l, va) <==> HugeFree(mem, t, l, va)
    ensures LastTable(mem[s := e], t, l, va) == LastTable(mem, t, l, va)
    ensures Walk(mem[s := e], t, l, va) ==
            if LastTable(mem, t, l, va) == Some(s.table) && Index(1, va) == s.index
            then (if Present(e) then Some(e) else None)
            else Walk(mem, t, l, va)
    decreases l
  {
    var now := mem[s := e];
    var r := Slot(t, Index(l, va));
    if l > 1 {
      assert Read(now, r) == Read(mem, r);
      if Leads(l, Read(mem, r)) {
        LeafWalk(mem, root, level, s, e, Target(Read(mem, r)), l - 1, va);
      }
    }
  }

  /** Writing the last-level entry of `va` changes the entry of its own page and of no
      other. */
  lemma LeafIsFlatUpdate(mem: Memory, root: Frame, level: map<Frame, nat>, va: nat, e: Word, other: nat)
    requires Tree(mem, root, level) && LastTable(mem, root, 4, va).Some?
    ensures var s := Slot(LastTable(mem, root, 4, va).value, PtIndex(va));
            && Tree(mem[s := e], root, level)
            && GetEntry(mem[s := e], root, other) ==
               (if SamePage(other, va) then (if Present(e) then Some(e) else None) else GetEntry(mem, root, other))
            && (HugeFree(mem[s := e], root, 4, other) <==> HugeFree(mem, root, 4, other))
  {
    var t := LastTable(mem, root, 4, va).value;
    var s := Slot(t, PtIndex(va));
    LastTableLevel(mem, root, level, root, 4, va);
    LeafKeepsTree(mem, root, level, s, e);
    LeafWalk(mem, root, level, s, e, root, 4, other);
    GetEntryIsWalk(mem, root, other);
    GetEntryIsWalk(mem[s := e], root, other);
    IndicesNamePage(other, va);
    if SamePage(other, va) {
      SameTurnsSameTable(mem, root, 4, va, other);
    } else if LastTable(mem, root, 4, other) == Some(t) {
      SameTableSameTurns(mem, root, level, root, root, 4, va, other);
    }
  }

  lemma {:induction false} SameTurnsSameTable(mem: Memory, t: Frame, l: nat, a: nat, b: nat)
    requires 1 <= l <= 4 && forall k :: 1 <= k <= 4 ==> Index(k, a) == Index(k, b)
    ensures LastTable(mem, t, l, a) == LastTable(mem, t, l, b)
    decreases l
  {
    if l > 1 {
      var s := Slot(t, Index(l, a));
      assert Index(l, a) == Index(l, b);
      if Leads(l, Read(mem, s)) {
        SameTurnsSameTable(mem, Target(Read(mem, s)), l - 1, a, b);
      }
    }
  }

  // ---- translate -----------------------------------------------------------------------------------

  /** For an aligned frame and flags outside the address bits, `translate` is frame plus
      offset. */
  lemma TranslateAddsOffset(mem: Memory, root: Frame, va: nat, pa: Word, f: Word)
    requires GetEntry(mem, root, va) == Some(pa | f | PRESENT)
    requires pa & ADDR_MASK == pa && f & ADDR_MASK == 0
    ensures Translate(mem, root, va) == Some(pa + PageOffset(va))
  {
    AddOffset(pa, f, (va % PAGE_SIZE) as bv12);
  }

  lemma AddOffset(pa: Word, f: Word, o: bv12)
    requires pa & ADDR_MASK == pa && f & ADDR_MASK == 0
    ensures ((pa | f | PRESENT) & ADDR_MASK) | (o as Word) == pa + (o as Word)
  {
  }
}
