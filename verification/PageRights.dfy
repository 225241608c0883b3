/** What the tables on the way to a page allow: an access needs its bit in every entry of the walk. */
module PageRights {
  import opened Options
  import opened PageTables

  function RightBit(user: bool): Word {
    if user then USER else WRITABLE
  }

  predicate Allows(e: Word, user: bool) {
    e & RightBit(user) != 0
  }

  /** Whether the tables above a page at `va` let it be written, or be reached from user mode, once all are
      there: `map_page` makes new tables writable, but not open to user mode. */
  predicate Grants(mem: Memory, table: Frame, level: nat, va: nat, user: bool)
    requires 1 <= level <= 4
    decreases level
  {
    level == 1 ||
    var e := Read(mem, Slot(table, Index(level, va)));
    if Leads(level, e) then Allows(e, user) && Grants(mem, Target(e), level - 1, va, user)
    else Present(e) || !user
  }

  /** Every entry of the walk has the bit. */
  predicate AllAllow(mem: Memory, table: Frame, level: nat, va: nat, user: bool)
    requires 1 <= level <= 4
    decreases level
  {
    var e := Read(mem, Slot(table, Index(level, va)));
    Present(e) && Allows(e, user) && (Leads(level, e) ==> AllAllow(mem, Target(e), level - 1, va, user))
  }

  /** An address can be used so just when its entry has the bit and the tables above grant it. */
  lemma {:induction false} AllowedIff(mem: Memory, t: Frame, l: nat, va: nat, user: bool)
    requires 1 <= l <= 4
    ensures AllAllow(mem, t, l, va, user)
       <==> Walk(mem, t, l, va).Some? && Allows(Walk(mem, t, l, va).value, user) && Grants(mem, t, l, va, user)
    decreases l
  {
    var e := Read(mem, Slot(t, Index(l, va)));
    if Leads(l, e) {
      AllowedIff(mem, Target(e), l - 1, va, user);
    }
  }

  /** Where no table is yet, pages can be made writable but never reached from user mode. */
  lemma NothingThere(mem: Memory, root: Frame, va: nat)
    requires !Present(Read(mem, Slot(root, Pml4Index(va))))
    ensures Grants(mem, root, 4, va, false) && !Grants(mem, root, 4, va, true)
  {
  }

  lemma TableEntryGrants(frame: Frame, user: bool)
    requires IsFrame(frame)
    ensures Allows(TableEntry(frame), user) <==> !user
  {
  }

  lemma {:induction false} HangKeepsGrants(mem: Memory, root: Frame, level: map<Frame, nat>, s: Slot, frame: Frame, t: Frame, l: nat, va: nat, user: bool)
    requires Tree(mem, root, level) && IsFrame(frame) && frame !in level
    requires s.table in level && level[s.table] >= 2 && !Present(Read(mem, s))
    requires 1 <= l <= 4 && t in level && level[t] == l
    ensures Grants(Hang(mem, s, frame), t, l, va, user) <==> Grants(mem, t, l, va, user)
    decreases l
  {
    hide Allows, Target, Huge, Present, TableEntry;
    var now := Hang(mem, s, frame);
    var r := Slot(t, Index(l, va));
    HangReads(mem, s, frame, r);
    if r == s {
      var below := Slot(frame, Index(l - 1, va));
      HangReads(mem, s, frame, below);
      NewTableGrants(mem, s, frame, l, va, user);
    } else if Leads(l, Read(mem, r)) {
      HangKeepsGrants(mem, root, level, s, frame, Target(Read(mem, r)), l - 1, va, user);
    }
  }

  lemma NewTableGrants(mem: Memory, s: Slot, frame: Frame, l: nat, va: nat, user: bool)
    requires IsFrame(frame) && s.table != frame && s.index == Index(l, va) && 2 <= l <= 4
    ensures Grants(Hang(mem, s, frame), s.table, l, va, user) <==> !user
  {
    var now := Hang(mem, s, frame);
    TableEntryPoints(frame);
    TableEntryGrants(frame, user);
    HangReads(mem, s, frame, s);
    hide Hang, TableEntry, Allows, Target;
    HangReads(mem, s, frame, Slot(frame, Index(l - 1, va)));
    assert !Present(0);
    assert Grants(now, frame, l - 1, va, user) <==> l == 2 || !user;
  }

  lemma {:induction false} ZeroKeepsGrants(mem: Memory, root: Frame, level: map<Frame, nat>, frame: Frame, t: Frame, l: nat, va: nat, user: bool)
    requires Tree(mem, root, level) && frame !in level && 1 <= l <= 4 && t in level && level[t] == l
    ensures Grants(Zeroed(mem, frame), t, l, va, user) <==> Grants(mem, t, l, va, user)
    decreases l
  {
    hide Allows, Target, Huge, Present, TableEntry;
    var s := Slot(t, Index(l, va));
    assert Read(Zeroed(mem, frame), s) == Read(mem, s);
    if Leads(l, Read(mem, s)) {
      ZeroKeepsGrants(mem, root, level, frame, Target(Read(mem, s)), l - 1, va, user);
    }
  }

  /** A write outside the tables, or in a last-level table, grants and takes nothing. */
  lemma {:induction false} WriteKeepsGrants(mem: Memory, root: Frame, level: map<Frame, nat>, s: Slot, e: Word, t: Frame, l: nat, va: nat, user: bool)
    requires Tree(mem, root, level) && 1 <= l <= 4 && t in level && level[t] == l
    requires s.table in level ==> level[s.table] == 1
    ensures Grants(mem[s := e], t, l, va, user) <==> Grants(mem, t, l, va, user)
    decreases l
  {
    hide Allows, Target, Huge, Present, TableEntry;
    var r := Slot(t, Index(l, va));
    if l > 1 {
      assert Read(mem[s := e], r) == Read(mem, r);
      if Leads(l, Read(mem, r)) {
        WriteKeepsGrants(mem, root, level, s, e, Target(Read(mem, r)), l - 1, va, user);
      }
    }
  }
}
