/** The journal object over its device: counters and the active transaction are fields, and blocks
    are written one by one. */
module JournalObject {
  import opened JournalFormat
  import opened Journaling
  import opened JournalReplay

  class Journal {
    var firstBlock: nat
    var maxBlocks: nat
    var sequence: nat
    var head: nat
    var tail: nat
    var blocks: seq<Staged>
    var committed: bool
    var ready: bool
    /** The device the journal writes to. */
    var disk: Disk

    ghost function State(): Log
      reads this
    {
      Log(firstBlock, maxBlocks, sequence, head, tail, blocks, committed, ready)
    }

    constructor (disk: Disk)
      ensures State() == UNREADY && this.disk == disk
    {
      firstBlock, maxBlocks, sequence, head, tail := 0, 0, 0, 0, 0;
      blocks := [];
      committed, ready := false, false;
      this.disk := disk;
    }

    method WriteBytes(at: nat, data: seq<Byte>) returns (ok: bool)
      modifies this`disk
      ensures Io(ok, disk) == Write(old(disk), at, data)
    {
      ok := data == [] || at + |data| <= |disk|;
      if ok && data != [] {
        disk := disk[..at] + data + disk[at + |data|..];
      }
    }

    method WriteJsb() returns (ok: bool)
      modifies this`disk
      ensures Io(ok, disk) == WriteSuper(State(), old(disk))
    {
      ok := WriteBytes(firstBlock, SuperBlock(maxBlocks, firstBlock, sequence, head, tail));
    }

    method Init(first: nat, bytes: nat) returns (ok: bool)
      modifies this
      ensures var r := InitNew(first, bytes, old(disk));
              ok == r.ok && disk == r.disk && State() == r.log.(blocks := old(blocks), committed := old(committed))
    {
      hide SuperBlock;
      firstBlock, maxBlocks := first, bytes / BLOCK;
      head, tail, sequence, ready := 1, 1, 1, true;
      ZeroBlocks(first, if maxBlocks < 64 then maxBlocks else 64);
      ok := WriteJsb();
    }

    /** Takes over what the superblock says; the active transaction stays as it is, and so does the
        sequence number when the superblock cannot be read. */
    method Load(first: nat, bytes: nat) returns (ok: bool)
      modifies this
      ensures var r := Loaded(first, bytes, old(disk));
              && ok == r.ok && disk == r.disk
              && State() == if first == 0 || bytes < 3 * BLOCK then old(State())
                            else r.log.(sequence := if ok then r.log.sequence else old(sequence), blocks := old(blocks), committed := old(committed))
    {
      hide SuperBlock, Field;
      if first == 0 || bytes < 3 * BLOCK {
        return false;
      }
      firstBlock, maxBlocks := first, bytes / BLOCK;
      head, tail, ready := 1, 1, true;
      if first + BLOCK > |disk| {
        return false;
      }
      var b := disk[first..first + BLOCK];
      if Field(b, 0, 4) == JSB_MAGIC {
        sequence, head, tail := Field(b, 24, 8), Field(b, 40, 8), Field(b, 48, 8);
        if head == 0 || head >= maxBlocks {
          head := 1;
        }
        if tail == 0 || tail >= maxBlocks {
          tail := 1;
        }
        ok := true;
      } else {
        sequence := 1;
        ok := WriteJsb();
      }
    }

    /** Zeroes the first blocks; a write that fails is ignored. */
    method ZeroBlocks(first: nat, n: nat)
      modifies this`disk
      ensures disk == Zeroed(first, n, old(disk))
    {
      hide Padded;
      var i := 0;
      while i < n
        invariant 0 <= i <= n && disk == Zeroed(first, i, old(disk))
      {
        var written := WriteBytes(first + i * BLOCK, Padded([]));
        i := i + 1;
      }
    }

    method StartTransaction() returns (ok: bool)
      modifies this`blocks, this`committed
      ensures Result(ok, State(), disk) == Start(old(State()), disk)
    {
      if !ready {
        return false;
      }
      blocks, committed := [], false;
      ok := true;
    }

    method AddBlock(offset: nat, data: seq<Byte>) returns (ok: bool)
      modifies this`blocks
      ensures ok == (|old(blocks)| < MAX_TX_BLOCKS)
      ensures blocks == if ok then old(blocks) + [Staged(offset / BLOCK * BLOCK, Padded(data))] else old(blocks)
    {
      if |blocks| >= MAX_TX_BLOCKS {
        return false;
      }
      blocks := blocks + [Staged(offset / BLOCK * BLOCK, Padded(data))];
      ok := true;
    }

    method AdvanceHead()
      requires maxBlocks > 0
      modifies this`head
      ensures head == Next(old(head), maxBlocks)
    {
      head := (head + 1) % maxBlocks;
      if head == 0 {
        head := 1;
      }
    }

    method JournalMetadata(offset: nat, data: seq<Byte>) returns (ok: bool)
      requires maxBlocks > 0
      modifies this
      ensures Result(ok, State(), disk) == Stage(old(State()), old(disk), offset, data)
    {
      hide Checkpoint;
      if committed {
        return false;
      }
      ok := WriteBytes(firstBlock + head * BLOCK, data);
      if !ok {
        return;
      }
      ok := AddBlock(offset, data);
      if !ok {
        return;
      }
      AdvanceHead();
      var free := if head >= tail then maxBlocks - (head - tail) else tail - head;
      if head == tail || free < 8 {
        ok := DoCheckpoint();
      }
    }

    /** Copies the staged blocks home, then moves the tail. */
    method DoCheckpoint() returns (ok: bool)
      modifies this`disk, this`tail
      ensures Result(ok, State(), disk) == Checkpoint(old(State()), old(disk))
    {
      ghost var was := disk;
      var i := 0;
      assert blocks[..|blocks|] == blocks;
      while i < |blocks|
        invariant 0 <= i <= |blocks|
        invariant Io(true, disk) == CopiedHome(blocks[..i], was)
        modifies this`disk
      {
        assert blocks[..i + 1][..i] == blocks[..i];
        ok := WriteBytes(blocks[i].home, blocks[i].data);
        if !ok {
          FailureStays(blocks, i + 1, was);
          return;
        }
        i := i + 1;
      }
      tail := head;
      ok := WriteJsb();
    }

    method WriteTags() returns (tags: seq<Byte>)
      ensures tags == Tags(blocks, |blocks|)
    {
      tags := [];
      var i := 0;
      while i < |blocks|
        invariant 0 <= i <= |blocks| && tags == Tags(blocks, i)
      {
        tags := tags + Encoded(blocks[i].home, 8) + Encoded(if i == |blocks| - 1 then 4 else 0, 4);
        i := i + 1;
      }
    }

    method BuildDescriptor() returns (d: seq<Byte>)
      ensures d == Descriptor(State())
    {
      var tags := WriteTags();
      d := Padded(Encoded(JDB_MAGIC, 4) + Encoded(sequence, 8) + Encoded(|blocks|, 2) + [0] + Encoded(0, 4) + tags);
    }

    method BuildCommit() returns (d: seq<Byte>)
      ensures d == CommitBlock(State())
    {
      d := Padded(Encoded(JCB_MAGIC, 4) + Encoded(sequence, 8) + Encoded(0, 4));
    }

    method CommitTransaction() returns (ok: bool)
      requires maxBlocks > 0
      modifies this
      ensures Result(ok, State(), disk) == Commit(old(State()), old(disk))
    {
      hide Checkpoint;
      hide Descriptor;
      hide CommitBlock;
      hide Write;
      hide WriteSuper;
      hide Next;
      ghost var log := State();
      if |blocks| == 0 {
        committed := true;
        return true;
      }
      var at := firstBlock + head * BLOCK;
      AdvanceHead();
      var block := BuildDescriptor();
      HeadIsNotWritten(State(), log);
      ok := WriteBytes(at, block);
      if !ok {
        return;
      }
      at := firstBlock + head * BLOCK;
      AdvanceHead();
      block := BuildCommit();
      HeadIsNotWritten(State(), log);
      ok := WriteBytes(at, block);
      if !ok {
        return;
      }
      sequence := sequence + 1;
      committed := true;
      ok := WriteJsb();
      if !ok {
        return;
      }
      ok := DoCheckpoint();
    }

    /** Scans from tail to head and copies what descriptors name; it ends whatever the log holds, if
        the head read from the superblock lies in the ring. */
    method Replay(beyond: nat -> Byte) returns (ok: bool, replayed: nat)
      requires ready ==> RingFits(State(), disk)
      requires ready && NeedsReplay(State(), disk) ==> 1 <= SuperField(State(), disk, 40) < maxBlocks
      modifies this
      ensures (Result(ok, State(), disk), replayed) == Replayed(old(State()), old(disk), beyond)
    {
      hide Scanned;
      hide Field;
      hide WriteSuper;
      if !ready {
        return false, 0;
      }
      var b := disk[firstBlock..firstBlock + BLOCK];
      if Field(b, 0, 4) != JSB_MAGIC || Field(b, 48, 8) == Field(b, 40, 8) {
        return true, 0;
      }
      replayed := ScanLog(Field(b, 48, 8), Field(b, 40, 8), beyond);
      sequence, head, tail := Field(b, 24, 8) + 1, 1, 1;
      ok := WriteJsb();
    }

    method ScanLog(start: nat, stop: nat, beyond: nat -> Byte) returns (replayed: nat)
      requires RingFits(State(), disk) && 1 <= stop < maxBlocks
      modifies this`disk
      ensures var s := Scanned(State(), stop, beyond, Scan(start, 0, old(disk))); disk == s.disk && replayed == s.replayed
    {
      hide CopyTags;
      hide Next;
      replayed := 0;
      var pos: nat := start;
      ghost var log := State();
      ghost var aim := Scanned(log, stop, beyond, Scan(pos, 0, disk));
      var limited := false;
      while pos != stop && !limited && firstBlock + pos * BLOCK + BLOCK <= |disk|
        invariant RingFits(log, disk)
        invariant limited ==> aim == Scan(pos, replayed, disk)
        invariant !limited ==> replayed <= REPLAY_LIMIT && aim == Scanned(log, stop, beyond, Scan(pos, replayed, disk))
        decreases if replayed <= REPLAY_LIMIT then REPLAY_LIMIT + 1 - replayed else 0, Distance(pos, stop, log.max)
      {
        StepCloser(pos, stop, log.max);
        var block := disk[firstBlock + pos * BLOCK..firstBlock + pos * BLOCK + BLOCK];
        if Field(block, 0, 4) == JDB_MAGIC {
          pos, replayed := CopyTagged(block, beyond, pos, replayed);
        }
        pos := Advanced(pos);
        limited := replayed > REPLAY_LIMIT;
      }
    }

    method Advanced(pos: nat) returns (n: nat)
      requires maxBlocks > 0
      ensures n == Next(pos, maxBlocks)
    {
      n := (pos + 1) % maxBlocks;
      if n == 0 {
        n := 1;
      }
    }

    /** Copies the next block of the ring to a home, if that lies on the device. */
    method CopyBlock(pos: nat, replayed: nat, home: nat) returns (p: nat, r: nat)
      requires RingFits(State(), disk)
      modifies this`disk
      ensures Scan(p, r, disk) == CopyOne(State(), Scan(pos, replayed, old(disk)), home)
    {
      p := Advanced(pos);
      RingBlock(State(), p);
      var data := disk[firstBlock + p * BLOCK..firstBlock + p * BLOCK + BLOCK];
      var written := WriteBytes(home, data);
      r := replayed + 1;
    }

    /** Copies the blocks behind a descriptor to the homes its tags name. */
    method CopyTagged(block: seq<Byte>, beyond: nat -> Byte, from: nat, already: nat) returns (pos: nat, replayed: nat)
      requires RingFits(State(), disk) && |block| == BLOCK
      modifies this`disk
      ensures Scan(pos, replayed, disk) == CopyTags(State(), block, beyond, 0, Field(block, 12, 2), Scan(from, already, old(disk)))
    {
      hide TagHome;
      hide TagFlags;
      hide CopyOne;
      hide Field;
      pos, replayed := from, already;
      ghost var log := State();
      ghost var aim := CopyTags(log, block, beyond, 0, Field(block, 12, 2), Scan(from, already, disk));
      var count := Field(block, 12, 2);
      var i := 0;
      while i < count
        invariant 0 <= i <= count && RingFits(log, disk)
        invariant CopyTags(log, block, beyond, i, count, Scan(pos, replayed, disk)) == aim
      {
        pos, replayed := CopyBlock(pos, replayed, TagHome(block, beyond, i));
        if LastTag(block, beyond, i) {
          return;
        }
        i := i + 1;
      }
    }
  }

  /** The blocks of a commit do not depend on the head. */
  lemma HeadIsNotWritten(a: Log, b: Log)
    requires a.sequence == b.sequence && a.blocks == b.blocks
    ensures Descriptor(a) == Descriptor(b) && CommitBlock(a) == CommitBlock(b)
  {
  }

  /** Once copying has failed, it stays failed. */
  lemma {:induction false} FailureStays(blocks: seq<Staged>, n: nat, disk: Disk)
    requires n <= |blocks| && !CopiedHome(blocks[..n], disk).ok
    ensures CopiedHome(blocks, disk) == CopiedHome(blocks[..n], disk)
    decreases |blocks|
  {
    if n < |blocks| {
      var m := |blocks| - 1;
      assert blocks[..m][..n] == blocks[..n];
      FailureStays(blocks[..m], n, disk);
    } else {
      assert blocks[..n] == blocks;
    }
  }
}
