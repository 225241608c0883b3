/** The metadata journal as functions on its state and the device: staging blocks in a ring,
    committing, and copying the staged blocks home. */
module Journaling {
  import opened JournalFormat

  const MAX_TX_BLOCKS: nat := 64

  datatype Staged = Staged(home: nat, data: seq<Byte>)

  datatype Log = Log(first: nat, max: nat, sequence: nat, head: nat, tail: nat,
                     blocks: seq<Staged>, committed: bool, ready: bool)

  /** The journal and the device after a call, and whether the call succeeded. */
  datatype Result = Result(ok: bool, log: Log, disk: Disk)

  const UNREADY: Log := Log(0, 0, 0, 0, 0, [], false, false)

  // ---- ring arithmetic ---------------------------------------------------------------------------

  /** The next block of the ring; block 0 holds the superblock. */
  function Next(pos: nat, max: nat): (n: nat)
    requires max > 0
    ensures n == 1 || n < max
    ensures max >= 2 ==> 1 <= n < max
  {
    var n := (pos + 1) % max;
    if n == 0 then 1 else n
  }

  function BlockAt(log: Log, pos: nat): nat {
    log.first + pos * BLOCK
  }

  /** The device bytes of the log. */
  predicate InLog(log: Log, p: nat) {
    log.first <= p < log.first + log.max * BLOCK
  }

  function FreeBlocks(log: Log): int {
    if log.head >= log.tail then log.max - (log.head - log.tail) else log.tail - log.head
  }

  // ---- calls ---------------------------------------------------------------------------------------

  /** `write_jsb` */
  function WriteSuper(log: Log, disk: Disk): Io {
    Write(disk, log.first, SuperBlock(log.max, log.first, log.sequence, log.head, log.tail))
  }

  /** The staged blocks written home one after the other, up to the first failure. */
  function CopiedHome(blocks: seq<Staged>, disk: Disk): Io {
    if blocks == [] then Io(true, disk)
    else
      var n := |blocks| - 1;
      var before := CopiedHome(blocks[..n], disk);
      if before.ok then Write(before.disk, blocks[n].home, blocks[n].data) else before
  }

  function Checkpoint(log: Log, disk: Disk): Result {
    var home := CopiedHome(log.blocks, disk);
    if !home.ok then Result(false, log, home.disk)
    else
      var moved := log.(tail := log.head);
      var written := WriteSuper(moved, home.disk);
      Result(written.ok, moved, written.disk)
  }

  /** `init_new`: at most 64 blocks are zeroed; failures while zeroing are ignored. */
  function InitNew(first: nat, bytes: nat, disk: Disk): Result {
    var log := Log(first, bytes / BLOCK, 1, 1, 1, [], false, true);
    var written := WriteSuper(log, Zeroed(first, if bytes / BLOCK < 64 then bytes / BLOCK else 64, disk));
    Result(written.ok, log, written.disk)
  }

  function Zeroed(first: nat, n: nat, disk: Disk): (r: Disk)
    ensures |r| == |disk|
    ensures forall p :: 0 <= p < |disk| && !(first <= p < first + n * BLOCK) ==> r[p] == disk[p]
  {
    if n == 0 then disk else Write(Zeroed(first, n - 1, disk), first + (n - 1) * BLOCK, Padded([])).disk
  }

  function Start(log: Log, disk: Disk): Result {
    if log.ready then Result(true, log.(blocks := [], committed := false), disk) else Result(false, log, disk)
  }

  /** `journal_metadata`: the data goes to the log first, then joins the transaction. */
  function Stage(log: Log, disk: Disk, offset: nat, data: seq<Byte>): Result
    requires log.max > 0
  {
    if log.committed then Result(false, log, disk)
    else
      var logged := Write(disk, BlockAt(log, log.head), data);
      if !logged.ok || |log.blocks| >= MAX_TX_BLOCKS then Result(false, log, logged.disk)
      else
        var staged := log.(blocks := log.blocks + [Staged(offset / BLOCK * BLOCK, Padded(data))], head := Next(log.head, log.max));
        if staged.head == staged.tail || FreeBlocks(staged) < 8 then Checkpoint(staged, logged.disk)
        else Result(true, staged, logged.disk)
  }

  /** The tags of a descriptor: the home of each staged block, the last one marked. */
  function Tags(blocks: seq<Staged>, n: nat): seq<Byte>
    requires n <= |blocks|
  {
    if n == 0 then []
    else Tags(blocks, n - 1) + Encoded(blocks[n - 1].home, 8) + Encoded(if n == |blocks| then 4 else 0, 4)
  }

  function Descriptor(log: Log): seq<Byte> {
    Padded(Encoded(JDB_MAGIC, 4) + Encoded(log.sequence, 8) + Encoded(|log.blocks|, 2) + [0] + Encoded(0, 4)
           + Tags(log.blocks, |log.blocks|))
  }

  function CommitBlock(log: Log): seq<Byte> {
    Padded(Encoded(JCB_MAGIC, 4) + Encoded(log.sequence, 8) + Encoded(0, 4))
  }

  /** `commit_transaction`: descriptor, commit block, superblock, checkpoint. */
  function Commit(log: Log, disk: Disk): Result
    requires log.max > 0
  {
    if log.blocks == [] then Result(true, log.(committed := true), disk)
    else
      var described := log.(head := Next(log.head, log.max));
      var w := Write(disk, BlockAt(log, log.head), Descriptor(log));
      if !w.ok then Result(false, described, w.disk)
      else
        var closed := described.(head := Next(described.head, log.max));
        var v := Write(w.disk, BlockAt(log, described.head), CommitBlock(log));
        if !v.ok then Result(false, closed, v.disk)
        else
          var done := closed.(sequence := log.sequence + 1, committed := true);
          var u := WriteSuper(done, v.disk);
          if !u.ok then Result(false, done, u.disk) else Checkpoint(done, u.disk)
  }

  // ---- the invariant -------------------------------------------------------------------------------

  /** The superblock on the device says that there is nothing to replay. */
  predicate CleanSuper(log: Log, disk: Disk) {
    && log.first + BLOCK <= |disk|
    && var b := disk[log.first..log.first + BLOCK];
       Field(b, 0, 4) == JSB_MAGIC && Field(b, 40, 8) == Field(b, 48, 8)
  }

  predicate Outside(log: Log, home: nat) {
    home + BLOCK <= log.first || log.first + log.max * BLOCK <= home
  }

  ghost predicate Sound(log: Log, disk: Disk) {
    && log.ready && log.max >= 2 && 1 <= log.head < log.max && 1 <= log.tail < log.max
    && log.first + log.max * BLOCK <= |disk|
    && CleanSuper(log, disk)
    && |log.blocks| <= MAX_TX_BLOCKS
    && (forall i :: 0 <= i < |log.blocks| ==> |log.blocks[i].data| == BLOCK && Outside(log, log.blocks[i].home))
  }

  // ---- what copying home does ------------------------------------------------------------------------

  predicate Covers(b: Staged, p: nat) {
    b.home <= p < b.home + BLOCK
  }

  predicate Staging(blocks: seq<Staged>, p: nat) {
    exists i :: 0 <= i < |blocks| && Covers(blocks[i], p)
  }

  /** The last data staged for a byte, or what was there. */
  function Settled(blocks: seq<Staged>, disk: Disk, p: nat): Byte
    requires p < |disk| && forall i :: 0 <= i < |blocks| ==> |blocks[i].data| == BLOCK
  {
    if blocks == [] then disk[p]
    else
      var n := |blocks| - 1;
      if Covers(blocks[n], p) then blocks[n].data[p - blocks[n].home] else Settled(blocks[..n], disk, p)
  }

  lemma {:induction false} CopiedHomeSettles(blocks: seq<Staged>, disk: Disk, p: nat)
    requires p < |disk| && forall i :: 0 <= i < |blocks| ==> |blocks[i].data| == BLOCK
    ensures |CopiedHome(blocks, disk).disk| == |disk|
    ensures CopiedHome(blocks, disk).ok ==> CopiedHome(blocks, disk).disk[p] == Settled(blocks, disk, p)
  {
    if blocks != [] {
      CopiedHomeSettles(blocks[..|blocks| - 1], disk, p);
    }
  }

  /** Only the staged bytes matter: where the disks agree on the others, the result agrees. */
  lemma {:induction false} SettledAgrees(blocks: seq<Staged>, a: Disk, b: Disk, p: nat)
    requires p < |a| && p < |b| && forall i :: 0 <= i < |blocks| ==> |blocks[i].data| == BLOCK
    requires Staging(blocks, p) || a[p] == b[p]
    ensures Settled(blocks, a, p) == Settled(blocks, b, p)
  {
    if blocks != [] {
      var n := |blocks| - 1;
      if !Covers(blocks[n], p) {
        assert Staging(blocks, p) ==> Staging(blocks[..n], p);
        SettledAgrees(blocks[..n], a, b, p);
      }
    }
  }

  lemma {:induction false} CopiedHomeKeeps(blocks: seq<Staged>, disk: Disk, p: nat)
    requires p < |disk| && !Staging(blocks, p) && forall i :: 0 <= i < |blocks| ==> |blocks[i].data| == BLOCK
    ensures |CopiedHome(blocks, disk).disk| == |disk| && CopiedHome(blocks, disk).disk[p] == disk[p]
  {
    if blocks != [] {
      var n := |blocks| - 1;
      assert !Covers(blocks[n], p);
      assert forall i :: 0 <= i < n ==> !Covers(blocks[i], p);
      CopiedHomeKeeps(blocks[..n], disk, p);
    }
  }

  // ---- each call keeps the invariant -----------------------------------------------------------------

  lemma SuperIsClean(log: Log, disk: Disk)
    requires log.head == log.tail && log.first + BLOCK <= |disk|
    ensures WriteSuper(log, disk).ok && CleanSuper(log, WriteSuper(log, disk).disk)
  {
    var b := SuperBlock(log.max, log.first, log.sequence, log.head, log.tail);
    SuperFields(log.max, log.first, log.sequence, log.head, log.tail);
    assert WriteSuper(log, disk).disk[log.first..log.first + BLOCK] == b;
  }

  lemma CleanStays(log: Log, disk: Disk, n: Disk)
    requires CleanSuper(log, disk) && |n| == |disk|
    requires forall p :: log.first <= p < log.first + BLOCK ==> n[p] == disk[p]
    ensures CleanSuper(log, n)
  {
    assert n[log.first..log.first + BLOCK] == disk[log.first..log.first + BLOCK];
  }

  /** A block of the ring lies in the log, behind the superblock. */
  lemma RingBlock(log: Log, pos: nat)
    requires 1 <= pos < log.max
    ensures log.first + BLOCK <= BlockAt(log, pos) && BlockAt(log, pos) + BLOCK <= log.first + log.max * BLOCK
  {
  }

  lemma HomesAreOutside(log: Log, p: nat)
    requires InLog(log, p) && forall i :: 0 <= i < |log.blocks| ==> Outside(log, log.blocks[i].home)
    ensures !Staging(log.blocks, p)
  {
  }

  /** The invariant but for the superblock. */
  ghost predicate Placed(log: Log, disk: Disk) {
    && log.ready && log.max >= 2 && 1 <= log.head < log.max && 1 <= log.tail < log.max
    && log.first + log.max * BLOCK <= |disk|
    && |log.blocks| <= MAX_TX_BLOCKS
    && (forall i :: 0 <= i < |log.blocks| ==> |log.blocks[i].data| == BLOCK && Outside(log, log.blocks[i].home))
  }

  ghost predicate HomesFit(blocks: seq<Staged>, size: nat) {
    forall i :: 0 <= i < |blocks| ==> blocks[i].home + BLOCK <= size
  }

  lemma {:induction false} CopySucceedsIff(blocks: seq<Staged>, disk: Disk)
    requires forall i :: 0 <= i < |blocks| ==> |blocks[i].data| == BLOCK
    ensures |CopiedHome(blocks, disk).disk| == |disk|
    ensures CopiedHome(blocks, disk).ok <==> HomesFit(blocks, |disk|)
  {
    if blocks != [] {
      var n := |blocks| - 1;
      CopySucceedsIff(blocks[..n], disk);
      assert HomesFit(blocks, |disk|) <==> HomesFit(blocks[..n], |disk|) && blocks[n].home + BLOCK <= |disk|;
    }
  }

  /** Copying home, byte by byte: outside the log the staged data, in the log nothing. */
  lemma CopyFacts(log: Log, disk: Disk, p: nat)
    requires Placed(log, disk) && p < |disk|
    ensures var home := CopiedHome(log.blocks, disk);
            && |home.disk| == |disk|
            && (home.ok ==> home.disk[p] == Settled(log.blocks, disk, p))
            && (InLog(log, p) || !Staging(log.blocks, p) ==> home.disk[p] == disk[p])
  {
    CopiedHomeSettles(log.blocks, disk, p);
    if InLog(log, p) {
      HomesAreOutside(log, p);
    }
    if !Staging(log.blocks, p) {
      CopiedHomeKeeps(log.blocks, disk, p);
    }
  }

  /** A checkpoint succeeds just when every home lies on the device; then the superblock is clean
      and every byte outside the log is settled. When it fails the log area is as it was. */
  lemma CheckpointSettles(log: Log, disk: Disk)
    requires Placed(log, disk)
    ensures var r := Checkpoint(log, disk);
            && (r.ok <==> HomesFit(log.blocks, |disk|)) && |r.disk| == |disk| && Placed(r.log, r.disk)
            && r.log == (if r.ok then log.(tail := log.head) else log)
            && (r.ok ==> Sound(r.log, r.disk))
  {
    hide CopiedHome;
    hide SuperBlock;
    CopySucceedsIff(log.blocks, disk);
    var home := CopiedHome(log.blocks, disk);
    if home.ok {
      SuperIsClean(log.(tail := log.head), home.disk);
    }
  }

  lemma CheckpointBytes(log: Log, disk: Disk, p: nat)
    requires Placed(log, disk) && p < |disk|
    ensures var r := Checkpoint(log, disk);
            && |r.disk| == |disk|
            && (r.ok && !InLog(log, p) ==> r.disk[p] == Settled(log.blocks, disk, p))
            && (!InLog(log, p) && !Staging(log.blocks, p) ==> r.disk[p] == disk[p])
            && (!r.ok && InLog(log, p) ==> r.disk[p] == disk[p])
  {
    hide CopiedHome;
    hide SuperBlock;
    hide Settled;
    CopySucceedsIff(log.blocks, disk);
    CopyFacts(log, disk, p);
    var home := CopiedHome(log.blocks, disk);
    assert log.first + BLOCK <= log.first + log.max * BLOCK <= |home.disk|;
  }

  // ---- staging -----------------------------------------------------------------------------------------

  /** What a caller can check before staging: at most a block of data, and a home outside the log. */
  predicate Fits(log: Log, offset: nat, data: seq<Byte>) {
    |data| <= BLOCK && Outside(log, offset / BLOCK * BLOCK)
  }

  /** The bytes outside the log that no block of the transaction covers are those of the base. */
  ghost predicate Since(log: Log, disk: Disk, base: Disk) {
    && |disk| == |base|
    && forall p: nat :: p < |disk| && !InLog(log, p) && !Staging(log.blocks, p) ==> disk[p] == base[p]
  }

  lemma LogWrite(log: Log, disk: Disk, pos: nat, data: seq<Byte>)
    requires 1 <= pos < log.max && log.first + log.max * BLOCK <= |disk| && |data| <= BLOCK
    ensures var w := Write(disk, BlockAt(log, pos), data);
            && w.ok && |w.disk| == |disk|
            && (forall p: nat :: p < |disk| && !InLog(log, p) ==> w.disk[p] == disk[p])
            && (forall p: nat :: log.first <= p < log.first + BLOCK ==> w.disk[p] == disk[p])
            && (CleanSuper(log, disk) ==> CleanSuper(log, w.disk))
  {
    RingBlock(log, pos);
    var w := Write(disk, BlockAt(log, pos), data);
    if CleanSuper(log, disk) {
      CleanStays(log, disk, w.disk);
    }
  }

  /** Staging keeps the invariant, whether it succeeds or fails, and touches nothing outside the log
      but homes of the transaction. */
  lemma StageKeeps(log: Log, disk: Disk, offset: nat, data: seq<Byte>, base: Disk)
    requires Sound(log, disk) && Fits(log, offset, data) && Since(log, disk, base)
    ensures var r := Stage(log, disk, offset, data);
            && Sound(r.log, r.disk) && Since(r.log, r.disk, base)
            && r.log.first == log.first && r.log.max == log.max
            && (r.ok ==> r.log.blocks == log.blocks + [Staged(offset / BLOCK * BLOCK, Padded(data))] && !r.log.committed)
  {
    hide CleanSuper;
    hide Padded;
    hide Checkpoint;
    if !log.committed {
      var w := Write(disk, BlockAt(log, log.head), data);
      LogWrite(log, disk, log.head, data);
      if |log.blocks| < MAX_TX_BLOCKS {
        var staged := log.(blocks := log.blocks + [Staged(offset / BLOCK * BLOCK, Padded(data))], head := Next(log.head, log.max));
        StagingGrows(log.blocks, staged.blocks);
        assert Since(staged, w.disk, base);
        CleanReads(log, staged, w.disk);
        StageCheckpoints(staged, w.disk, base);
      } else {
        assert Since(log, w.disk, base);
      }
    }
  }

  /** The log is nearly full once another block has been staged. */
  predicate NearlyFull(log: Log)
    requires log.max > 0
  {
    var next := log.(head := Next(log.head, log.max));
    next.head == log.tail || FreeBlocks(next) < 8
  }

  /** A call that stages a block and finds the log nearly full writes the blocks staged so far home,
      before any commit; any other call leaves every byte outside the log as it was. */
  lemma StageWritesHomeIff(log: Log, disk: Disk, offset: nat, data: seq<Byte>, p: nat)
    requires Sound(log, disk) && Fits(log, offset, data) && p < |disk| && !InLog(log, p)
    ensures var r := Stage(log, disk, offset, data);
            var staged := log.blocks + [Staged(offset / BLOCK * BLOCK, Padded(data))];
            var checkpoints := !log.committed && |log.blocks| < MAX_TX_BLOCKS && NearlyFull(log);
            && |r.disk| == |disk|
            && (!checkpoints ==> r.disk[p] == disk[p])
            && (checkpoints ==> (r.ok <==> HomesFit(staged, |disk|)))
            && (checkpoints && r.ok ==> r.disk[p] == Settled(staged, disk, p))
  {
    hide CleanSuper, Padded, Checkpoint, Settled;
    if !log.committed {
      var w := Write(disk, BlockAt(log, log.head), data);
      LogWrite(log, disk, log.head, data);
      if |log.blocks| < MAX_TX_BLOCKS && NearlyFull(log) {
        var staged := log.(blocks := log.blocks + [Staged(offset / BLOCK * BLOCK, Padded(data))], head := Next(log.head, log.max));
        CheckpointSettles(staged, w.disk);
        CheckpointBytes(staged, w.disk, p);
        SettledAgrees(staged.blocks, w.disk, disk, p);
      }
    }
  }

  /** In particular a block staged into a nearly full log stands at its home before it is committed. */
  lemma StagedReachesHome(log: Log, disk: Disk, offset: nat, data: seq<Byte>, p: nat)
    requires Sound(log, disk) && Fits(log, offset, data) && !log.committed && |log.blocks| < MAX_TX_BLOCKS
    requires NearlyFull(log) && HomesFit(log.blocks, |disk|) && offset / BLOCK * BLOCK + BLOCK <= |disk|
    requires offset / BLOCK * BLOCK <= p < offset / BLOCK * BLOCK + BLOCK
    ensures var r := Stage(log, disk, offset, data);
            r.ok && !r.log.committed && |r.disk| == |disk| && r.disk[p] == Padded(data)[p - offset / BLOCK * BLOCK]
  {
    hide Sound, Stage, Padded, NearlyFull;
    var home := offset / BLOCK * BLOCK;
    var staged := log.blocks + [Staged(home, Padded(data))];
    StageKeeps(log, disk, offset, data, disk);
    StageWritesHomeIff(log, disk, offset, data, p);
    assert staged[|staged| - 1] == Staged(home, Padded(data));
  }

  lemma StagingGrows(a: seq<Staged>, b: seq<Staged>)
    requires |a| <= |b| && b[..|a|] == a
    ensures forall p: nat :: Staging(a, p) ==> Staging(b, p)
  {
    forall p: nat | Staging(a, p)
      ensures Staging(b, p)
    {
      var i :| 0 <= i < |a| && Covers(a[i], p);
      assert b[i] == a[i];
    }
  }

  lemma CleanReads(a: Log, b: Log, disk: Disk)
    requires CleanSuper(a, disk) && a.first == b.first
    ensures CleanSuper(b, disk)
  {
  }

  lemma StageCheckpoints(log: Log, disk: Disk, base: Disk)
    requires Sound(log, disk) && Since(log, disk, base)
    ensures var r := Checkpoint(log, disk);
            && Sound(r.log, r.disk) && Since(r.log, r.disk, base) && r.log == log.(tail := r.log.tail)
  {
    hide CleanSuper;
    hide Checkpoint;
    CheckpointSettles(log, disk);
    var r := Checkpoint(log, disk);
    forall p: nat | p < |disk|
      ensures !InLog(log, p) && !Staging(log.blocks, p) ==> r.disk[p] == disk[p]
      ensures !r.ok && InLog(log, p) ==> r.disk[p] == disk[p]
    {
      CheckpointBytes(log, disk, p);
    }
    if !r.ok {
      CleanStays(log, disk, r.disk);
    }
  }

  // ---- committing ----------------------------------------------------------------------------------------

  /** What the three log writes of a commit leave to its checkpoint. */
  lemma CommitLogs(log: Log, disk: Disk) returns (done: Log, logged: Disk)
    requires Sound(log, disk) && log.blocks != []
    ensures Commit(log, disk) == Checkpoint(done, logged) && |logged| == |disk| && Placed(done, logged)
    ensures done.first == log.first && done.max == log.max && done.blocks == log.blocks && done.committed
    ensures forall p: nat :: p < |disk| && !InLog(log, p) ==> logged[p] == disk[p]
  {
    hide CleanSuper, Checkpoint, Descriptor, CommitBlock, Write;
    DescriptorSize(log);
    var described := log.(head := Next(log.head, log.max));
    var w := Write(disk, BlockAt(log, log.head), Descriptor(log));
    LogWrite(log, disk, log.head, Descriptor(log));
    var closed := described.(head := Next(described.head, log.max));
    var v := Write(w.disk, BlockAt(log, described.head), CommitBlock(log));
    LogWrite(log, w.disk, described.head, CommitBlock(log));
    done := closed.(sequence := log.sequence + 1, committed := true);
    SuperWrite(done, v.disk);
    logged := WriteSuper(done, v.disk).disk;
  }

  /** A commit succeeds just when every home lies on the device; then the superblock is clean again and
      every byte outside the log is settled. */
  lemma CommitSettles(log: Log, disk: Disk)
    requires Sound(log, disk)
    ensures var r := Commit(log, disk);
            && (r.ok <==> HomesFit(log.blocks, |disk|)) && |r.disk| == |disk|
            && r.log.first == log.first && r.log.max == log.max && r.log.blocks == log.blocks
            && (r.ok ==> Sound(r.log, r.disk) && r.log.committed)
            && (r.ok ==> forall p: nat :: p < |disk| && !InLog(log, p) ==> r.disk[p] == Settled(log.blocks, disk, p))
  {
    hide CleanSuper, Checkpoint, Descriptor, CommitBlock, Settled;
    if log.blocks == [] {
      NothingStaged(disk);
      CleanReads(log, log.(committed := true), disk);
    } else {
      var done, logged := CommitLogs(log, disk);
      hide Commit, Placed;
      CheckpointSettles(done, logged);
      var r := Checkpoint(done, logged);
      forall p: nat | p < |disk| && !InLog(log, p) && r.ok
        ensures r.disk[p] == Settled(log.blocks, disk, p)
      {
        CheckpointBytes(done, logged, p);
        SettledAgrees(log.blocks, logged, disk, p);
      }
    }
  }

  lemma NothingStaged(disk: Disk)
    ensures forall p: nat :: p < |disk| ==> Settled([], disk, p) == disk[p]
  {
  }

  lemma DescriptorSize(log: Log)
    ensures |Descriptor(log)| == BLOCK && |CommitBlock(log)| == BLOCK
  {
  }

  lemma SuperWrite(log: Log, disk: Disk)
    requires log.max >= 2 && log.first + log.max * BLOCK <= |disk|
    ensures var w := WriteSuper(log, disk);
            && w.ok && |w.disk| == |disk|
            && (forall p: nat :: p < |disk| && !InLog(log, p) ==> w.disk[p] == disk[p])
  {
    hide SuperBlock;
    assert log.first + BLOCK <= log.first + log.max * BLOCK;
  }

  // ---- whole transactions ----------------------------------------------------------------------------------

  datatype Update = Update(offset: nat, data: seq<Byte>)

  function StagedOf(us: seq<Update>): (r: seq<Staged>)
    ensures |r| == |us| && forall i :: 0 <= i < |us| ==> |r[i].data| == BLOCK
  {
    seq(|us|, i requires 0 <= i < |us| => Staged(us[i].offset / BLOCK * BLOCK, Padded(us[i].data)))
  }

  /** `start_transaction` and one `journal_metadata` for each update, up to the first failure. */
  function Opened(log: Log, disk: Disk, us: seq<Update>): (r: Result)
    requires log.max > 0
    ensures r.log.max == log.max
  {
    if us == [] then Start(log, disk)
    else
      var before := Opened(log, disk, us[..|us| - 1]);
      if before.ok then Stage(before.log, before.disk, us[|us| - 1].offset, us[|us| - 1].data) else before
  }

  lemma {:induction false} OpenedKeeps(log: Log, disk: Disk, us: seq<Update>)
    requires Sound(log, disk) && forall i :: 0 <= i < |us| ==> Fits(log, us[i].offset, us[i].data)
    ensures var r := Opened(log, disk, us);
            && Sound(r.log, r.disk) && Since(r.log, r.disk, disk) && r.log.first == log.first
            && (r.ok ==> r.log.blocks == StagedOf(us))
  {
    hide CleanSuper;
    hide Stage;
    hide Padded;
    if us == [] {
      CleanReads(log, Start(log, disk).log, disk);
      assert StagedOf(us) == [];
    } else {
      var front, last := us[..|us| - 1], us[|us| - 1];
      OpenedKeeps(log, disk, front);
      var before := Opened(log, disk, front);
      if before.ok {
        StageKeeps(before.log, before.disk, last.offset, last.data, disk);
        assert StagedOf(us) == StagedOf(front) + [Staged(last.offset / BLOCK * BLOCK, Padded(last.data))];
      }
    }
  }

  /** After a successful transaction every byte outside the log is the one staged last for it, padded
      with zeros to a block, or the byte there was before the transaction; and the superblock on the
      device is clean. It makes no difference whether the log filled up on the way. */
  lemma TransactionSettles(log: Log, disk: Disk, us: seq<Update>, p: nat)
    requires Sound(log, disk) && forall i :: 0 <= i < |us| ==> Fits(log, us[i].offset, us[i].data)
    requires Opened(log, disk, us).ok && Commit(Opened(log, disk, us).log, Opened(log, disk, us).disk).ok
    requires p < |disk| && !InLog(log, p)
    ensures var open := Opened(log, disk, us);
            var r := Commit(open.log, open.disk);
            && Sound(r.log, r.disk) && |r.disk| == |disk| && r.disk[p] == Settled(StagedOf(us), disk, p)
  {
    hide CleanSuper;
    hide Commit;
    hide Opened;
    hide Settled;
    OpenedKeeps(log, disk, us);
    var open := Opened(log, disk, us);
    CommitSettles(open.log, open.disk);
    SettledAgrees(StagedOf(us), open.disk, disk, p);
  }

  // ---- runs ----------------------------------------------------------------------------------------------------

  /** Formatting leaves a sound journal and touches nothing outside the log. */
  lemma InitIsSound(first: nat, bytes: nat, disk: Disk)
    requires bytes >= 2 * BLOCK && first + bytes <= |disk|
    ensures var r := InitNew(first, bytes, disk);
            && r.ok && Sound(r.log, r.disk) && |r.disk| == |disk|
            && (forall p: nat :: p < |disk| && !InLog(r.log, p) ==> r.disk[p] == disk[p])
  {
    hide Zeroed;
    hide SuperBlock;
    var max := bytes / BLOCK;
    var log := Log(first, max, 1, 1, 1, [], false, true);
    var n := if max < 64 then max else 64;
    assert n * BLOCK <= max * BLOCK <= bytes;
    var z := Zeroed(first, n, disk);
    SuperIsClean(log, z);
    SuperWrite(log, z);
  }

  datatype Call = StartCall | StageCall(offset: nat, data: seq<Byte>) | CommitCall

  function Perform(log: Log, disk: Disk, c: Call): Result
    requires log.max > 0
  {
    match c
    case StartCall => Start(log, disk)
    case StageCall(offset, data) => Stage(log, disk, offset, data)
    case CommitCall => Commit(log, disk)
  }

  datatype State = State(log: Log, disk: Disk)

  ghost predicate Allowed(s: State, c: Call) {
    match c
    case StartCall => true
    case StageCall(offset, data) => Fits(s.log, offset, data)
    case CommitCall => HomesFit(s.log.blocks, |s.disk|)
  }

  ghost predicate IsRun(first: nat, bytes: nat, disk: Disk, states: seq<State>, calls: seq<Call>) {
    && bytes >= 2 * BLOCK && first + bytes <= |disk| && |states| == |calls| + 1
    && (var r := InitNew(first, bytes, disk); states[0] == State(r.log, r.disk))
    && (forall i :: 0 <= i < |calls| ==>
          && states[i].log.max > 0 && Allowed(states[i], calls[i])
          && var r := Perform(states[i].log, states[i].disk, calls[i]); states[i + 1] == State(r.log, r.disk))
  }

  /** Between the calls of any run from a fresh journal - failed stagings included - head and tail stay
      in the ring and the superblock on the device is clean. */
  lemma {:induction false} RunsStaySound(first: nat, bytes: nat, disk: Disk, states: seq<State>, calls: seq<Call>, i: nat)
    requires IsRun(first, bytes, disk, states, calls) && i < |states|
    ensures Sound(states[i].log, states[i].disk)
  {
    hide CleanSuper;
    if i == 0 {
      InitIsSound(first, bytes, disk);
    } else {
      RunsStaySound(first, bytes, disk, states, calls, i - 1);
      var s, c := states[i - 1], calls[i - 1];
      match c
      case StartCall =>
        CleanReads(s.log, Start(s.log, s.disk).log, s.disk);
      case StageCall(offset, data) => StageKeeps(s.log, s.disk, offset, data, s.disk);
      case CommitCall => CommitSettles(s.log, s.disk);
    }
  }
}
