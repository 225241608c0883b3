/** What loading and replaying make of a commit that was cut off, for every stopping point: which of the
    old and the new blocks the homes hold afterwards, and which transactions this is about. */
module JournalRecovery {
  import opened JournalFormat
  import opened Journaling
  import opened JournalReplay
  import opened JournalCrash

  // ---- recovery from every stop ---------------------------------------------------------------------------

  lemma OpenLoads(log: Log, bytes: nat, x: Disk)
    requires Area(log, bytes) && RingFits(log, x) && 4 <= log.max <= Power(8)
    requires 1 <= log.head < log.max && 1 <= log.tail < log.max && Distance(log.tail, log.head, log.max) + 4 <= log.max
    requires x[log.first..log.first + BLOCK] == OpenSuper(log)
    ensures var r := Loaded(log.first, bytes, x);
            && r.ok && r.disk == x && SameArea(r.log, log) && r.log.ready && NeedsReplay(r.log, x)
            && SuperField(r.log, x, 40) == Next(Next(log.head, log.max), log.max) && SuperField(r.log, x, 48) == log.tail
  {
    hide SuperBlock, Field, Next, Power;
    var e := Next(Next(log.head, log.max), log.max);
    BehindHead(log.head, log.max);
    SuperFields(log.max, log.first, log.sequence + 1, e, log.tail);
    SmallModulo(e, Power(8));
    SmallModulo(log.tail, Power(8));
    LoadedInRing(log.first, bytes, x);
  }

  /** What a caller can check before a commit: there are blocks, their homes lie on the device and
      apart, the log has room, and no other block passes for a descriptor. */
  ghost predicate Committable(log: Log, bytes: nat, disk: Disk, beyond: nat -> Byte) {
    && Sound(log, disk) && Area(log, bytes) && 4 <= log.max <= Power(8)
    && log.blocks != [] && ApartHomes(log, |disk|) && Unambiguous(log, disk, beyond)
  }

  /** Resetting the superblock leaves the homes alone. */
  lemma HomesSurvive(log: Log, l: Log, x: Disk, y: Disk)
    requires SameArea(l, log) && RingFits(log, x) && RingFits(l, y) && 1 <= log.head < log.max && ApartHomes(log, |x|)
    requires Misplaced(log, x, y, |log.blocks|)
    ensures var w := WriteSuper(l, y);
            w.ok && |w.disk| == |x| && forall i :: 0 <= i < |log.blocks| ==> Home(w.disk, log.blocks[i]) == Taken(log, x, i)
  {
    hide SuperBlock, Taken;
    SuperWrite(l, y);
    var w := WriteSuper(l, y).disk;
    forall i | 0 <= i < |log.blocks|
      ensures Home(w, log.blocks[i]) == Home(y, log.blocks[i])
    {
      SpareHome(l, y, w, log.blocks[i]);
    }
  }

  lemma SpareHome(l: Log, y: Disk, w: Disk, b: Staged)
    requires l.max >= 1 && Outside(l, b.home) && b.home + BLOCK <= |y| && |w| == |y|
    requires forall p: nat :: p < |y| && !InLog(l, p) ==> w[p] == y[p]
    ensures Home(w, b) == Home(y, b)
  {
    assert forall p :: b.home <= p < b.home + BLOCK ==> !InLog(l, p);
  }

  /** Between the first superblock write and the last, recovery copies to every home the block that many
      places behind the descriptor - to the first home, the commit block. */
  lemma LateStopMisplaces(log: Log, bytes: nat, disk: Disk, copied: nat, beyond: nat -> Byte)
    requires Committable(log, bytes, disk, beyond) && copied <= |log.blocks|
    ensures var cut := CutOff(log, disk, AfterHomes(copied));
            && Recoverable(log.first, bytes, cut) && RingFits(log, cut)
            && var (r, n) := Recovered(log.first, bytes, cut, beyond);
               && r.ok && (|log.blocks| == 1 ==> n == 1)
               && |r.disk| == |disk| && Taken(log, cut, 0) == CommitBlock(log)
               && forall i :: 0 <= i < |log.blocks| ==> Home(r.disk, log.blocks[i]) == Taken(log, cut, i)
  {
    hide *;
    CommittableIs(log, bytes, disk, beyond);
    CutOffHolds(log, disk, copied);
    LateStop(log, bytes, disk, CutOff(log, disk, AfterHomes(copied)), beyond);
  }

  lemma CutOffHolds(log: Log, disk: Disk, copied: nat)
    requires Sound(log, disk) && copied <= |log.blocks|
    ensures var x := CutOff(log, disk, AfterHomes(copied));
            HoldsCommit(log, disk, x) && x[log.first..log.first + BLOCK] == OpenSuper(log)
  {
    hide Sound, HoldsCommit, OpenSuper, Logged, CopiedHome;
    HomesHold(log, disk, copied);
  }

  lemma CommittableIs(log: Log, bytes: nat, disk: Disk, beyond: nat -> Byte)
    requires Committable(log, bytes, disk, beyond)
    ensures Sound(log, disk) && HomesFit(log.blocks, |disk|) && 1 <= log.head < log.max
  {
  }

  lemma LateStop(log: Log, bytes: nat, disk: Disk, x: Disk, beyond: nat -> Byte)
    requires Committable(log, bytes, disk, beyond)
    requires HoldsCommit(log, disk, x) && x[log.first..log.first + BLOCK] == OpenSuper(log)
    ensures Recoverable(log.first, bytes, x) && RingFits(log, x)
    ensures var (r, n) := Recovered(log.first, bytes, x, beyond);
            && r.ok && (|log.blocks| == 1 ==> n == 1)
            && |r.disk| == |disk| && Taken(log, x, 0) == CommitBlock(log)
            && forall i :: 0 <= i < |log.blocks| ==> Home(r.disk, log.blocks[i]) == Taken(log, x, i)
  {
    SoundFits(log, disk);
    SizeHolds(log, disk, x);
    BehindHead(log.head, log.max);
    TwoBehind(log.head, log.max);
    hide Sound, HoldsCommit, OpenSuper, Descriptor, CommitBlock, Power, Distance, ApartHomes, Passable, Strangers, BlockBytes, Misplaced;
    HeldBlock(log, log, disk, x, Next(log.head, log.max));
    OpenLoads(log, bytes, x);
    hide Loaded, NeedsReplay, SuperField, RingFits, Unambiguous, Scanned;
    var l := Loaded(log.first, bytes, x).log;
    SameAreaFits(l, log, x);
    ScanMisplaces(l, log, disk, x, beyond);
    var y := Scanned(l, Next(Next(log.head, log.max), log.max), beyond, Scan(log.tail, 0, x)).disk;
    SameSizeFits(l, x, y);
    HomesSurvive(log, l.(sequence := SuperField(l, x, 24) + 1, head := 1, tail := 1), x, y);
  }

  lemma SameAreaFits(l: Log, log: Log, x: Disk)
    requires SameArea(l, log) && RingFits(log, x)
    ensures RingFits(l, x)
  {
  }

  predicate Early(stop: Stop) {
    stop.BeforeDescriptor? || stop.AfterDescriptor? || stop.AfterCommitBlock?
  }

  lemma EarlyHomes(log: Log, bytes: nat, disk: Disk, stop: Stop, beyond: nat -> Byte)
    requires Committable(log, bytes, disk, beyond) && Early(stop)
    ensures var cut := CutOff(log, disk, stop);
            && Recoverable(log.first, bytes, cut)
            && var after := Recovered(log.first, bytes, cut, beyond).0.disk;
               |after| == |disk| && forall i :: 0 <= i < |log.blocks| ==> Home(after, log.blocks[i]) == Home(disk, log.blocks[i])
  {
    hide Recovered, Recoverable, CutOff, Unambiguous, Sound, Power;
    SoundFits(log, disk);
    EarlyStopKeepsOld(log, bytes, disk, stop, beyond);
    var after := Recovered(log.first, bytes, CutOff(log, disk, stop), beyond).0.disk;
    forall i | 0 <= i < |log.blocks|
      ensures Home(after, log.blocks[i]) == Home(disk, log.blocks[i])
    {
      SpareHome(log, disk, after, log.blocks[i]);
    }
  }

  lemma {:induction false} SettledApart(blocks: seq<Staged>, disk: Disk, i: nat, p: nat)
    requires forall k :: 0 <= k < |blocks| ==> |blocks[k].data| == BLOCK
    requires forall j, k :: 0 <= j < k < |blocks| ==> blocks[j].home + BLOCK <= blocks[k].home || blocks[k].home + BLOCK <= blocks[j].home
    requires i < |blocks| && Covers(blocks[i], p) && p < |disk|
    ensures Settled(blocks, disk, p) == blocks[i].data[p - blocks[i].home]
  {
    var n := |blocks| - 1;
    if i < n {
      assert !Covers(blocks[n], p);
      SettledApart(blocks[..n], disk, i, p);
    }
  }

  lemma FullHomes(log: Log, bytes: nat, disk: Disk, beyond: nat -> Byte)
    requires Committable(log, bytes, disk, beyond)
    ensures var cut := CutOff(log, disk, AfterAll);
            && Recoverable(log.first, bytes, cut)
            && var after := Recovered(log.first, bytes, cut, beyond).0.disk;
               |after| == |disk| && forall i :: 0 <= i < |log.blocks| ==> Home(after, log.blocks[i]) == log.blocks[i].data
  {
    FullStopKeepsNew(log, bytes, disk, beyond);
    hide Recovered, Recoverable, CutOff, Unambiguous, Settled, CleanSuper, Power;
    var after := Recovered(log.first, bytes, CutOff(log, disk, AfterAll), beyond).0.disk;
    forall i | 0 <= i < |log.blocks|
      ensures Home(after, log.blocks[i]) == log.blocks[i].data
    {
      NewHome(log, disk, after, i);
    }
  }

  lemma NewHome(log: Log, disk: Disk, after: Disk, i: nat)
    requires ApartHomes(log, |disk|) && i < |log.blocks| && log.max >= 1 && |after| == |disk|
    requires forall k :: 0 <= k < |log.blocks| ==> |log.blocks[k].data| == BLOCK
    requires forall p: nat :: p < |disk| && !InLog(log, p) ==> after[p] == Settled(log.blocks, disk, p)
    ensures Home(after, log.blocks[i]) == log.blocks[i].data
  {
    hide Settled, Power;
    var b := log.blocks[i];
    assert b.home + BLOCK <= |after|;
    forall k | 0 <= k < BLOCK
      ensures Home(after, b)[k] == b.data[k]
    {
      SettledApart(log.blocks, disk, i, b.home + k);
    }
  }

  /** The block is what the home held, or what has been staged for it. */
  predicate OldOrNew(disk: Disk, b: Staged, block: seq<Byte>)
    requires b.home + BLOCK <= |disk|
  {
    block == Home(disk, b) || block == b.data
  }

  /** The block that many places behind the descriptor: the commit block, then blocks the log held before -
      after a whole round the descriptor again. */
  function Behind(log: Log, disk: Disk, i: nat): seq<Byte>
    requires RingFits(log, disk) && 1 <= log.head < log.max
  {
    var pos := PosAfter(log.head, log.max, i + 1);
    RingBlock(log, pos);
    if pos == Next(log.head, log.max) then CommitBlock(log)
    else if pos == log.head then Descriptor(log) else BlockBytes(log, disk, pos)
  }

  lemma TakenIsBehind(log: Log, disk: Disk, x: Disk, i: nat)
    requires log.max >= 4 && HoldsCommit(log, disk, x) && RingFits(log, x) && 1 <= log.head < log.max
    ensures RingFits(log, disk) && Taken(log, x, i) == Behind(log, disk, i) && Behind(log, disk, 0) == CommitBlock(log)
  {
    hide HoldsCommit, Descriptor, CommitBlock, BlockBytes;
    TwoBehind(log.head, log.max);
    HeldBlock(log, log, disk, x, PosAfter(log.head, log.max, i + 1));
  }

  lemma LateHomes(log: Log, bytes: nat, disk: Disk, copied: nat, beyond: nat -> Byte)
    requires Committable(log, bytes, disk, beyond) && copied <= |log.blocks|
    ensures var cut := CutOff(log, disk, AfterHomes(copied));
            && Recoverable(log.first, bytes, cut) && RingFits(log, disk) && Behind(log, disk, 0) == CommitBlock(log)
            && var after := Recovered(log.first, bytes, cut, beyond).0.disk;
               && |after| == |disk|
               && forall i :: 0 <= i < |log.blocks| ==> Home(after, log.blocks[i]) == Behind(log, disk, i)
  {
    CommittableIs(log, bytes, disk, beyond);
    hide Recovered, Recoverable, CutOff, Committable, CommitBlock, Home, Taken, RingFits, Behind, Sound, HoldsCommit, OpenSuper, HomesFit;
    LateStopMisplaces(log, bytes, disk, copied, beyond);
    CutOffHolds(log, disk, copied);
    var cut := CutOff(log, disk, AfterHomes(copied));
    TakenIsBehind(log, disk, cut, 0);
    forall i | 0 <= i < |log.blocks|
      ensures Taken(log, cut, i) == Behind(log, disk, i)
    {
      TakenIsBehind(log, disk, cut, i);
    }
  }

  /** For every point at which a commit can stop, of any number of blocks: after a restart every home
      holds its old or its new block if and only if the commit stopped before its first superblock write
      - then all are old - or ran to its end - then all are new - or the blocks behind the place of the
      descriptor, which replay copies otherwise, are old or new blocks; the first of them is the commit
      block. */
  lemma CutCommitRecoversIff(log: Log, bytes: nat, disk: Disk, stop: Stop, beyond: nat -> Byte)
    requires Committable(log, bytes, disk, beyond) && (stop.AfterHomes? ==> stop.copied <= |log.blocks|)
    ensures RingFits(log, disk) && Behind(log, disk, 0) == CommitBlock(log)
    ensures var cut := CutOff(log, disk, stop);
            && Recoverable(log.first, bytes, cut)
            && var after := Recovered(log.first, bytes, cut, beyond).0.disk;
               && |after| == |disk|
               && (Early(stop) ==> forall i :: 0 <= i < |log.blocks| ==> Home(after, log.blocks[i]) == Home(disk, log.blocks[i]))
               && (stop.AfterAll? ==> forall i :: 0 <= i < |log.blocks| ==> Home(after, log.blocks[i]) == log.blocks[i].data)
               && ((forall i :: 0 <= i < |log.blocks| ==> OldOrNew(disk, log.blocks[i], Home(after, log.blocks[i])))
                   <==> !stop.AfterHomes? || forall i :: 0 <= i < |log.blocks| ==> OldOrNew(disk, log.blocks[i], Behind(log, disk, i)))
  {
    HomesOnDisk(log, bytes, disk, beyond);
    BehindIsCommit(log, disk);
    hide Recovered, Recoverable, CutOff, Committable, CommitBlock, Home, Behind, RingFits;
    if stop.AfterHomes? {
      LateHomes(log, bytes, disk, stop.copied, beyond);
    } else if stop.AfterAll? {
      FullHomes(log, bytes, disk, beyond);
    } else {
      EarlyHomes(log, bytes, disk, stop, beyond);
    }
  }

  lemma BehindIsCommit(log: Log, disk: Disk)
    requires RingFits(log, disk) && 1 <= log.head < log.max
    ensures Behind(log, disk, 0) == CommitBlock(log)
  {
    hide CommitBlock, Descriptor, BlockBytes;
    TwoBehind(log.head, log.max);
  }

  lemma HomesOnDisk(log: Log, bytes: nat, disk: Disk, beyond: nat -> Byte)
    requires Committable(log, bytes, disk, beyond)
    ensures RingFits(log, disk) && 1 <= log.head < log.max && HomesFit(log.blocks, |disk|)
  {
  }

  /** A commit of one block: its home holds the old or the new block just when the stop is not between
      the superblock writes, or the commit block is the old or the new block. */
  lemma OneBlockRecoversIff(log: Log, bytes: nat, disk: Disk, b: Staged, stop: Stop, beyond: nat -> Byte)
    requires Committable(log, bytes, disk, beyond) && log.blocks == [b] && (stop.AfterHomes? ==> stop.copied <= 1)
    ensures b.home + BLOCK <= |disk|
    ensures var cut := CutOff(log, disk, stop);
            && Recoverable(log.first, bytes, cut)
            && var after := Recovered(log.first, bytes, cut, beyond).0.disk;
               && |after| == |disk|
               && (OldOrNew(disk, b, Home(after, b)) <==> !stop.AfterHomes? || OldOrNew(disk, b, CommitBlock(log)))
  {
    hide *;
    HomesOnDisk(log, bytes, disk, beyond);
    OneFits(log, |disk|, b);
    CutCommitRecoversIff(log, bytes, disk, stop, beyond);
  }

  lemma OneFits(log: Log, size: nat, b: Staged)
    requires log.blocks == [b] && HomesFit(log.blocks, size)
    ensures b.home + BLOCK <= size && log.blocks[0] == b
  {
  }

  // ---- an ordinary transaction ------------------------------------------------------------------------

  lemma StagedWithRoom(log: Log, disk: Disk, offset: nat, data: seq<Byte>)
    requires log.max >= 10 && 1 <= log.head < log.max && log.head == log.tail
    requires log.blocks == [] && !log.committed && Write(disk, BlockAt(log, log.head), data).ok
    ensures Stage(log, disk, offset, data)
         == Result(true, log.(blocks := [Staged(offset / BLOCK * BLOCK, Padded(data))], head := Next(log.head, log.max)),
                   Write(disk, BlockAt(log, log.head), data).disk)
  {
    hide Padded, Checkpoint, Write, BlockAt;
    StepIs(log.head, log.max);
    assert log.blocks + [Staged(offset / BLOCK * BLOCK, Padded(data))] == [Staged(offset / BLOCK * BLOCK, Padded(data))];
  }

  lemma PassableFromTail(log: Log, disk: Disk)
    requires RingFits(log, disk) && log.max >= 5 && 1 <= log.tail < log.max && log.head == Next(log.tail, log.max)
    ensures Readable(log, disk, log.tail) && Distance(log.tail, log.head, log.max) <= 1
    ensures Passable(log, disk, log.tail) <==> Field(BlockBytes(log, disk, log.tail), 0, 4) != JDB_MAGIC
  {
    hide BlockBytes, Field;
    StepIs(log.tail, log.max);
    RingBlock(log, log.tail);
    assert Passable(log, disk, log.head);
  }

  lemma OneIsCommittable(log: Log, bytes: nat, disk: Disk, b: Staged, beyond: nat -> Byte)
    requires Sound(log, disk) && Area(log, bytes) && 5 <= log.max <= Power(8) && log.head == Next(log.tail, log.max)
    requires log.blocks == [b] && b.home < Power(8) && b.home + BLOCK <= |disk|
    ensures Readable(log, disk, log.tail)
    ensures Field(BlockBytes(log, disk, log.tail), 0, 4) != JDB_MAGIC <==> Committable(log, bytes, disk, beyond)
  {
    OneIsOutside(log, disk, b);
    SoundFits(log, disk);
    hide Sound, Field, Power, BlockBytes, Next, Distance, Passable, Strangers;
    PassableFromTail(log, disk);
    hide RingFits, Outside;
    assert ApartHomes(log, |disk|);
  }

  lemma OneIsOutside(log: Log, disk: Disk, b: Staged)
    requires Sound(log, disk) && log.blocks == [b]
    ensures Outside(log, b.home)
  {
    assert log.blocks[0] == b;
  }

  /** One block staged in a clean journal of at least ten blocks can be committed so, unless the data just
      logged passes for a descriptor. */
  lemma StagedIsCommittable(log: Log, bytes: nat, disk: Disk, offset: nat, data: seq<Byte>, beyond: nat -> Byte)
    requires Sound(log, disk) && log.head == log.tail && log.blocks == [] && !log.committed
    requires Area(log, bytes) && 10 <= log.max <= Power(8)
    requires Fits(log, offset, data) && offset < Power(8) && offset / BLOCK * BLOCK + BLOCK <= |disk|
    ensures var r := Stage(log, disk, offset, data);
            && r.ok && r.log.blocks == [Staged(offset / BLOCK * BLOCK, Padded(data))]
            && r.log.tail == log.head && Readable(r.log, r.disk, r.log.tail)
            && (Field(BlockBytes(r.log, r.disk, r.log.tail), 0, 4) != JDB_MAGIC <==> Committable(r.log, bytes, r.disk, beyond))
  {
    hide Padded, CleanSuper, Field, Power, BlockBytes, Committable;
    StageKeeps(log, disk, offset, data, disk);
    LogWrite(log, disk, log.head, data);
    StagedWithRoom(log, disk, offset, data);
    hide Sound, Stage, Write, Next;
    OneIsCommittable(Stage(log, disk, offset, data).log, bytes, Stage(log, disk, offset, data).disk, Staged(offset / BLOCK * BLOCK, Padded(data)), beyond);
  }

  // ---- a transaction of several blocks ------------------------------------------------------------------

  /** Where `n` steps along the ring lead. */
  lemma {:induction false} AlongRing(pos: nat, max: nat, n: nat)
    requires max >= 2 && 1 <= pos < max && n + 2 <= max
    ensures PosAfter(pos, max, n) == if pos + n < max then pos + n else pos + n + 1 - max
    ensures Distance(pos, PosAfter(pos, max, n), max) == n
  {
    if n > 0 {
      AlongRing(pos, max, n - 1);
      StepIs(PosAfter(pos, max, n - 1), max);
    }
  }

  /** Some bytes written over the front of a block. */
  function Over(data: seq<Byte>, block: seq<Byte>): seq<Byte> {
    if |data| <= |block| then data + block[|data|..] else data
  }

  lemma WrittenBlock(log: Log, disk: Disk, pos: nat, data: seq<Byte>, other: nat)
    requires RingFits(log, disk) && 1 <= pos < log.max && |data| <= BLOCK && 1 <= other < log.max
    ensures var w := Write(disk, BlockAt(log, pos), data);
            && w.ok && |w.disk| == |disk| && Readable(log, disk, other)
            && BlockBytes(log, w.disk, other) == if other == pos then Over(data, BlockBytes(log, disk, other)) else BlockBytes(log, disk, other)
  {
    RingBlock(log, pos);
    RingBlock(log, other);
    assert other != pos ==> BlockAt(log, other) + BLOCK <= BlockAt(log, pos) || BlockAt(log, pos) + BLOCK <= BlockAt(log, other);
  }

  /** The transaction is opened and its blocks staged in a clean journal with room for them: they stand one
      behind the other from the tail on, and the rest of the ring is as it was. */
  ghost predicate Filled(log: Log, disk: Disk, us: seq<Update>, r: Result)
    requires RingFits(log, disk) && 1 <= log.head < log.max
  {
    && r.ok && |r.disk| == |disk|
    && r.log == log.(blocks := StagedOf(us), committed := false, head := PosAfter(log.head, log.max, |us|))
    && forall pos {:trigger Readable(log, disk, pos)} :: 1 <= pos < log.max && Readable(log, disk, pos) ==>
         var n := Distance(log.head, pos, log.max);
         BlockBytes(log, r.disk, pos) == if n < |us| then Over(us[n].data, BlockBytes(log, disk, pos)) else BlockBytes(log, disk, pos)
  }

  lemma RoomLeft(log: Log, n: nat)
    requires log.max >= 2 && 1 <= log.tail < log.max && n + 9 < log.max && log.head == PosAfter(log.tail, log.max, n)
    ensures !NearlyFull(log)
  {
    AlongRing(log.tail, log.max, n + 1);
  }

  lemma StagesWithRoom(log: Log, disk: Disk, u: Update)
    requires log.max > 0 && !log.committed && |log.blocks| < MAX_TX_BLOCKS && !NearlyFull(log)
    requires Write(disk, BlockAt(log, log.head), u.data).ok
    ensures Stage(log, disk, u.offset, u.data)
         == Result(true, log.(blocks := log.blocks + [Staged(u.offset / BLOCK * BLOCK, Padded(u.data))], head := Next(log.head, log.max)),
                   Write(disk, BlockAt(log, log.head), u.data).disk)
  {
    hide Padded, Checkpoint, Write, BlockAt;
  }

  lemma StagedGrows(us: seq<Update>)
    requires us != []
    ensures var n := |us| - 1;
            StagedOf(us) == StagedOf(us[..n]) + [Staged(us[n].offset / BLOCK * BLOCK, Padded(us[n].data))]
  {
    hide Padded;
  }

  lemma {:induction false} OpenedFills(log: Log, disk: Disk, us: seq<Update>)
    requires log.ready && RingFits(log, disk) && 1 <= log.head < log.max && log.tail == log.head
    requires |us| <= MAX_TX_BLOCKS && |us| + 9 <= log.max && forall i :: 0 <= i < |us| ==> |us[i].data| <= BLOCK
    ensures Filled(log, disk, us, Opened(log, disk, us))
  {
    if us == [] {
      assert StagedOf(us) == [];
    } else {
      hide Stage, Padded;
      var n := |us| - 1;
      OpenedFills(log, disk, us[..n]);
      var before := Opened(log, disk, us[..n]);
      hide Opened;
      RoomLeft(before.log, n);
      StagedGrows(us);
      WrittenBlock(before.log, before.disk, before.log.head, us[n].data, log.head);
      StagesWithRoom(before.log, before.disk, us[n]);
      OpenedUnfolds(log, disk, us);
      FilledGrows(log, disk, us, before);
    }
  }

  lemma OpenedUnfolds(log: Log, disk: Disk, us: seq<Update>)
    requires log.max > 0 && us != [] && Opened(log, disk, us[..|us| - 1]).ok
    ensures var before := Opened(log, disk, us[..|us| - 1]);
            Opened(log, disk, us) == Stage(before.log, before.disk, us[|us| - 1].offset, us[|us| - 1].data)
  {
    hide Stage;
  }

  /** One block of the ring, after one more has been staged. */
  lemma FilledBlock(log: Log, disk: Disk, us: seq<Update>, before: Result, pos: nat)
    requires RingFits(log, disk) && 1 <= log.head < log.max && us != [] && |us| + 9 <= log.max && |us[|us| - 1].data| <= BLOCK
    requires Filled(log, disk, us[..|us| - 1], before) && 1 <= pos < log.max && Readable(log, disk, pos)
    ensures var n := |us| - 1;
            var w := Write(before.disk, BlockAt(log, PosAfter(log.head, log.max, n)), us[n].data);
            var k := Distance(log.head, pos, log.max);
            && w.ok && |w.disk| == |disk|
            && BlockBytes(log, w.disk, pos) == if k < |us| then Over(us[k].data, BlockBytes(log, disk, pos)) else BlockBytes(log, disk, pos)
  {
    hide StagedOf, BlockBytes, Write, Over, BlockAt, PosAfter, Distance, Next;
    var n := |us| - 1;
    var at := PosAfter(log.head, log.max, n);
    AlongRing(log.head, log.max, n);
    WrittenBlock(log, before.disk, at, us[n].data, pos);
    DistanceTells(log.head, pos, at, log.max);
    assert Distance(log.head, pos, log.max) < n ==> us[..n][Distance(log.head, pos, log.max)] == us[Distance(log.head, pos, log.max)];
  }

  lemma FilledGrows(log: Log, disk: Disk, us: seq<Update>, before: Result)
    requires RingFits(log, disk) && 1 <= log.head < log.max && us != [] && |us| + 9 <= log.max && |us[|us| - 1].data| <= BLOCK
    requires Filled(log, disk, us[..|us| - 1], before)
    ensures var n := |us| - 1;
            var w := Write(before.disk, BlockAt(before.log, before.log.head), us[n].data).disk;
            Filled(log, disk, us, Result(true, before.log.(blocks := StagedOf(us), head := Next(before.log.head, log.max)), w))
  {
    FilledIs(log, disk, us[..|us| - 1], before);
    FilledLog(log, disk, us[..|us| - 1], before);
    SameAreaBlockAt(before.log, log, before.log.head);
    RingIsReadable(log, disk, disk, log.head);
    FilledBlock(log, disk, us, before, log.head);
    var n := |us| - 1;
    var w := Write(before.disk, BlockAt(log, PosAfter(log.head, log.max, n)), us[n].data).disk;
    forall pos | 1 <= pos < log.max && Readable(log, disk, pos)
      ensures var k := Distance(log.head, pos, log.max);
              && |w| == |disk|
              && BlockBytes(log, w, pos) == if k < |us| then Over(us[k].data, BlockBytes(log, disk, pos)) else BlockBytes(log, disk, pos)
    {
      FilledBlock(log, disk, us, before, pos);
    }
    hide StagedOf, BlockBytes, Write, Over, BlockAt, Distance, Next;
  }

  lemma FilledLog(log: Log, disk: Disk, us: seq<Update>, r: Result)
    requires RingFits(log, disk) && 1 <= log.head < log.max && Filled(log, disk, us, r)
    ensures r.log == log.(blocks := StagedOf(us), committed := false, head := PosAfter(log.head, log.max, |us|))
  {
  }

  lemma SameAreaBlockAt(a: Log, b: Log, pos: nat)
    requires SameArea(a, b)
    ensures BlockAt(a, pos) == BlockAt(b, pos)
  {
  }

  lemma DistanceTells(from: nat, a: nat, b: nat, max: nat)
    requires 1 <= from < max && 1 <= a < max && 1 <= b < max
    ensures Distance(from, a, max) == Distance(from, b, max) <==> a == b
  {
  }

  lemma {:induction false} PassableFrom(log: Log, disk: Disk, j: nat, n: nat)
    requires RingFits(log, disk) && 1 <= log.tail < log.max && n + 2 <= log.max && j <= n && log.head == PosAfter(log.tail, log.max, n)
    requires forall i: nat :: j <= i < n ==> NotDescriptor(log, disk, PosAfter(log.tail, log.max, i))
    ensures Passable(log, disk, PosAfter(log.tail, log.max, j))
    decreases n - j
  {
    hide BlockBytes, Field;
    if j < n {
      PassableFrom(log, disk, j + 1, n);
      assert NotDescriptor(log, disk, PosAfter(log.tail, log.max, j));
      RingBlock(log, PosAfter(log.tail, log.max, j));
    }
  }

  predicate NotDescriptor(log: Log, disk: Disk, pos: nat) {
    Readable(log, disk, pos) ==> Field(BlockBytes(log, disk, pos), 0, 4) != JDB_MAGIC
  }

  /** What a caller can check before the transaction: room, homes that fit and lie apart, data that does not
      begin like a descriptor, and older descriptors in the ring that name strange homes. */
  ghost predicate Plain(log: Log, disk: Disk, us: seq<Update>, beyond: nat -> Byte)
    requires log.max > 0
  {
    var t := log.(blocks := StagedOf(us));
    && us != [] && |us| <= MAX_TX_BLOCKS && |us| + 9 <= log.max && ApartHomes(t, |disk|)
    && (forall i :: 0 <= i < |us| ==> Fits(log, us[i].offset, us[i].data) && |us[i].data| >= 4 && Field(us[i].data, 0, 4) != JDB_MAGIC)
    && forall pos, i: nat :: 1 <= pos < log.max && Readable(log, disk, pos) && Field(BlockBytes(log, disk, pos), 0, 4) == JDB_MAGIC
                             && i < Field(BlockBytes(log, disk, pos), 12, 2)
         ==> Strange(t, TagHome(BlockBytes(log, disk, pos), beyond, i))
  }

  lemma OverBegins(data: seq<Byte>, block: seq<Byte>)
    requires |block| == BLOCK && 4 <= |data| <= BLOCK
    ensures |Over(data, block)| == BLOCK && Field(Over(data, block), 0, 4) == Field(data, 0, 4)
  {
    assert Over(data, block)[0..4] == data[0..4];
  }

  /** A block that does begin like a descriptor is one the ring held before. */
  lemma FilledDescriptor(log: Log, disk: Disk, us: seq<Update>, r: Result, beyond: nat -> Byte, pos: nat)
    requires RingFits(log, disk) && 1 <= log.head < log.max && Filled(log, disk, us, r) && Plain(log, disk, us, beyond)
    requires 1 <= pos < log.max && Readable(r.log, r.disk, pos)
    ensures Readable(log, disk, pos) && BlockBytes(r.log, r.disk, pos) == BlockBytes(log, r.disk, pos)
    ensures Distance(log.head, pos, log.max) < |us| ==> NotDescriptor(r.log, r.disk, pos)
    ensures Distance(log.head, pos, log.max) >= |us| ==> BlockBytes(r.log, r.disk, pos) == BlockBytes(log, disk, pos)
  {
    hide Field, Over, ApartHomes, StagedOf, Strange, TagHome, BlockBytes;
    SameBytes(r.log, log, r.disk, pos);
    var n := Distance(log.head, pos, log.max);
    if n < |us| {
      OverBegins(us[n].data, BlockBytes(log, disk, pos));
    }
  }

  /** Any such transaction can be committed so: several blocks, in a journal that may have been used before. */
  lemma OpenedIsCommittable(log: Log, bytes: nat, disk: Disk, us: seq<Update>, beyond: nat -> Byte)
    requires Sound(log, disk) && log.head == log.tail && Area(log, bytes) && log.max <= Power(8)
    requires Plain(log, disk, us, beyond)
    ensures var r := Opened(log, disk, us);
            r.ok && r.log.blocks == StagedOf(us) && Committable(r.log, bytes, r.disk, beyond)
  {
    SoundFits(log, disk);
    OpenedKeeps(log, disk, us);
    hide Sound, Opened, Since, Power;
    OpenedFills(log, disk, us);
    var r := Opened(log, disk, us);
    FilledUnambiguous(log, disk, us, r, beyond);
    PlainHomes(log, disk, us, r, beyond);
  }

  lemma PlainHomes(log: Log, disk: Disk, us: seq<Update>, r: Result, beyond: nat -> Byte)
    requires RingFits(log, disk) && 1 <= log.head < log.max && Plain(log, disk, us, beyond) && Filled(log, disk, us, r)
    ensures ApartHomes(r.log, |r.disk|) && r.log.blocks != [] && |r.disk| == |disk| && r.log.first == log.first && r.log.max == log.max >= 10
  {
  }

  lemma FilledUnambiguous(log: Log, disk: Disk, us: seq<Update>, r: Result, beyond: nat -> Byte)
    requires RingFits(log, disk) && 1 <= log.head < log.max && log.tail == log.head
    requires Filled(log, disk, us, r) && Plain(log, disk, us, beyond)
    ensures Unambiguous(r.log, r.disk, beyond)
  {
    var n := |us|;
    AlongRing(log.head, log.max, n);
    FilledIs(log, disk, us, r);
    PlainRoom(log, disk, us, beyond);
    hide Filled, Plain, Field, BlockBytes, Over, Strange, TagHome, Passable;
    forall i: nat | i < n
      ensures NotDescriptor(r.log, r.disk, PosAfter(log.tail, log.max, i))
    {
      AlongRing(log.head, log.max, i);
      RingIsReadable(r.log, r.disk, r.disk, PosAfter(log.tail, log.max, i));
      FilledDescriptor(log, disk, us, r, beyond, PosAfter(log.tail, log.max, i));
    }
    PassableFrom(r.log, r.disk, 0, n);
    FilledStrangers(log, disk, us, r, beyond);
  }

  lemma FilledIs(log: Log, disk: Disk, us: seq<Update>, r: Result)
    requires RingFits(log, disk) && 1 <= log.head < log.max && Filled(log, disk, us, r)
    ensures RingFits(r.log, r.disk) && SameArea(r.log, log) && r.log.tail == log.tail
    ensures r.log.head == PosAfter(log.head, log.max, |us|)
  {
  }

  lemma PlainRoom(log: Log, disk: Disk, us: seq<Update>, beyond: nat -> Byte)
    requires log.max > 0 && Plain(log, disk, us, beyond)
    ensures |us| + 9 <= log.max
  {
  }

  lemma FilledStrangers(log: Log, disk: Disk, us: seq<Update>, r: Result, beyond: nat -> Byte)
    requires RingFits(log, disk) && 1 <= log.head < log.max && Filled(log, disk, us, r) && Plain(log, disk, us, beyond)
    ensures Strangers(r.log, r.disk, beyond)
  {
    hide Field, BlockBytes, Over, TagHome;
    forall pos, i: nat | 1 <= pos < r.log.max && pos != r.log.head && pos != Next(r.log.head, r.log.max) && Readable(r.log, r.disk, pos)
                         && Field(BlockBytes(r.log, r.disk, pos), 0, 4) == JDB_MAGIC && i < Field(BlockBytes(r.log, r.disk, pos), 12, 2)
      ensures Strange(r.log, TagHome(BlockBytes(r.log, r.disk, pos), beyond, i))
    {
      FilledDescriptor(log, disk, us, r, beyond, pos);
    }
  }
}
