/** What a journal that was written can be read back as: the superblock over whole runs, and the counters -
    sequence number, head and tail - as counts of the calls made. */
module JournalRuns {
  import opened JournalFormat
  import opened Journaling
  import opened JournalReplay
  import opened JournalCrash

  // ---- the superblock reads back ---------------------------------------------------------------

  /** Loading a device on which a superblock was just written gives back the log: area, sequence number,
      head and tail, with no transaction open. */
  lemma LoadReadsBack(log: Log, bytes: nat, disk: Disk)
    requires log.ready && 1 <= log.head < log.max && 1 <= log.tail < log.max && log.max <= Power(8)
    requires log.first > 0 && bytes >= 3 * BLOCK && log.max == bytes / BLOCK && log.sequence < Power(8)
    requires log.first + BLOCK <= |disk|
    ensures var w := WriteSuper(log, disk);
            w.ok && Loaded(log.first, bytes, w.disk) == Result(true, log.(blocks := [], committed := false), w.disk)
  {
    hide SuperBlock, Field;
    var w := WriteSuper(log, disk);
    assert w.disk[log.first..log.first + BLOCK] == SuperBlock(log.max, log.first, log.sequence, log.head, log.tail);
    SuperLoads(log, bytes, w.disk);
  }

  lemma SuperLoads(log: Log, bytes: nat, disk: Disk)
    requires log.ready && 1 <= log.head < log.max && 1 <= log.tail < log.max && log.max <= Power(8)
    requires log.first > 0 && bytes >= 3 * BLOCK && log.max == bytes / BLOCK && log.sequence < Power(8)
    requires log.first + BLOCK <= |disk|
    requires disk[log.first..log.first + BLOCK] == SuperBlock(log.max, log.first, log.sequence, log.head, log.tail)
    ensures Loaded(log.first, bytes, disk) == Result(true, log.(blocks := [], committed := false), disk)
  {
    hide SuperBlock, Field, Power;
    SuperFields(log.max, log.first, log.sequence, log.head, log.tail);
    SmallModulo(log.sequence, Power(8));
    SmallModulo(log.head, Power(8));
    SmallModulo(log.tail, Power(8));
  }

  // ---- over runs -------------------------------------------------------------------------------

  /** The device names the sequence number and the tail, and no block between tail and head. */
  predicate Recorded(log: Log, disk: Disk) {
    && log.first + BLOCK <= |disk|
    && disk[log.first..log.first + BLOCK] == SuperBlock(log.max, log.first, log.sequence, log.tail, log.tail)
  }

  lemma WrittenIsRecorded(log: Log, disk: Disk)
    requires log.head == log.tail && log.first + BLOCK <= |disk|
    ensures Recorded(log, WriteSuper(log, disk).disk)
  {
    hide SuperBlock;
    var w := WriteSuper(log, disk);
    assert w.disk[log.first..log.first + BLOCK] == SuperBlock(log.max, log.first, log.sequence, log.head, log.tail);
  }

  lemma RecordStays(log: Log, n: Log, disk: Disk, x: Disk)
    requires Recorded(log, disk) && |x| == |disk|
    requires n.first == log.first && n.max == log.max && n.sequence == log.sequence && n.tail == log.tail
    requires forall p: nat :: log.first <= p < log.first + BLOCK ==> x[p] == disk[p]
    ensures Recorded(n, x)
  {
    hide SuperBlock;
    assert x[log.first..log.first + BLOCK] == disk[log.first..log.first + BLOCK];
  }

  lemma CheckpointRecords(log: Log, disk: Disk)
    requires Placed(log, disk) && (HomesFit(log.blocks, |disk|) || Recorded(log, disk))
    ensures var r := Checkpoint(log, disk);
            Recorded(r.log, r.disk) && r.log == if HomesFit(log.blocks, |disk|) then log.(tail := log.head) else log
  {
    hide CopiedHome, SuperBlock;
    CheckpointSettles(log, disk);
    var r := Checkpoint(log, disk);
    if r.ok {
      WrittenIsRecorded(log.(tail := log.head), CopiedHome(log.blocks, disk).disk);
    } else {
      forall p: nat | log.first <= p < log.first + BLOCK
        ensures r.disk[p] == disk[p]
      {
        CheckpointBytes(log, disk, p);
      }
      RecordStays(log, r.log, disk, r.disk);
    }
  }

  /** Staging found room for the block in the transaction. */
  predicate Taking(log: Log) {
    !log.committed && |log.blocks| < MAX_TX_BLOCKS
  }

  /** Blocks of the ring a call uses up. */
  function Uses(s: State, c: Call): nat {
    match c
    case StartCall => 0
    case StageCall(_, _) => if Taking(s.log) then 1 else 0
    case CommitCall => if s.log.blocks == [] then 0 else 2
  }

  /** The call copies the staged blocks home: a commit of something, or a block staged into a nearly full log
      with every home on the device. */
  ghost predicate Settles(s: State, c: Call)
    requires s.log.max > 0
  {
    match c
    case StartCall => false
    case StageCall(offset, data) =>
      Taking(s.log) && NearlyFull(s.log) && HomesFit(s.log.blocks + [Staged(offset / BLOCK * BLOCK, Padded(data))], |s.disk|)
    case CommitCall => s.log.blocks != []
  }

  /** What a call does to the counters, and that the device keeps up with sequence number and tail. */
  lemma CallCounts(s: State, c: Call)
    requires Sound(s.log, s.disk) && Recorded(s.log, s.disk) && Allowed(s, c)
    ensures var r := Perform(s.log, s.disk, c);
            && Recorded(r.log, r.disk) && r.log.first == s.log.first && r.log.max == s.log.max && r.log.ready
            && r.log.sequence == s.log.sequence + (if c.CommitCall? && s.log.blocks != [] then 1 else 0)
            && r.log.head == PosAfter(s.log.head, s.log.max, Uses(s, c))
            && r.log.tail == if Settles(s, c) then r.log.head else s.log.tail
  {
    hide SuperBlock, CleanSuper, Checkpoint, Recorded, HomesFit;
    match c
    case StartCall => RecordReads(s.log, Start(s.log, s.disk).log, s.disk);
    case StageCall(offset, data) => StageCounts(s, offset, data);
    case CommitCall => CommitCounts(s);
  }

  lemma RecordReads(log: Log, n: Log, disk: Disk)
    requires Recorded(log, disk) && n.first == log.first && n.max == log.max && n.sequence == log.sequence && n.tail == log.tail
    ensures Recorded(n, disk)
  {
  }

  lemma StageCounts(s: State, offset: nat, data: seq<Byte>)
    requires Sound(s.log, s.disk) && Recorded(s.log, s.disk) && Fits(s.log, offset, data)
    ensures var c := StageCall(offset, data);
            var r := Stage(s.log, s.disk, offset, data);
            && Recorded(r.log, r.disk) && r.log.first == s.log.first && r.log.max == s.log.max && r.log.ready
            && r.log.sequence == s.log.sequence && r.log.head == PosAfter(s.log.head, s.log.max, Uses(s, c))
            && r.log.tail == if Settles(s, c) then r.log.head else s.log.tail
  {
    hide SuperBlock, CleanSuper, Checkpoint, Recorded, HomesFit, Padded;
    var log := s.log;
    assert PosAfter(log.head, log.max, 0) == log.head && PosAfter(log.head, log.max, 1) == Next(log.head, log.max);
    if !log.committed {
      var w := Write(s.disk, BlockAt(log, log.head), data);
      LogWrite(log, s.disk, log.head, data);
      RecordStays(log, log, s.disk, w.disk);
      if |log.blocks| < MAX_TX_BLOCKS {
        var staged := log.(blocks := log.blocks + [Staged(offset / BLOCK * BLOCK, Padded(data))], head := Next(log.head, log.max));
        RecordReads(log, staged, w.disk);
        CheckpointRecords(staged, w.disk);
      }
    }
  }

  lemma CommitCounts(s: State)
    requires Sound(s.log, s.disk) && Recorded(s.log, s.disk) && HomesFit(s.log.blocks, |s.disk|)
    ensures var r := Commit(s.log, s.disk);
            && Recorded(r.log, r.disk) && r.log.first == s.log.first && r.log.max == s.log.max && r.log.ready
            && r.log.sequence == s.log.sequence + (if s.log.blocks != [] then 1 else 0)
            && r.log.head == PosAfter(s.log.head, s.log.max, Uses(s, CommitCall))
            && r.log.tail == if s.log.blocks != [] then r.log.head else s.log.tail
  {
    hide SuperBlock, CleanSuper, Checkpoint, Recorded, HomesFit, Descriptor, CommitBlock, WriteSuper, Write;
    var log := s.log;
    var one := Next(log.head, log.max);
    assert PosAfter(log.head, log.max, 0) == log.head && PosAfter(log.head, log.max, 1) == one
           && PosAfter(log.head, log.max, 2) == Next(one, log.max);
    if log.blocks == [] {
      RecordReads(log, log.(committed := true), s.disk);
    } else {
      DescriptorSize(log);
      var described := log.(head := one);
      var w := Write(s.disk, BlockAt(log, log.head), Descriptor(log));
      LogWrite(log, s.disk, log.head, Descriptor(log));
      var v := Write(w.disk, BlockAt(log, described.head), CommitBlock(log));
      LogWrite(log, w.disk, described.head, CommitBlock(log));
      var done := described.(head := Next(one, log.max), sequence := log.sequence + 1, committed := true);
      SuperWrite(done, v.disk);
      CheckpointRecords(done, WriteSuper(done, v.disk).disk);
    }
  }

  /** Commits of something in the first `n` calls. */
  function Commits(states: seq<State>, calls: seq<Call>, n: nat): nat
    requires n <= |calls| && |states| == |calls| + 1
  {
    if n == 0 then 0
    else Commits(states, calls, n - 1) + if calls[n - 1].CommitCall? && states[n - 1].log.blocks != [] then 1 else 0
  }

  /** Blocks of the ring used up in the first `n` calls. */
  function Used(states: seq<State>, calls: seq<Call>, n: nat): nat
    requires n <= |calls| && |states| == |calls| + 1
  {
    if n == 0 then 0 else Used(states, calls, n - 1) + Uses(states[n - 1], calls[n - 1])
  }

  lemma {:induction false} PosAfterAdds(pos: nat, max: nat, a: nat, b: nat)
    requires max >= 2 && 1 <= pos < max
    ensures PosAfter(PosAfter(pos, max, a), max, b) == PosAfter(pos, max, a + b)
  {
    if b > 0 {
      PosAfterAdds(pos, max, a, b - 1);
    }
  }

  lemma InitIsRecorded(first: nat, bytes: nat, disk: Disk)
    requires bytes >= 2 * BLOCK && first + bytes <= |disk|
    ensures var r := InitNew(first, bytes, disk);
            && Recorded(r.log, r.disk) && r.log == Log(first, bytes / BLOCK, 1, 1, 1, [], false, true)
  {
    hide SuperBlock, Zeroed;
    WrittenIsRecorded(Log(first, bytes / BLOCK, 1, 1, 1, [], false, true),
                      Zeroed(first, if bytes / BLOCK < 64 then bytes / BLOCK else 64, disk));
  }

  /** Over every run the sequence number counts the commits, the head has gone round the ring by one block for
      each block staged and two for each commit, and the device names sequence number and tail. */
  lemma {:induction false} RunsCount(first: nat, bytes: nat, disk: Disk, states: seq<State>, calls: seq<Call>, i: nat)
    requires IsRun(first, bytes, disk, states, calls) && i < |states|
    ensures var s := states[i];
            && Recorded(s.log, s.disk) && s.log.ready && s.log.first == first && s.log.max == bytes / BLOCK >= 2
            && s.log.sequence == 1 + Commits(states, calls, i)
            && s.log.head == PosAfter(1, bytes / BLOCK, Used(states, calls, i))
  {
    hide Sound, Recorded, Perform, Allowed, Uses, InitNew;
    if i == 0 {
      InitIsRecorded(first, bytes, disk);
    } else {
      RunsCount(first, bytes, disk, states, calls, i - 1);
      RunsStaySound(first, bytes, disk, states, calls, i - 1);
      CallCounts(states[i - 1], calls[i - 1]);
      PosAfterAdds(1, bytes / BLOCK, Used(states, calls, i - 1), Uses(states[i - 1], calls[i - 1]));
    }
  }

  /** After every run of calls a restart takes up where the run is: area, sequence number and tail. Blocks staged
      since the last checkpoint are forgotten: the head is that of the last checkpoint. */
  lemma RunsLoadBack(first: nat, bytes: nat, disk: Disk, states: seq<State>, calls: seq<Call>, i: nat)
    requires IsRun(first, bytes, disk, states, calls) && i < |states|
    requires first > 0 && bytes >= 3 * BLOCK && bytes / BLOCK <= Power(8) && 1 + Commits(states, calls, i) < Power(8)
    ensures var s := states[i];
            Loaded(first, bytes, s.disk) == Result(true, s.log.(head := s.log.tail, blocks := [], committed := false), s.disk)
  {
    hide SuperBlock, Power, Loaded, CleanSuper;
    RunsCount(first, bytes, disk, states, calls, i);
    RunsStaySound(first, bytes, disk, states, calls, i);
    var s := states[i];
    SuperLoads(s.log.(head := s.log.tail), bytes, s.disk);
  }

  // ---- what staging writes to the log -----------------------------------------------------------

  /** A block staged stands in the log at the old head, and nothing else in the log changes but the superblock. */
  lemma StageLogs(log: Log, disk: Disk, offset: nat, data: seq<Byte>, p: nat)
    requires Sound(log, disk) && Fits(log, offset, data) && InLog(log, p) && log.first + BLOCK <= p
    ensures var r := Stage(log, disk, offset, data);
            var at := BlockAt(log, log.head);
            && p < |r.disk| == |disk|
            && r.disk[p] == if !log.committed && at <= p < at + |data| then data[p - at] else disk[p]
  {
    hide SuperBlock, CleanSuper, Checkpoint, Padded;
    assert p < |disk|;
    if !log.committed {
      var w := Write(disk, BlockAt(log, log.head), data);
      LogWrite(log, disk, log.head, data);
      if |log.blocks| < MAX_TX_BLOCKS {
        var staged := log.(blocks := log.blocks + [Staged(offset / BLOCK * BLOCK, Padded(data))], head := Next(log.head, log.max));
        CheckpointSparesLog(staged, w.disk, p);
      }
    }
  }

  /** A checkpoint writes no block of the ring. */
  lemma CheckpointSparesLog(log: Log, disk: Disk, p: nat)
    requires Placed(log, disk) && InLog(log, p) && log.first + BLOCK <= p
    ensures p < |Checkpoint(log, disk).disk| == |disk| && Checkpoint(log, disk).disk[p] == disk[p]
  {
    hide CopiedHome, SuperBlock;
    CopySucceedsIff(log.blocks, disk);
    CopyFacts(log, disk, p);
  }

  /** The log is nearly full once fewer than eight blocks of the ring are free behind the next head - nine, when
      that has come round to the front. */
  lemma NearlyFullIff(log: Log)
    requires log.max >= 2 && 1 <= log.head < log.max && 1 <= log.tail < log.max
    ensures var next := Next(log.head, log.max);
            var used := Distance(log.tail, next, log.max);
            NearlyFull(log) <==> used == 0 || log.max - used < if next >= log.tail then 8 else 9
  {
  }

  // ---- formatting, loading and replaying, once more ------------------------------------------------

  /** Behind the superblock formatting leaves zeros in the first 64 blocks of the log, or in all of a shorter one -
      no block of an older log passes for a descriptor there - and the blocks behind them as they were. */
  lemma InitZeroes(first: nat, bytes: nat, disk: Disk, p: nat)
    requires bytes >= 2 * BLOCK && first + bytes <= |disk| && first + BLOCK <= p < |disk|
    ensures var r := InitNew(first, bytes, disk);
            |r.disk| == |disk| && r.disk[p] == if p < first + bytes / BLOCK * BLOCK && p < first + 64 * BLOCK then 0 else disk[p]
  {
    hide SuperBlock, Zeroed, Padded;
    var max := bytes / BLOCK;
    var n := if max < 64 then max else 64;
    assert n * BLOCK <= max * BLOCK <= bytes;
    if p < first + n * BLOCK {
      ZeroedIsZero(first, n, disk, p);
    }
  }

  lemma {:induction false} ZeroedIsZero(first: nat, n: nat, disk: Disk, p: nat)
    requires first + n * BLOCK <= |disk| && first <= p < first + n * BLOCK
    ensures Zeroed(first, n, disk)[p] == 0
  {
    if p < first + (n - 1) * BLOCK {
      ZeroedIsZero(first, n - 1, disk, p);
    }
  }

  predicate InRing(pos: nat, max: nat) {
    1 <= pos < max
  }

  /** Loading a superblock: each position is taken over just when it lies in the ring, and is 1 otherwise; the
      sequence number is taken over, and the device is left alone. Loading where there is none starts a log at
      sequence number 1 and records it. */
  lemma LoadTakesOver(first: nat, bytes: nat, disk: Disk)
    requires first > 0 && bytes >= 3 * BLOCK && first + BLOCK <= |disk|
    ensures var r := Loaded(first, bytes, disk);
            var b := disk[first..first + BLOCK];
            && r.ok && r.log.ready && r.log.first == first && r.log.max == bytes / BLOCK
            && if Field(b, 0, 4) == JSB_MAGIC then
                 && r.disk == disk && r.log.sequence == Field(b, 24, 8)
                 && (r.log.head == Field(b, 40, 8) <==> InRing(Field(b, 40, 8), r.log.max) || Field(b, 40, 8) == 1)
                 && (!InRing(Field(b, 40, 8), r.log.max) ==> r.log.head == 1)
                 && (r.log.tail == Field(b, 48, 8) <==> InRing(Field(b, 48, 8), r.log.max) || Field(b, 48, 8) == 1)
                 && (!InRing(Field(b, 48, 8), r.log.max) ==> r.log.tail == 1)
               else r.log.sequence == 1 && r.log.head == r.log.tail == 1 && Recorded(r.log, r.disk)
  {
    hide SuperBlock, Field;
    WrittenIsRecorded(Log(first, bytes / BLOCK, 1, 1, 1, [], false, true), disk);
  }

  /** A replay that has something to do leaves an empty log under the sequence number behind the one recorded,
      and records that; the open transaction stays. */
  lemma ReplayResets(log: Log, disk: Disk, beyond: nat -> Byte)
    requires log.ready && RingFits(log, disk) && NeedsReplay(log, disk) && 1 <= SuperField(log, disk, 40) < log.max
    ensures var (r, n) := Replayed(log, disk, beyond);
            && r.ok && r.log.sequence == SuperField(log, disk, 24) + 1 && r.log.head == r.log.tail == 1
            && r.log.first == log.first && r.log.max == log.max && r.log.blocks == log.blocks && r.log.committed == log.committed
            && Recorded(r.log, r.disk)
  {
    hide Scanned, SuperBlock, Field;
    var s := Scanned(log, SuperField(log, disk, 40), beyond, Scan(SuperField(log, disk, 48), 0, disk));
    var reset := log.(sequence := SuperField(log, disk, 24) + 1, head := 1, tail := 1);
    SuperWrite(reset, s.disk);
    WrittenIsRecorded(reset, s.disk);
  }

  // ---- calls that fail ---------------------------------------------------------------------------

  /** Starting succeeds just on a journal that was set up; then no block is staged and nothing is committed. */
  lemma StartsIffReady(log: Log, disk: Disk)
    ensures var r := Start(log, disk);
            && r.disk == disk && (r.ok <==> log.ready) && (!r.ok ==> r.log == log)
            && (r.ok ==> r.log == log.(blocks := r.log.blocks, committed := r.log.committed) && |r.log.blocks| == 0 && !r.log.committed)
  {
  }

  /** Where the block at the head is not on the device nothing is staged and nothing committed: no byte is
      written, and a commit has used up its block of the ring. */
  lemma OffDevice(log: Log, disk: Disk, offset: nat, data: seq<Byte>)
    requires log.max > 0
    ensures data != [] && BlockAt(log, log.head) + |data| > |disk| ==> Stage(log, disk, offset, data) == Result(false, log, disk)
    ensures log.blocks != [] && BlockAt(log, log.head) + BLOCK > |disk|
            ==> Commit(log, disk) == Result(false, log.(head := Next(log.head, log.max)), disk)
  {
    hide Descriptor, CommitBlock;
    DescriptorSize(log);
  }

  /** Where only the block behind it is missing the descriptor is all that is written, and the transaction stays
      open. */
  lemma CommitBlockOffDevice(log: Log, disk: Disk)
    requires log.max > 0 && log.blocks != [] && BlockAt(log, log.head) + BLOCK <= |disk|
    requires BlockAt(log, Next(log.head, log.max)) + BLOCK > |disk|
    ensures var r := Commit(log, disk);
            && !r.ok && r.log == log.(head := Next(Next(log.head, log.max), log.max))
            && |r.disk| == |disk|
            && forall p: nat :: p < |disk| ==>
                 r.disk[p] == if BlockAt(log, log.head) <= p < BlockAt(log, log.head) + BLOCK
                              then Descriptor(log)[p - BlockAt(log, log.head)] else disk[p]
  {
    hide Descriptor, CommitBlock;
    DescriptorSize(log);
  }
}
