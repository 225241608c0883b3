/** What the log holds when a commit is cut off, and what the scan makes of it: the data blocks of a
    transaction lie before its descriptor in the ring, but replay takes the blocks behind it. */
module JournalCrash {
  import opened JournalFormat
  import opened Journaling
  import opened JournalReplay

  // ---- what a descriptor reads back as ---------------------------------------------------------

  function Flags(blocks: seq<Staged>, i: nat): (f: nat)
    ensures f <= 4
  {
    if i + 1 == |blocks| then 4 else 0
  }

  lemma {:induction false} TagsLength(blocks: seq<Staged>, n: nat)
    requires n <= |blocks|
    ensures |Tags(blocks, n)| == n * TAG_BYTES
  {
    if n > 0 {
      TagsLength(blocks, n - 1);
    }
  }

  lemma {:induction false} TagsHold(blocks: seq<Staged>, n: nat, i: nat)
    requires i < n <= |blocks|
    ensures |Tags(blocks, n)| == n * TAG_BYTES
    ensures Tags(blocks, n)[i * TAG_BYTES..i * TAG_BYTES + 8] == Encoded(blocks[i].home, 8)
    ensures Tags(blocks, n)[i * TAG_BYTES + 8..i * TAG_BYTES + 12] == Encoded(Flags(blocks, i), 4)
  {
    hide Encoded;
    TagsLength(blocks, n);
    TagsLength(blocks, n - 1);
    var before := Tags(blocks, n - 1);
    if i == n - 1 {
      assert Tags(blocks, n) == before + Encoded(blocks[i].home, 8) + Encoded(Flags(blocks, i), 4);
    } else {
      TagsHold(blocks, n - 1, i);
      assert Tags(blocks, n)[..|before|] == before;
      assert Tags(blocks, n)[i * TAG_BYTES..i * TAG_BYTES + 8] == before[i * TAG_BYTES..i * TAG_BYTES + 8];
      assert Tags(blocks, n)[i * TAG_BYTES + 8..i * TAG_BYTES + 12] == before[i * TAG_BYTES + 8..i * TAG_BYTES + 12];
    }
  }

  /** Inside the block nothing beyond it is read. */
  lemma TagBytesInside(block: seq<Byte>, beyond: nat -> Byte, at: nat, k: nat)
    requires at + k <= |block|
    ensures TagBytes(block, beyond, at, k) == block[at..at + k]
  {
  }

  lemma DescriptorHead(log: Log)
    requires |log.blocks| <= MAX_TX_BLOCKS
    ensures Field(Descriptor(log), 0, 4) == JDB_MAGIC && Field(Descriptor(log), 12, 2) == |log.blocks|
    ensures Field(Descriptor(log), 4, 8) == log.sequence % Power(8)
  {
    hide Encoded;
    hide Padded;
    hide Tags;
    TagsLength(log.blocks, |log.blocks|);
    var n := |log.blocks|;
    var tags := Tags(log.blocks, n);
    var s := Encoded(JDB_MAGIC, 4) + Encoded(log.sequence, 8) + Encoded(n, 2) + [0] + Encoded(0, 4) + tags;
    var a := Encoded(JDB_MAGIC, 4) + Encoded(log.sequence, 8);
    assert s == [] + Encoded(JDB_MAGIC, 4) + s[4..];
    assert s == a + Encoded(n, 2) + s[14..];
    assert s == Encoded(JDB_MAGIC, 4) + Encoded(log.sequence, 8) + s[12..];
    FieldOf([], JDB_MAGIC, 4, s[4..]);
    FieldOf(Encoded(JDB_MAGIC, 4), log.sequence, 8, s[12..]);
    FieldOf(a, n, 2, s[14..]);
    FourBytes();
    assert Power(2) == 65536;
  }

  lemma DescriptorTags(log: Log)
    requires |log.blocks| <= MAX_TX_BLOCKS
    ensures var tags := Tags(log.blocks, |log.blocks|);
            |tags| == |log.blocks| * TAG_BYTES && Descriptor(log)[DESC_BYTES..DESC_BYTES + |tags|] == tags
  {
    hide Encoded;
    hide Tags;
    TagsLength(log.blocks, |log.blocks|);
  }

  lemma SliceOfSlice(s: seq<Byte>, at: nat, t: seq<Byte>, i: nat, k: nat)
    requires at + |t| <= |s| && s[at..at + |t|] == t && i + k <= |t|
    ensures s[at + i..at + i + k] == t[i..i + k]
  {
    var u, v, w := s[at..at + |t|], s[at + i..at + i + k], t[i..i + k];
    forall j | 0 <= j < k
      ensures v[j] == w[j]
    {
      assert u[i + j] == s[at + (i + j)];
    }
  }

  lemma TagSlices(log: Log, i: nat)
    requires i < |log.blocks| <= MAX_TX_BLOCKS
    ensures |Descriptor(log)| == BLOCK
    ensures var d, at := Descriptor(log), DESC_BYTES + i * TAG_BYTES;
            && at + TAG_BYTES <= BLOCK
            && d[at..at + 8] == Encoded(log.blocks[i].home, 8)
            && d[at + 8..at + 12] == Encoded(Flags(log.blocks, i), 4)
  {
    hide Encoded, Tags, Descriptor;
    DescriptorSize(log);
    DescriptorTags(log);
    var tags := Tags(log.blocks, |log.blocks|);
    TagsHold(log.blocks, |log.blocks|, i);
    SliceOfSlice(Descriptor(log), DESC_BYTES, tags, i * TAG_BYTES, 8);
    SliceOfSlice(Descriptor(log), DESC_BYTES, tags, i * TAG_BYTES + 8, 4);
  }

  lemma HomeReadsBack(log: Log, beyond: nat -> Byte, i: nat)
    requires i < |log.blocks| <= MAX_TX_BLOCKS
    ensures TagHome(Descriptor(log), beyond, i) == log.blocks[i].home % Power(8)
  {
    TagSlices(log, i);
    hide Encoded, Tags, Descriptor, Power, Decoded, Flags;
    TagBytesInside(Descriptor(log), beyond, DESC_BYTES + i * TAG_BYTES, 8);
    hide TagBytes;
    DecodesBack(log.blocks[i].home, 8);
  }

  lemma FlagsReadBack(log: Log, beyond: nat -> Byte, i: nat)
    requires i < |log.blocks| <= MAX_TX_BLOCKS
    ensures TagFlags(Descriptor(log), beyond, i) == Flags(log.blocks, i)
  {
    TagSlices(log, i);
    hide Encoded, Tags, Descriptor, Decoded, Flags;
    TagBytesInside(Descriptor(log), beyond, DESC_BYTES + i * TAG_BYTES + 8, 4);
    hide TagBytes;
    FlagDecodes(Flags(log.blocks, i));
  }

  lemma FlagDecodes(flags: nat)
    requires flags < 0x1_0000_0000
    ensures Decoded(Encoded(flags, 4)) == flags
  {
    hide Encoded, Decoded;
    DecodesBack(flags, 4);
    FourBytes();
  }

  /** The descriptor of a transaction names its homes in order, and marks the last. */
  lemma DescriptorReadsBack(log: Log, beyond: nat -> Byte, i: nat)
    requires i < |log.blocks| <= MAX_TX_BLOCKS
    ensures TagHome(Descriptor(log), beyond, i) == log.blocks[i].home % Power(8)
    ensures LastTag(Descriptor(log), beyond, i) <==> i == |log.blocks| - 1
  {
    hide Descriptor, TagHome, TagFlags, TagBytes, Decoded, Encoded, Tags, Power;
    HomeReadsBack(log, beyond, i);
    FlagsReadBack(log, beyond, i);
  }

  // ---- a commit cut off ------------------------------------------------------------------------------

  function Described(log: Log, disk: Disk): Io {
    Write(disk, BlockAt(log, log.head), Descriptor(log))
  }

  function Closed(log: Log, disk: Disk): Io
    requires log.max > 0
  {
    Write(Described(log, disk).disk, BlockAt(log, Next(log.head, log.max)), CommitBlock(log))
  }

  /** The journal and the device when descriptor, commit block and superblock have been written. */
  function Logged(log: Log, disk: Disk): Result
    requires log.max > 0
  {
    var done := log.(head := Next(Next(log.head, log.max), log.max), sequence := log.sequence + 1, committed := true);
    var u := WriteSuper(done, Closed(log, disk).disk);
    Result(Described(log, disk).ok && Closed(log, disk).ok && u.ok, done, u.disk)
  }

  /** A commit is what has been logged, checkpointed. */
  lemma CommitIsLogged(log: Log, disk: Disk)
    requires log.max > 0 && log.blocks != [] && Logged(log, disk).ok
    ensures Commit(log, disk) == Checkpoint(Logged(log, disk).log, Logged(log, disk).disk)
  {
    hide Descriptor, CommitBlock, Checkpoint, WriteSuper;
  }

  /** Where a commit can stop: in the log, with the superblock and the first so many homes written, or
      at its end. */
  datatype Stop = BeforeDescriptor | AfterDescriptor | AfterCommitBlock | AfterHomes(copied: nat) | AfterAll

  /** What the device holds when a commit stops there. */
  function CutOff(log: Log, disk: Disk, stop: Stop): Disk
    requires log.max > 0 && (stop.AfterHomes? ==> stop.copied <= |log.blocks|)
  {
    match stop
    case BeforeDescriptor => disk
    case AfterDescriptor => Described(log, disk).disk
    case AfterCommitBlock => Closed(log, disk).disk
    case AfterHomes(n) => CopiedHome(log.blocks[..n], Logged(log, disk).disk).disk
    case AfterAll => Commit(log, disk).disk
  }

  /** `load` succeeds and `replay` can make sense of the superblock. */
  predicate Recoverable(first: nat, bytes: nat, disk: Disk) {
    var l := Loaded(first, bytes, disk);
    && l.ok && RingFits(l.log, l.disk)
    && (NeedsReplay(l.log, l.disk) ==> 1 <= SuperField(l.log, l.disk, 40) < l.log.max)
  }

  /** The device after a restart: `load`, then `replay`. */
  function Recovered(first: nat, bytes: nat, disk: Disk, beyond: nat -> Byte): (Result, nat)
    requires Recoverable(first, bytes, disk)
  {
    LoadedInRing(first, bytes, disk);
    var l := Loaded(first, bytes, disk);
    Replayed(l.log, l.disk, beyond)
  }

  // ---- stops with a clean superblock: any transaction -------------------------------------------------

  /** What a restart finds: the area of the log, where the device holds it. */
  ghost predicate Area(log: Log, bytes: nat) {
    log.first > 0 && bytes / BLOCK == log.max && log.max >= 3
  }

  lemma SoundFits(log: Log, disk: Disk)
    requires Sound(log, disk)
    ensures RingFits(log, disk) && CleanSuper(log, disk)
    ensures 1 <= log.head < log.max && 1 <= log.tail < log.max && |log.blocks| <= MAX_TX_BLOCKS
  {
  }

  lemma CleanRecovers(log: Log, bytes: nat, disk: Disk, beyond: nat -> Byte)
    requires Area(log, bytes) && RingFits(log, disk) && CleanSuper(log, disk)
    ensures Recoverable(log.first, bytes, disk)
    ensures var (r, n) := Recovered(log.first, bytes, disk, beyond); r.ok && n == 0 && r.disk == disk
  {
    LoadedInRing(log.first, bytes, disk);
  }

  lemma RingWritesKeep(log: Log, disk: Disk)
    requires Sound(log, disk)
    ensures var d, v := Described(log, disk), Closed(log, disk);
            && d.ok && v.ok && |d.disk| == |disk| && |v.disk| == |disk|
            && CleanSuper(log, d.disk) && CleanSuper(log, v.disk)
            && (forall p: nat :: p < |disk| && !InLog(log, p) ==> d.disk[p] == disk[p] && v.disk[p] == disk[p])
  {
    hide Descriptor, CommitBlock, CleanSuper;
    DescriptorSize(log);
    LogWrite(log, disk, log.head, Descriptor(log));
    LogWrite(log, Described(log, disk).disk, Next(log.head, log.max), CommitBlock(log));
  }

  /** A commit of any number of blocks that stops before its first superblock write is undone: nothing
      is replayed, and outside the log the device is as it was. */
  lemma EarlyStopKeepsOld(log: Log, bytes: nat, disk: Disk, stop: Stop, beyond: nat -> Byte)
    requires Sound(log, disk) && Area(log, bytes)
    requires stop in {BeforeDescriptor, AfterDescriptor, AfterCommitBlock}
    ensures var cut := CutOff(log, disk, stop);
            && Recoverable(log.first, bytes, cut)
            && var (r, n) := Recovered(log.first, bytes, cut, beyond);
               && r.ok && n == 0 && |r.disk| == |disk|
               && forall p: nat :: p < |disk| && !InLog(log, p) ==> r.disk[p] == disk[p]
  {
    RingWritesKeep(log, disk);
    hide Described, Closed, CleanSuper, Recovered, Recoverable;
    CleanRecovers(log, bytes, CutOff(log, disk, stop), beyond);
  }

  /** A commit of any number of blocks that ran to its end stays: nothing is replayed, and outside the
      log every byte is settled. */
  lemma FullStopKeepsNew(log: Log, bytes: nat, disk: Disk, beyond: nat -> Byte)
    requires Sound(log, disk) && Area(log, bytes) && HomesFit(log.blocks, |disk|)
    ensures var cut := CutOff(log, disk, AfterAll);
            && Recoverable(log.first, bytes, cut)
            && var (r, n) := Recovered(log.first, bytes, cut, beyond);
               && r.ok && n == 0 && |r.disk| == |disk|
               && forall p: nat :: p < |disk| && !InLog(log, p) ==> r.disk[p] == Settled(log.blocks, disk, p)
  {
    hide Commit, Sound, CleanSuper, Settled, HomesFit, Recovered, Recoverable;
    CommitSettles(log, disk);
    var r := Commit(log, disk);
    SoundFits(log, disk);
    SoundFits(r.log, r.disk);
    CleanReads(r.log, log, r.disk);
    CleanRecovers(log, bytes, r.disk, beyond);
  }

  // ---- what the log holds behind the first superblock write ---------------------------------------------

  /** A block written reads back, and other blocks of the ring and the superblock are untouched. */
  lemma RingWrite(log: Log, disk: Disk, pos: nat, data: seq<Byte>, other: nat)
    requires RingFits(log, disk) && 1 <= pos < log.max && |data| == BLOCK && other < log.max
    ensures var w := Write(disk, BlockAt(log, pos), data);
            && w.ok && |w.disk| == |disk| && Readable(log, disk, other)
            && BlockBytes(log, w.disk, other) == if other == pos then data else BlockBytes(log, disk, other)
  {
    RingBlock(log, pos);
    assert BlockAt(log, other) + BLOCK <= log.first + log.max * BLOCK;
    assert other != pos ==> BlockAt(log, other) + BLOCK <= BlockAt(log, pos) || BlockAt(log, pos) + BLOCK <= BlockAt(log, other);
  }

  /** Descriptor and commit block stand at the head, the other blocks of the ring are as they were. */
  ghost predicate HoldsCommit(log: Log, disk: Disk, x: Disk)
    requires log.max > 0
  {
    && RingFits(log, x) && |x| == |disk|
    && forall pos {:trigger Readable(log, x, pos)} :: 1 <= pos < log.max && Readable(log, x, pos) ==>
         BlockBytes(log, x, pos) == if pos == Next(log.head, log.max) then CommitBlock(log)
                                    else if pos == log.head then Descriptor(log) else BlockBytes(log, disk, pos)
  }

  /** The superblock of a commit that is not checkpointed. */
  function OpenSuper(log: Log): (r: seq<Byte>)
    requires log.max > 0
    ensures |r| == BLOCK
  {
    SuperBlock(log.max, log.first, log.sequence + 1, Next(Next(log.head, log.max), log.max), log.tail)
  }

  lemma ClosedHolds(log: Log, disk: Disk)
    requires Sound(log, disk)
    ensures Closed(log, disk).ok && Described(log, disk).ok && HoldsCommit(log, disk, Closed(log, disk).disk)
  {
    SoundFits(log, disk);
    DescriptorSize(log);
    hide Sound, Descriptor, CommitBlock, Write, BlockBytes, BlockAt;
    var d, v := Described(log, disk).disk, Closed(log, disk).disk;
    RingWrite(log, disk, log.head, Descriptor(log), 0);
    RingWrite(log, d, Next(log.head, log.max), CommitBlock(log), 0);
    forall pos | 1 <= pos < log.max && Readable(log, v, pos)
      ensures BlockBytes(log, v, pos) == if pos == Next(log.head, log.max) then CommitBlock(log)
                                         else if pos == log.head then Descriptor(log) else BlockBytes(log, disk, pos)
    {
      RingWrite(log, disk, log.head, Descriptor(log), pos);
      RingWrite(log, d, Next(log.head, log.max), CommitBlock(log), pos);
    }
  }

  /** Outside the superblock nothing changed from one device to the other, inside the log. */
  ghost predicate SameRing(log: Log, x: Disk, y: Disk)
  {
    |x| == |y| && forall p: nat :: log.first + BLOCK <= p < log.first + log.max * BLOCK && p < |x| ==> x[p] == y[p]
  }

  lemma HoldsStays(log: Log, disk: Disk, x: Disk, y: Disk)
    requires log.max > 0 && HoldsCommit(log, disk, x) && SameRing(log, x, y)
    ensures HoldsCommit(log, disk, y)
  {
    hide Descriptor, CommitBlock, BlockBytes, SameRing;
    forall pos | 1 <= pos < log.max && Readable(log, y, pos)
      ensures Readable(log, x, pos) && BlockBytes(log, y, pos) == BlockBytes(log, x, pos)
    {
      SameBlock(log, x, y, pos);
    }
    SameSize(log, x, y);
  }

  lemma SameSize(log: Log, x: Disk, y: Disk)
    requires SameRing(log, x, y)
    ensures |x| == |y|
  {
  }

  lemma SameBlock(log: Log, x: Disk, y: Disk, pos: nat)
    requires SameRing(log, x, y) && 1 <= pos < log.max && Readable(log, y, pos)
    ensures Readable(log, x, pos) && BlockBytes(log, y, pos) == BlockBytes(log, x, pos)
  {
    RingBlock(log, pos);
  }

  lemma LoggedHolds(log: Log, disk: Disk)
    requires Sound(log, disk)
    ensures var r := Logged(log, disk);
            && r.ok && HoldsCommit(log, disk, r.disk) && r.disk[log.first..log.first + BLOCK] == OpenSuper(log)
  {
    ClosedHolds(log, disk);
    SoundFits(log, disk);
    var x := Closed(log, disk).disk;
    hide Sound, Closed, Described, SuperBlock, Descriptor, CommitBlock, BlockBytes;
    var r := Logged(log, disk);
    assert log.first + BLOCK <= log.first + log.max * BLOCK <= |x|;
    assert SameRing(log, x, r.disk);
    HoldsStays(log, disk, x, r.disk);
  }

  /** Copying homes leaves the log as it is. */
  lemma HomesHold(log: Log, disk: Disk, n: nat)
    requires Sound(log, disk) && n <= |log.blocks|
    ensures var x := CopiedHome(log.blocks[..n], Logged(log, disk).disk).disk;
            && HoldsCommit(log, disk, x) && x[log.first..log.first + BLOCK] == OpenSuper(log)
  {
    LoggedHolds(log, disk);
    var y := Logged(log, disk).disk;
    hide Logged, OpenSuper, HoldsCommit;
    SizeHolds(log, disk, y);
    PlacedOn(log, disk, y, n);
    HomesSpareLog(log.(blocks := log.blocks[..n]), y);
    var x := CopiedHome(log.blocks[..n], y).disk;
    hide CopiedHome, Sound;
    HoldsStays(log, disk, y, x);
  }

  lemma PlacedOn(log: Log, disk: Disk, y: Disk, n: nat)
    requires Sound(log, disk) && RingFits(log, y) && n <= |log.blocks|
    ensures Placed(log.(blocks := log.blocks[..n]), y) && log.first + BLOCK <= log.first + log.max * BLOCK <= |y|
  {
  }

  lemma HomesSpareLog(log: Log, y: Disk)
    requires Placed(log, y) && log.first + BLOCK <= log.first + log.max * BLOCK <= |y|
    ensures var x := CopiedHome(log.blocks, y).disk;
            && SameLog(log, y, x)
            && x[log.first..log.first + BLOCK] == y[log.first..log.first + BLOCK]
  {
    hide Placed, CopiedHome, Settled, RingFits, InLog, Staging;
    var x := CopiedHome(log.blocks, y).disk;
    CopyFacts(log, y, 0);
    forall p: nat | p < |y| && InLog(log, p)
      ensures x[p] == y[p]
    {
      CopyFacts(log, y, p);
    }
    LogAgrees(log, y, x);
  }

  lemma LogAgrees(log: Log, x: Disk, y: Disk)
    requires SameLog(log, x, y) && log.first + BLOCK <= log.first + log.max * BLOCK <= |y|
    ensures x[log.first..log.first + BLOCK] == y[log.first..log.first + BLOCK]
  {
    forall p: nat | log.first <= p < log.first + BLOCK
      ensures x[p] == y[p]
    {
      assert InLog(log, p);
    }
  }

  lemma SizeHolds(log: Log, disk: Disk, x: Disk)
    requires log.max > 0 && HoldsCommit(log, disk, x)
    ensures RingFits(log, x) && |x| == |disk|
  {
  }

  // ---- the scan over it, for one block ------------------------------------------------------------------

  /** From a position up to the head, no block of the ring passes for a descriptor. */
  predicate Passable(log: Log, disk: Disk, pos: nat)
    requires RingFits(log, disk) && 1 <= log.head < log.max && 1 <= pos < log.max
    decreases Distance(pos, log.head, log.max)
  {
    if pos == log.head then true
    else
      StepCloser(pos, log.head, log.max);
      RingBlock(log, pos);
      Field(BlockBytes(log, disk, pos), 0, 4) != JDB_MAGIC && Passable(log, disk, Next(pos, log.max))
  }

  lemma StepIs(pos: nat, max: nat)
    requires max >= 2 && 1 <= pos < max
    ensures Next(pos, max) == if pos == max - 1 then 1 else pos + 1
  {
    if pos == max - 1 {
      assert (pos + 1) % max == 0;
    } else {
      assert (pos + 1) % max == pos + 1;
    }
  }

  /** The two positions behind the head are the farthest from it but for the head's own round. */
  lemma BehindHead(head: nat, max: nat)
    requires max >= 4 && 1 <= head < max
    ensures var k := Next(head, max);
            var e := Next(k, max);
            && head != k && head != e && k != e
            && Distance(k, head, max) == max - 2 && Distance(e, head, max) == max - 3
  {
    StepIs(head, max);
    StepIs(Next(head, max), max);
  }

  /** A journal over the same area. */
  predicate SameArea(a: Log, b: Log) {
    a.first == b.first && a.max == b.max
  }

  lemma SameBytes(a: Log, b: Log, disk: Disk, pos: nat)
    requires SameArea(a, b) && Readable(a, disk, pos)
    ensures Readable(b, disk, pos) && BlockBytes(a, disk, pos) == BlockBytes(b, disk, pos)
  {
  }

  lemma HeldBlock(l: Log, log: Log, disk: Disk, x: Disk, pos: nat)
    requires log.max >= 4 && SameArea(l, log) && HoldsCommit(log, disk, x)
    requires 1 <= log.head < log.max && 1 <= pos < log.max
    ensures RingFits(l, x) && RingFits(log, disk) && Readable(l, x, pos) && Readable(log, disk, pos)
    ensures BlockBytes(l, x, pos) == if pos == Next(log.head, log.max) then CommitBlock(log)
                                     else if pos == log.head then Descriptor(log) else BlockBytes(log, disk, pos)
  {
    hide Descriptor, CommitBlock;
    RingBlock(log, pos);
    assert Readable(log, x, pos);
    SameBytes(log, l, x, pos);
  }

  lemma ScanPasses(l: Log, head: nat, beyond: nat -> Byte, s: Scan)
    requires RingFits(l, s.disk) && 1 <= head < l.max && s.pos != head && s.replayed <= REPLAY_LIMIT
    requires Readable(l, s.disk, s.pos) && Field(BlockBytes(l, s.disk, s.pos), 0, 4) != JDB_MAGIC
    ensures Scanned(l, head, beyond, s) == Scanned(l, head, beyond, s.(pos := Next(s.pos, l.max)))
  {
    hide Field, BlockBytes, CopyTags;
  }

  /** Nothing is replayed on the way to the descriptor. */
  lemma {:induction false} ScanToDescriptor(l: Log, log: Log, disk: Disk, x: Disk, beyond: nat -> Byte, pos: nat)
    requires 1 <= log.head < log.max && SameArea(l, log) && HoldsCommit(log, disk, x) && RingFits(l, x) && RingFits(log, disk)
    requires 1 <= pos < log.max
    requires Passable(log, disk, pos) && Distance(pos, log.head, log.max) + 4 <= log.max
    ensures var e := Next(Next(log.head, log.max), log.max);
            Scanned(l, e, beyond, Scan(pos, 0, x)) == Scanned(l, e, beyond, Scan(log.head, 0, x))
    decreases Distance(pos, log.head, log.max)
  {
    hide Scanned, BlockBytes, HoldsCommit, Descriptor, CommitBlock, Field, RingFits, Readable, Next;
    if pos != log.head {
      BehindHead(log.head, log.max);
      HeldBlock(l, log, disk, x, pos);
      StepCloser(pos, log.head, log.max);
      ScanPasses(l, Next(Next(log.head, log.max), log.max), beyond, Scan(pos, 0, x));
      ScanToDescriptor(l, log, disk, x, beyond, Next(pos, log.max));
    }
  }

  lemma SmallModulo(n: nat, m: nat)
    requires n < m
    ensures n % m == n
  {
  }

  // ---- what the replay of the descriptor copies -------------------------------------------------------

  function PosAfter(pos: nat, max: nat, n: nat): (r: nat)
    requires max >= 2 && 1 <= pos < max
    ensures 1 <= r < max
  {
    if n == 0 then pos else Next(PosAfter(pos, max, n - 1), max)
  }

  /** The block of the ring that replay takes for staged block `i`: the one `i + 1` places behind the
      descriptor. */
  function Taken(log: Log, x: Disk, i: nat): (r: seq<Byte>)
    requires RingFits(log, x) && 1 <= log.head < log.max
    ensures |r| == BLOCK
  {
    RingBlock(log, PosAfter(log.head, log.max, i + 1));
    BlockBytes(log, x, PosAfter(log.head, log.max, i + 1))
  }

  function Home(disk: Disk, b: Staged): seq<Byte>
    requires b.home + BLOCK <= |disk|
  {
    disk[b.home..b.home + BLOCK]
  }

  /** The homes are on the device, outside the log, of 64 bits, and no two overlap. */
  ghost predicate ApartHomes(log: Log, size: nat) {
    && HomesFit(log.blocks, size)
    && (forall i :: 0 <= i < |log.blocks| ==> Outside(log, log.blocks[i].home) && log.blocks[i].home < Power(8))
    && (forall i, j :: 0 <= i < j < |log.blocks| ==>
          log.blocks[i].home + BLOCK <= log.blocks[j].home || log.blocks[j].home + BLOCK <= log.blocks[i].home)
  }

  /** The first `n` homes hold what replay takes for them, and the log is unchanged. */
  ghost predicate Misplaced(log: Log, x: Disk, y: Disk, n: nat)
    requires RingFits(log, x) && 1 <= log.head < log.max && ApartHomes(log, |x|) && n <= |log.blocks|
  {
    && SameLog(log, x, y)
    && forall i :: 0 <= i < n ==> Home(y, log.blocks[i]) == Taken(log, x, i)
  }

  lemma TakenSame(l: Log, log: Log, x: Disk, y: Disk, i: nat)
    requires SameArea(l, log) && RingFits(log, x) && 1 <= log.head < log.max && SameLog(log, x, y)
    ensures var pos := PosAfter(log.head, log.max, i + 1);
            Readable(l, y, pos) && BlockBytes(l, y, pos) == Taken(log, x, i)
  {
    var pos := PosAfter(log.head, log.max, i + 1);
    RingBlock(log, pos);
    assert forall p :: BlockAt(log, pos) <= p < BlockAt(log, pos) + BLOCK ==> InLog(log, p);
  }

  /** A write to one home moves the block there and nothing else. */
  lemma HomeWritten(log: Log, x: Disk, y: Disk, n: nat)
    requires RingFits(log, x) && 1 <= log.head < log.max && ApartHomes(log, |x|) && n < |log.blocks|
    requires Misplaced(log, x, y, n)
    ensures Misplaced(log, x, Write(y, log.blocks[n].home, Taken(log, x, n)).disk, n + 1)
  {
    hide Taken;
    var b := log.blocks[n];
    var z := Write(y, b.home, Taken(log, x, n)).disk;
    assert b.home + BLOCK <= |y|;
    assert Home(z, b) == Taken(log, x, n);
    forall i | 0 <= i < n
      ensures Home(z, log.blocks[i]) == Home(y, log.blocks[i])
    {
    }
  }

  lemma {:induction false} TagsTake(l: Log, log: Log, x: Disk, beyond: nat -> Byte, i: nat, s: Scan)
    requires 1 <= log.head < log.max && SameArea(l, log) && RingFits(log, x) && RingFits(l, s.disk) && ApartHomes(log, |x|)
    requires i < |log.blocks| <= MAX_TX_BLOCKS && s.pos == PosAfter(log.head, log.max, i)
    requires Misplaced(log, x, s.disk, i)
    ensures var t := CopyTags(l, Descriptor(log), beyond, i, |log.blocks|, s);
            && t.pos == PosAfter(log.head, log.max, |log.blocks|) && t.replayed == s.replayed + |log.blocks| - i
            && Misplaced(log, x, t.disk, |log.blocks|)
    decreases |log.blocks| - i
  {
    hide Descriptor, TagHome, TagFlags, LastTag, Power, Misplaced, ApartHomes, Taken, Write, Next, RingFits;
    DescriptorReadsBack(log, beyond, i);
    HomeIsSmall(log, |x|, i);
    SmallModulo(log.blocks[i].home, Power(8));
    MisplacedLog(log, x, s.disk, i);
    TakenSame(l, log, x, s.disk, i);
    HomeWritten(log, x, s.disk, i);
    var one := CopyOne(l, s, log.blocks[i].home);
    assert one.disk == Write(s.disk, log.blocks[i].home, Taken(log, x, i)).disk;
    if i + 1 < |log.blocks| {
      SameSizeFits(l, s.disk, one.disk);
      TagsTake(l, log, x, beyond, i + 1, one);
    }
  }

  lemma HomeIsSmall(log: Log, size: nat, i: nat)
    requires ApartHomes(log, size) && i < |log.blocks|
    ensures log.blocks[i].home < Power(8)
  {
  }

  lemma MisplacedLog(log: Log, x: Disk, y: Disk, n: nat)
    requires RingFits(log, x) && 1 <= log.head < log.max && ApartHomes(log, |x|) && n <= |log.blocks|
    requires Misplaced(log, x, y, n)
    ensures SameLog(log, x, y) && |x| == |y|
  {
  }

  lemma SameSizeFits(l: Log, x: Disk, y: Disk)
    requires RingFits(l, x) && |x| == |y|
    ensures RingFits(l, y)
  {
  }

  // ---- the scan over a commit that was cut off ----------------------------------------------------------

  /** A home outside the log that overlaps no home of the transaction. */
  ghost predicate Strange(log: Log, home: nat) {
    && Outside(log, home)
    && forall i :: 0 <= i < |log.blocks| ==> home + BLOCK <= log.blocks[i].home || log.blocks[i].home + BLOCK <= home
  }

  /** Older descriptors in the ring name strange homes only. */
  ghost predicate Strangers(log: Log, disk: Disk, beyond: nat -> Byte)
    requires log.max > 0
  {
    forall pos, i: nat :: 1 <= pos < log.max && pos != log.head && pos != Next(log.head, log.max) && Readable(log, disk, pos)
                          && Field(BlockBytes(log, disk, pos), 0, 4) == JDB_MAGIC && i < Field(BlockBytes(log, disk, pos), 12, 2)
      ==> Strange(log, TagHome(BlockBytes(log, disk, pos), beyond, i))
  }

  /** One block: nothing from the tail to the head passes for a descriptor. More blocks: the scan then steps
      over its end and goes round the whole ring, so older descriptors count too. */
  ghost predicate Unambiguous(log: Log, disk: Disk, beyond: nat -> Byte) {
    && RingFits(log, disk) && 1 <= log.head < log.max && 1 <= log.tail < log.max
    && Distance(log.tail, log.head, log.max) + 4 <= log.max
    && Passable(log, disk, log.tail)
    && (|log.blocks| > 1 ==> Strangers(log, disk, beyond))
  }

  lemma CommitHead(log: Log)
    ensures Field(CommitBlock(log), 0, 4) == JCB_MAGIC && Field(CommitBlock(log), 4, 8) == log.sequence % Power(8)
  {
    hide Encoded, Padded, Field;
    var s := Encoded(JCB_MAGIC, 4) + Encoded(log.sequence, 8) + Encoded(0, 4);
    assert s == [] + Encoded(JCB_MAGIC, 4) + s[4..];
    assert s == Encoded(JCB_MAGIC, 4) + Encoded(log.sequence, 8) + s[12..];
    FieldOf([], JCB_MAGIC, 4, s[4..]);
    FieldOf(Encoded(JCB_MAGIC, 4), log.sequence, 8, s[12..]);
    FourBytes();
  }

  /** The blocks of the ring, once homes have been written. */
  lemma RingStill(l: Log, log: Log, disk: Disk, x: Disk, y: Disk, pos: nat)
    requires log.max >= 4 && SameArea(l, log) && HoldsCommit(log, disk, x) && SameLog(log, x, y)
    requires 1 <= log.head < log.max && 1 <= pos < log.max
    ensures RingFits(l, y) && RingFits(log, disk) && Readable(l, y, pos) && Readable(log, disk, pos)
    ensures BlockBytes(l, y, pos) == if pos == Next(log.head, log.max) then CommitBlock(log)
                                     else if pos == log.head then Descriptor(log) else BlockBytes(log, disk, pos)
  {
    HeldBlock(l, log, disk, x, pos);
    hide HoldsCommit, Descriptor, CommitBlock;
    RingBlock(log, pos);
    assert forall p :: BlockAt(log, pos) <= p < BlockAt(log, pos) + BLOCK ==> InLog(log, p);
    assert BlockBytes(l, y, pos) == BlockBytes(l, x, pos);
  }

  /** The round at the descriptor copies every block behind it to the home of the same number. */
  lemma DescriptorRound(l: Log, log: Log, disk: Disk, x: Disk, beyond: nat -> Byte, s: Scan)
    requires 1 <= log.head < log.max && log.max >= 4 && SameArea(l, log) && RingFits(log, x) && RingFits(l, s.disk)
    requires HoldsCommit(log, disk, x) && ApartHomes(log, |x|) && 1 <= |log.blocks| <= MAX_TX_BLOCKS
    requires s.pos == log.head && Misplaced(log, x, s.disk, 0) && Readable(l, s.disk, s.pos)
    ensures var next := Round(l, beyond, s);
            && next.pos == PosAfter(log.head, log.max, |log.blocks| + 1) && next.replayed == s.replayed + |log.blocks|
            && Misplaced(log, x, next.disk, |log.blocks|)
  {
    hide Descriptor, CommitBlock, Field, BlockBytes, HoldsCommit, Misplaced, ApartHomes, Power, Next, CopyTags, Readable;
    BehindHead(log.head, log.max);
    MisplacedLog(log, x, s.disk, 0);
    RingStill(l, log, disk, x, s.disk, log.head);
    DescriptorHead(log);
    TagsTake(l, log, x, beyond, 0, s);
  }

  /** A write to a strange home leaves the log and the homes of the transaction alone. */
  lemma StrangeWrite(log: Log, x: Disk, y: Disk, home: nat, data: seq<Byte>)
    requires RingFits(log, x) && 1 <= log.head < log.max && ApartHomes(log, |x|)
    requires Misplaced(log, x, y, |log.blocks|) && Strange(log, home) && |data| == BLOCK
    ensures Misplaced(log, x, Write(y, home, data).disk, |log.blocks|)
  {
    hide Taken;
    var z := Write(y, home, data).disk;
    forall i | 0 <= i < |log.blocks|
      ensures Home(z, log.blocks[i]) == Home(y, log.blocks[i])
    {
    }
  }

  lemma {:induction false} StrangeTags(l: Log, log: Log, x: Disk, block: seq<Byte>, beyond: nat -> Byte, i: nat, count: nat, s: Scan)
    requires 1 <= log.head < log.max && SameArea(l, log) && RingFits(log, x) && RingFits(l, s.disk) && ApartHomes(log, |x|)
    requires i <= count && Misplaced(log, x, s.disk, |log.blocks|)
    requires forall j: nat :: i <= j < count ==> Strange(log, TagHome(block, beyond, j))
    ensures Misplaced(log, x, CopyTags(l, block, beyond, i, count, s).disk, |log.blocks|)
    decreases count - i
  {
    hide TagHome, LastTag, Strange, Misplaced, ApartHomes, Write, RingFits;
    if i < count {
      var home := TagHome(block, beyond, i);
      var one := CopyOne(l, s, home);
      MisplacedLog(log, x, s.disk, |log.blocks|);
      RingIsReadable(l, s.disk, s.disk, Next(s.pos, l.max));
      StrangeWrite(log, x, s.disk, home, BlockBytes(l, s.disk, Next(s.pos, l.max)));
      if !LastTag(block, beyond, i) {
        SameSizeFits(l, s.disk, one.disk);
        StrangeTags(l, log, x, block, beyond, i + 1, count, one);
      }
    }
  }

  /** A round anywhere but at the descriptor keeps what has been copied. */
  lemma OtherRound(l: Log, log: Log, disk: Disk, x: Disk, beyond: nat -> Byte, s: Scan)
    requires 1 <= log.head < log.max && log.max >= 4 && SameArea(l, log) && RingFits(log, disk) && RingFits(log, x) && RingFits(l, s.disk)
    requires HoldsCommit(log, disk, x) && ApartHomes(log, |x|) && Strangers(log, disk, beyond)
    requires 1 <= s.pos < log.max && s.pos != log.head && Readable(l, s.disk, s.pos) && Misplaced(log, x, s.disk, |log.blocks|)
    ensures Misplaced(log, x, Round(l, beyond, s).disk, |log.blocks|)
  {
    CommitHead(log);
    hide Descriptor, CommitBlock, Field, BlockBytes, HoldsCommit, Misplaced, ApartHomes, RingFits, CopyTags, Strange, TagHome, Next;
    MisplacedLog(log, x, s.disk, |log.blocks|);
    RingStill(l, log, disk, x, s.disk, s.pos);
    var block := BlockBytes(l, s.disk, s.pos);
    if Field(block, 0, 4) == JDB_MAGIC {
      StrangeTags(l, log, x, block, beyond, 0, Field(block, 12, 2), s);
    }
  }

  /** Once the homes have been written the rest of the scan, however often it comes round, does not change
      them any more. */
  lemma {:induction false} ScanKeepsTaken(l: Log, log: Log, disk: Disk, x: Disk, beyond: nat -> Byte, e: nat, s: Scan)
    requires 1 <= log.head < log.max && log.max >= 4 && SameArea(l, log) && RingFits(log, disk) && RingFits(log, x) && RingFits(l, s.disk)
    requires HoldsCommit(log, disk, x) && ApartHomes(log, |x|) && 1 <= |log.blocks| <= MAX_TX_BLOCKS
    requires Strangers(log, disk, beyond) && 1 <= s.pos < log.max && 1 <= e < log.max
    requires Misplaced(log, x, s.disk, |log.blocks|)
    ensures Misplaced(log, x, Scanned(l, e, beyond, s).disk, |log.blocks|)
    decreases if s.replayed <= REPLAY_LIMIT then REPLAY_LIMIT + 1 - s.replayed else 0, Distance(s.pos, e, log.max)
  {
    hide HoldsCommit, RingFits, Misplaced, ApartHomes, Next, Round, Readable, Tagless, Strangers;
    MisplacedLog(log, x, s.disk, |log.blocks|);
    if s.pos != e && Readable(l, s.disk, s.pos) {
      var next := Round(l, beyond, s);
      if s.pos == log.head {
        FewerMisplaced(log, x, s.disk);
        DescriptorRound(l, log, disk, x, beyond, s);
      } else {
        OtherRound(l, log, disk, x, beyond, s);
      }
      if Tagless(l, s.disk, s.pos) {
        QuietRound(l, beyond, s);
        StepCloser(s.pos, e, log.max);
      } else {
        TaggedCopies(l, beyond, s);
      }
      ScanUnfolds(l, e, beyond, s);
      if next.replayed <= REPLAY_LIMIT {
        SameSizeFits(l, s.disk, next.disk);
        ScanKeepsTaken(l, log, disk, x, beyond, e, next);
      }
    }
  }

  lemma FewerMisplaced(log: Log, x: Disk, y: Disk)
    requires RingFits(log, x) && 1 <= log.head < log.max && ApartHomes(log, |x|)
    requires Misplaced(log, x, y, |log.blocks|)
    ensures Misplaced(log, x, y, 0)
  {
  }

  lemma ScanUnfolds(l: Log, e: nat, beyond: nat -> Byte, s: Scan)
    requires RingFits(l, s.disk) && 1 <= e < l.max && s.pos != e && Readable(l, s.disk, s.pos)
    ensures var next := Round(l, beyond, s);
            && RingFits(l, next.disk)
            && Scanned(l, e, beyond, s) == if next.replayed > REPLAY_LIMIT then next else Scanned(l, e, beyond, next)
  {
    hide CopyTags, BlockBytes, Field;
  }

  lemma ScanFromDescriptor(l: Log, log: Log, disk: Disk, x: Disk, beyond: nat -> Byte, e: nat)
    requires SameArea(l, log) && log.max >= 4 && RingFits(log, disk) && 1 <= log.head < log.max && HoldsCommit(log, disk, x)
    requires |log.blocks| > 1 ==> Strangers(log, disk, beyond)
    requires RingFits(log, x) && RingFits(l, x) && ApartHomes(log, |x|) && 1 <= |log.blocks| <= MAX_TX_BLOCKS
    requires e == PosAfter(log.head, log.max, 2) && e != log.head && Readable(l, x, log.head)
    ensures Misplaced(log, x, Scanned(l, e, beyond, Scan(log.head, 0, x)).disk, |log.blocks|)
    ensures |log.blocks| == 1 ==> Scanned(l, e, beyond, Scan(log.head, 0, x)).replayed == 1
  {
    hide Descriptor, CommitBlock, HoldsCommit, SameLog, RingFits, Misplaced, ApartHomes, CopyTags, Strangers, Readable, Scanned, Distance, PosAfter;
    var s := Scan(log.head, 0, x);
    NothingMisplaced(log, x);
    DescriptorRound(l, log, disk, x, beyond, s);
    var next := Round(l, beyond, s);
    ScanUnfolds(l, e, beyond, s);
    hide Round;
    if |log.blocks| == 1 {
      ScanIsDone(l, e, beyond, next);
    } else {
      ScanKeepsTaken(l, log, disk, x, beyond, e, next);
    }
  }

  /** The scan from the tail leaves in each home the block that many places behind the descriptor. */
  lemma ScanMisplaces(l: Log, log: Log, disk: Disk, x: Disk, beyond: nat -> Byte)
    requires SameArea(l, log) && log.max >= 4 && HoldsCommit(log, disk, x) && Unambiguous(log, disk, beyond)
    requires RingFits(log, x) && RingFits(l, x) && ApartHomes(log, |x|) && 1 <= |log.blocks| <= MAX_TX_BLOCKS
    ensures var e := Next(Next(log.head, log.max), log.max);
            && Misplaced(log, x, Scanned(l, e, beyond, Scan(log.tail, 0, x)).disk, |log.blocks|)
            && (|log.blocks| == 1 ==> Scanned(l, e, beyond, Scan(log.tail, 0, x)).replayed == 1)
  {
    hide Descriptor, CommitBlock, HoldsCommit, SameLog, RingFits, Misplaced, ApartHomes, Strangers, Readable, Passable, Scanned, Distance;
    ScanToDescriptor(l, log, disk, x, beyond, log.tail);
    BehindHead(log.head, log.max);
    HeldBlock(l, log, disk, x, log.head);
    TwoBehind(log.head, log.max);
    ScanFromDescriptor(l, log, disk, x, beyond, PosAfter(log.head, log.max, 2));
  }

  lemma TwoBehind(pos: nat, max: nat)
    requires max >= 2 && 1 <= pos < max
    ensures PosAfter(pos, max, 1) == Next(pos, max) && PosAfter(pos, max, 2) == Next(Next(pos, max), max)
  {
    assert PosAfter(pos, max, 1) == Next(pos, max);
  }

  lemma ScanIsDone(l: Log, e: nat, beyond: nat -> Byte, s: Scan)
    requires RingFits(l, s.disk) && 1 <= e < l.max && s.pos == e
    ensures Scanned(l, e, beyond, s) == s
  {
  }

  lemma NothingMisplaced(log: Log, x: Disk)
    requires RingFits(log, x) && 1 <= log.head < log.max && ApartHomes(log, |x|)
    ensures Misplaced(log, x, x, 0)
  {
  }
}
