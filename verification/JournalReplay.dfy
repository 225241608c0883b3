/** Replaying the log: the scan from tail to head over whatever the device holds, why it stops, and
    that between calls there is nothing to replay. */
module JournalReplay {
  import opened JournalFormat
  import opened Journaling

  const DESC_BYTES: nat := 19
  const TAG_BYTES: nat := 12
  const REPLAY_LIMIT: nat := 10000

  /** A 4096-byte buffer followed by memory that the tags of a bad descriptor may reach. */
  function TagBytes(block: seq<Byte>, beyond: nat -> Byte, at: nat, k: nat): (r: seq<Byte>)
    ensures |r| == k
  {
    seq(k, i requires 0 <= i < k => if at + i < |block| then block[at + i] else beyond(at + i))
  }

  function TagHome(block: seq<Byte>, beyond: nat -> Byte, i: nat): nat {
    Decoded(TagBytes(block, beyond, DESC_BYTES + i * TAG_BYTES, 8))
  }

  function TagFlags(block: seq<Byte>, beyond: nat -> Byte, i: nat): nat {
    Decoded(TagBytes(block, beyond, DESC_BYTES + i * TAG_BYTES + 8, 4))
  }

  predicate LastTag(block: seq<Byte>, beyond: nat -> Byte, i: nat) {
    TagFlags(block, beyond, i) / 4 % 2 == 1
  }

  function BlockBytes(log: Log, disk: Disk, pos: nat): (r: seq<Byte>)
    requires BlockAt(log, pos) + BLOCK <= |disk|
    ensures |r| == BLOCK
  {
    disk[BlockAt(log, pos)..BlockAt(log, pos) + BLOCK]
  }

  predicate Readable(log: Log, disk: Disk, pos: nat) {
    BlockAt(log, pos) + BLOCK <= |disk|
  }

  /** The ring lies on the device. */
  predicate RingFits(log: Log, disk: Disk) {
    log.max >= 2 && log.first + log.max * BLOCK <= |disk|
  }

  /** Where the scan stands after some tags: position, blocks replayed, device. */
  datatype Scan = Scan(pos: nat, replayed: nat, disk: Disk)

  /** One tag: the block behind the position is copied to the home the tag names, if that lies on the
      device. */
  function CopyOne(log: Log, s: Scan, home: nat): (n: Scan)
    requires RingFits(log, s.disk)
    ensures |n.disk| == |s.disk| && 1 <= n.pos < log.max && n.pos == Next(s.pos, log.max) && n.replayed == s.replayed + 1
  {
    var pos := Next(s.pos, log.max);
    RingBlock(log, pos);
    Scan(pos, s.replayed + 1, Write(s.disk, home, BlockBytes(log, s.disk, pos)).disk)
  }

  /** The tags from number `i` on, up to the count or the tag marked last. */
  function CopyTags(log: Log, block: seq<Byte>, beyond: nat -> Byte, i: nat, count: nat, s: Scan): (n: Scan)
    requires RingFits(log, s.disk) && i <= count
    ensures |n.disk| == |s.disk| && n.replayed >= s.replayed
    ensures i < count ==> n.replayed > s.replayed && 1 <= n.pos < log.max
    ensures i == count ==> n == s
    decreases count - i
  {
    if i == count then s
    else
      var one := CopyOne(log, s, TagHome(block, beyond, i));
      if LastTag(block, beyond, i) then one else CopyTags(log, block, beyond, i + 1, count, one)
  }

  /** Steps along the ring from a position to the head; a position off the ring is farthest. */
  function Distance(pos: nat, head: nat, max: nat): nat
    requires 1 <= head < max
  {
    if pos == 0 || pos >= max then max
    else if pos <= head then head - pos else max - 1 - (pos - head)
  }

  lemma StepCloser(pos: nat, head: nat, max: nat)
    requires 1 <= head < max && max >= 2 && pos != head
    ensures Distance(Next(pos, max), head, max) < Distance(pos, head, max)
  {
    if 1 <= pos < max - 1 {
      assert (pos + 1) % max == pos + 1;
    } else if pos == max - 1 {
      assert (pos + 1) % max == 0;
    }
  }

  /** The scan from a position to the head. It ends for any contents of the log: a descriptor with a
      tag uses up the limit, and any other block brings the position closer to the head. */
  function Scanned(log: Log, head: nat, beyond: nat -> Byte, s: Scan): (n: Scan)
    requires RingFits(log, s.disk) && 1 <= head < log.max
    ensures |n.disk| == |s.disk|
    decreases if s.replayed <= REPLAY_LIMIT then REPLAY_LIMIT + 1 - s.replayed else 0, Distance(s.pos, head, log.max)
  {
    if s.pos == head || !Readable(log, s.disk, s.pos) then s
    else
      var block := BlockBytes(log, s.disk, s.pos);
      var t := if Field(block, 0, 4) == JDB_MAGIC then CopyTags(log, block, beyond, 0, Field(block, 12, 2), s) else s;
      var next := t.(pos := Next(t.pos, log.max));
      StepCloser(s.pos, head, log.max);
      if next.replayed > REPLAY_LIMIT then next else Scanned(log, head, beyond, next)
  }

  predicate NeedsReplay(log: Log, disk: Disk)
    requires log.first + BLOCK <= |disk|
  {
    var b := disk[log.first..log.first + BLOCK];
    Field(b, 0, 4) == JSB_MAGIC && Field(b, 40, 8) != Field(b, 48, 8)
  }

  function SuperField(log: Log, disk: Disk, at: nat): nat
    requires log.first + BLOCK <= |disk| && at + 8 <= BLOCK
  {
    Field(disk[log.first..log.first + BLOCK], at, 8)
  }

  /** `replay`: the outcome and how many blocks were copied. */
  function Replayed(log: Log, disk: Disk, beyond: nat -> Byte): (Result, nat)
    requires log.ready ==> RingFits(log, disk)
    requires log.ready && NeedsReplay(log, disk) ==> 1 <= SuperField(log, disk, 40) < log.max
  {
    if !log.ready then (Result(false, log, disk), 0)
    else if !NeedsReplay(log, disk) then (Result(true, log, disk), 0)
    else
      var s := Scanned(log, SuperField(log, disk, 40), beyond, Scan(SuperField(log, disk, 48), 0, disk));
      var reset := log.(sequence := SuperField(log, disk, 24) + 1, head := 1, tail := 1);
      var w := WriteSuper(reset, s.disk);
      (Result(w.ok, reset, w.disk), s.replayed)
  }

  /** Between the calls of every run a replay copies nothing and changes nothing. */
  lemma NothingToReplay(first: nat, bytes: nat, disk: Disk, states: seq<State>, calls: seq<Call>, i: nat, beyond: nat -> Byte)
    requires IsRun(first, bytes, disk, states, calls) && i < |states|
    ensures var s := states[i];
            && s.log.ready && RingFits(s.log, s.disk) && !NeedsReplay(s.log, s.disk)
            && Replayed(s.log, s.disk, beyond) == (Result(true, s.log, s.disk), 0)
  {
    RunsStaySound(first, bytes, disk, states, calls, i);
  }

  /** Whatever the log held, a replay that ends leaves nothing to replay. */
  lemma ReplayLeavesClean(log: Log, disk: Disk, beyond: nat -> Byte)
    requires log.ready && RingFits(log, disk)
    requires NeedsReplay(log, disk) ==> 1 <= SuperField(log, disk, 40) < log.max
    ensures var (r, n) := Replayed(log, disk, beyond); r.ok && |r.disk| == |disk| && !NeedsReplay(r.log, r.disk)
  {
    hide Scanned;
    if NeedsReplay(log, disk) {
      var s := Scanned(log, SuperField(log, disk, 40), beyond, Scan(SuperField(log, disk, 48), 0, disk));
      var reset := log.(sequence := SuperField(log, disk, 24) + 1, head := 1, tail := 1);
      SuperWrite(reset, s.disk);
      SuperIsClean(reset, s.disk);
    }
  }

  // ---- loading after a restart ----------------------------------------------------------------------

  function Clamped(pos: nat, max: nat): nat {
    if pos == 0 || pos >= max then 1 else pos
  }

  /** `load` on a journal not set up before: the state comes from the superblock, or a superblock is
      written where there is none. */
  function Loaded(first: nat, bytes: nat, disk: Disk): Result {
    var blank := Log(first, bytes / BLOCK, 0, 1, 1, [], false, true);
    if first == 0 || bytes < 3 * BLOCK then Result(false, UNREADY, disk)
    else if first + BLOCK > |disk| then Result(false, blank, disk)
    else if Field(disk[first..first + BLOCK], 0, 4) == JSB_MAGIC then
      var sequence, head, tail := SuperField(blank, disk, 24), SuperField(blank, disk, 40), SuperField(blank, disk, 48);
      Result(true, blank.(sequence := sequence, head := Clamped(head, blank.max), tail := Clamped(tail, blank.max)), disk)
    else
      var w := WriteSuper(blank.(sequence := 1), disk);
      Result(w.ok, blank.(sequence := 1), w.disk)
  }

  /** Loading puts head and tail into the ring, whatever the superblock says. */
  lemma LoadedInRing(first: nat, bytes: nat, disk: Disk)
    ensures var r := Loaded(first, bytes, disk);
            && |r.disk| == |disk|
            && (r.ok <==> first != 0 && bytes >= 3 * BLOCK && first + BLOCK <= |disk|)
            && (r.ok ==> r.log.ready && 1 <= r.log.head < r.log.max && 1 <= r.log.tail < r.log.max)
            && (r.ok ==> Field(r.disk[first..first + BLOCK], 0, 4) == JSB_MAGIC)
  {
    hide SuperBlock;
    if first != 0 && bytes >= 3 * BLOCK && first + BLOCK <= |disk| {
      assert bytes / BLOCK >= 3;
      SuperIsClean(Log(first, bytes / BLOCK, 1, 1, 1, [], false, true), disk);
    }
  }

  // ---- when the scan ends ---------------------------------------------------------------------------

  /** One round of the loop. */
  function Round(log: Log, beyond: nat -> Byte, s: Scan): (n: Scan)
    requires RingFits(log, s.disk) && Readable(log, s.disk, s.pos)
    ensures |n.disk| == |s.disk| && 1 <= n.pos < log.max && n.replayed >= s.replayed
  {
    var block := BlockBytes(log, s.disk, s.pos);
    var t := if Field(block, 0, 4) == JDB_MAGIC then CopyTags(log, block, beyond, 0, Field(block, 12, 2), s) else s;
    t.(pos := Next(t.pos, log.max))
  }

  /** The loop ends within `n` rounds: at the head, at a block that cannot be read, or over the limit. */
  predicate EndsWithin(log: Log, head: nat, beyond: nat -> Byte, s: Scan, n: nat)
    requires RingFits(log, s.disk)
    decreases n
  {
    s.pos == head || !Readable(log, s.disk, s.pos)
    || (n > 0 && var next := Round(log, beyond, s);
                 next.replayed > REPLAY_LIMIT || EndsWithin(log, head, beyond, next, n - 1))
  }

  /** For a head in the ring the loop ends, whatever the log holds. */
  lemma {:induction false} ScanEnds(log: Log, head: nat, beyond: nat -> Byte, s: Scan) returns (n: nat)
    requires RingFits(log, s.disk) && 1 <= head < log.max
    ensures EndsWithin(log, head, beyond, s, n)
    decreases if s.replayed <= REPLAY_LIMIT then REPLAY_LIMIT + 1 - s.replayed else 0, Distance(s.pos, head, log.max)
  {
    hide RingFits, Readable;
    n := 0;
    if s.pos != head && Readable(log, s.disk, s.pos) {
      var next := Round(log, beyond, s);
      n := 1;
      if next.replayed <= REPLAY_LIMIT {
        RingIs(log, s.disk, next.disk);
        StepCloser(s.pos, head, log.max);
        n := ScanEnds(log, head, beyond, next);
        n := n + 1;
      }
    }
  }

  lemma RingIs(log: Log, disk: Disk, next: Disk)
    requires RingFits(log, disk) && |next| == |disk|
    ensures log.max >= 2 && RingFits(log, next)
  {
  }

  lemma EndsAtOnce(log: Log, head: nat, beyond: nat -> Byte, s: Scan, n: nat)
    requires RingFits(log, s.disk) && (s.pos == head || !Readable(log, s.disk, s.pos))
    ensures EndsWithin(log, head, beyond, s, n)
  {
  }

  // ---- when the head lies off the ring ---------------------------------------------------------------

  /** The block is no descriptor, or one without tags: a round copies nothing there. */
  predicate Tagless(log: Log, disk: Disk, pos: nat) {
    Readable(log, disk, pos) ==>
      Field(BlockBytes(log, disk, pos), 0, 4) != JDB_MAGIC || Field(BlockBytes(log, disk, pos), 12, 2) == 0
  }

  /** Neither the position nor the ring has anything to copy. */
  predicate Quiet(log: Log, disk: Disk, pos: nat) {
    Tagless(log, disk, pos) && forall k :: 1 <= k < log.max ==> Tagless(log, disk, k)
  }

  /** The scan after `m` rounds, were it not to end. */
  function After(log: Log, beyond: nat -> Byte, s: Scan, m: nat): (r: Scan)
    requires RingFits(log, s.disk) && Readable(log, s.disk, s.pos)
    ensures |r.disk| == |s.disk| && r.replayed >= s.replayed && (m > 0 ==> 1 <= r.pos < log.max)
    decreases m
  {
    if m == 0 then s
    else
      var next := Round(log, beyond, s);
      RingBlock(log, next.pos);
      After(log, beyond, next, m - 1)
  }

  /** After `m` rounds at most 10000 blocks have been copied, and nothing is left to copy. */
  predicate Stalled(log: Log, beyond: nat -> Byte, s: Scan, m: nat)
    requires RingFits(log, s.disk) && Readable(log, s.disk, s.pos)
  {
    var r := After(log, beyond, s, m);
    r.replayed <= REPLAY_LIMIT && Quiet(log, r.disk, r.pos)
  }

  lemma {:induction false} AfterMore(log: Log, beyond: nat -> Byte, s: Scan, a: nat, b: nat)
    requires RingFits(log, s.disk) && 1 <= s.pos < log.max && Readable(log, s.disk, s.pos)
    ensures Readable(log, After(log, beyond, s, a).disk, After(log, beyond, s, a).pos)
    ensures After(log, beyond, s, a + b) == After(log, beyond, After(log, beyond, s, a), b)
    decreases a
  {
    hide Readable, Round;
    if a > 0 {
      var next := Round(log, beyond, s);
      RingIsReadable(log, s.disk, next.disk, next.pos);
      AfterMore(log, beyond, next, a - 1, b);
    }
  }

  lemma RingIsReadable(log: Log, disk: Disk, next: Disk, pos: nat)
    requires RingFits(log, disk) && |next| == |disk| && 1 <= pos < log.max
    ensures RingFits(log, next) && Readable(log, next, pos)
  {
    RingBlock(log, pos);
  }

  lemma QuietRound(log: Log, beyond: nat -> Byte, s: Scan)
    requires RingFits(log, s.disk) && Readable(log, s.disk, s.pos) && Tagless(log, s.disk, s.pos)
    ensures Round(log, beyond, s) == s.(pos := Next(s.pos, log.max))
  {
    hide Field;
  }

  lemma {:induction false} QuietNeverEnds(log: Log, head: nat, beyond: nat -> Byte, s: Scan, n: nat)
    requires RingFits(log, s.disk) && s.replayed <= REPLAY_LIMIT && Quiet(log, s.disk, s.pos)
    requires s.pos != head && Readable(log, s.disk, s.pos) && !(1 <= head < log.max)
    ensures !EndsWithin(log, head, beyond, s, n)
    decreases n
  {
    hide Round, Tagless;
    if n > 0 {
      var next := Round(log, beyond, s);
      QuietRound(log, beyond, s);
      RingIsReadable(log, s.disk, next.disk, next.pos);
      QuietNeverEnds(log, head, beyond, next, n - 1);
    }
  }

  lemma {:induction false} StalledNeverEnds(log: Log, head: nat, beyond: nat -> Byte, s: Scan, m: nat, n: nat)
    requires RingFits(log, s.disk) && Readable(log, s.disk, s.pos) && Stalled(log, beyond, s, m)
    requires s.pos != head && !(1 <= head < log.max)
    ensures !EndsWithin(log, head, beyond, s, n)
    decreases m
  {
    hide Round, Quiet, Readable;
    if m == 0 {
      QuietNeverEnds(log, head, beyond, s, n);
    } else if n > 0 {
      var next := Round(log, beyond, s);
      RingIsReadable(log, s.disk, next.disk, next.pos);
      StalledNeverEnds(log, head, beyond, next, m - 1, n - 1);
    }
  }

  lemma {:induction false} OverLimitEnds(log: Log, head: nat, beyond: nat -> Byte, s: Scan, m: nat)
    requires RingFits(log, s.disk) && Readable(log, s.disk, s.pos)
    requires s.replayed <= REPLAY_LIMIT && After(log, beyond, s, m).replayed > REPLAY_LIMIT
    ensures EndsWithin(log, head, beyond, s, m)
    decreases m
  {
    hide Round, Readable;
    var next := Round(log, beyond, s);
    if next.replayed <= REPLAY_LIMIT {
      RingIsReadable(log, s.disk, next.disk, next.pos);
      OverLimitEnds(log, head, beyond, next, m - 1);
    }
  }

  lemma TaggedCopies(log: Log, beyond: nat -> Byte, s: Scan)
    requires RingFits(log, s.disk) && Readable(log, s.disk, s.pos) && !Tagless(log, s.disk, s.pos)
    ensures Round(log, beyond, s).replayed > s.replayed
  {
    hide Field;
  }

  /** If some block of the ring has tags, some round copies: until then the position passes every block. */
  lemma {:induction false} SweepCopies(log: Log, beyond: nat -> Byte, s: Scan, k: nat) returns (m: nat)
    requires RingFits(log, s.disk) && 1 <= s.pos < log.max && Readable(log, s.disk, s.pos)
    requires 1 <= k < log.max && !Tagless(log, s.disk, k)
    ensures After(log, beyond, s, m).replayed > s.replayed
    decreases Distance(s.pos, k, log.max)
  {
    hide Readable, Tagless, Round;
    var next := Round(log, beyond, s);
    RingIsReadable(log, s.disk, next.disk, next.pos);
    if Tagless(log, s.disk, s.pos) {
      QuietRound(log, beyond, s);
      StepCloser(s.pos, k, log.max);
      m := SweepCopies(log, beyond, next, k);
      m := m + 1;
    } else {
      TaggedCopies(log, beyond, s);
      m := 1;
      assert After(log, beyond, next, 0) == next;
    }
  }

  lemma {:induction false} StallsOrExceeds(log: Log, beyond: nat -> Byte, s: Scan) returns (m: nat)
    requires RingFits(log, s.disk) && 1 <= s.pos < log.max && Readable(log, s.disk, s.pos) && s.replayed <= REPLAY_LIMIT
    ensures Stalled(log, beyond, s, m) || After(log, beyond, s, m).replayed > REPLAY_LIMIT
    decreases REPLAY_LIMIT - s.replayed
  {
    hide Readable, Tagless, Round;
    if Quiet(log, s.disk, s.pos) {
      m := 0;
    } else {
      var k :| 1 <= k < log.max && !Tagless(log, s.disk, k);
      m := SweepCopies(log, beyond, s, k);
      var r := After(log, beyond, s, m);
      if r.replayed <= REPLAY_LIMIT {
        AfterInRing(log, beyond, s, m);
        var more := StallsOrExceeds(log, beyond, r);
        AfterMore(log, beyond, s, m, more);
        m := m + more;
      }
    }
  }

  lemma AfterInRing(log: Log, beyond: nat -> Byte, s: Scan, m: nat)
    requires RingFits(log, s.disk) && 1 <= s.pos < log.max && Readable(log, s.disk, s.pos)
    ensures var r := After(log, beyond, s, m); RingFits(log, r.disk) && 1 <= r.pos < log.max && Readable(log, r.disk, r.pos)
  {
    var r := After(log, beyond, s, m);
    RingIsReadable(log, s.disk, r.disk, r.pos);
  }

  /** For any contents of the log: the loop ends just when it ends at once - at the head, or at a block that
      cannot be read - or the head lies in the ring, or it never reaches a moment at which nothing is left
      to copy before more than 10000 blocks have been copied. */
  lemma ScanEndsIff(log: Log, head: nat, beyond: nat -> Byte, pos: nat, disk: Disk)
    requires RingFits(log, disk)
    ensures (exists n: nat :: EndsWithin(log, head, beyond, Scan(pos, 0, disk), n))
            <==> pos == head || !Readable(log, disk, pos) || 1 <= head < log.max
                 || !exists m: nat :: Stalled(log, beyond, Scan(pos, 0, disk), m)
  {
    hide EndsWithin, Stalled, Round, After, Readable;
    var s := Scan(pos, 0, disk);
    if 1 <= head < log.max {
      var n := ScanEnds(log, head, beyond, s);
      assert exists n: nat :: EndsWithin(log, head, beyond, Scan(pos, 0, disk), n);
    } else if pos == head || !Readable(log, disk, pos) {
      EndsAtOnce(log, head, beyond, s, 0);
      assert exists n: nat :: EndsWithin(log, head, beyond, Scan(pos, 0, disk), n);
    } else if m: nat :| Stalled(log, beyond, s, m) {
      forall n: nat
        ensures !EndsWithin(log, head, beyond, s, n)
      {
        StalledNeverEnds(log, head, beyond, s, m, n);
      }
      assert !exists n: nat :: EndsWithin(log, head, beyond, Scan(pos, 0, disk), n);
    } else {
      var n := EndsUnlessStalled(log, head, beyond, s);
      assert exists n: nat :: EndsWithin(log, head, beyond, Scan(pos, 0, disk), n);
    }
  }

  lemma EndsUnlessStalled(log: Log, head: nat, beyond: nat -> Byte, s: Scan) returns (n: nat)
    requires RingFits(log, s.disk) && Readable(log, s.disk, s.pos) && s.replayed <= REPLAY_LIMIT
    requires forall m: nat :: !Stalled(log, beyond, s, m)
    ensures EndsWithin(log, head, beyond, s, n)
  {
    hide EndsWithin, Round, Readable, Quiet;
    var next := Round(log, beyond, s);
    RingIsReadable(log, s.disk, next.disk, next.pos);
    if next.replayed > REPLAY_LIMIT {
      n := 1;
      assert After(log, beyond, next, 0) == next;
    } else {
      var m := StallsOrExceeds(log, beyond, next);
      n := m + 1;
      assert After(log, beyond, s, n) == After(log, beyond, next, m);
      assert !Stalled(log, beyond, s, n);
    }
    OverLimitEnds(log, head, beyond, s, n);
  }

  /** In particular over a log with nothing to copy. */
  lemma QuietScanEndsIff(log: Log, head: nat, beyond: nat -> Byte, pos: nat, disk: Disk)
    requires RingFits(log, disk) && Quiet(log, disk, pos)
    ensures (exists n: nat :: EndsWithin(log, head, beyond, Scan(pos, 0, disk), n))
            <==> pos == head || !Readable(log, disk, pos) || 1 <= head < log.max
  {
    hide EndsWithin, Quiet, Readable;
    ScanEndsIff(log, head, beyond, pos, disk);
    if Readable(log, disk, pos) {
      assert Stalled(log, beyond, Scan(pos, 0, disk), 0);
    }
  }

  // ---- the same, told from the log at the start -------------------------------------------------------

  /** The log area is the same on both devices. */
  ghost predicate SameLog(log: Log, x: Disk, y: Disk) {
    |x| == |y| && forall p: nat :: p < |x| && InLog(log, p) ==> x[p] == y[p]
  }

  /** No descriptor in the ring names a home inside the log. */
  ghost predicate Tame(log: Log, beyond: nat -> Byte, disk: Disk) {
    forall k, i: nat :: 1 <= k < log.max && Readable(log, disk, k) && i < Field(BlockBytes(log, disk, k), 12, 2)
                        && Field(BlockBytes(log, disk, k), 0, 4) == JDB_MAGIC
      ==> Outside(log, TagHome(BlockBytes(log, disk, k), beyond, i))
  }

  lemma CopySparesLog(log: Log, s: Scan, home: nat)
    requires RingFits(log, s.disk) && Outside(log, home)
    ensures SameLog(log, s.disk, CopyOne(log, s, home).disk)
  {
  }

  lemma SameLogTrans(log: Log, a: Disk, b: Disk, c: Disk)
    requires SameLog(log, a, b) && SameLog(log, b, c)
    ensures SameLog(log, a, c)
  {
  }

  lemma {:induction false} TagsSpareLog(log: Log, block: seq<Byte>, beyond: nat -> Byte, i: nat, count: nat, s: Scan)
    requires RingFits(log, s.disk) && i <= count
    requires forall j: nat :: i <= j < count ==> Outside(log, TagHome(block, beyond, j))
    ensures SameLog(log, s.disk, CopyTags(log, block, beyond, i, count, s).disk)
    decreases count - i
  {
    hide TagHome, LastTag, CopyOne, Outside;
    if i < count {
      var one := CopyOne(log, s, TagHome(block, beyond, i));
      CopySparesLog(log, s, TagHome(block, beyond, i));
      if !LastTag(block, beyond, i) {
        TagsSpareLog(log, block, beyond, i + 1, count, one);
        SameLogTrans(log, s.disk, one.disk, CopyTags(log, block, beyond, i + 1, count, one).disk);
      }
    }
  }

  lemma SameLogBlock(log: Log, x: Disk, y: Disk, pos: nat)
    requires RingFits(log, x) && SameLog(log, x, y) && 1 <= pos < log.max
    ensures Readable(log, x, pos) && Readable(log, y, pos) && BlockBytes(log, x, pos) == BlockBytes(log, y, pos)
  {
    RingBlock(log, pos);
    assert forall p :: BlockAt(log, pos) <= p < BlockAt(log, pos) + BLOCK ==> InLog(log, p);
  }

  lemma TameStays(log: Log, beyond: nat -> Byte, x: Disk, y: Disk)
    requires RingFits(log, x) && SameLog(log, x, y) && Tame(log, beyond, x)
    ensures Tame(log, beyond, y)
  {
    hide TagHome, Outside, SameLog, BlockBytes, Field;
    forall k, i: nat | 1 <= k < log.max && Readable(log, y, k) && i < Field(BlockBytes(log, y, k), 12, 2)
                       && Field(BlockBytes(log, y, k), 0, 4) == JDB_MAGIC
      ensures Outside(log, TagHome(BlockBytes(log, y, k), beyond, i))
    {
      SameLogBlock(log, x, y, k);
    }
  }

  lemma RoundSparesLog(log: Log, beyond: nat -> Byte, s: Scan)
    requires RingFits(log, s.disk) && 1 <= s.pos < log.max && Readable(log, s.disk, s.pos) && Tame(log, beyond, s.disk)
    ensures SameLog(log, s.disk, Round(log, beyond, s).disk)
  {
    hide TagHome, Outside, CopyTags, Field;
    var block := BlockBytes(log, s.disk, s.pos);
    if Field(block, 0, 4) == JDB_MAGIC {
      TagsSpareLog(log, block, beyond, 0, Field(block, 12, 2), s);
    }
  }

  lemma {:induction false} AfterSparesLog(log: Log, beyond: nat -> Byte, s: Scan, m: nat)
    requires RingFits(log, s.disk) && 1 <= s.pos < log.max && Readable(log, s.disk, s.pos) && Tame(log, beyond, s.disk)
    ensures SameLog(log, s.disk, After(log, beyond, s, m).disk)
    decreases m
  {
    hide Readable, Round, Tame;
    if m > 0 {
      var next := Round(log, beyond, s);
      RingIsReadable(log, s.disk, next.disk, next.pos);
      RoundSparesLog(log, beyond, s);
      TameStays(log, beyond, s.disk, next.disk);
      AfterSparesLog(log, beyond, next, m - 1);
      SameLogTrans(log, s.disk, next.disk, After(log, beyond, next, m - 1).disk);
    }
  }

  /** When descriptors name homes outside the log, the loop from a position in the ring ends just when that
      is the head, or the head lies in the ring, or some block of the ring is a descriptor with tags -
      which is then replayed over and over, until more than 10000 blocks have been copied. */
  lemma TameScanEndsIff(log: Log, head: nat, beyond: nat -> Byte, pos: nat, disk: Disk)
    requires RingFits(log, disk) && 1 <= pos < log.max && Tame(log, beyond, disk)
    ensures (exists n: nat :: EndsWithin(log, head, beyond, Scan(pos, 0, disk), n))
            <==> pos == head || 1 <= head < log.max || exists k :: 1 <= k < log.max && !Tagless(log, disk, k)
  {
    hide EndsWithin, Tame, Tagless, Readable, After;
    var s := Scan(pos, 0, disk);
    RingIsReadable(log, disk, disk, pos);
    ScanEndsIff(log, head, beyond, pos, disk);
    if m: nat :| Stalled(log, beyond, s, m) {
      AfterSparesLog(log, beyond, s, m);
      var y := After(log, beyond, s, m).disk;
      forall k | 1 <= k < log.max
        ensures Tagless(log, disk, k)
      {
        SameTagless(log, disk, y, k);
      }
    } else if forall k :: 1 <= k < log.max ==> Tagless(log, disk, k) {
      AfterNone(log, beyond, s);
      assert Stalled(log, beyond, s, 0);
    }
  }

  lemma AfterNone(log: Log, beyond: nat -> Byte, s: Scan)
    requires RingFits(log, s.disk) && Readable(log, s.disk, s.pos)
    ensures After(log, beyond, s, 0) == s
  {
  }

  lemma SameTagless(log: Log, x: Disk, y: Disk, k: nat)
    requires RingFits(log, x) && SameLog(log, x, y) && 1 <= k < log.max
    ensures Tagless(log, x, k) <==> Tagless(log, y, k)
  {
    SameLogBlock(log, x, y, k);
  }

  /** A journal of three blocks whose superblock names head 0 and tail 1, and empty blocks behind it:
      `load` corrects the head in memory, but `replay` reads it again and never ends. */
  lemma EndlessReplay(before: Disk, beyond: nat -> Byte)
    requires 0 < |before|
    ensures var disk := before + SuperBlock(3, |before|, 1, 0, 1) + Padded([]) + Padded([]);
            var r := Loaded(|before|, 3 * BLOCK, disk);
            && r.ok && r.disk == disk && r.log.head == 1 && RingFits(r.log, disk) && NeedsReplay(r.log, disk)
            && forall n: nat :: !EndsWithin(r.log, SuperField(r.log, disk, 40), beyond, Scan(SuperField(r.log, disk, 48), 0, disk), n)
  {
    hide EndsWithin, SuperBlock, Padded;
    EndlessLoaded(before);
    var disk := before + SuperBlock(3, |before|, 1, 0, 1) + Padded([]) + Padded([]);
    var log := Loaded(|before|, 3 * BLOCK, disk).log;
    hide Loaded, NeedsReplay, SuperField, Quiet;
    RingBlock(log, 1);
    forall n: nat
      ensures !EndsWithin(log, 0, beyond, Scan(1, 0, disk), n)
    {
      QuietNeverEnds(log, 0, beyond, Scan(1, 0, disk), n);
    }
  }

  lemma EndlessLoaded(before: Disk)
    requires 0 < |before|
    ensures var disk := before + SuperBlock(3, |before|, 1, 0, 1) + Padded([]) + Padded([]);
            var r := Loaded(|before|, 3 * BLOCK, disk);
            && r.ok && r.disk == disk && r.log.head == 1 && r.log.first == |before| && r.log.max == 3
            && RingFits(r.log, disk) && NeedsReplay(r.log, disk)
            && SuperField(r.log, disk, 40) == 0 && SuperField(r.log, disk, 48) == 1
            && Quiet(r.log, disk, 1)
  {
    hide SuperBlock, Padded, Field;
    var block := SuperBlock(3, |before|, 1, 0, 1);
    var disk := before + block + Padded([]) + Padded([]);
    SuperFields(3, |before|, 1, 0, 1);
    SmallPositions();
    EmptyBlock();
    var log := Loaded(|before|, 3 * BLOCK, disk).log;
    assert disk[|before|..|before| + BLOCK] == block;
    assert BlockBytes(log, disk, 1) == Padded([]) && BlockBytes(log, disk, 2) == Padded([]);
  }

  lemma SmallPositions()
    ensures 0 % Power(8) == 0 && 1 % Power(8) == 1
  {
    assert Power(8) == 256 * Power(7) >= 256;
  }

  lemma EmptyBlock()
    ensures Field(Padded([]), 0, 4) == 0
  {
    hide Padded, Field;
    FieldOf([], 0, 4, []);
    hide Encoded;
    assert [] + Encoded(0, 4) + [] == Encoded(0, 4);
    PadZeros();
    FourBytes();
  }

  lemma PadZeros()
    ensures Padded(Encoded(0, 4)) == Padded([])
  {
    assert Encoded(0, 1) == [0] + Encoded(0, 0);
    assert Encoded(0, 2) == [0] + Encoded(0, 1);
    assert Encoded(0, 3) == [0] + Encoded(0, 2);
  }
}
