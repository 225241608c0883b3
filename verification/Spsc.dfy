/** The single-producer, single-consumer ring of `Channel` and `Ring2RingBuffer`: 64 slots and
    two wrapping 64-bit counters, as the interleaved atomic steps of its two sides.

    `written` is the counter the producer owns (`tail` of the channel, `head` of the ring 2
    buffer) and `taken` the one the consumer owns. */
module Spsc {
  const CAPACITY: nat := 64
  const U64: nat := 0x1_0000_0000_0000_0000

  /** What a slot holds: a message of a channel or a request of the ring 2 buffer. */
  datatype Item =
    | Message(msgType: nat, src: nat, dst: nat, len: nat, data: seq<bv8>)
    | Request(ino: nat, op: nat, offset: nat, length: nat, buffer: nat, tag: nat)

  function WrappingAdd1(a: nat): nat { (a + 1) % U64 }

  function WrappingSub(a: nat, b: nat): nat
    requires a < U64 && b < U64
  {
    (a + U64 - b) % U64
  }

  /** Where the producer is inside `send` or `push`. `seen` is the number of messages that had
      been taken when the other counter was loaded. */
  datatype Producer =
    | SendIdle
    | SendOwn(msg: Item, own: nat)
    | SendBoth(msg: Item, own: nat, other: nat, seen: nat)
    | SendWritten(msg: Item, own: nat)

  /** Where the consumer is inside `recv`, which loads its own counter first, or `pop`, which
      loads the other one first. */
  datatype Consumer =
    | RecvIdle
    | RecvOwn(own: nat)
    | RecvOther(other: nat, seen: nat)
    | RecvBoth(own: nat, other: nat, seen: nat)
    | RecvRead(own: nat, msg: Item)

  /** The shared memory, both program counters, and the history of completed operations. */
  datatype Ring = Ring(slots: seq<Item>, written: nat, taken: nat, p: Producer, c: Consumer,
                          sent: seq<Item>, received: seq<Item>)

  datatype Event =
    | BeginSend(msg: Item) | LoadTaken | WriteSlot | RejectSend | PublishSend
    | BeginRecv | BeginPop | LoadWritten | LoadOwnTaken | ReadSlot | NothingThere | FinishRecv

  ghost predicate Init(r: Ring) {
    |r.slots| == CAPACITY && r.written == 0 && r.taken == 0 && r.p.SendIdle? && r.c.RecvIdle? && r.sent == [] && r.received == []
  }

  /** One atomic step. */
  ghost predicate Step(r: Ring, e: Event, s: Ring)
    requires |r.slots| == CAPACITY && r.written < U64 && r.taken < U64
  {
    match e
    case BeginSend(msg) => r.p.SendIdle? && s == r.(p := SendOwn(msg, r.written))
    case LoadTaken => r.p.SendOwn? && s == r.(p := SendBoth(r.p.msg, r.p.own, r.taken, |r.received|))
    case RejectSend =>
      && r.p.SendBoth? && r.p.own < U64 && r.p.other < U64 && WrappingSub(r.p.own, r.p.other) >= CAPACITY
      && s == r.(p := SendIdle)
    case WriteSlot =>
      && r.p.SendBoth? && r.p.own < U64 && r.p.other < U64 && WrappingSub(r.p.own, r.p.other) < CAPACITY
      && s == r.(slots := r.slots[r.p.own % CAPACITY := r.p.msg], p := SendWritten(r.p.msg, r.p.own))
    case PublishSend =>
      && r.p.SendWritten?
      && s == r.(written := WrappingAdd1(r.p.own), p := SendIdle, sent := r.sent + [r.p.msg])
    case BeginRecv => r.c.RecvIdle? && s == r.(c := RecvOwn(r.taken))
    case BeginPop => r.c.RecvIdle? && s == r.(c := RecvOther(r.written, |r.sent|))
    case LoadWritten => r.c.RecvOwn? && s == r.(c := RecvBoth(r.c.own, r.written, |r.sent|))
    case LoadOwnTaken => r.c.RecvOther? && s == r.(c := RecvBoth(r.taken, r.c.other, r.c.seen))
    case NothingThere => r.c.RecvBoth? && r.c.own == r.c.other && s == r.(c := RecvIdle)
    case ReadSlot =>
      && r.c.RecvBoth? && r.c.own != r.c.other
      && s == r.(c := RecvRead(r.c.own, r.slots[r.c.own % CAPACITY]))
    case FinishRecv =>
      && r.c.RecvRead?
      && s == r.(taken := WrappingAdd1(r.c.own), c := RecvIdle, received := r.received + [r.c.msg])
  }

  // ---- what every step keeps ----------------------------------------------------------------

  ghost predicate Counters(r: Ring) {
    && |r.slots| == CAPACITY
    && r.written == |r.sent| % U64 && r.taken == |r.received| % U64
    && |r.received| <= |r.sent| <= |r.received| + CAPACITY
    && r.received == r.sent[..|r.received|]
    && (forall i :: |r.received| <= i < |r.sent| ==> r.slots[i % CAPACITY] == r.sent[i])
  }

  ghost predicate ProducerOk(r: Ring) {
    match r.p
    case SendIdle => true
    case SendOwn(_, own) => own == r.written
    case SendBoth(_, own, other, seen) =>
      own == r.written && other == seen % U64 && seen <= |r.received| && |r.sent| <= seen + CAPACITY
    case SendWritten(msg, own) =>
      own == r.written && |r.sent| < |r.received| + CAPACITY && |r.slots| == CAPACITY && r.slots[|r.sent| % CAPACITY] == msg
  }

  ghost predicate ConsumerOk(r: Ring) {
    match r.c
    case RecvIdle => true
    case RecvOwn(own) => own == r.taken
    case RecvOther(other, seen) => other == seen % U64 && |r.received| <= seen <= |r.sent|
    case RecvBoth(own, other, seen) => own == r.taken && other == seen % U64 && |r.received| <= seen <= |r.sent|
    case RecvRead(own, msg) => own == r.taken && |r.received| < |r.sent| && msg == r.sent[|r.received|]
  }

  ghost predicate Inv(r: Ring) {
    Counters(r) && ProducerOk(r) && ConsumerOk(r)
  }

  /** 64 divides 2^64: a wrapped counter still names the right slot. */
  lemma SlotOfWrapped(n: nat)
    ensures n % U64 % CAPACITY == n % CAPACITY
  {
    var q := n / U64;
    assert n == q * U64 + n % U64;
    assert U64 == CAPACITY * 0x400_0000_0000_0000;
    assert n % U64 == n - CAPACITY * (q * 0x400_0000_0000_0000);
  }

  /** Wrapping subtraction of counters at most 2^64 apart is their distance. */
  lemma WrappedDistance(a: nat, b: nat)
    requires b <= a < b + U64
    ensures WrappingSub(a % U64, b % U64) == a - b
    ensures a % U64 == b % U64 <==> a == b
  {
    var i, j := a / U64, b / U64;
    assert a == i * U64 + a % U64 && b == j * U64 + b % U64;
    assert i == j || i == j + 1;
  }

  lemma NextWrapped(n: nat)
    ensures WrappingAdd1(n % U64) == (n + 1) % U64
  {
  }

  lemma SlotsApart(i: nat, j: nat)
    requires i < j < i + CAPACITY
    ensures i % CAPACITY != j % CAPACITY
  {
  }

  lemma WriteStep(r: Ring, s: Ring)
    requires Inv(r) && Step(r, WriteSlot, s)
    ensures Inv(s)
  {
    WrappedDistance(|r.sent|, r.p.seen);
    SlotOfWrapped(|r.sent|);
    hide WrappingSub, WrappingAdd1;
    forall i | |r.received| <= i < |r.sent|
      ensures s.slots[i % CAPACITY] == r.sent[i]
    {
      SlotsApart(i, |r.sent|);
    }
  }

  lemma PublishStep(r: Ring, s: Ring)
    requires Inv(r) && Step(r, PublishSend, s)
    ensures Inv(s)
  {
    NextWrapped(|r.sent|);
    hide WrappingSub, WrappingAdd1;
    assert s.sent[..|r.received|] == r.sent[..|r.received|];
  }

  lemma ProducerStep(r: Ring, e: Event, s: Ring)
    requires Inv(r) && Step(r, e, s)
    requires e.BeginSend? || e.LoadTaken? || e.RejectSend? || e.WriteSlot? || e.PublishSend?
    ensures Inv(s)
  {
    hide WrappingSub, WrappingAdd1;
    match e
    case WriteSlot => WriteStep(r, s);
    case PublishSend => PublishStep(r, s);
    case _ =>
  }

  lemma ConsumerStep(r: Ring, e: Event, s: Ring)
    requires Inv(r) && Step(r, e, s)
    requires !(e.BeginSend? || e.LoadTaken? || e.RejectSend? || e.WriteSlot? || e.PublishSend?)
    ensures Inv(s)
  {
    match e
    case ReadSlot =>
      WrappedDistance(r.c.seen, |r.received|);
      SlotOfWrapped(|r.received|);
    case FinishRecv =>
      NextWrapped(|r.received|);
    case _ =>
  }

  lemma StepKeepsInv(r: Ring, e: Event, s: Ring)
    requires Inv(r) && Step(r, e, s)
    ensures Inv(s)
  {
    if e.BeginSend? || e.LoadTaken? || e.RejectSend? || e.WriteSlot? || e.PublishSend? {
      ProducerStep(r, e, s);
    } else {
      ConsumerStep(r, e, s);
    }
  }

  // ---- every interleaving -----------------------------------------------------------------------

  ghost predicate IsRun(run: seq<Ring>, events: seq<Event>) {
    && |run| == |events| + 1 && Init(run[0])
    && forall i :: 0 <= i < |events| ==>
         |run[i].slots| == CAPACITY && run[i].written < U64 && run[i].taken < U64 && Step(run[i], events[i], run[i + 1])
  }

  lemma {:induction false} RunsKeepInv(run: seq<Ring>, events: seq<Event>, n: nat)
    requires IsRun(run, events) && n < |run|
    ensures Inv(run[n])
  {
    if n > 0 {
      RunsKeepInv(run, events, n - 1);
      StepKeepsInv(run[n - 1], events[n - 1], run[n]);
    }
  }

  /** In every interleaving the messages received are a prefix of the messages sent, and never
      more than 64 are under way, also after the counters have wrapped. */
  lemma ReceivedIsPrefix(run: seq<Ring>, events: seq<Event>, n: nat)
    requires IsRun(run, events) && n < |run|
    ensures run[n].received <= run[n].sent && |run[n].sent| - |run[n].received| <= CAPACITY
  {
    RunsKeepInv(run, events, n);
  }

  /** The slot the producer writes is none the consumer may be reading, and holds no message
      that is still to be received. */
  lemma WritesAreExclusive(run: seq<Ring>, events: seq<Event>, n: nat)
    requires IsRun(run, events) && n < |events| && events[n].WriteSlot?
    ensures var r := run[n];
            && r.p.SendBoth?
            && (r.c.RecvBoth? && r.c.own != r.c.other ==> r.c.own % CAPACITY != r.p.own % CAPACITY)
            && (forall i :: |r.received| <= i < |r.sent| ==> i % CAPACITY != r.p.own % CAPACITY)
  {
    RunsKeepInv(run, events, n);
    var r := run[n];
    assert Step(r, events[n], run[n + 1]);
    WrappedDistance(|r.sent|, r.p.seen);
    SlotOfWrapped(|r.sent|);
    forall i | |r.received| <= i < |r.sent|
      ensures i % CAPACITY != r.p.own % CAPACITY
    {
      SlotsApart(i, |r.sent|);
    }
    if r.c.RecvBoth? && r.c.own != r.c.other {
      WrappedDistance(r.c.seen, |r.received|);
      SlotOfWrapped(|r.received|);
    }
  }

  /** A refused send saw 64 messages under way when it loaded the consumer's counter, and an
      empty receive saw none when it loaded the producer's. */
  lemma RefusalsAreJustified(run: seq<Ring>, events: seq<Event>, n: nat)
    requires IsRun(run, events) && n < |events|
    ensures events[n].RejectSend? ==> run[n].p.SendBoth? && |run[n].sent| - run[n].p.seen == CAPACITY
    ensures events[n].NothingThere? ==> run[n].c.RecvBoth? && run[n].c.seen == |run[n].received|
  {
    RunsKeepInv(run, events, n);
    var r := run[n];
    assert Step(r, events[n], run[n + 1]);
    if events[n].RejectSend? {
      WrappedDistance(|r.sent|, r.p.seen);
    }
    if events[n].NothingThere? {
      WrappedDistance(r.c.seen, |r.received|);
    }
  }

  // ---- every call ends ---------------------------------------------------------------------------

  predicate OfProducer(e: Event) {
    e.BeginSend? || e.LoadTaken? || e.RejectSend? || e.WriteSlot? || e.PublishSend?
  }

  /** Steps a `send` or `push` still has to take. */
  function SendLeft(p: Producer): nat {
    match p case SendIdle => 0 case SendOwn(_, _) => 3 case SendBoth(_, _, _, _) => 2 case SendWritten(_, _) => 1
  }

  /** Steps a `recv` or `pop` still has to take. */
  function RecvLeft(c: Consumer): nat {
    match c case RecvIdle => 0 case RecvOwn(_) => 3 case RecvOther(_, _) => 3 case RecvBoth(_, _, _) => 2 case RecvRead(_, _) => 1
  }

  /** A call that has begun can always take its next step, whatever the other side is doing. */
  lemma NeverBlocked(r: Ring) returns (e: Event, s: Ring, f: Event, t: Ring)
    requires Inv(r)
    ensures !r.p.SendIdle? ==> OfProducer(e) && Step(r, e, s)
    ensures !r.c.RecvIdle? ==> !OfProducer(f) && Step(r, f, t)
  {
    e, s, f, t := LoadTaken, r, LoadWritten, r;
    match r.p {
      case SendIdle =>
      case SendOwn(msg, own) => s := r.(p := SendBoth(msg, own, r.taken, |r.received|));
      case SendBoth(msg, own, other, seen) =>
        if WrappingSub(own, other) >= CAPACITY {
          e, s := RejectSend, r.(p := SendIdle);
        } else {
          e, s := WriteSlot, r.(slots := r.slots[own % CAPACITY := msg], p := SendWritten(msg, own));
        }
      case SendWritten(msg, own) =>
        e, s := PublishSend, r.(written := WrappingAdd1(own), p := SendIdle, sent := r.sent + [msg]);
    }
    match r.c {
      case RecvIdle =>
      case RecvOwn(own) => t := r.(c := RecvBoth(own, r.written, |r.sent|));
      case RecvOther(other, seen) => f, t := LoadOwnTaken, r.(c := RecvBoth(r.taken, other, seen));
      case RecvBoth(own, other, seen) =>
        if own == other {
          f, t := NothingThere, r.(c := RecvIdle);
        } else {
          f, t := ReadSlot, r.(c := RecvRead(own, r.slots[own % CAPACITY]));
        }
      case RecvRead(own, msg) =>
        f, t := FinishRecv, r.(taken := WrappingAdd1(own), c := RecvIdle, received := r.received + [msg]);
    }
  }

  /** Every step brings its own call nearer to its end and leaves the other call where it was: a send ends after
      at most three more of its own steps, with its message sent or refused, and a receive likewise. */
  lemma StepsRunOut(r: Ring, e: Event, s: Ring)
    requires Inv(r) && Step(r, e, s)
    ensures OfProducer(e) ==>
              && s.c == r.c && s.received == r.received
              && (if e.BeginSend? then r.p.SendIdle? && SendLeft(s.p) == 3 && s.p.msg == e.msg else SendLeft(s.p) < SendLeft(r.p))
              && (!r.p.SendIdle? && !s.p.SendIdle? ==> s.p.msg == r.p.msg)
              && (s.sent == if e.PublishSend? then r.sent + [r.p.msg] else r.sent)
              && (e.PublishSend? || e.RejectSend? <==> s.p.SendIdle?)
              && (e.LoadTaken? ==> s.p.SendBoth? && s.p.seen == |r.received|)
    ensures !OfProducer(e) ==>
              && s.p == r.p && s.sent == r.sent
              && (if e.BeginRecv? || e.BeginPop? then r.c.RecvIdle? && RecvLeft(s.c) == 3 else RecvLeft(s.c) < RecvLeft(r.c))
              && (s.received == if e.FinishRecv? then r.sent[..|r.received| + 1] else r.received)
              && (e.FinishRecv? || e.NothingThere? <==> s.c.RecvIdle?)
              && (e.LoadWritten? ==> s.c.RecvBoth? && s.c.seen == |r.sent|)
              && (e.BeginPop? ==> s.c.RecvOther? && s.c.seen == |r.sent|)
  {
    if e.FinishRecv? {
      assert r.sent[..|r.received| + 1] == r.sent[..|r.received|] + [r.sent[|r.received|]];
    }
  }

  // ---- one side at a time: the ring as a queue -----------------------------------------------------

  /** The ring with both counters and its slots updated by whole calls, as under the lock of
      `Endpoint`. */
  class Channel {
    const buffer: array<Item>
    var head: nat
    var tail: nat
    /** messages ever sent and ever received */
    ghost var sent: nat
    ghost var received: nat
    ghost var contents: seq<Item>

    ghost predicate Valid()
      reads this, buffer
    {
      && buffer.Length == CAPACITY && |contents| <= CAPACITY && sent == received + |contents|
      && tail == sent % U64 && head == received % U64
      && forall i :: 0 <= i < |contents| ==> buffer[(received + i) % CAPACITY] == contents[i]
    }

    constructor ()
      ensures Valid() && contents == []
    {
      buffer := new Item[CAPACITY](_ => Request(0, 0, 0, 0, 0, 0));
      head, tail, sent, received, contents := 0, 0, 0, 0, [];
    }

    method Send(msg: Item) returns (ok: bool)
      requires Valid()
      modifies this, buffer
      ensures Valid()
      ensures ok <==> |old(contents)| < CAPACITY
      ensures contents == if ok then old(contents) + [msg] else old(contents)
    {
      WrappedDistance(sent, received);
      if WrappingSub(tail, head) >= CAPACITY {
        return false;
      }
      SlotOfWrapped(sent);
      NextWrapped(sent);
      forall j | received <= j < sent
        ensures j % CAPACITY != sent % CAPACITY
      {
        SlotsApart(j, sent);
      }
      buffer[tail % CAPACITY] := msg;
      tail := WrappingAdd1(tail);
      sent, contents := sent + 1, contents + [msg];
      ok := true;
    }

    method Recv() returns (ok: bool, msg: Item)
      requires Valid()
      modifies this
      ensures Valid()
      ensures ok <==> old(contents) != []
      ensures ok ==> msg == old(contents)[0] && contents == old(contents)[1..]
      ensures !ok ==> contents == old(contents)
    {
      SlotOfWrapped(received);
      WrappedDistance(sent, received);
      msg := buffer[head % CAPACITY];
      if head == tail {
        return false, msg;
      }
      NextWrapped(received);
      assert buffer[(received + 0) % CAPACITY] == contents[0];
      forall i | 0 <= i < |contents| - 1
        ensures buffer[(received + 1 + i) % CAPACITY] == contents[1..][i]
      {
        assert buffer[(received + (i + 1)) % CAPACITY] == contents[i + 1];
      }
      head := WrappingAdd1(head);
      received, contents := received + 1, contents[1..];
      ok := true;
    }
  }
}
