/** How long a ready task can wait for the processor, and in which order sleepers are woken. */
module Fairness {
  import opened Options
  import opened Scheduling

  // ---- turns -------------------------------------------------------------------------------

  function Ticks(s: Sched, k: nat): (n: Sched)
    requires Formed(s)
    ensures Formed(n)
  {
    if k == 0 then s else Tick(Ticks(s, k - 1))
  }

  /** The running task runs for some ticks and yields. */
  function Turn(s: Sched, k: nat): (n: Sched)
    requires Formed(s)
    ensures Formed(n)
  {
    Yield(Ticks(s, k))
  }

  function Vruntime(s: Sched, t: Tid): nat {
    if t in s.tasks then s.tasks[t].vruntime else 0
  }

  predicate Runnable(s: Sched, t: Tid) {
    s.current == Some(t) || t in s.rq
  }

  /** A consistent state in which something runs, and the run queue can take it back. */
  ghost predicate Busy(s: Sched) {
    Consistent(s) && s.current.Some? && |s.rq| < RQ_SIZE
  }

  /** How many ticks another runnable task may still be served before the one that waits. */
  function Ahead(s: Sched, t: Tid, j: Tid): nat {
    if j != t && Runnable(s, j) && Vruntime(s, j) <= Vruntime(s, t) then Vruntime(s, t) + 1 - Vruntime(s, j) else 0
  }

  function Debt(s: Sched, t: Tid, n: nat): nat {
    if n == 0 then 0 else Debt(s, t, n - 1) + Ahead(s, t, n - 1)
  }

  lemma {:induction false} TicksCount(s: Sched, k: nat)
    requires Busy(s)
    ensures var n := Ticks(s, k);
            && Busy(n) && n.current == s.current && n.rq == s.rq && n.wq == s.wq && n.nextTid == s.nextTid
            && n.tasks.Keys == s.tasks.Keys
            && Vruntime(n, s.current.value) == Vruntime(s, s.current.value) + k
            && (forall j :: j != s.current.value ==> Vruntime(n, j) == Vruntime(s, j))
  {
    hide Consistent;
    if k > 0 {
      TicksCount(s, k - 1);
      var m := Ticks(s, k - 1);
      ConsistentIsFormed(m);
      TickKeeps(m);
    }
  }

  lemma InsertMembers(tasks: Tasks, rq: seq<Tid>, tid: Tid, j: Tid)
    requires Known(tasks, rq) && tid in tasks
    ensures j in Insert(tasks, rq, tid) <==> j in rq || j == tid
  {
    InsertCounts(tasks, rq, tid);
    assert j in Insert(tasks, rq, tid) <==> j in multiset(Insert(tasks, rq, tid));
    assert j in rq <==> j in multiset(rq);
  }

  /** Yielding hands the processor to a task with the least vruntime; nothing becomes runnable
      or stops being so. */
  lemma YieldPicksLeast(s: Sched)
    requires Busy(s) && s.rq != []
    ensures var n := Yield(s);
            && Busy(n) && n.nextTid == s.nextTid
            && (forall j :: Vruntime(n, j) == Vruntime(s, j))
            && (forall j :: Runnable(n, j) <==> Runnable(s, j))
            && (forall j :: Runnable(s, j) ==> Vruntime(s, n.current.value) <= Vruntime(s, j))
  {
    hide Consistent;
    hide Insert;
    ConsistentIsFormed(s);
    YieldKeeps(s);
    var c := s.current.value;
    var tasks := WithState(s.tasks, c, Ready);
    var rq, n := Insert(tasks, s.rq, c), Yield(s);
    assert n == Dispatch(s.(slice := 0, tasks := tasks, current := None, rq := rq));
    assert rq == [n.current.value] + n.rq;
    forall j
      ensures Runnable(n, j) <==> Runnable(s, j)
    {
      InsertMembers(tasks, s.rq, c, j);
    }
    ReadyIsSorted(s);
    InsertIsFifo(tasks, s.rq, c);
    forall j | Runnable(s, j)
      ensures Vruntime(s, n.current.value) <= Vruntime(s, j)
    {
      InsertMembers(tasks, s.rq, c, j);
      assert tasks[rq[0]].vruntime <= tasks[j].vruntime;
    }
  }

  lemma ReadyIsSorted(s: Sched)
    requires Consistent(s) && s.current.Some?
    ensures var tasks := WithState(s.tasks, s.current.value, Ready); Known(tasks, s.rq) && Sorted(tasks, s.rq)
  {
  }

  // ---- the debt falls ----------------------------------------------------------------------

  /** Nothing owed rises, and one task's share falls: the sum falls. */
  lemma {:induction false} DebtFalls(s: Sched, n: Sched, t: Tid, c: Tid, m: nat)
    requires forall j: nat :: Ahead(n, t, j) <= Ahead(s, t, j)
    ensures Debt(n, t, m) <= Debt(s, t, m)
    ensures c < m ==> Debt(n, t, m) <= Debt(s, t, m) - Ahead(s, t, c) + Ahead(n, t, c)
  {
    if m > 0 {
      DebtFalls(s, n, t, c, m - 1);
    }
  }

  lemma {:induction false} DebtCovers(s: Sched, t: Tid, c: Tid, m: nat)
    requires c < m
    ensures Debt(s, t, m) >= Ahead(s, t, c)
  {
    if c < m - 1 {
      DebtCovers(s, t, c, m - 1);
    }
  }

  /** One turn with at least one tick: either the waiting task is picked, or a task not above it
      runs, and the debt has not grown - and has shrunk if such a task was running before. */
  lemma TurnPaysDebt(s: Sched, t: Tid, k: nat)
    requires Busy(s) && t in s.rq && k >= 1
    ensures var n := Turn(s, k);
            && Busy(n) && n.nextTid == s.nextTid && Vruntime(n, t) == Vruntime(s, t)
            && (n.current != Some(t) ==>
                  && t in n.rq && Vruntime(n, n.current.value) <= Vruntime(n, t)
                  && Debt(n, t, n.nextTid) <= Debt(s, t, s.nextTid)
                  && (Vruntime(s, s.current.value) <= Vruntime(s, t) ==> Debt(n, t, n.nextTid) < Debt(s, t, s.nextTid)))
  {
    hide Consistent;
    ConsistentIsFormed(s);
    var c, m, n := s.current.value, Ticks(s, k), Turn(s, k);
    TicksCount(s, k);
    QueuedIsNotCurrent(s, t);
    YieldPicksLeast(m);
    assert Runnable(s, t) && Runnable(n, t);
    forall j: nat
      ensures Ahead(n, t, j) <= Ahead(s, t, j)
    {
      assert Runnable(n, j) <==> Runnable(s, j);
    }
    DebtFalls(s, n, t, c, s.nextTid);
    assert Runnable(n, c) && Runnable(s, c);
  }

  lemma QueuedIsNotCurrent(s: Sched, t: Tid)
    requires Consistent(s) && s.current.Some? && t in s.rq
    ensures s.current.value != t && s.current.value < s.nextTid
  {
    OncePlaced(s, t);
  }

  // ---- bounded waiting -----------------------------------------------------------------------

  /** The state after one turn for each entry. */
  function Turns(s: Sched, ks: seq<nat>): Sched
    requires Formed(s)
    decreases |ks|
  {
    if ks == [] then s else Turns(Turn(s, ks[0]), ks[1..])
  }

  /** The task runs after some number of these turns, at most `bound`. */
  ghost predicate PickedWithin(s: Sched, t: Tid, ks: seq<nat>, bound: nat)
    requires Formed(s)
  {
    exists i :: 0 < i <= bound && i <= |ks| && Turns(s, ks[..i]).current == Some(t)
  }

  lemma PickedNow(s: Sched, t: Tid, ks: seq<nat>, bound: nat)
    requires Formed(s) && ks != [] && bound > 0 && Turn(s, ks[0]).current == Some(t)
    ensures PickedWithin(s, t, ks, bound)
  {
    assert ks[..1][0] == ks[0] && ks[..1][1..] == [];
    assert Turns(s, ks[..1]).current == Some(t);
  }

  lemma PickedLater(s: Sched, t: Tid, ks: seq<nat>, bound: nat)
    requires Formed(s) && ks != [] && bound > 0 && PickedWithin(Turn(s, ks[0]), t, ks[1..], bound - 1)
    ensures PickedWithin(s, t, ks, bound)
  {
    var n := Turn(s, ks[0]);
    var i :| 0 < i <= bound - 1 && i <= |ks| - 1 && Turns(n, ks[1..][..i]).current == Some(t);
    assert ks[..i + 1][0] == ks[0] && ks[..i + 1][1..] == ks[1..][..i];
    assert Turns(s, ks[..i + 1]).current == Some(t);
  }

  /** While a task with at most its vruntime runs, the debt alone bounds the wait. */
  lemma {:induction false} WaitsOutDebt(s: Sched, t: Tid, ks: seq<nat>)
    requires Busy(s) && t in s.rq && Vruntime(s, s.current.value) <= Vruntime(s, t)
    requires (forall i :: 0 <= i < |ks| ==> ks[i] >= 1) && |ks| >= Debt(s, t, s.nextTid)
    ensures PickedWithin(s, t, ks, Debt(s, t, s.nextTid))
    decreases |ks|
  {
    hide Busy;
    hide PickedWithin;
    hide Turn;
    BusyIsFormed(s);
    QueuedIsNotCurrent(s, t);
    DebtCovers(s, t, s.current.value, s.nextTid);
    assert Ahead(s, t, s.current.value) >= 1;
    TurnPaysDebt(s, t, ks[0]);
    var n := Turn(s, ks[0]);
    if n.current == Some(t) {
      PickedNow(s, t, ks, Debt(s, t, s.nextTid));
    } else {
      BusyIsFormed(n);
      WaitsOutDebt(n, t, ks[1..]);
      PickedMonotone(n, t, ks[1..], Debt(n, t, n.nextTid), Debt(s, t, s.nextTid) - 1);
      PickedLater(s, t, ks, Debt(s, t, s.nextTid));
    }
  }

  lemma PickedMonotone(s: Sched, t: Tid, ks: seq<nat>, low: nat, high: nat)
    requires Formed(s) && PickedWithin(s, t, ks, low) && low <= high
    ensures PickedWithin(s, t, ks, high)
  {
  }

  lemma BusyIsFormed(s: Sched)
    requires Busy(s)
    ensures Consistent(s) && Formed(s) && s.current.Some?
  {
  }

  /** If every turn lasts at least a tick and nothing is spawned, put to sleep, woken or penalized,
      a ready task with vruntime v runs within 1 + sum of max(0, v + 1 - vruntime) turns, summed
      over the other runnable tasks. */
  lemma BoundedWaiting(s: Sched, t: Tid, ks: seq<nat>)
    requires Busy(s) && t in s.rq
    requires (forall i :: 0 <= i < |ks| ==> ks[i] >= 1) && |ks| >= 1 + Debt(s, t, s.nextTid)
    ensures PickedWithin(s, t, ks, 1 + Debt(s, t, s.nextTid))
  {
    hide Busy;
    hide PickedWithin;
    hide Turn;
    BusyIsFormed(s);
    TurnPaysDebt(s, t, ks[0]);
    var n := Turn(s, ks[0]);
    if n.current == Some(t) {
      PickedNow(s, t, ks, 1 + Debt(s, t, s.nextTid));
    } else {
      BusyIsFormed(n);
      WaitsOutDebt(n, t, ks[1..]);
      PickedMonotone(n, t, ks[1..], Debt(n, t, n.nextTid), Debt(s, t, s.nextTid));
      PickedLater(s, t, ks, 1 + Debt(s, t, s.nextTid));
    }
  }

  // ---- wakeups are first come, first served on every tag ---------------------------------------

  /** The tasks asleep on one tag, longest asleep first. */
  function Asleep(wq: seq<Waiter>, tag: nat): seq<Tid> {
    if wq == [] then []
    else (if wq[0].tag == tag then [wq[0].tid] else []) + Asleep(wq[1..], tag)
  }

  lemma Associates(a: seq<Tid>, b: seq<Tid>, c: seq<Tid>)
    ensures (a + b) + c == a + (b + c)
  {
  }

  lemma {:induction false} AsleepJoins(a: seq<Waiter>, b: seq<Waiter>, tag: nat)
    ensures Asleep(a + b, tag) == Asleep(a, tag) + Asleep(b, tag)
  {
    if a == [] {
      assert a + b == b;
    } else {
      assert (a + b)[1..] == a[1..] + b;
      AsleepJoins(a[1..], b, tag);
      Associates(if a[0].tag == tag then [a[0].tid] else [], Asleep(a[1..], tag), Asleep(b, tag));
    }
  }

  lemma {:induction false} NoneAsleep(wq: seq<Waiter>, tag: nat)
    requires forall k :: 0 <= k < |wq| ==> wq[k].tag != tag
    ensures Asleep(wq, tag) == []
  {
    if wq != [] {
      NoneAsleep(wq[1..], tag);
    }
  }

  lemma SleeperJoins(wq: seq<Waiter>, w: Waiter, tag: nat)
    ensures Asleep(wq + [w], tag) == Asleep(wq, tag) + if w.tag == tag then [w.tid] else []
  {
    AsleepJoins(wq, [w], tag);
  }

  /** Taking out the waiter that `wake_up` finds takes the first sleeper of that tag, and nobody
      of another tag. */
  lemma FirstSleeperLeaves(wq: seq<Waiter>, woken: nat, tag: nat)
    ensures var i := FirstWaiter(wq, woken);
            i < |wq| ==> Asleep(wq, tag) == (if woken == tag then [wq[i].tid] else []) + Asleep(wq[..i] + wq[i + 1..], tag)
    ensures FirstWaiter(wq, tag) == |wq| ==> Asleep(wq, tag) == []
  {
    var i := FirstWaiter(wq, woken);
    if i < |wq| {
      assert wq == wq[..i] + ([wq[i]] + wq[i + 1..]);
      AsleepJoins(wq[..i], [wq[i]] + wq[i + 1..], tag);
      AsleepJoins([wq[i]], wq[i + 1..], tag);
      AsleepJoins(wq[..i], wq[i + 1..], tag);
      if woken == tag {
        NoneAsleep(wq[..i], tag);
      }
    }
    if FirstWaiter(wq, tag) == |wq| {
      NoneAsleep(wq, tag);
    }
  }

  function SleptIn(s: Sched, c: Call, tag: nat): seq<Tid> {
    if c == SleepCall(tag) && s.current.Some? then [s.current.value] else []
  }

  function WokenIn(s: Sched, c: Call, tag: nat): seq<Tid> {
    var i := FirstWaiter(s.wq, tag);
    if c == WakeUpCall(tag) && i < |s.wq| then [s.wq[i].tid] else []
  }

  /** The tasks that went to sleep on a tag in the first `n` calls, in order. */
  function Slept(states: seq<Sched>, calls: seq<Call>, tag: nat, n: nat): seq<Tid>
    requires n <= |calls| && |states| == |calls| + 1
  {
    if n == 0 then [] else Slept(states, calls, tag, n - 1) + SleptIn(states[n - 1], calls[n - 1], tag)
  }

  /** The tasks woken from a tag in the first `n` calls, in order. */
  function Woken(states: seq<Sched>, calls: seq<Call>, tag: nat, n: nat): seq<Tid>
    requires n <= |calls| && |states| == |calls| + 1
  {
    if n == 0 then [] else Woken(states, calls, tag, n - 1) + WokenIn(states[n - 1], calls[n - 1], tag)
  }

  lemma OneCallIsFifo(s: Sched, c: Call, tag: nat)
    requires Formed(s) && RoomFor(s, c)
    ensures Asleep(s.wq, tag) + SleptIn(s, c, tag) == WokenIn(s, c, tag) + Asleep(Perform(s, c).wq, tag)
  {
    hide Asleep, FirstWaiter, Insert, InsertPos, Enqueue;
    match c
    case SleepCall(t) =>
      if s.current.Some? {
        SleeperJoins(s.wq, Waiter(t, s.current.value), tag);
      }
    case WakeUpCall(t) => FirstSleeperLeaves(s.wq, t, tag);
    case _ => assert Perform(s, c).wq == s.wq;
  }

  lemma Regroup(slept: seq<Tid>, woken: seq<Tid>, was: seq<Tid>, joins: seq<Tid>, leaves: seq<Tid>, now: seq<Tid>)
    requires slept == woken + was && was + joins == leaves + now
    ensures slept + joins == (woken + leaves) + now
  {
    assert (woken + was) + joins == woken + (was + joins);
  }

  /** Over every run, on every tag: those who slept are those who were woken, in the same order,
      followed by those still asleep. */
  lemma {:induction false} WakeupsAreFifo(states: seq<Sched>, calls: seq<Call>, tag: nat, n: nat)
    requires IsRun(states, calls) && n <= |calls|
    ensures Slept(states, calls, tag, n) == Woken(states, calls, tag, n) + Asleep(states[n].wq, tag)
  {
    hide SleptIn;
    hide WokenIn;
    hide Perform;
    hide RoomFor;
    if n > 0 {
      var s, c := states[n - 1], calls[n - 1];
      WakeupsAreFifo(states, calls, tag, n - 1);
      OneCallIsFifo(s, c, tag);
      Regroup(Slept(states, calls, tag, n - 1), Woken(states, calls, tag, n - 1), Asleep(s.wq, tag),
              SleptIn(s, c, tag), WokenIn(s, c, tag), Asleep(states[n].wq, tag));
    }
  }

  // ---- the clock and the time slice ------------------------------------------------------------

  const SLICE: nat := 50

  /** `need_resched` */
  predicate NeedsResched(s: Sched) {
    s.slice >= SLICE && s.rq != []
  }

  /** Ticks of the timer in the first `n` calls. */
  function Ticked(calls: seq<Call>, n: nat): nat
    requires n <= |calls|
  {
    if n == 0 then 0 else Ticked(calls, n - 1) + if calls[n - 1].TickCall? then 1 else 0
  }

  /** Ticks while something ran, since the last yield, in the first `n` calls. */
  function TickedSinceYield(states: seq<Sched>, calls: seq<Call>, n: nat): nat
    requires n <= |calls| && |states| == |calls| + 1
  {
    if n == 0 || calls[n - 1].YieldCall? then 0
    else TickedSinceYield(states, calls, n - 1) + if calls[n - 1].TickCall? && states[n - 1].current.Some? then 1 else 0
  }

  /** Over every run the clock counts the ticks, and rescheduling is asked for just when something is
      queued and 50 ticks have been used since the last yield - not since the last switch. */
  lemma {:induction false} ReschedIff(states: seq<Sched>, calls: seq<Call>, n: nat)
    requires IsRun(states, calls) && n <= |calls|
    ensures states[n].ticks == Ticked(calls, n)
    ensures NeedsResched(states[n]) <==> states[n].rq != [] && TickedSinceYield(states, calls, n) >= SLICE
  {
    ClockCounts(states, calls, n);
  }

  lemma {:induction false} ClockCounts(states: seq<Sched>, calls: seq<Call>, n: nat)
    requires IsRun(states, calls) && n <= |calls|
    ensures states[n].ticks == Ticked(calls, n) && states[n].slice == TickedSinceYield(states, calls, n)
  {
    hide Perform, RoomFor;
    if n > 0 {
      ClockCounts(states, calls, n - 1);
      OneCallClock(states[n - 1], calls[n - 1]);
    }
  }

  lemma OneCallClock(s: Sched, c: Call)
    requires Formed(s)
    ensures Perform(s, c).ticks == s.ticks + if c.TickCall? then 1 else 0
    ensures Perform(s, c).slice == if c.YieldCall? then 0 else s.slice + if c.TickCall? && s.current.Some? then 1 else 0
  {
    hide Insert, InsertPos, Enqueue, FirstWaiter, Wait;
  }
}
