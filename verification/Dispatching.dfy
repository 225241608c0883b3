/** Who gets the processor: where every call moves every task, and whose vruntime it changes. */
module Dispatching {
  import opened Options
  import opened Scheduling
  import opened Fairness

  datatype Place = OnCpu | Queued | AsleepOn(tag: nat) | Gone | Absent

  /** The tag a task sleeps on. */
  function TagOf(wq: seq<Waiter>, t: Tid): Option<nat> {
    if wq == [] then None else if wq[0].tid == t then Some(wq[0].tag) else TagOf(wq[1..], t)
  }

  function PlaceOf(s: Sched, t: Tid): Place {
    if s.current == Some(t) then OnCpu
    else if t in s.rq then Queued
    else match TagOf(s.wq, t)
      case Some(tag) => AsleepOn(tag)
      case None => if t in s.exited then Gone else Absent
  }

  lemma {:induction false} TagOfJoins(a: seq<Waiter>, b: seq<Waiter>, t: Tid)
    ensures TagOf(a + b, t) == if TagOf(a, t).Some? then TagOf(a, t) else TagOf(b, t)
  {
    if a == [] {
      assert a + b == b;
    } else {
      assert (a + b)[1..] == a[1..] + b;
      TagOfJoins(a[1..], b, t);
    }
  }

  lemma {:induction false} TagOfWaiting(wq: seq<Waiter>, t: Tid)
    ensures TagOf(wq, t).Some? <==> t in Waiting(wq)
  {
    if wq != [] {
      TagOfWaiting(wq[1..], t);
      assert Waiting(wq) == [wq[0].tid] + Waiting(wq[1..]);
    }
  }

  lemma TagOfOne(w: Waiter, t: Tid)
    ensures TagOf([w], t) == if w.tid == t then Some(w.tag) else None
  {
    assert [w][1..] == [];
  }

  /** A task on the processor, in the queue or gone sleeps nowhere. */
  lemma PlacesExclude(s: Sched, t: Tid)
    requires Consistent(s)
    ensures s.current == Some(t) ==> t !in s.rq && TagOf(s.wq, t) == None
    ensures t in s.rq ==> TagOf(s.wq, t) == None && s.current != Some(t)
    ensures TagOf(s.wq, t).Some? ==> t !in s.rq && s.current != Some(t) && t !in s.exited
    ensures t !in s.tasks ==> PlaceOf(s, t) == Absent
  {
    TagOfWaiting(s.wq, t);
    OncePlaced(s, t);
    assert t in s.rq ==> t in multiset(s.rq);
    assert t in Waiting(s.wq) ==> t in multiset(Waiting(s.wq));
    assert Places(s, t) == if t in s.tasks then 1 else 0;
  }

  predicate IsFront(s: Sched, t: Tid) {
    s.rq != [] && s.rq[0] == t
  }

  /** The first task asleep on the tag. */
  predicate FirstAsleep(s: Sched, tag: nat, t: Tid) {
    Asleep(s.wq, tag) != [] && Asleep(s.wq, tag)[0] == t
  }

  /** `sleep_on`: the running task falls asleep on the tag and the front of the queue runs. */
  lemma SleepMoves(s: Sched, tag: nat, t: Tid)
    requires Consistent(s) && RoomFor(s, SleepCall(tag))
    ensures var n := Sleep(s, tag);
            && PlaceOf(n, t) == (if s.current == Some(t) then AsleepOn(tag) else if IsFront(s, t) then OnCpu else PlaceOf(s, t))
            && n.rq == if s.rq == [] then [] else s.rq[1..]
  {
    PlacesExclude(s, t);
    if s.current.Some? {
      var w := Waiter(tag, s.current.value);
      PlacesExclude(s, w.tid);
      TagOfJoins(s.wq, [w], t);
      TagOfOne(w, t);
    }
    MemberOfRest(s.rq, t);
  }

  lemma MemberOfRest(s: seq<Tid>, t: Tid)
    ensures s != [] && t != s[0] ==> (t in s[1..] <==> t in s)
  {
    if s != [] {
      assert s == [s[0]] + s[1..];
    }
  }

  /** `exit`: the running task is gone and the front of the queue runs. */
  lemma ExitMoves(s: Sched, t: Tid)
    requires Consistent(s)
    ensures var n := Exit(s);
            && PlaceOf(n, t) == (if s.current == Some(t) then Gone else if IsFront(s, t) then OnCpu else PlaceOf(s, t))
            && n.rq == if s.rq == [] then [] else s.rq[1..]
  {
    PlacesExclude(s, t);
    if s.current.Some? {
      PlacesExclude(s, s.current.value);
    }
    MemberOfRest(s.rq, t);
  }

  /** `start` with nothing running: the front of the queue runs. */
  lemma StartMoves(s: Sched, t: Tid)
    requires Consistent(s) && RoomFor(s, StartCall)
    ensures var n := Dispatch(s);
            && PlaceOf(n, t) == (if IsFront(s, t) then OnCpu else PlaceOf(s, t))
            && n.rq == if s.rq == [] then [] else s.rq[1..]
  {
    PlacesExclude(s, t);
    MemberOfRest(s.rq, t);
  }

  lemma WakeUpPlaces(s: Sched, tag: nat, t: Tid)
    requires Consistent(s) && RoomFor(s, WakeUpCall(tag))
    ensures var n := WakeUp(s, tag);
            PlaceOf(n, t) == (if FirstAsleep(s, tag, t) then Queued else PlaceOf(s, t)) && n.current == s.current
  {
    hide Insert, InsertPos, Asleep, Consistent, TagOf, Waiting, Enqueue;
    ConsistentIsFormed(s);
    var i := FirstWaiter(s.wq, tag);
    FirstSleeperLeaves(s.wq, tag, tag);
    if i < |s.wq| {
      WakeUpFacts(s, tag, t);
    }
  }

  lemma WakeUpFacts(s: Sched, tag: nat, t: Tid)
    requires Consistent(s) && RoomFor(s, WakeUpCall(tag)) && FirstWaiter(s.wq, tag) < |s.wq|
    ensures var n := WakeUp(s, tag);
            var tid := s.wq[FirstWaiter(s.wq, tag)].tid;
            && n.current == s.current && n.exited == s.exited && s.current != Some(tid)
            && (t in n.rq <==> t in s.rq || t == tid)
            && (t != tid ==> TagOf(n.wq, t) == TagOf(s.wq, t))
  {
    hide Insert, InsertPos, Consistent, TagOf;
    ConsistentIsFormed(s);
    var i := FirstWaiter(s.wq, tag);
    var w := s.wq[i];
    if t != w.tid {
      WithoutWaiter(s.wq, i, t);
    }
    assert Waiting(s.wq)[i] == w.tid;
    TagOfWaiting(s.wq, w.tid);
    PlacesExclude(s, w.tid);
    InsertMembers(WithState(s.tasks, w.tid, Ready), s.rq, w.tid, t);
  }

  lemma WithoutWaiter(wq: seq<Waiter>, i: nat, t: Tid)
    requires i < |wq| && t != wq[i].tid
    ensures TagOf(wq[..i] + wq[i + 1..], t) == TagOf(wq, t)
  {
    hide TagOf;
    assert wq == wq[..i] + ([wq[i]] + wq[i + 1..]);
    TagOfJoins(wq[..i], [wq[i]] + wq[i + 1..], t);
    TagOfJoins([wq[i]], wq[i + 1..], t);
    TagOfJoins(wq[..i], wq[i + 1..], t);
    TagOfOne(wq[i], t);
  }

  lemma WakeUpQueue(s: Sched, tag: nat)
    requires Consistent(s) && RoomFor(s, WakeUpCall(tag))
    ensures var n := WakeUp(s, tag);
            if Asleep(s.wq, tag) == [] then n.rq == s.rq else PutIn(s, s.rq, Asleep(s.wq, tag)[0], n.rq)
  {
    hide Insert, InsertPos, Asleep, Consistent, PutIn, Sorted;
    ConsistentIsFormed(s);
    FirstSleeperLeaves(s.wq, tag, tag);
    var i := FirstWaiter(s.wq, tag);
    if i < |s.wq| {
      ReadySorts(s, s.wq[i].tid);
      PutBehindEquals(s, WithState(s.tasks, s.wq[i].tid, Ready), s.wq[i].tid);
    }
  }

  /** `wake_up`: the first task asleep on the tag joins the queue. */
  lemma WakeUpMoves(s: Sched, tag: nat, t: Tid)
    requires Consistent(s) && RoomFor(s, WakeUpCall(tag))
    ensures var n := WakeUp(s, tag);
            && PlaceOf(n, t) == (if FirstAsleep(s, tag, t) then Queued else PlaceOf(s, t))
            && n.current == s.current
            && if Asleep(s.wq, tag) == [] then n.rq == s.rq else PutIn(s, s.rq, Asleep(s.wq, tag)[0], n.rq)
  {
    WakeUpPlaces(s, tag, t);
    WakeUpQueue(s, tag);
    hide *;
  }

  /** The queue with one task more: behind all that have at most its vruntime, before all that have more. */
  ghost predicate PutIn(s: Sched, was: seq<Tid>, t: Tid, now: seq<Tid>) {
    exists k :: 0 <= k <= |was| && Settled(s, was, t, k) && now == was[..k] + [t] + was[k..]
  }

  ghost predicate Settled(s: Sched, was: seq<Tid>, t: Tid, k: nat)
    requires k <= |was|
  {
    forall i :: 0 <= i < |was| ==> (i < k <==> Vruntime(s, was[i]) <= Vruntime(s, t))
  }

  lemma FreshIsSorted(s: Sched)
    requires Consistent(s)
    ensures var tasks := s.tasks[s.nextTid := Task(Ready, 0)];
            s.nextTid !in s.tasks && Known(tasks, s.rq) && Sorted(tasks, s.rq)
  {
    hide Placed, Marked;
  }

  lemma ReadySorts(s: Sched, t: Tid)
    requires Consistent(s) && t in s.tasks
    ensures var tasks := WithState(s.tasks, t, Ready); Known(tasks, s.rq) && Sorted(tasks, s.rq)
  {
    hide Placed, Marked;
  }

  lemma PutBehindEquals(s: Sched, tasks: Tasks, t: Tid)
    requires Formed(s) && t in tasks && Known(tasks, s.rq) && Sorted(tasks, s.rq)
    requires forall i :: 0 <= i < |s.rq| ==> tasks[s.rq[i]].vruntime == Vruntime(s, s.rq[i])
    requires tasks[t].vruntime == Vruntime(s, t)
    ensures PutIn(s, s.rq, t, Insert(tasks, s.rq, t))
  {
    hide InsertPos;
    var k := InsertPos(tasks, s.rq, tasks[t].vruntime);
    InsertIsFifo(tasks, s.rq, t);
    assert Settled(s, s.rq, t, k);
    assert Insert(tasks, s.rq, t) == s.rq[..k] + [t] + s.rq[k..];
  }

  lemma SpawnQueue(s: Sched, memory: bool)
    requires Consistent(s) && RoomFor(s, SpawnCall(memory))
    ensures var n := Spawn(s, memory);
            if memory then PutIn(s, s.rq, s.nextTid, n.rq) else n.rq == s.rq
  {
    FreshIsSorted(s);
    hide Insert, InsertPos, Consistent, PutIn, Sorted;
    ConsistentIsFormed(s);
    if memory {
      PutBehindEquals(s, s.tasks[s.nextTid := Task(Ready, 0)], s.nextTid);
    }
  }

  /** `spawn`: with memory a task under the next id joins the queue; the id is used up in any case. */
  lemma SpawnMoves(s: Sched, memory: bool, t: Tid)
    requires Consistent(s) && RoomFor(s, SpawnCall(memory))
    ensures var n := Spawn(s, memory);
            && PlaceOf(n, t) == (if memory && t == s.nextTid then Queued else PlaceOf(s, t))
            && n.current == s.current && n.nextTid == s.nextTid + 1
            && if memory then PutIn(s, s.rq, s.nextTid, n.rq) else n.rq == s.rq
  {
    SpawnQueue(s, memory);
    SpawnFacts(s, memory, t);
    hide Insert, InsertPos, Consistent, PutIn, TagOf, Spawn;
    ConsistentIsFormed(s);
  }

  lemma SpawnFacts(s: Sched, memory: bool, t: Tid)
    requires Consistent(s) && RoomFor(s, SpawnCall(memory))
    ensures var n := Spawn(s, memory);
            && n.current == s.current && n.exited == s.exited && n.wq == s.wq && n.nextTid == s.nextTid + 1
            && (t in n.rq <==> t in s.rq || (memory && t == s.nextTid))
            && s.current != Some(s.nextTid)
  {
    FreshIsSorted(s);
    hide Insert, InsertPos, Consistent, Sorted;
    ConsistentIsFormed(s);
    if memory {
      InsertMembers(s.tasks[s.nextTid := Task(Ready, 0)], s.rq, s.nextTid, t);
    }
  }

  /** Who runs after a yield: the front of the queue, unless the running task is strictly less served. */
  function NextOf(s: Sched): Option<Tid> {
    if s.rq == [] then s.current
    else if s.current.Some? && Vruntime(s, s.current.value) < Vruntime(s, s.rq[0]) then s.current
    else Some(s.rq[0])
  }

  /** `yield_now`: the next task runs, and the running one, if it is not that, joins the queue. */
  lemma YieldMoves(s: Sched, t: Tid)
    requires Consistent(s) && RoomFor(s, YieldCall)
    ensures var n := Yield(s);
            && n.current == NextOf(s)
            && PlaceOf(n, t) == (if NextOf(s) == Some(t) then OnCpu else if s.current == Some(t) then Queued else PlaceOf(s, t))
            && if NextOf(s) == s.current then n.rq == s.rq
               else if s.current == None then n.rq == s.rq[1..]
               else PutIn(s, s.rq, s.current.value, [s.rq[0]] + n.rq)
  {
    hide Consistent;
    ConsistentIsFormed(s);
    PlacesExclude(s, t);
    if s.rq != [] {
      PlacesExclude(s, s.rq[0]);
      MemberOfRest(s.rq, t);
      if s.current.Some? {
        var c := s.current.value;
        var tasks := WithState(s.tasks, c, Ready);
        var rq := Insert(tasks, s.rq, c);
        PutBack(s, t);
        MemberOfRest(rq, t);
        hide Insert, InsertPos, PutIn;
        assert Yield(s) == Dispatch(s.(slice := 0, tasks := tasks, current := None, rq := rq));
        assert s.current != Some(t) ==> (t in rq <==> t in s.rq);
      }
    }
  }

  /** The queue with the running task put back: the next task is in front, and who stays keeps the order. */
  lemma PutBack(s: Sched, t: Tid)
    requires Consistent(s) && s.rq != [] && s.current.Some?
    ensures var c := s.current.value;
            var rq := Insert(WithState(s.tasks, c, Ready), s.rq, c);
            && rq[0] == NextOf(s).value
            && (t in rq <==> t in s.rq || t == c)
            && if NextOf(s) == s.current then rq[1..] == s.rq else PutIn(s, s.rq, c, [s.rq[0]] + rq[1..])
  {
    hide Insert, InsertPos, Consistent, Sorted;
    ConsistentIsFormed(s);
    var c := s.current.value;
    var tasks := WithState(s.tasks, c, Ready);
    var rq := Insert(tasks, s.rq, c);
    ReadySorts(s, c);
    PlacesExclude(s, c);
    InsertMembers(tasks, s.rq, c, t);
    PutBehindEquals(s, tasks, c);
    var k :| 0 <= k <= |s.rq| && Settled(s, s.rq, c, k) && rq == s.rq[..k] + [c] + s.rq[k..];
    assert 0 < k <==> Vruntime(s, s.rq[0]) <= Vruntime(s, c);
    if k == 0 {
      assert rq == [c] + s.rq;
    } else {
      assert rq == [s.rq[0]] + rq[1..];
    }
  }

  /** Where a call moves a task. */
  function Moved(s: Sched, c: Call, t: Tid): Place {
    match c
    case SpawnCall(memory) => if memory && t == s.nextTid then Queued else PlaceOf(s, t)
    case TickCall => PlaceOf(s, t)
    case YieldCall => if NextOf(s) == Some(t) then OnCpu else if s.current == Some(t) then Queued else PlaceOf(s, t)
    case SleepCall(tag) => if s.current == Some(t) then AsleepOn(tag) else if IsFront(s, t) then OnCpu else PlaceOf(s, t)
    case WakeUpCall(tag) => if FirstAsleep(s, tag, t) then Queued else PlaceOf(s, t)
    case ExitCall => if s.current == Some(t) then Gone else if IsFront(s, t) then OnCpu else PlaceOf(s, t)
    case StartCall => if IsFront(s, t) then OnCpu else PlaceOf(s, t)
    case PenalizeCall(_, _) => PlaceOf(s, t)
  }

  /** What a call adds to the vruntime of a task. */
  function Charge(s: Sched, c: Call, t: Tid): nat {
    match c
    case TickCall => if s.current == Some(t) then 1 else 0
    case PenalizeCall(tid, amount) => if t == tid && Runnable(s, t) then amount else 0
    case _ => 0
  }

  /** Every call, for every task: where it goes, and by how much its vruntime grows. */
  lemma CallMoves(s: Sched, c: Call, t: Tid)
    requires Consistent(s) && RoomFor(s, c)
    ensures var n := Perform(s, c);
            PlaceOf(n, t) == Moved(s, c, t) && Vruntime(n, t) == Vruntime(s, t) + Charge(s, c, t)
  {
    CallCharges(s, c, t);
    hide Consistent, Spawn, Yield, Sleep, WakeUp, Exit, Dispatch, Tick, Penalize, PlaceOf, RoomFor, Vruntime, Charge, NextOf, FirstAsleep, PutIn, Asleep;
    ConsistentIsFormed(s);
    match c
    case SpawnCall(memory) => SpawnMoves(s, memory, t);
    case TickCall => StaysInPlace(s, c, t);
    case YieldCall => YieldMoves(s, t);
    case SleepCall(tag) => SleepMoves(s, tag, t);
    case WakeUpCall(tag) => WakeUpMoves(s, tag, t);
    case ExitCall => ExitMoves(s, t);
    case StartCall => StartMoves(s, t);
    case PenalizeCall(_, _) => StaysInPlace(s, c, t);
  }

  lemma StaysInPlace(s: Sched, c: Call, t: Tid)
    requires Formed(s) && (c.TickCall? || c.PenalizeCall?)
    ensures PlaceOf(Perform(s, c), t) == PlaceOf(s, t)
  {
  }

  lemma CallCharges(s: Sched, c: Call, t: Tid)
    requires Consistent(s)
    ensures Vruntime(Perform(s, c), t) == Vruntime(s, t) + Charge(s, c, t)
  {
    hide Insert, InsertPos, FirstWaiter, Enqueue, Wait, Placed, Marked, Sorted;
  }

  // ---- runs --------------------------------------------------------------------------------------

  /** What a task was charged in the first `n` calls. */
  function Charged(states: seq<Sched>, calls: seq<Call>, t: Tid, n: nat): nat
    requires n <= |calls| && |states| == |calls| + 1
  {
    if n == 0 then 0 else Charged(states, calls, t, n - 1) + Charge(states[n - 1], calls[n - 1], t)
  }

  /** Over every run the vruntime of a task is the ticks it ran and the penalties it was given while running
      or queued. */
  lemma {:induction false} VruntimeIsService(states: seq<Sched>, calls: seq<Call>, t: Tid, n: nat)
    requires IsRun(states, calls) && n <= |calls|
    ensures Vruntime(states[n], t) == Charged(states, calls, t, n)
  {
    hide Perform, Consistent, RoomFor, Charge;
    if n > 0 {
      VruntimeIsService(states, calls, t, n - 1);
      RunsStayConsistent(states, calls, n - 1);
      CallCharges(states[n - 1], calls[n - 1], t);
    }
  }

  predicate Switches(c: Call) {
    c.YieldCall? || c.SleepCall? || c.ExitCall? || c.StartCall?
  }

  /** No yield, sleep, exit or start leaves the processor idle while something is queued, in any run; and the
      task that runs then was running or queued before. */
  lemma NeverIdle(states: seq<Sched>, calls: seq<Call>, i: nat)
    requires IsRun(states, calls) && i < |calls| && Switches(calls[i])
    ensures states[i + 1].current == None ==> states[i].rq == [] && states[i + 1].rq == []
    ensures states[i + 1].current.Some? ==> Runnable(states[i], states[i + 1].current.value)
  {
    hide Consistent;
    RunsStayConsistent(states, calls, i);
    var s, c := states[i], calls[i];
    ConsistentIsFormed(s);
    var t := if states[i + 1].current.Some? then states[i + 1].current.value else if s.rq != [] then s.rq[0] else 0;
    CallMoves(s, c, t);
    IdleQueue(s, c);
  }

  lemma IdleQueue(s: Sched, c: Call)
    requires Consistent(s) && RoomFor(s, c) && Switches(c)
    ensures var n := Perform(s, c);
            n.current == None ==> s.rq == [] && n.rq == []
  {
    match c
    case YieldCall => YieldMoves(s, 0);
    case SleepCall(tag) => SleepMoves(s, tag, if s.rq != [] then s.rq[0] else 0);
    case ExitCall => ExitMoves(s, if s.rq != [] then s.rq[0] else 0);
    case StartCall => StartMoves(s, if s.rq != [] then s.rq[0] else 0);
  }
}
