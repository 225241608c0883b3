/** The scheduler's calls as functions on its whole state, what every run of them keeps, and
    how long a ready task can wait. */
module Scheduling {
  import opened Options

  type Tid = nat

  const RQ_SIZE: nat := 64
  const WAIT_QUEUE_SIZE: nat := 32

  datatype TaskState = Ready | Running | Blocked | Zombie

  datatype Task = Task(state: TaskState, vruntime: nat)

  type Tasks = map<Tid, Task>

  datatype Waiter = Waiter(tag: nat, tid: Tid)

  datatype Sched = Sched(tasks: Tasks, current: Option<Tid>, rq: seq<Tid>, wq: seq<Waiter>,
                         exited: set<Tid>, nextTid: Tid, ticks: nat, slice: nat)

  const INITIAL: Sched := Sched(map[], None, [], [], {}, 1, 0, 0)

  // ---- queues -----------------------------------------------------------------------------

  /** Every queued task is in the task table. */
  predicate Known(tasks: Tasks, ids: seq<Tid>) {
    forall i :: 0 <= i < |ids| ==> ids[i] in tasks
  }

  /** Where the search from the back stops: behind the last task with at most this vruntime. */
  function InsertPos(tasks: Tasks, rq: seq<Tid>, vruntime: nat): (k: nat)
    requires Known(tasks, rq)
    ensures k <= |rq|
    ensures k > 0 ==> tasks[rq[k - 1]].vruntime <= vruntime
    ensures forall i :: k <= i < |rq| ==> tasks[rq[i]].vruntime > vruntime
    decreases |rq|
  {
    if rq == [] then 0
    else
      var n := |rq| - 1;
      if tasks[rq[n]].vruntime <= vruntime then |rq| else InsertPos(tasks, rq[..n], vruntime)
  }

  function Insert(tasks: Tasks, rq: seq<Tid>, tid: Tid): (r: seq<Tid>)
    requires Known(tasks, rq) && tid in tasks
    ensures Known(tasks, r) && |r| == |rq| + 1
    ensures var k := InsertPos(tasks, rq, tasks[tid].vruntime);
            forall i :: 0 <= i < |r| ==> r[i] == if i < k then rq[i] else if i == k then tid else rq[i - 1]
  {
    var k := InsertPos(tasks, rq, tasks[tid].vruntime);
    rq[..k] + [tid] + rq[k..]
  }

  /** `CfsRq::enqueue`: a full queue drops the task. */
  function Enqueue(tasks: Tasks, rq: seq<Tid>, tid: Tid): (r: seq<Tid>)
    requires Known(tasks, rq) && tid in tasks
    ensures Known(tasks, r)
  {
    if |rq| >= RQ_SIZE then rq else Insert(tasks, rq, tid)
  }

  /** `WaitQueue::enqueue`: a full queue drops the task. */
  function Wait(wq: seq<Waiter>, w: Waiter): seq<Waiter> {
    if |wq| >= WAIT_QUEUE_SIZE then wq else wq + [w]
  }

  /** The first waiter on a tag, or the length of the queue. */
  function FirstWaiter(wq: seq<Waiter>, tag: nat): (i: nat)
    ensures i <= |wq|
    ensures i < |wq| ==> wq[i].tag == tag
    ensures forall k :: 0 <= k < i ==> wq[k].tag != tag
  {
    if wq == [] || wq[0].tag == tag then 0 else 1 + FirstWaiter(wq[1..], tag)
  }

  // ---- calls ---------------------------------------------------------------------------------

  function WithState(tasks: Tasks, tid: Tid, state: TaskState): Tasks
    requires tid in tasks
  {
    tasks[tid := tasks[tid].(state := state)]
  }

  predicate Formed(s: Sched) {
    && Known(s.tasks, s.rq)
    && (forall i :: 0 <= i < |s.wq| ==> s.wq[i].tid in s.tasks)
    && (s.current.Some? ==> s.current.value in s.tasks)
  }

  /** `pick_next` and the switch to the task it finds. */
  function Dispatch(s: Sched): Sched
    requires Formed(s)
  {
    if s.rq == [] then s
    else s.(tasks := WithState(s.tasks, s.rq[0], Running), current := Some(s.rq[0]), rq := s.rq[1..])
  }

  /** `spawn`: the id is used up even when no memory is found for the task. */
  function Spawn(s: Sched, memory: bool): Sched
    requires Formed(s)
  {
    var n := s.(nextTid := s.nextTid + 1);
    if !memory then n
    else
      var tasks := s.tasks[s.nextTid := Task(Ready, 0)];
      n.(tasks := tasks, rq := Enqueue(tasks, s.rq, s.nextTid))
  }

  /** The running task's share grows by one tick. */
  function Tick(s: Sched): Sched
    requires Formed(s)
  {
    var n := s.(ticks := s.ticks + 1);
    match s.current
    case None => n
    case Some(c) => n.(tasks := s.tasks[c := s.tasks[c].(vruntime := s.tasks[c].vruntime + 1)], slice := s.slice + 1)
  }

  /** `yield_now` */
  function Yield(s: Sched): Sched
    requires Formed(s)
  {
    var n := s.(slice := 0);
    if s.rq == [] then n
    else match s.current
      case None => Dispatch(n)
      case Some(c) =>
        var tasks := WithState(s.tasks, c, Ready);
        Dispatch(n.(tasks := tasks, current := None, rq := Enqueue(tasks, s.rq, c)))
  }

  /** `sleep_on` */
  function Sleep(s: Sched, tag: nat): Sched
    requires Formed(s)
  {
    match s.current
    case None => Dispatch(s)
    case Some(c) => Dispatch(s.(tasks := WithState(s.tasks, c, Blocked), current := None, wq := Wait(s.wq, Waiter(tag, c))))
  }

  /** `wake_up` */
  function WakeUp(s: Sched, tag: nat): Sched
    requires Formed(s)
  {
    var i := FirstWaiter(s.wq, tag);
    if i == |s.wq| then s
    else
      var tid := s.wq[i].tid;
      var tasks := WithState(s.tasks, tid, Ready);
      s.(tasks := tasks, wq := s.wq[..i] + s.wq[i + 1..], rq := Enqueue(tasks, s.rq, tid))
  }

  /** `exit` */
  function Exit(s: Sched): Sched
    requires Formed(s)
  {
    match s.current
    case None => Dispatch(s)
    case Some(c) => Dispatch(s.(tasks := WithState(s.tasks, c, Zombie), current := None, exited := s.exited + {c}))
  }

  /** `penalize_tid`: only the running and the queued tasks are searched, and a queued task's key
      changes where it stands. */
  function Penalize(s: Sched, tid: Tid, amount: nat): Sched
    requires Formed(s)
  {
    if s.current == Some(tid) || tid in s.rq
    then s.(tasks := s.tasks[tid := s.tasks[tid].(vruntime := s.tasks[tid].vruntime + amount)])
    else s
  }

  datatype Call = SpawnCall(memory: bool) | TickCall | YieldCall | SleepCall(tag: nat) | WakeUpCall(tag: nat)
    | ExitCall | StartCall | PenalizeCall(tid: Tid, amount: nat)

  /** One call; `start` panics on an empty queue, which leaves the state as it is. */
  function Perform(s: Sched, c: Call): Sched
    requires Formed(s)
  {
    match c
    case SpawnCall(memory) => Spawn(s, memory)
    case TickCall => Tick(s)
    case YieldCall => Yield(s)
    case SleepCall(tag) => Sleep(s, tag)
    case WakeUpCall(tag) => WakeUp(s, tag)
    case ExitCall => Exit(s)
    case StartCall => Dispatch(s)
    case PenalizeCall(tid, amount) => Penalize(s, tid, amount)
  }

  // ---- the invariant -----------------------------------------------------------------------------

  predicate Sorted(tasks: Tasks, rq: seq<Tid>)
    requires Known(tasks, rq)
  {
    forall i, j :: 0 <= i < j < |rq| ==> tasks[rq[i]].vruntime <= tasks[rq[j]].vruntime
  }

  function Waiting(wq: seq<Waiter>): (r: seq<Tid>)
    ensures |r| == |wq| && forall i :: 0 <= i < |wq| ==> r[i] == wq[i].tid
  {
    seq(|wq|, i requires 0 <= i < |wq| => wq[i].tid)
  }

  /** How often a task appears in the four places a task can be. */
  function Places(s: Sched, t: Tid): nat {
    multiset(s.rq)[t] + multiset(Waiting(s.wq))[t]
    + (if s.current == Some(t) then 1 else 0) + (if t in s.exited then 1 else 0)
  }

  /** Every task is in exactly one of current, run queue, wait queue and exited, and nothing
      else is anywhere. */
  ghost predicate Placed(s: Sched) {
    forall t: Tid :: Places(s, t) == if t in s.tasks then 1 else 0
  }

  /** State fields agree with the places. */
  ghost predicate Marked(s: Sched)
    requires Formed(s)
  {
    && (s.current.Some? ==> s.tasks[s.current.value].state == Running)
    && (forall i :: 0 <= i < |s.rq| ==> s.tasks[s.rq[i]].state == Ready)
    && (forall i :: 0 <= i < |s.wq| ==> s.tasks[s.wq[i].tid].state == Blocked)
    && (forall t :: t in s.exited ==> t in s.tasks && s.tasks[t].state == Zombie)
  }

  ghost predicate Consistent(s: Sched) {
    && Formed(s) && Placed(s) && Marked(s) && Sorted(s.tasks, s.rq)
    && |s.rq| <= RQ_SIZE && |s.wq| <= WAIT_QUEUE_SIZE
    && (forall t :: t in s.tasks ==> t < s.nextTid)
  }

  // ---- insertion -------------------------------------------------------------------------------------

  lemma InsertCounts(tasks: Tasks, rq: seq<Tid>, tid: Tid)
    requires Known(tasks, rq) && tid in tasks
    ensures multiset(Insert(tasks, rq, tid)) == multiset(rq) + multiset{tid}
  {
    var k := InsertPos(tasks, rq, tasks[tid].vruntime);
    assert rq == rq[..k] + rq[k..];
  }

  /** On a sorted queue the new task goes behind every task with at most its vruntime and before
      every task with more; the others keep their order. So equals are served first come, first
      served, and the queue stays sorted. */
  lemma InsertIsFifo(tasks: Tasks, rq: seq<Tid>, tid: Tid)
    requires Known(tasks, rq) && tid in tasks && Sorted(tasks, rq)
    ensures Sorted(tasks, Insert(tasks, rq, tid))
    ensures var k := InsertPos(tasks, rq, tasks[tid].vruntime);
            forall i :: 0 <= i < |rq| ==> (i < k <==> tasks[rq[i]].vruntime <= tasks[tid].vruntime)
  {
    var k := InsertPos(tasks, rq, tasks[tid].vruntime);
    PosSplits(tasks, rq, tasks[tid].vruntime);
    hide InsertPos;
    SortedWith(tasks, rq, tid, k);
  }

  lemma PosSplits(tasks: Tasks, rq: seq<Tid>, v: nat)
    requires Known(tasks, rq) && Sorted(tasks, rq)
    ensures forall i :: 0 <= i < |rq| ==> (i < InsertPos(tasks, rq, v) <==> tasks[rq[i]].vruntime <= v)
  {
    hide InsertPos;
    var k := InsertPos(tasks, rq, v);
    forall i | 0 <= i < k
      ensures tasks[rq[i]].vruntime <= v
    {
      assert tasks[rq[k - 1]].vruntime <= v;
    }
  }

  lemma SortedWith(tasks: Tasks, rq: seq<Tid>, tid: Tid, k: nat)
    requires Known(tasks, rq) && Sorted(tasks, rq) && tid in tasks && k <= |rq|
    requires forall i :: 0 <= i < |rq| ==> (i < k <==> tasks[rq[i]].vruntime <= tasks[tid].vruntime)
    ensures Known(tasks, rq[..k] + [tid] + rq[k..]) && Sorted(tasks, rq[..k] + [tid] + rq[k..])
  {
    var r := rq[..k] + [tid] + rq[k..];
    assert forall i :: 0 <= i < k ==> r[i] == rq[i];
    assert forall i :: k < i < |r| ==> r[i] == rq[i - 1];
  }

  // ---- each call keeps the invariant, exactly when there is room -----------------------------------

  lemma CountsHead(s: seq<Tid>)
    requires s != []
    ensures multiset(s) == multiset{s[0]} + multiset(s[1..])
  {
    assert s == [s[0]] + s[1..];
  }

  lemma OncePlaced(s: Sched, t: Tid)
    requires Formed(s) && Placed(s)
    ensures t in s.rq ==> multiset(s.rq)[t] == 1 && multiset(Waiting(s.wq))[t] == 0 && s.current != Some(t) && t !in s.exited
    ensures s.current == Some(t) ==> multiset(s.rq)[t] == 0 && multiset(Waiting(s.wq))[t] == 0 && t !in s.exited
    ensures t in Waiting(s.wq) ==> multiset(Waiting(s.wq))[t] == 1 && multiset(s.rq)[t] == 0 && s.current != Some(t) && t !in s.exited
  {
    assert t in s.rq <==> t in multiset(s.rq);
    assert t in Waiting(s.wq) <==> t in multiset(Waiting(s.wq));
    assert Places(s, t) <= 1;
  }

  lemma DispatchKeeps(s: Sched)
    requires Consistent(s) && s.current.None?
    ensures Consistent(Dispatch(s))
  {
    if s.rq != [] {
      var n := Dispatch(s);
      var h := s.rq[0];
      CountsHead(s.rq);
      OncePlaced(s, h);
      forall t: Tid
        ensures Places(n, t) == if t in n.tasks then 1 else 0
      {
        assert Places(s, t) == if t in s.tasks then 1 else 0;
      }
      forall i | 0 <= i < |n.rq|
        ensures n.rq[i] != h
      {
        assert n.rq[i] in s.rq[1..] && multiset(s.rq[1..])[h] == 0;
      }
      forall i | 0 <= i < |n.wq|
        ensures n.wq[i].tid != h
      {
        assert Waiting(s.wq)[i] == s.wq[i].tid;
        assert n.wq[i].tid in multiset(Waiting(s.wq));
      }
    }
  }

  /** A consistent state from which one task has been taken out of its place. */
  ghost predicate Loose(s: Sched, t: Tid) {
    && Formed(s) && t in s.tasks && Marked(s) && Sorted(s.tasks, s.rq)
    && (forall x: Tid :: Places(s, x) == if x in s.tasks && x != t then 1 else 0)
    && |s.rq| <= RQ_SIZE && |s.wq| <= WAIT_QUEUE_SIZE
    && (forall x :: x in s.tasks ==> x < s.nextTid)
  }

  /** A task in no place at all. */
  predicate Lost(s: Sched, t: Tid) {
    t in s.tasks && Places(s, t) == 0
  }

  lemma Nowhere(s: Sched, t: Tid)
    requires Places(s, t) == 0
    ensures t !in s.rq && s.current != Some(t) && t !in s.exited
    ensures forall i :: 0 <= i < |s.rq| ==> s.rq[i] != t
    ensures forall i :: 0 <= i < |s.wq| ==> s.wq[i].tid != t
  {
    assert t in s.rq <==> t in multiset(s.rq);
    assert t in Waiting(s.wq) <==> t in multiset(Waiting(s.wq));
    forall i | 0 <= i < |s.wq|
      ensures s.wq[i].tid != t
    {
      assert Waiting(s.wq)[i] == s.wq[i].tid;
    }
  }

  lemma TakeCurrent(s: Sched, state: TaskState)
    requires Consistent(s) && s.current.Some?
    ensures Loose(s.(tasks := WithState(s.tasks, s.current.value, state), current := None), s.current.value)
  {
    var c := s.current.value;
    var n := s.(tasks := WithState(s.tasks, c, state), current := None);
    OncePlaced(s, c);
    forall x: Tid
      ensures Places(n, x) == if x in n.tasks && x != c then 1 else 0
    {
      assert Places(s, x) == if x in s.tasks then 1 else 0;
    }
    forall i | 0 <= i < |s.rq|
      ensures s.rq[i] != c
    {
      assert s.rq[i] in multiset(s.rq);
    }
    forall i | 0 <= i < |s.wq|
      ensures s.wq[i].tid != c
    {
      assert Waiting(s.wq)[i] == s.wq[i].tid;
      assert s.wq[i].tid in multiset(Waiting(s.wq));
    }
  }

  /** Putting a loose ready task on the run queue settles it exactly when the queue has room. */
  lemma EnqueueSettles(s: Sched, t: Tid)
    requires Loose(s, t) && s.tasks[t].state == Ready
    ensures var n := s.(rq := Enqueue(s.tasks, s.rq, t));
            && Formed(n) && (|s.rq| < RQ_SIZE ==> Consistent(n)) && (|s.rq| >= RQ_SIZE ==> Lost(n, t))
  {
    hide Insert;
    hide InsertPos;
    assert Places(s, t) == 0;
    Nowhere(s, t);
    if |s.rq| < RQ_SIZE {
      var n := s.(rq := Insert(s.tasks, s.rq, t));
      InsertCounts(s.tasks, s.rq, t);
      InsertIsFifo(s.tasks, s.rq, t);
      forall x: Tid
        ensures Places(n, x) == if x in n.tasks then 1 else 0
      {
        assert Places(s, x) == if x in s.tasks && x != t then 1 else 0;
      }
    }
  }

  lemma WaitingAppends(wq: seq<Waiter>, w: Waiter)
    ensures multiset(Waiting(wq + [w])) == multiset(Waiting(wq)) + multiset{w.tid}
  {
    assert Waiting(wq + [w]) == Waiting(wq) + [w.tid];
  }

  lemma WaitSettles(s: Sched, t: Tid, tag: nat)
    requires Loose(s, t) && s.tasks[t].state == Blocked
    ensures var n := s.(wq := Wait(s.wq, Waiter(tag, t)));
            && Formed(n) && (|s.wq| < WAIT_QUEUE_SIZE ==> Consistent(n)) && (|s.wq| >= WAIT_QUEUE_SIZE ==> Lost(n, t))
  {
    hide Waiting;
    assert Places(s, t) == 0;
    Nowhere(s, t);
    if |s.wq| < WAIT_QUEUE_SIZE {
      var n := s.(wq := s.wq + [Waiter(tag, t)]);
      WaitingAppends(s.wq, Waiter(tag, t));
      forall x: Tid
        ensures Places(n, x) == if x in n.tasks then 1 else 0
      {
        assert Places(s, x) == if x in s.tasks && x != t then 1 else 0;
      }
    }
  }

  lemma ExitSettles(s: Sched, t: Tid)
    requires Loose(s, t) && s.tasks[t].state == Zombie
    ensures Consistent(s.(exited := s.exited + {t}))
  {
    assert Places(s, t) == 0;
    Nowhere(s, t);
    var n := s.(exited := s.exited + {t});
    forall x: Tid
      ensures Places(n, x) == if x in n.tasks then 1 else 0
    {
      assert Places(s, x) == if x in s.tasks && x != t then 1 else 0;
    }
  }

  lemma WaitingCut(wq: seq<Waiter>, i: nat)
    requires i < |wq|
    ensures multiset(Waiting(wq)) == multiset(Waiting(wq[..i] + wq[i + 1..])) + multiset{wq[i].tid}
  {
    var a := Waiting(wq);
    assert a == a[..i] + [a[i]] + a[i + 1..];
    assert Waiting(wq[..i] + wq[i + 1..]) == a[..i] + a[i + 1..];
  }

  lemma TakeWaiterPlaces(s: Sched, i: nat)
    requires Consistent(s) && i < |s.wq|
    ensures var n := s.(tasks := WithState(s.tasks, s.wq[i].tid, Ready), wq := s.wq[..i] + s.wq[i + 1..]);
            forall x: Tid :: Places(n, x) == if x in n.tasks && x != s.wq[i].tid then 1 else 0
  {
    hide Waiting;
    var t := s.wq[i].tid;
    var n := s.(tasks := WithState(s.tasks, t, Ready), wq := s.wq[..i] + s.wq[i + 1..]);
    WaitingCut(s.wq, i);
    forall x: Tid
      ensures Places(n, x) == if x in n.tasks && x != t then 1 else 0
    {
      assert Places(s, x) == if x in s.tasks then 1 else 0;
    }
  }

  lemma TakeWaiter(s: Sched, i: nat)
    requires Consistent(s) && i < |s.wq|
    ensures Loose(s.(tasks := WithState(s.tasks, s.wq[i].tid, Ready), wq := s.wq[..i] + s.wq[i + 1..]), s.wq[i].tid)
  {
    hide Waiting;
    var t := s.wq[i].tid;
    var n := s.(tasks := WithState(s.tasks, t, Ready), wq := s.wq[..i] + s.wq[i + 1..]);
    TakeWaiterPlaces(s, i);
    assert Places(n, t) == 0;
    Nowhere(n, t);
  }

  /** Dispatching never finds a lost task again. */
  lemma LostStaysLost(s: Sched, t: Tid)
    requires Formed(s) && Lost(s, t)
    ensures Lost(Dispatch(s), t)
  {
    if s.rq != [] {
      CountsHead(s.rq);
    }
  }

  /** What a caller can check before a call: a queue that is to take a task has a free entry,
      scheduling is not started over a running task, and a queued task is not pushed past the
      one behind it. */
  ghost predicate RoomFor(s: Sched, c: Call)
    requires Formed(s)
  {
    match c
    case SpawnCall(memory) => memory ==> |s.rq| < RQ_SIZE
    case TickCall => true
    case YieldCall => s.rq != [] && s.current.Some? ==> |s.rq| < RQ_SIZE
    case SleepCall(_) => s.current.Some? ==> |s.wq| < WAIT_QUEUE_SIZE
    case WakeUpCall(tag) => FirstWaiter(s.wq, tag) < |s.wq| ==> |s.rq| < RQ_SIZE
    case ExitCall => true
    case StartCall => s.rq == [] || s.current.None?
    case PenalizeCall(tid, amount) =>
      forall i :: 0 <= i < |s.rq| - 1 && s.rq[i] == tid
        ==> s.tasks[tid].vruntime + amount <= s.tasks[s.rq[i + 1]].vruntime
  }

  lemma LostIsInconsistent(s: Sched, t: Tid)
    requires Lost(s, t)
    ensures !Consistent(s)
  {
    assert Placed(s) ==> Places(s, t) == 1;
  }

  lemma ConsistentIsFormed(s: Sched)
    requires Consistent(s)
    ensures Formed(s)
  {
  }

  lemma TakeFresh(s: Sched)
    requires Consistent(s)
    ensures Loose(s.(tasks := s.tasks[s.nextTid := Task(Ready, 0)], nextTid := s.nextTid + 1), s.nextTid)
  {
    hide Waiting;
    TakeFreshPlaces(s);
    Nowhere(s, s.nextTid);
  }

  lemma TakeFreshPlaces(s: Sched)
    requires Consistent(s)
    ensures var n := s.(tasks := s.tasks[s.nextTid := Task(Ready, 0)], nextTid := s.nextTid + 1);
            forall x: Tid :: Places(n, x) == if x in n.tasks && x != s.nextTid then 1 else 0
    ensures Places(s, s.nextTid) == 0
  {
    hide Waiting;
    var t := s.nextTid;
    var n := s.(tasks := s.tasks[t := Task(Ready, 0)], nextTid := t + 1);
    assert Places(s, t) == 0;
    forall x: Tid
      ensures Places(n, x) == if x in n.tasks && x != t then 1 else 0
    {
      assert Places(s, x) == if x in s.tasks then 1 else 0;
    }
  }

  lemma SpawnKeeps(s: Sched, memory: bool)
    requires Consistent(s)
    ensures Consistent(Spawn(s, memory)) <==> RoomFor(s, SpawnCall(memory))
  {
    hide Enqueue;
    hide Consistent;
    hide Loose;
    ConsistentIsFormed(s);
    if memory {
      var t := s.nextTid;
      var n := s.(tasks := s.tasks[t := Task(Ready, 0)], nextTid := t + 1);
      TakeFresh(s);
      EnqueueSettles(n, t);
      assert Spawn(s, memory) == n.(rq := Enqueue(n.tasks, n.rq, t));
      if |s.rq| >= RQ_SIZE {
        LostIsInconsistent(Spawn(s, memory), t);
      }
    } else {
      Relabelled(s, Spawn(s, memory));
    }
  }

  /** Consistency reads only the table, the places and the id bound. */
  lemma Relabelled(s: Sched, n: Sched)
    requires Consistent(s) && n == s.(nextTid := n.nextTid, ticks := n.ticks, slice := n.slice) && n.nextTid >= s.nextTid
    ensures Consistent(n)
  {
    forall x: Tid
      ensures Places(n, x) == if x in n.tasks then 1 else 0
    {
      assert Places(s, x) == if x in s.tasks then 1 else 0;
    }
  }

  lemma YieldKeeps(s: Sched)
    requires Consistent(s)
    ensures Consistent(Yield(s)) <==> RoomFor(s, YieldCall)
  {
    hide Enqueue;
    hide Dispatch;
    hide Consistent;
    hide Loose;
    ConsistentIsFormed(s);
    var n := s.(slice := 0);
    Relabelled(s, n);
    if s.rq != [] {
      match s.current
      case None => DispatchKeeps(n);
      case Some(c) =>
        var m := n.(tasks := WithState(s.tasks, c, Ready), current := None);
        TakeCurrent(n, Ready);
        EnqueueSettles(m, c);
        var e := m.(rq := Enqueue(m.tasks, m.rq, c));
        assert Yield(s) == Dispatch(e);
        if |s.rq| < RQ_SIZE {
          DispatchKeeps(e);
        } else {
          LostStaysLost(e, c);
          LostIsInconsistent(Dispatch(e), c);
        }
    } else {
      assert Yield(s) == n;
    }
  }

  lemma SleepKeeps(s: Sched, tag: nat)
    requires Consistent(s)
    ensures Consistent(Sleep(s, tag)) <==> RoomFor(s, SleepCall(tag))
  {
    hide Wait;
    hide Dispatch;
    hide Consistent;
    hide Loose;
    ConsistentIsFormed(s);
    match s.current
    case None => DispatchKeeps(s);
    case Some(c) =>
      var m := s.(tasks := WithState(s.tasks, c, Blocked), current := None);
      TakeCurrent(s, Blocked);
      WaitSettles(m, c, tag);
      var e := m.(wq := Wait(m.wq, Waiter(tag, c)));
      assert Sleep(s, tag) == Dispatch(e);
      if |s.wq| < WAIT_QUEUE_SIZE {
        DispatchKeeps(e);
      } else {
        LostStaysLost(e, c);
        LostIsInconsistent(Dispatch(e), c);
      }
  }

  lemma WakeUpKeeps(s: Sched, tag: nat)
    requires Consistent(s)
    ensures Consistent(WakeUp(s, tag)) <==> RoomFor(s, WakeUpCall(tag))
  {
    hide Enqueue;
    hide Consistent;
    hide Loose;
    ConsistentIsFormed(s);
    var i := FirstWaiter(s.wq, tag);
    if i < |s.wq| {
      var t := s.wq[i].tid;
      var m := s.(tasks := WithState(s.tasks, t, Ready), wq := s.wq[..i] + s.wq[i + 1..]);
      TakeWaiter(s, i);
      EnqueueSettles(m, t);
      assert WakeUp(s, tag) == m.(rq := Enqueue(m.tasks, m.rq, t));
      if |s.rq| >= RQ_SIZE {
        LostIsInconsistent(WakeUp(s, tag), t);
      }
    }
  }

  lemma ExitKeeps(s: Sched)
    requires Consistent(s)
    ensures Consistent(Exit(s))
  {
    hide Dispatch;
    hide Consistent;
    hide Loose;
    ConsistentIsFormed(s);
    match s.current
    case None => DispatchKeeps(s);
    case Some(c) =>
      var m := s.(tasks := WithState(s.tasks, c, Zombie), current := None);
      TakeCurrent(s, Zombie);
      ExitSettles(m, c);
      DispatchKeeps(m.(exited := m.exited + {c}));
  }

  lemma TickKeeps(s: Sched)
    requires Consistent(s)
    ensures Consistent(Tick(s))
  {
    var n := Tick(s);
    if s.current.Some? {
      var c := s.current.value;
      OncePlaced(s, c);
      forall i | 0 <= i < |s.rq|
        ensures s.rq[i] != c
      {
        assert s.rq[i] in multiset(s.rq);
      }
    }
    forall x: Tid
      ensures Places(n, x) == if x in n.tasks then 1 else 0
    {
      assert Places(s, x) == if x in s.tasks then 1 else 0;
    }
  }

  /** Starting over a running task loses it. */
  lemma StartKeeps(s: Sched)
    requires Consistent(s)
    ensures Consistent(Dispatch(s)) <==> RoomFor(s, StartCall)
  {
    if s.rq != [] {
      match s.current
      case None => DispatchKeeps(s);
      case Some(c) =>
        OncePlaced(s, c);
        CountsHead(s.rq);
        LostIsInconsistent(Dispatch(s), c);
    }
  }

  lemma NoRepeats(s: Sched, i: nat, j: nat)
    requires Consistent(s) && i < j < |s.rq|
    ensures s.rq[i] != s.rq[j]
  {
    var front, back := s.rq[..j], s.rq[j..];
    assert s.rq == front + back;
    assert front[i] in front && back[0] in back;
    assert Places(s, s.rq[i]) == 1;
    assert multiset(s.rq) == multiset(front) + multiset(back);
    assert s.rq[i] in multiset(front) && s.rq[j] in multiset(back);
  }

  /** Raising a key keeps the queue sorted exactly when the next task's key is not passed. */
  lemma PenalizeKeeps(s: Sched, tid: Tid, amount: nat)
    requires Consistent(s)
    ensures Consistent(Penalize(s, tid, amount)) <==> RoomFor(s, PenalizeCall(tid, amount))
  {
    hide Waiting;
    var n := Penalize(s, tid, amount);
    forall x: Tid
      ensures Places(n, x) == if x in n.tasks then 1 else 0
    {
      assert Places(s, x) == if x in s.tasks then 1 else 0;
    }
    assert Marked(n);
    PenaltySorts(s, tid, amount);
  }

  lemma PenaltySorts(s: Sched, tid: Tid, amount: nat)
    requires Consistent(s)
    ensures var n := Penalize(s, tid, amount);
            Formed(n) && (Sorted(n.tasks, n.rq) <==> RoomFor(s, PenalizeCall(tid, amount)))
  {
    hide Placed;
    hide Marked;
    var n := Penalize(s, tid, amount);
    forall i, j | 0 <= i < j < |s.rq|
      ensures s.rq[i] != s.rq[j]
    {
      NoRepeats(s, i, j);
    }
    if Sorted(n.tasks, n.rq) {
      forall i | 0 <= i < |s.rq| - 1 && s.rq[i] == tid
        ensures s.tasks[tid].vruntime + amount <= s.tasks[s.rq[i + 1]].vruntime
      {
        assert n.tasks[n.rq[i]].vruntime <= n.tasks[n.rq[i + 1]].vruntime;
      }
    }
    if RoomFor(s, PenalizeCall(tid, amount)) {
      forall i, j | 0 <= i < j < |s.rq|
        ensures n.tasks[s.rq[i]].vruntime <= n.tasks[s.rq[j]].vruntime
      {
        assert s.tasks[s.rq[i]].vruntime <= s.tasks[s.rq[j]].vruntime;
        assert s.tasks[s.rq[i + 1]].vruntime <= s.tasks[s.rq[j]].vruntime;
      }
    }
  }

  /** Every call keeps the whole invariant exactly when there was room for it. */
  lemma CallKeepsIff(s: Sched, c: Call)
    requires Consistent(s)
    ensures Consistent(Perform(s, c)) <==> RoomFor(s, c)
  {
    hide Consistent;
    ConsistentIsFormed(s);
    match c
    case SpawnCall(memory) => SpawnKeeps(s, memory);
    case TickCall => TickKeeps(s);
    case YieldCall => YieldKeeps(s);
    case SleepCall(tag) => SleepKeeps(s, tag);
    case WakeUpCall(tag) => WakeUpKeeps(s, tag);
    case ExitCall => ExitKeeps(s);
    case StartCall => StartKeeps(s);
    case PenalizeCall(tid, amount) => PenalizeKeeps(s, tid, amount);
  }

  // ---- runs --------------------------------------------------------------------------------------------

  /** A run from the empty scheduler in which there is room for every call. */
  ghost predicate IsRun(states: seq<Sched>, calls: seq<Call>) {
    && |states| == |calls| + 1 && states[0] == INITIAL
    && (forall i :: 0 <= i < |calls| ==> Formed(states[i]) && RoomFor(states[i], calls[i]) && states[i + 1] == Perform(states[i], calls[i]))
  }

  lemma InitialIsConsistent()
    ensures Consistent(INITIAL)
  {
    assert Waiting([]) == [];
    forall t: Tid
      ensures Places(INITIAL, t) == 0
    {
    }
  }

  /** In every such run every task is in exactly one place, wears the state of that place, and
      the run queue stays sorted. */
  lemma {:induction false} RunsStayConsistent(states: seq<Sched>, calls: seq<Call>, i: nat)
    requires IsRun(states, calls) && i < |states|
    ensures Consistent(states[i])
  {
    if i == 0 {
      InitialIsConsistent();
    } else {
      RunsStayConsistent(states, calls, i - 1);
      CallKeepsIff(states[i - 1], calls[i - 1]);
    }
  }
}
