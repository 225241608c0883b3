/** The scheduler object: a task table, a run queue, a wait queue and the running task, all
    updated in place. Every method is proved to do what the call of the same name does to the
    abstract state. A context switch is the assignment to `current`. */
module SchedCalls {
  import opened Options
  import opened Scheduling
  import opened RunQueues

  class Scheduler {
    const rq: CfsRq
    const waitQueue: WaitQueue
    var tasks: Tasks
    var current: Option<Tid>
    var nextTid: Tid
    var ticks: nat
    var sliceTicks: nat
    ghost var exited: set<Tid>

    ghost predicate Valid()
      reads this, rq, rq.slots, waitQueue, waitQueue.entries, waitQueue.tags
    {
      rq.Valid() && waitQueue.Valid() && Formed(State())
    }

    ghost function State(): Sched
      requires rq.Valid() && waitQueue.Valid()
      reads this, rq, rq.slots, waitQueue, waitQueue.entries, waitQueue.tags
    {
      Sched(tasks, current, rq.Contents(), waitQueue.Contents(), exited, nextTid, ticks, sliceTicks)
    }

    constructor ()
      ensures Valid() && State() == INITIAL
    {
      rq := new CfsRq();
      waitQueue := new WaitQueue();
      tasks := map[];
      current := None;
      nextTid := 1;
      ticks := 0;
      sliceTicks := 0;
      exited := {};
    }

    /** `memory` says whether the allocators find room for the task and its stack. */
    method SpawnThread(memory: bool) returns (tid: Option<Tid>)
      requires Valid()
      modifies this, rq, rq.slots
      ensures Valid() && State() == Spawn(old(State()), memory)
      ensures tid == if memory then Some(old(nextTid)) else None
    {
      hide Enqueue;
      var t := nextTid;
      nextTid := nextTid + 1;
      if !memory {
        return None;
      }
      tasks := tasks[t := Task(Ready, 0)];
      rq.Enqueue(tasks, t);
      tid := Some(t);
    }

    method Tick()
      requires Valid()
      modifies this
      ensures Valid() && State() == Scheduling.Tick(old(State()))
    {
      ticks := ticks + 1;
      if current.Some? {
        var c := current.value;
        tasks := tasks[c := tasks[c].(vruntime := tasks[c].vruntime + 1)];
        sliceTicks := sliceTicks + 1;
      }
    }

    method SetState(tid: Tid, state: TaskState)
      requires Valid() && tid in tasks
      modifies this`tasks
      ensures Valid() && State() == old(State()).(tasks := WithState(old(tasks), tid, state))
    {
      tasks := tasks[tid := tasks[tid].(state := state)];
    }

    /** The front of the run queue, if any, becomes the running task. */
    method SwitchToNext() returns (picked: bool)
      requires Valid()
      modifies this, rq, rq.slots
      ensures Valid() && State() == Dispatch(old(State())) && picked == (old(rq.Contents()) != [])
    {
      var next := rq.DequeueMin();
      picked := next.Some?;
      if picked {
        tasks := tasks[next.value := tasks[next.value].(state := Running)];
        current := next;
      }
    }

    method YieldNow()
      requires Valid()
      modifies this, rq, rq.slots
      ensures Valid() && State() == Yield(old(State()))
    {
      hide Enqueue;
      hide Dispatch;
      sliceTicks := 0;
      if rq.count == 0 {
        return;
      }
      var cur := current;
      current := None;
      if cur.Some? {
        SetState(cur.value, Ready);
        rq.Enqueue(tasks, cur.value);
      }
      var picked := SwitchToNext();
    }

    method SleepOn(tag: nat)
      requires Valid()
      modifies this, rq, rq.slots, waitQueue, waitQueue.entries, waitQueue.tags
      ensures Valid() && State() == Sleep(old(State()), tag)
    {
      var cur := current;
      current := None;
      if cur.Some? {
        SetState(cur.value, Blocked);
        waitQueue.Enqueue(tag, cur.value);
      }
      var picked := SwitchToNext();
    }

    method WakeUp(tag: nat)
      requires Valid()
      modifies this, rq, rq.slots, waitQueue, waitQueue.entries, waitQueue.tags
      ensures Valid() && State() == Scheduling.WakeUp(old(State()), tag)
    {
      hide Enqueue;
      hide FirstWaiter;
      var task := waitQueue.Wake(tag);
      if task.Some? {
        tasks := tasks[task.value := tasks[task.value].(state := Ready)];
        rq.Enqueue(tasks, task.value);
      }
    }

    method Exit()
      requires Valid()
      modifies this, rq, rq.slots
      ensures Valid() && State() == Scheduling.Exit(old(State()))
    {
      var cur := current;
      current := None;
      if cur.Some? {
        SetState(cur.value, Zombie);
        exited := exited + {cur.value};
      }
      var picked := SwitchToNext();
    }

    /** False when no task is queued, where `start` panics. */
    method Start() returns (started: bool)
      requires Valid()
      modifies this, rq, rq.slots
      ensures Valid() && State() == Dispatch(old(State())) && started == (old(rq.Contents()) != [])
    {
      started := SwitchToNext();
    }

    method PenalizeTid(tid: Tid, amount: nat)
      requires Valid()
      modifies this
      ensures Valid() && State() == Penalize(old(State()), tid, amount)
    {
      if current == Some(tid) {
        tasks := tasks[tid := tasks[tid].(vruntime := tasks[tid].vruntime + amount)];
        return;
      }
      var i := 0;
      while i < rq.count
        invariant 0 <= i <= rq.count && unchanged(this)
        invariant forall k :: 0 <= k < i ==> rq.Contents()[k] != tid
      {
        if rq.slots[i] == Some(tid) {
          assert tid == rq.Contents()[i];
          tasks := tasks[tid := tasks[tid].(vruntime := tasks[tid].vruntime + amount)];
          return;
        }
        i := i + 1;
      }
    }
  }
}
