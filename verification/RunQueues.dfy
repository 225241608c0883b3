/** The run queue and the wait queue, kept in fixed arrays that are shifted in place. */
module RunQueues {
  import opened Options
  import opened Scheduling

  class CfsRq {
    const slots: array<Option<Tid>>
    var count: nat

    ghost predicate Valid()
      reads this, slots
    {
      && slots.Length == RQ_SIZE && count <= RQ_SIZE
      && (forall i :: 0 <= i < count ==> slots[i].Some?)
    }

    ghost function Contents(): (r: seq<Tid>)
      requires Valid()
      reads this, slots
      ensures |r| == count && forall i :: 0 <= i < count ==> r[i] == slots[i].value
    {
      seq(count, i requires 0 <= i < count reads this, slots requires slots.Length == RQ_SIZE && count <= RQ_SIZE && slots[i].Some? => slots[i].value)
    }

    constructor ()
      ensures Valid() && Contents() == [] && fresh(slots)
    {
      slots := new Option<Tid>[RQ_SIZE](_ => None);
      count := 0;
    }

    /** Moves up every task with more vruntime, leaving a gap. */
    method MakeRoom(tasks: Tasks, vruntime: nat) returns (i: nat)
      requires Valid() && count < RQ_SIZE && Known(tasks, Contents())
      modifies slots
      ensures i == InsertPos(tasks, old(Contents()), vruntime)
      ensures forall j :: 0 <= j < i ==> slots[j] == Some(old(Contents())[j])
      ensures forall j :: i < j <= count ==> slots[j] == Some(old(Contents())[j - 1])
    {
      hide InsertPos;
      ghost var rq := Contents();
      i := count;
      while i > 0
        invariant i <= count && Known(tasks, rq)
        invariant forall j :: 0 <= j < i ==> slots[j] == Some(rq[j])
        invariant forall j :: i < j <= count ==> slots[j] == Some(rq[j - 1])
        invariant forall j :: i <= j < count ==> tasks[rq[j]].vruntime > vruntime
      {
        if tasks[slots[i - 1].value].vruntime <= vruntime {
          break;
        }
        slots[i] := slots[i - 1];
        i := i - 1;
      }
      InsertPosIs(tasks, rq, vruntime, i);
    }

    /** Ordered insertion by shifting from the back; a full queue drops the task. */
    method Enqueue(tasks: Tasks, tid: Tid)
      requires Valid() && Known(tasks, Contents()) && tid in tasks
      modifies this, slots
      ensures Valid() && Contents() == Scheduling.Enqueue(tasks, old(Contents()), tid)
    {
      hide Insert;
      hide InsertPos;
      if count >= slots.Length {
        return;
      }
      ghost var rq := Contents();
      var i := MakeRoom(tasks, tasks[tid].vruntime);
      slots[i] := Some(tid);
      count := count + 1;
      InsertIs(tasks, rq, tid, Contents());
    }

    /** The front task leaves and the others move up. */
    method DequeueMin() returns (tid: Option<Tid>)
      requires Valid()
      modifies this, slots
      ensures Valid()
      ensures old(Contents()) == [] ==> tid == None && Contents() == []
      ensures old(Contents()) != [] ==> tid == Some(old(Contents())[0]) && Contents() == old(Contents())[1..]
    {
      if count == 0 {
        return None;
      }
      ghost var rq := Contents();
      tid := slots[0];
      slots[0] := None;
      count := count - 1;
      var i := 0;
      while i < count
        invariant 0 <= i <= count && |rq| == count + 1
        invariant forall j :: 0 <= j < i ==> slots[j] == Some(rq[j + 1])
        invariant forall j :: i < j <= count ==> slots[j] == Some(rq[j])
      {
        slots[i] := slots[i + 1];
        slots[i + 1] := None;
        i := i + 1;
      }
      assert Contents() == rq[1..];
    }
  }

  lemma InsertPosIs(tasks: Tasks, rq: seq<Tid>, vruntime: nat, i: nat)
    requires Known(tasks, rq) && i <= |rq|
    requires i > 0 ==> tasks[rq[i - 1]].vruntime <= vruntime
    requires forall j :: i <= j < |rq| ==> tasks[rq[j]].vruntime > vruntime
    ensures InsertPos(tasks, rq, vruntime) == i
  {
    hide InsertPos;
  }

  lemma InsertIs(tasks: Tasks, rq: seq<Tid>, tid: Tid, r: seq<Tid>)
    requires Known(tasks, rq) && tid in tasks && |r| == |rq| + 1
    requires var k := InsertPos(tasks, rq, tasks[tid].vruntime);
             && r[k] == tid
             && (forall i :: 0 <= i < k ==> r[i] == rq[i])
             && (forall i :: k < i < |r| ==> r[i] == rq[i - 1])
    ensures r == Insert(tasks, rq, tid)
  {
    hide InsertPos;
    var k := InsertPos(tasks, rq, tasks[tid].vruntime);
    assert r[..k] == rq[..k] && r[k + 1..] == rq[k..];
    assert r == r[..k] + [r[k]] + r[k + 1..];
  }

  lemma CutIs(wq: seq<Waiter>, i: nat, r: seq<Waiter>)
    requires i < |wq| && |r| == |wq| - 1
    requires forall k :: 0 <= k < i ==> r[k] == wq[k]
    requires forall k :: i <= k < |r| ==> r[k] == wq[k + 1]
    ensures r == wq[..i] + wq[i + 1..]
  {
  }

  class WaitQueue {
    const entries: array<Option<Tid>>
    const tags: array<nat>
    var count: nat

    ghost predicate Valid()
      reads this, entries
    {
      && entries.Length == WAIT_QUEUE_SIZE && tags.Length == WAIT_QUEUE_SIZE && count <= WAIT_QUEUE_SIZE
      && (forall i :: 0 <= i < count ==> entries[i].Some?)
    }

    ghost function Contents(): (r: seq<Waiter>)
      requires Valid()
      reads this, entries, tags
      ensures |r| == count && forall i :: 0 <= i < count ==> r[i] == Waiter(tags[i], entries[i].value)
    {
      seq(count, i requires 0 <= i < count reads this, entries, tags requires Valid() => Waiter(tags[i], entries[i].value))
    }

    constructor ()
      ensures Valid() && Contents() == [] && fresh(entries) && fresh(tags)
    {
      entries := new Option<Tid>[WAIT_QUEUE_SIZE](_ => None);
      tags := new nat[WAIT_QUEUE_SIZE](_ => 0);
      count := 0;
    }

    method Enqueue(tag: nat, tid: Tid)
      requires Valid()
      modifies this, entries, tags
      ensures Valid() && Contents() == Wait(old(Contents()), Waiter(tag, tid))
    {
      if count >= WAIT_QUEUE_SIZE {
        return;
      }
      ghost var wq := Contents();
      entries[count] := Some(tid);
      tags[count] := tag;
      count := count + 1;
      assert Contents() == wq + [Waiter(tag, tid)];
    }

    /** The first waiter on the tag leaves and those behind move up. */
    method Wake(tag: nat) returns (tid: Option<Tid>)
      requires Valid()
      modifies this, entries, tags
      ensures Valid()
      ensures var wq := old(Contents());
              var i := FirstWaiter(wq, tag);
              && (i == |wq| ==> tid == None && Contents() == wq)
              && (i < |wq| ==> tid == Some(wq[i].tid) && Contents() == wq[..i] + wq[i + 1..])
    {
      ghost var wq := Contents();
      var i := 0;
      while i < count
        invariant 0 <= i <= count && Contents() == wq && unchanged(this, entries, tags)
        invariant forall k :: 0 <= k < i ==> wq[k].tag != tag
      {
        if tags[i] == tag {
          FirstWaiterIs(wq, tag, i);
          tid := entries[i];
          CloseGap(i);
          return;
        }
        i := i + 1;
      }
      FirstWaiterIs(wq, tag, i);
      tid := None;
    }

    /** The entries behind `i` move up by one. */
    method MoveUp(i: nat)
      requires Valid() && i < count
      modifies entries, tags
      ensures forall k :: 0 <= k < i ==> entries[k] == old(entries[k]) && tags[k] == old(tags[k])
      ensures forall k :: i <= k < count - 1 ==> entries[k] == old(entries[k + 1]) && tags[k] == old(tags[k + 1])
    {
      var j := i;
      while j < count - 1
        invariant i <= j <= count - 1
        invariant forall k :: 0 <= k < i || j < k < count ==> entries[k] == old(entries[k]) && tags[k] == old(tags[k])
        invariant forall k :: i <= k < j ==> entries[k] == old(entries[k + 1]) && tags[k] == old(tags[k + 1])
      {
        entries[j] := entries[j + 1];
        tags[j] := tags[j + 1];
        j := j + 1;
      }
    }

    method CloseGap(i: nat)
      requires Valid() && i < count
      modifies this, entries, tags
      ensures Valid() && Contents() == old(Contents()[..i] + Contents()[i + 1..])
    {
      ghost var wq := Contents();
      MoveUp(i);
      entries[count - 1] := None;
      tags[count - 1] := 0;
      count := count - 1;
      CutIs(wq, i, Contents());
    }
  }

  lemma FirstWaiterIs(wq: seq<Waiter>, tag: nat, i: nat)
    requires i <= |wq| && (i < |wq| ==> wq[i].tag == tag)
    requires forall k :: 0 <= k < i ==> wq[k].tag != tag
    ensures FirstWaiter(wq, tag) == i
  {
    hide FirstWaiter;
  }
}
