/**
 The counting semaphore of include/hermit/semaphore.h with untimed waits: the class works on the
 circular wait queue as the source does, each method one critical section under the semaphore's lock.
 */
module Semaphore {
  import opened Circular
  import opened Distinct

  /** The semaphore as a value: the resource count and the queued tasks, oldest first. */
  datatype Sem = Sem(value: nat, sleepers: seq<nat>)

  /** One pass of sem_wait by task t: take a resource, or queue up and sleep. */
  function Wait(s: Sem, t: nat): Sem {
    if s.value > 0 then s.(value := s.value - 1) else s.(sleepers := s.sleepers + [t])
  }

  /** sem_trywait. */
  function TryWait(s: Sem): Sem {
    if s.value > 0 then s.(value := s.value - 1) else s
  }

  /** sem_post: one more resource, and the oldest sleeper is woken. */
  function Post(s: Sem): Sem {
    Sem(s.value + 1, if s.sleepers == [] then [] else s.sleepers[1..])
  }

  /** The occupied slots of the wait queue are one circular window from rpos that holds exactly ids. */
  ghost predicate Window(queue: seq<nat>, rpos: nat, wpos: nat, ids: seq<nat>) {
    && 0 < |queue| && rpos < |queue| && |ids| <= |queue|
    && wpos == Advance(rpos, |ids|, |queue|)
    && NoDup(ids)
    && (forall i: nat :: i < |ids| ==> ids[i] < |queue|)
    && forall i: nat {:trigger queue[Advance(rpos, i, |queue|)]} :: i < |queue| ==>
         queue[Advance(rpos, i, |queue|)] == if i < |ids| then ids[i] else |queue|
  }

  lemma WindowPush(queue: seq<nat>, rpos: nat, wpos: nat, ids: seq<nat>, t: nat)
    requires Window(queue, rpos, wpos, ids) && t < |queue| && t !in ids
    ensures wpos < |queue| && Window(queue[wpos := t], rpos, Advance(wpos, 1, |queue|), ids + [t])
  {
    var n := |queue|;
    var ids' := ids + [t];
    Pigeonhole(ids', n);
    AdvanceAdd(rpos, |ids|, 1, n);
    var q' := queue[wpos := t];
    forall i: nat {:trigger q'[Advance(rpos, i, n)]} | i < n
      ensures q'[Advance(rpos, i, n)] == if i < |ids'| then ids'[i] else n
    {
      assert queue[Advance(rpos, i, n)] == if i < |ids| then ids[i] else n;
      if Advance(rpos, i, n) == wpos {
        AdvanceInjective(rpos, i, |ids|, n);
      }
    }
  }

  lemma PopSlot(queue: seq<nat>, rpos: nat, wpos: nat, ids: seq<nat>, i: nat)
    requires Window(queue, rpos, wpos, ids) && ids != [] && i < |queue|
    ensures queue[rpos := |queue|][Advance(Advance(rpos, 1, |queue|), i, |queue|)]
      == if i < |ids| - 1 then ids[i + 1] else |queue|
  {
    var n := |queue|;
    AdvanceAdd(rpos, 1, i, n);
    if i == n - 1 {
      AdvanceExact(rpos, n, n);
    } else {
      assert queue[Advance(rpos, i + 1, n)] == if i + 1 < |ids| then ids[i + 1] else n;
      AdvanceExact(rpos, i + 1, n);
    }
  }

  lemma WindowPop(queue: seq<nat>, rpos: nat, wpos: nat, ids: seq<nat>)
    requires Window(queue, rpos, wpos, ids) && ids != []
    ensures queue[rpos] == ids[0] && Window(queue[rpos := |queue|], Advance(rpos, 1, |queue|), wpos, ids[1..])
  {
    var n, q', r', ids' := |queue|, queue[rpos := |queue|], Advance(rpos, 1, |queue|), ids[1..];
    assert Advance(rpos, 0, n) == rpos;
    AdvanceAdd(rpos, 1, |ids'|, n);
    assert NoDup(ids') && forall i: nat :: i < |ids'| ==> ids'[i] == ids[i + 1];
    forall i: nat {:trigger q'[Advance(r', i, n)]} | i < n
      ensures q'[Advance(r', i, n)] == if i < |ids'| then ids'[i] else n
    {
      PopSlot(queue, rpos, wpos, ids, i);
    }
  }

  class SemT {
    var value: nat
    /** MAX_TASKS slots; a slot that holds MAX_TASKS is free. */
    var queue: array<nat>
    var wpos: nat
    var rpos: nat
    ghost var sleepers: seq<nat>

    ghost predicate Valid()
      reads this, queue
    {
      Window(queue[..], rpos, wpos, sleepers)
    }

    ghost function State(): Sem
      reads this
    {
      Sem(value, sleepers)
    }

    /** sem_init. */
    constructor (v: nat, maxTasks: nat)
      requires maxTasks > 0
      ensures Valid() && fresh(queue) && queue.Length == maxTasks && State() == Sem(v, [])
    {
      value := v;
      wpos, rpos := 0, 0;
      sleepers := [];
      var q := new nat[maxTasks];
      for i := 0 to maxTasks
        invariant forall j :: 0 <= j < i ==> q[j] == maxTasks
      {
        q[i] := maxTasks;
      }
      queue := q;
    }

    method TryWaitOnce() returns (ok: bool)
      requires Valid()
      modifies this`value
      ensures Valid() && State() == TryWait(old(State())) && ok == (old(value) > 0)
    {
      ok := value > 0;
      if ok {
        value := value - 1;
      }
    }

    /** One pass of the untimed retry loop; a task that must sleep is queued in the same critical section. */
    method WaitOnce(t: nat) returns (ok: bool)
      requires Valid() && t < queue.Length && t !in sleepers
      modifies this, queue
      ensures Valid() && queue == old(queue)
      ensures State() == Wait(old(State()), t) && ok == (old(value) > 0)
    {
      ok := value > 0;
      if ok {
        value := value - 1;
      } else {
        WindowPush(queue[..], rpos, wpos, sleepers, t);
        ghost var q := queue[..][wpos := t];
        queue[wpos] := t;
        assert queue[..] == q;
        wpos := Increment(wpos, queue.Length);
        sleepers := sleepers + [t];
      }
    }

    /** sem_post; woken is the task passed to wakeup_task, or MAX_TASKS. */
    method PostOnce() returns (woken: nat)
      requires Valid()
      modifies this, queue
      ensures Valid() && queue == old(queue)
      ensures State() == Post(old(State()))
      ensures woken == if old(sleepers) == [] then queue.Length else old(sleepers)[0]
    {
      value := value + 1;
      woken := queue.Length;
      assert Advance(rpos, 0, queue.Length) == rpos;
      if queue[rpos] < queue.Length {
        woken := queue[rpos];
        WindowPop(queue[..], rpos, wpos, sleepers);
        ghost var q := queue[..][rpos := queue.Length];
        queue[rpos] := queue.Length;
        assert queue[..] == q;
        rpos := Increment(rpos, queue.Length);
        sleepers := sleepers[1..];
      }
    }
  }
}
