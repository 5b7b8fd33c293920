/**
 The per-core scheduler of kernel/tasks.c on values: the task table, one ready-queue record a core,
 and what each kernel operation does to them. A list is the sequence of the task ids it links.
 The class Kernel (Kernel.dfy) performs the same operations on the intrusive next/prev links.
 */
module Scheduler {
  import opened Counting
  import opened Distinct

  const MAX_PRIO: nat := 31
  /** What msb() answers for an empty bitmap. */
  const NO_BIT: nat := 64
  /** The null task pointer. */
  const NONE: int := -1

  datatype Status = Invalid | Ready | Running | Blocked | Finished | Idle

  datatype Task = Task(status: Status, core: nat, prio: nat, timer: bool, timeout: nat)

  /** One readyqueues_t. The priority bitmap is the set of its set bits; queue[p - 1] serves priority p. */
  datatype Core = Core(
    idle: int, current: int, oldTask: int, nr: int, bitmap: set<nat>, queue: seq<seq<nat>>, timers: seq<nat>)

  datatype Sched = Sched(tasks: seq<Task>, cores: seq<Core>)

  datatype Error = Success | EInval | ENoMem

  // ---------- lists of task ids ----------

  function Without(ids: seq<nat>, t: nat): seq<nat> {
    if ids == [] then []
    else if ids[0] == t then ids[1..]
    else [ids[0]] + Without(ids[1..], t)
  }

  /** The position at which timer_queue_push inserts: before the first strictly later deadline. */
  function Position(tasks: seq<Task>, ids: seq<nat>, deadline: nat): (k: nat)
    requires forall i :: 0 <= i < |ids| ==> ids[i] < |tasks|
    ensures k <= |ids|
    ensures forall i :: 0 <= i < k ==> tasks[ids[i]].timeout <= deadline
    ensures k < |ids| ==> deadline < tasks[ids[k]].timeout
  {
    if ids == [] || deadline < tasks[ids[0]].timeout then 0
    else 1 + Position(tasks, ids[1..], deadline)
  }

  ghost predicate SortedByTimeout(tasks: seq<Task>, ids: seq<nat>) {
    && (forall i :: 0 <= i < |ids| ==> ids[i] < |tasks|)
    && forall i, j :: 0 <= i < j < |ids| ==> tasks[ids[i]].timeout <= tasks[ids[j]].timeout
  }

  // ---------- the highest set bit ----------

  function Highest(bitmap: set<nat>, top: nat): nat {
    if top in bitmap then top
    else if top == 0 then NO_BIT
    else Highest(bitmap, top - 1)
  }

  function Msb(bitmap: set<nat>): nat {
    Highest(bitmap, MAX_PRIO)
  }

  lemma {:induction false} HighestIsMax(bitmap: set<nat>, top: nat)
    requires top < NO_BIT
    requires forall b :: b in bitmap ==> b <= top
    ensures bitmap == {} ==> Highest(bitmap, top) == NO_BIT
    ensures bitmap != {} ==> Highest(bitmap, top) in bitmap
    ensures forall b :: b in bitmap ==> b <= Highest(bitmap, top)
  {
    if top !in bitmap {
      if top == 0 {
        assert bitmap == {};
      } else {
        HighestIsMax(bitmap, top - 1);
      }
    }
  }

  // ---------- the invariant ----------

  function RunnableOn(c: nat): Task -> bool {
    (t: Task) => t.core == c && (t.status == Ready || t.status == Running)
  }

  ghost predicate Booted(s: Sched, c: nat) {
    c < |s.cores| && s.cores[c].idle != NONE
  }

  /** The task belongs to a booted core and has one of its 31 queues. */
  ghost predicate Placed(s: Sched, t: nat) {
    && t < |s.tasks|
    && Booted(s, s.tasks[t].core)
    && |s.cores[s.tasks[t].core].queue| == MAX_PRIO
    && 1 <= s.tasks[t].prio <= MAX_PRIO
  }

  /** Where a task of each status is linked. */
  ghost predicate TaskOk(s: Sched, t: nat)
    requires t < |s.tasks|
  {
    var x := s.tasks[t];
    match x.status
    case Invalid => !x.timer
    case Idle => !x.timer && Booted(s, x.core) && s.cores[x.core].idle == t && x.prio == 0
    case Ready =>
      && !x.timer && Placed(s, t)
      && (s.cores[x.core].oldTask == t <==> t !in s.cores[x.core].queue[x.prio - 1])
    case Running => !x.timer && Placed(s, t) && s.cores[x.core].current == t && s.cores[x.core].oldTask != t
    case Blocked => Placed(s, t) && (x.timer ==> t in s.cores[x.core].timers)
    case Finished => !x.timer && Placed(s, t) && (s.cores[x.core].current == t || s.cores[x.core].oldTask == t)
  }

  ghost predicate CurrentOk(s: Sched, c: nat)
    requires c < |s.cores|
  {
    var k := s.cores[c];
    && 0 <= k.idle < |s.tasks| && s.tasks[k.idle].status == Idle && s.tasks[k.idle].core == c
    && 0 <= k.current < |s.tasks| && s.tasks[k.current].status != Invalid && s.tasks[k.current].core == c
  }

  /** A pending old_task waits for finish_task_switch: preempted or finished, no longer current. */
  ghost predicate OldOk(s: Sched, c: nat)
    requires c < |s.cores|
  {
    var k := s.cores[c];
    k.oldTask != NONE ==>
      && 0 <= k.oldTask < |s.tasks| && k.oldTask != k.current && s.tasks[k.oldTask].core == c
      && (s.tasks[k.oldTask].status == Ready || s.tasks[k.oldTask].status == Finished)
  }

  ghost predicate QueuesOk(s: Sched, c: nat)
    requires c < |s.cores|
  {
    var k := s.cores[c];
    && |k.queue| == MAX_PRIO
    && (forall p, i :: 0 <= p < MAX_PRIO && 0 <= i < |k.queue[p]| ==>
          && k.queue[p][i] < |s.tasks|
          && s.tasks[k.queue[p][i]].status == Ready
          && s.tasks[k.queue[p][i]].core == c
          && s.tasks[k.queue[p][i]].prio == p + 1)
    && (forall p :: 0 <= p < MAX_PRIO ==> NoDup(k.queue[p]))
  }

  ghost predicate BitmapOk(k: Core) {
    && |k.queue| == MAX_PRIO
    && (forall b :: b in k.bitmap ==> 1 <= b <= MAX_PRIO)
    && forall p :: 0 <= p < MAX_PRIO ==> (p + 1 in k.bitmap <==> k.queue[p] != [])
  }

  ghost predicate TimersOk(s: Sched, c: nat)
    requires c < |s.cores|
  {
    var ids := s.cores[c].timers;
    && (forall i :: 0 <= i < |ids| ==>
          && ids[i] < |s.tasks|
          && s.tasks[ids[i]].status == Blocked && s.tasks[ids[i]].timer && s.tasks[ids[i]].core == c)
    && NoDup(ids)
    && SortedByTimeout(s.tasks, ids)
  }

  ghost predicate CoreOk(s: Sched, c: nat)
    requires c < |s.cores|
  {
    var k := s.cores[c];
    && (if k.idle == NONE then k.oldTask == NONE else CurrentOk(s, c))
    && OldOk(s, c)
    && QueuesOk(s, c)
    && BitmapOk(k)
    && TimersOk(s, c)
    && k.nr == Count(s.tasks, RunnableOn(c))
  }

  ghost predicate Inv(s: Sched) {
    && (forall t: nat :: t < |s.tasks| ==> TaskOk(s, t))
    && (forall c: nat :: c < |s.cores| ==> CoreOk(s, c))
  }

  // ---------- the operations ----------

  /** readyqueues_push_back. */
  function Enqueue(k: Core, prio: nat, t: nat): Core
    requires |k.queue| == MAX_PRIO && 1 <= prio <= MAX_PRIO
  {
    k.(queue := k.queue[prio - 1 := k.queue[prio - 1] + [t]], bitmap := k.bitmap + {prio})
  }

  /** The pop in scheduler(), with the bitmap update that follows it. */
  function Dequeue(k: Core, prio: nat): Core
    requires |k.queue| == MAX_PRIO && 1 <= prio <= MAX_PRIO && k.queue[prio - 1] != []
  {
    var rest := k.queue[prio - 1][1..];
    k.(queue := k.queue[prio - 1 := rest], bitmap := if rest == [] then k.bitmap - {prio} else k.bitmap)
  }

  function FreeSlot(tasks: seq<Task>): (i: nat)
    ensures i <= |tasks|
    ensures i < |tasks| ==> tasks[i].status == Invalid
    ensures forall j :: 0 <= j < i ==> tasks[j].status != Invalid
  {
    if tasks == [] || tasks[0].status == Invalid then 0 else 1 + FreeSlot(tasks[1..])
  }

  /** set_idle_task on core c; multitasking_init is the same step for the boot core and slot 0. */
  function Boot(s: Sched, c: nat): Sched
    requires c < |s.cores|
  {
    var i := FreeSlot(s.tasks);
    if i == |s.tasks| then s
    else Sched(
      s.tasks[i := s.tasks[i].(status := Idle, core := c, prio := 0)],
      s.cores[c := s.cores[c].(idle := i, current := i)])
  }

  predicate CreateRefused(s: Sched, prio: nat, c: nat) {
    prio == 0 || prio > MAX_PRIO || c >= |s.cores| || s.cores[c].idle == NONE
  }

  /** create_task, and the tail of clone_task once it has chosen core c. */
  function Create(s: Sched, prio: nat, c: nat): Sched
    requires forall k :: 0 <= k < |s.cores| ==> |s.cores[k].queue| == MAX_PRIO
  {
    var i := FreeSlot(s.tasks);
    if CreateRefused(s, prio, c) || i == |s.tasks| then s
    else Sched(
      s.tasks[i := s.tasks[i].(status := Ready, core := c, prio := prio)],
      s.cores[c := Enqueue(s.cores[c], prio, i).(nr := s.cores[c].nr + 1)])
  }

  /** wakeup_task. */
  function Wakeup(s: Sched, t: nat): Sched
    requires t < |s.tasks| && (s.tasks[t].status == Blocked ==> Placed(s, t))
  {
    var x := s.tasks[t];
    if x.status != Blocked then s
    else
      var k := s.cores[x.core];
      var k1 := if x.timer then k.(timers := Without(k.timers, t)) else k;
      Sched(s.tasks[t := x.(status := Ready, timer := false)],
            s.cores[x.core := Enqueue(k1, x.prio, t).(nr := k.nr + 1)])
  }

  /** block_task. */
  function Block(s: Sched, t: nat): Sched
    requires t < |s.tasks| && (s.tasks[t].status == Running ==> s.tasks[t].core < |s.cores|)
  {
    var x := s.tasks[t];
    if x.status != Running then s
    else Sched(s.tasks[t := x.(status := Blocked)],
               s.cores[x.core := s.cores[x.core].(nr := s.cores[x.core].nr - 1)])
  }

  /** set_timer on core c. */
  function SetTimer(s: Sched, c: nat, deadline: nat): Sched
    requires c < |s.cores| && 0 <= s.cores[c].current < |s.tasks|
    requires s.tasks[s.cores[c].current].core == c
    requires forall i :: 0 <= i < |s.cores[c].timers| ==> s.cores[c].timers[i] < |s.tasks|
  {
    var t := s.cores[c].current;
    if s.tasks[t].status != Running then s
    else
      var s1 := Block(s, t);
      var k := s1.cores[c];
      var at := Position(s1.tasks, k.timers, deadline);
      Sched(s1.tasks[t := s1.tasks[t].(timer := true, timeout := deadline)],
            s1.cores[c := k.(timers := k.timers[..at] + [t] + k.timers[at..])])
  }

  /** scheduler() on core c with go_down == 0. */
  function Schedule(s: Sched, c: nat): (s': Sched)
    requires c < |s.cores| && CurrentOk(s, c) && QueuesOk(s, c) && BitmapOk(s.cores[c])
    ensures |s'.tasks| == |s.tasks| && |s'.cores| == |s.cores|
  {
    var k := s.cores[c];
    var curr := k.current;
    var x := s.tasks[curr];
    var k1 := k.(oldTask := if x.status == Finished then curr else NONE);
    var prio := Msb(k.bitmap);
    HighestIsMax(k.bitmap, MAX_PRIO);
    if prio > MAX_PRIO then
      if x.status == Running || x.status == Idle then s.(cores := s.cores[c := k1])
      else s.(cores := s.cores[c := k1.(current := k.idle)])
    else if x.prio > prio && x.status == Running then s.(cores := s.cores[c := k1])
    else
      var k2 := if x.status == Running then k1.(oldTask := curr) else k1;
      var ts := if x.status == Running then s.tasks[curr := x.(status := Ready)] else s.tasks;
      var t := k.queue[prio - 1][0];
      Sched(ts[t := ts[t].(status := Running)], s.cores[c := Dequeue(k2, prio).(current := t)])
  }

  /** finish_task_switch on core c. */
  function Finish(s: Sched, c: nat): Sched
    requires c < |s.cores| && |s.cores[c].queue| == MAX_PRIO
    requires s.cores[c].oldTask != NONE ==> 0 <= s.cores[c].oldTask < |s.tasks| && Placed(s, s.cores[c].oldTask)
  {
    var k := s.cores[c];
    var k1 := k.(oldTask := NONE);
    if k.oldTask == NONE then s
    else if s.tasks[k.oldTask].status == Finished then
      Sched(s.tasks[k.oldTask := s.tasks[k.oldTask].(status := Invalid)], s.cores[c := k1])
    else s.(cores := s.cores[c := Enqueue(k1, s.tasks[k.oldTask].prio, k.oldTask)])
  }

  /** do_exit by the task running on core c, up to its reschedule(). */
  function Exit(s: Sched, c: nat): Sched
    requires c < |s.cores| && 0 <= s.cores[c].current < |s.tasks|
  {
    var t := s.cores[c].current;
    Sched(s.tasks[t := s.tasks[t].(status := Finished)],
          s.cores[c := s.cores[c].(nr := s.cores[c].nr - 1)])
  }
}
