/** What each kernel operation does to the tasks and lists, and what it leaves alone. */
module SchedulerEffects {
  import opened Counting
  import opened Distinct
  import opened Scheduler
  import opened SchedulerInvariant
  import opened SchedulerRuns

  /** Only task t and core c may have changed. */
  ghost predicate Elsewhere(s: Sched, s': Sched, t: nat, c: nat) {
    && |s'.tasks| == |s.tasks| && |s'.cores| == |s.cores|
    && (forall u :: 0 <= u < |s.tasks| && u != t ==> s'.tasks[u] == s.tasks[u])
    && (forall d :: 0 <= d < |s.cores| && d != c ==> s'.cores[d] == s.cores[d])
  }

  /** Task t has joined the ready queue of priority prio of the core at its end and is counted. */
  ghost predicate Joins(k: Core, k': Core, prio: nat, t: nat) {
    && 1 <= prio <= MAX_PRIO && |k.queue| == |k'.queue| == MAX_PRIO
    && k'.queue[prio - 1] == k.queue[prio - 1] + [t] && prio in k'.bitmap
    && (forall p :: 0 <= p < MAX_PRIO && p != prio - 1 ==> k'.queue[p] == k.queue[p])
    && (forall b :: b != prio ==> (b in k'.bitmap <==> b in k.bitmap))
  }

  ghost predicate SameHeads(k: Core, k': Core) {
    k'.idle == k.idle && k'.current == k.current && k'.oldTask == k.oldTask
  }

  /** set_idle_task: the first free slot becomes the idle and current task of the core. */
  lemma BootEffect(s: Sched, c: nat)
    requires Inv(s) && c < |s.cores| && s.cores[c].idle == NONE
    ensures
      var i, s' := FreeSlot(s.tasks), Boot(s, c);
      && (i == |s.tasks| ==> s' == s)
      && (i < |s.tasks| ==>
            && s.tasks[i].status == Invalid && Elsewhere(s, s', i, c)
            && s'.tasks[i].status == Idle && s'.tasks[i].core == c && s'.tasks[i].prio == 0
            && s'.cores[c].idle == i && s'.cores[c].current == i && s'.cores[c].queue == s.cores[c].queue
            && s'.cores[c].nr == s.cores[c].nr && s'.cores[c].timers == s.cores[c].timers)
  {}

  /** create_task: the first free slot is ready on core c with the priority, last in its queue. */
  lemma CreateEffect(s: Sched, prio: nat, c: nat)
    requires Inv(s)
    ensures forall k :: 0 <= k < |s.cores| ==> |s.cores[k].queue| == MAX_PRIO
    ensures
      var i, s' := FreeSlot(s.tasks), Create(s, prio, c);
      if 1 <= prio <= MAX_PRIO && Booted(s, c) && i < |s.tasks| then
        && s.tasks[i].status == Invalid && Elsewhere(s, s', i, c)
        && s'.tasks[i].status == Ready && s'.tasks[i].core == c && s'.tasks[i].prio == prio && !s'.tasks[i].timer
        && Joins(s.cores[c], s'.cores[c], prio, i) && SameHeads(s.cores[c], s'.cores[c])
        && s'.cores[c].nr == s.cores[c].nr + 1 && s'.cores[c].timers == s.cores[c].timers
      else s' == s
  {
    CreateKeeps(s, prio, c);
    var i := FreeSlot(s.tasks);
    assert i < |s.tasks| ==> TaskOk(s, i);
  }

  /** wakeup_task: a blocked task, with or without a timer, is ready and last in its queue; any other stays as it is. */
  lemma WakeupEffect(s: Sched, t: nat)
    requires Inv(s) && t < |s.tasks|
    ensures s.tasks[t].status == Blocked ==> Placed(s, t)
    ensures
      var s', x := Wakeup(s, t), s.tasks[t];
      if x.status != Blocked then s' == s
      else
        var k, k' := s.cores[x.core], s'.cores[x.core];
        && Elsewhere(s, s', t, x.core)
        && s'.tasks[t] == Task(Ready, x.core, x.prio, false, x.timeout)
        && Joins(k, k', x.prio, t) && SameHeads(k, k') && k'.nr == k.nr + 1
        && (!x.timer ==> k'.timers == k.timers)
        && (x.timer ==> t in k.timers)
        && (forall i: nat :: i < |k.timers| && k.timers[i] == t ==> k'.timers == RemoveAt(k.timers, i))
  {
    assert TaskOk(s, t);
    var s', x := Wakeup(s, t), s.tasks[t];
    if x.status == Blocked {
      var k, k' := s.cores[x.core], s'.cores[x.core];
      assert CoreOk(s, x.core);
      forall i: nat | i < |k.timers| && k.timers[i] == t ensures k'.timers == RemoveAt(k.timers, i) {
        WithoutAt(k.timers, i);
      }
    }
  }

  /** block_task: a running task is blocked without a timer and no longer counted; the lists stay. */
  lemma BlockEffect(s: Sched, t: nat)
    requires Inv(s) && t < |s.tasks|
    ensures s.tasks[t].status == Running ==> s.tasks[t].core < |s.cores|
    ensures
      var s', x := Block(s, t), s.tasks[t];
      if x.status != Running then s' == s
      else
        var k, k' := s.cores[x.core], s'.cores[x.core];
        && Elsewhere(s, s', t, x.core)
        && s'.tasks[t] == Task(Blocked, x.core, x.prio, false, x.timeout)
        && k'.nr == k.nr - 1 && SameHeads(k, k')
        && k'.queue == k.queue && k'.bitmap == k.bitmap && k'.timers == k.timers
  {
    assert TaskOk(s, t);
  }

  /** set_timer: a running task is blocked with the deadline and queued behind exactly those due no later. */
  lemma SetTimerEffect(s: Sched, c: nat, deadline: nat)
    requires Inv(s) && Booted(s, c)
    ensures 0 <= s.cores[c].current < |s.tasks| && s.tasks[s.cores[c].current].core == c
    ensures forall i :: 0 <= i < |s.cores[c].timers| ==> s.cores[c].timers[i] < |s.tasks|
    ensures
      var s', t, k := SetTimer(s, c, deadline), s.cores[c].current, s.cores[c];
      if s.tasks[t].status != Running then s' == s
      else
        var at, k' := Position(s.tasks, k.timers, deadline), s'.cores[c];
        && Elsewhere(s, s', t, c)
        && s'.tasks[t] == Task(Blocked, c, s.tasks[t].prio, true, deadline)
        && k'.timers == InsertAt(k.timers, at, t) && SplitsAt(s.tasks, k.timers, deadline, at)
        && k'.nr == k.nr - 1 && SameHeads(k, k') && k'.queue == k.queue && k'.bitmap == k.bitmap
  {
    SetTimerKeeps(s, c, deadline);
    assert CoreOk(s, c);
    var t, ids := s.cores[c].current, s.cores[c].timers;
    assert TaskOk(s, t);
    if s.tasks[t].status == Running {
      PositionSame(s.tasks, Block(s, t).tasks, ids, deadline);
      assert t !in ids;
      InsertSorted(s.tasks, ids, t, deadline);
    }
  }

  lemma {:induction false} PositionSame(tasks: seq<Task>, tasks': seq<Task>, ids: seq<nat>, deadline: nat)
    requires |tasks| == |tasks'| && forall i :: 0 <= i < |ids| ==> ids[i] < |tasks|
    requires forall i :: 0 <= i < |ids| ==> tasks'[ids[i]].timeout == tasks[ids[i]].timeout
    ensures Position(tasks', ids, deadline) == Position(tasks, ids, deadline)
  {
    if ids != [] {
      PositionSame(tasks, tasks', ids[1..], deadline);
    }
  }

  /** finish_task_switch: a finished old task frees its slot, a preempted one is last in its queue; none is pending. */
  lemma FinishEffect(s: Sched, c: nat)
    requires Inv(s) && c < |s.cores|
    ensures |s.cores[c].queue| == MAX_PRIO
    ensures s.cores[c].oldTask != NONE ==> 0 <= s.cores[c].oldTask < |s.tasks| && Placed(s, s.cores[c].oldTask)
    ensures
      var s', o, k := Finish(s, c), s.cores[c].oldTask, s.cores[c];
      if o == NONE then s' == s
      else
        var k' := s'.cores[c];
        && Elsewhere(s, s', o, c) && k'.oldTask == NONE && k'.idle == k.idle && k'.current == k.current
        && k'.nr == k.nr && k'.timers == k.timers
        && (if s.tasks[o].status == Finished then
              s'.tasks[o].status == Invalid && k'.queue == k.queue && k'.bitmap == k.bitmap
            else
              s.tasks[o].status == Ready && s'.tasks[o] == s.tasks[o] && Joins(k, k', s.tasks[o].prio, o))
  {
    FinishKeeps(s, c);
    assert CoreOk(s, c);
  }

  /** do_exit: the running task is finished and no longer counted. */
  lemma ExitEffect(s: Sched, c: nat)
    requires Inv(s) && Booted(s, c) && 0 <= s.cores[c].current < |s.tasks|
    requires s.tasks[s.cores[c].current].status == Running
    ensures
      var s', t, k := Exit(s, c), s.cores[c].current, s.cores[c];
      && Elsewhere(s, s', t, c) && s'.tasks[t] == s.tasks[t].(status := Finished) && s'.cores[c].nr == k.nr - 1
      && SameHeads(k, s'.cores[c]) && s'.cores[c].queue == k.queue && s'.cores[c].bitmap == k.bitmap
      && s'.cores[c].timers == k.timers
  {}

  /** The front task of the ready queue for priority p + 1 runs; a task that ran, or has finished, is pending. */
  ghost predicate Switched(s: Sched, s': Sched, c: nat, p: nat)
    requires c < |s.cores| && CurrentOk(s, c) && QueuesOk(s, c) && p < MAX_PRIO && s.cores[c].queue[p] != []
  {
    var k, curr, t := s.cores[c], s.cores[c].current, s.cores[c].queue[p][0];
    var x, rest := s.tasks[curr], k.queue[p][1..];
    && |s'.tasks| == |s.tasks| && |s'.cores| == |s.cores| && s'.tasks[t] == s.tasks[t].(status := Running)
    && (curr != t ==> s'.tasks[curr] == if x.status == Running then x.(status := Ready) else x)
    && (forall u :: 0 <= u < |s.tasks| && u != t && u != curr ==> s'.tasks[u] == s.tasks[u])
    && (forall d :: 0 <= d < |s.cores| && d != c ==> s'.cores[d] == s.cores[d])
    && var k' := s'.cores[c];
       && k'.current == t && k'.oldTask == (if x.status == Running || x.status == Finished then curr else NONE)
       && |k'.queue| == MAX_PRIO && k'.queue[p] == rest && (p + 1 in k'.bitmap <==> rest != [])
       && (forall q :: 0 <= q < MAX_PRIO && q != p ==> k'.queue[q] == k.queue[q])
       && k'.idle == k.idle && k'.nr == k.nr && k'.timers == k.timers
  }

  /** No task changes; a core whose task no longer runs turns to its idle task. */
  ghost predicate Stayed(s: Sched, s': Sched, c: nat)
    requires c < |s.cores| && CurrentOk(s, c)
  {
    var k, curr := s.cores[c], s.cores[c].current;
    var x := s.tasks[curr];
    && s'.tasks == s.tasks && |s'.cores| == |s.cores|
    && (forall d :: 0 <= d < |s.cores| && d != c ==> s'.cores[d] == s.cores[d])
    && var k' := s'.cores[c];
       && k'.current == (if x.status == Running || x.status == Idle then curr else k.idle)
       && k'.oldTask == (if x.status == Finished then curr else NONE)
       && k'.queue == k.queue && k'.bitmap == k.bitmap && k'.idle == k.idle && k'.nr == k.nr && k'.timers == k.timers
  }

  /** Queue p is the highest that is not empty, and the current task does not run above it. */
  ghost predicate Beats(s: Sched, c: nat, p: nat)
    requires c < |s.cores| && CurrentOk(s, c) && QueuesOk(s, c)
  {
    var k, x := s.cores[c], s.tasks[s.cores[c].current];
    && p < MAX_PRIO && k.queue[p] != [] && (forall q :: p < q < MAX_PRIO ==> k.queue[q] == [])
    && (x.status == Running ==> x.prio <= p + 1)
  }

  lemma BeatsSwitches(s: Sched, c: nat, p: nat)
    requires Booted(s, c) && CurrentOk(s, c) && QueuesOk(s, c) && BitmapOk(s.cores[c]) && Beats(s, c, p)
    ensures Switched(s, Schedule(s, c), c, p)
  {
    HighestIsMax(s.cores[c].bitmap, MAX_PRIO);
    assert p + 1 in s.cores[c].bitmap;
  }

  /** scheduler() switches to the front of the highest queue exactly if the current task does not run above it. */
  lemma ScheduleEffect(s: Sched, c: nat)
    requires Inv(s) && Booted(s, c) && s.cores[c].oldTask == NONE
    ensures CurrentOk(s, c) && QueuesOk(s, c) && BitmapOk(s.cores[c])
    ensures forall p: nat :: Beats(s, c, p) ==> Switched(s, Schedule(s, c), c, p)
    ensures (forall p: nat :: !Beats(s, c, p)) ==> Stayed(s, Schedule(s, c), c)
  {
    assert CoreOk(s, c) && TaskOk(s, s.cores[c].current);
    var k, prio := s.cores[c], Msb(s.cores[c].bitmap);
    HighestIsMax(k.bitmap, MAX_PRIO);
    forall p: nat | Beats(s, c, p) ensures Switched(s, Schedule(s, c), c, p) {
      BeatsSwitches(s, c, p);
    }
    if 1 <= prio <= MAX_PRIO && !(s.tasks[k.current].status == Running && s.tasks[k.current].prio > prio) {
      assert forall q :: prio - 1 < q < MAX_PRIO ==> (q + 1 in k.bitmap <==> k.queue[q] != []);
      assert Beats(s, c, prio - 1);
    }
  }

  // ---------- the end of a task ----------

  /** A finished task stays so whatever happens, until its own core finishes the switch away from it. */
  lemma FinishedStays(s: Sched, a: Step, t: nat)
    requires Inv(s) && Enabled(s, a) && t < |s.tasks| && s.tasks[t].status == Finished
    requires a.FinishSwitch? ==> s.cores[a.c].oldTask != t
    ensures t < |Apply(s, a).tasks| && Apply(s, a).tasks[t] == s.tasks[t]
  {
    match a
    case BootCore(c) => BootEffect(s, c);
    case CreateTask(prio, c) => CreateEffect(s, prio, c);
    case WakeTask(u) => WakeupEffect(s, u);
    case BlockTask(u) => BlockEffect(s, u);
    case ArmTimer(c, deadline) => SetTimerEffect(s, c, deadline);
    case TimerTick(c, tick) => TickSpares(s, c, tick, t);
    case Reschedule(c) => ScheduleSpares(s, c, t);
    case FinishSwitch(c) => FinishEffect(s, c);
    case ExitTask(c) => ExitEffect(s, c);
  }

  lemma TickSpares(s: Sched, c: nat, tick: nat, t: nat)
    requires Inv(s) && c < |s.cores| && t < |s.tasks| && s.tasks[t].status == Finished
    ensures |CheckTimers(s, c, tick).tasks| == |s.tasks| && CheckTimers(s, c, tick).tasks[t] == s.tasks[t]
  {
    var k := CheckTimersExact(s, c, tick);
    assert CoreOk(s, c);
    var ids := s.cores[c].timers;
    assert forall i :: 0 <= i < k ==> ids[..k][i] == ids[i];
  }

  lemma ScheduleSpares(s: Sched, c: nat, t: nat)
    requires Inv(s) && Booted(s, c) && s.cores[c].oldTask == NONE && t < |s.tasks| && s.tasks[t].status == Finished
    ensures CurrentOk(s, c) && QueuesOk(s, c) && BitmapOk(s.cores[c])
    ensures |Schedule(s, c).tasks| == |s.tasks| && Schedule(s, c).tasks[t] == s.tasks[t]
  {
    ScheduleEffect(s, c);
    if p: nat :| Beats(s, c, p) {
      assert Switched(s, Schedule(s, c), c, p);
    }
  }

  /**
   After do_exit, scheduler() and finish_task_switch the slot of the task is free: the next create_task
   finds it or an earlier one. A wakeup of the task in between fails and changes nothing.
   */
  lemma ExitFreesSlot(s: Sched, c: nat)
    requires Inv(s) && Enabled(s, ExitTask(c))
    ensures
      var t, s1 := s.cores[c].current, Apply(s, ExitTask(c));
      && Enabled(s1, Reschedule(c)) && s1.tasks[t].status == Finished && Apply(s1, WakeTask(t)) == s1
      && var s2 := Apply(s1, Reschedule(c));
         && Enabled(s2, FinishSwitch(c)) && |s2.tasks| == |s.tasks|
         && s2.tasks[t].status == Finished && s2.cores[c].oldTask == t && Apply(s2, WakeTask(t)) == s2
         && var s3 := Apply(s2, FinishSwitch(c));
            && |s3.tasks| == |s.tasks| && s3.tasks[t].status == Invalid && FreeSlot(s3.tasks) <= t
            && s3.cores[c].oldTask == NONE && s3.cores[c].current != t
  {
    var t, s1 := s.cores[c].current, Apply(s, ExitTask(c));
    assert CoreOk(s, c) && TaskOk(s, t);
    ExitEffect(s, c);
    WakeupEffect(s1, t);
    ExitSwitches(s1, c, t);
    var s2 := Apply(s1, Reschedule(c));
    WakeupEffect(s2, t);
    FinishEffect(s2, c);
  }

  lemma ExitSwitches(s: Sched, c: nat, t: nat)
    requires Inv(s) && Booted(s, c) && s.cores[c].oldTask == NONE && s.cores[c].current == t < |s.tasks|
    requires s.tasks[t].status == Finished
    ensures Enabled(s, Reschedule(c))
    ensures
      var s2 := Apply(s, Reschedule(c));
      && |s2.tasks| == |s.tasks| && Booted(s2, c) && s2.cores[c].oldTask == t && s2.cores[c].current != t
      && s2.tasks[t].status == Finished
  {
    ScheduleSpares(s, c, t);
    ScheduleEffect(s, c);
    assert CoreOk(s, c) && TaskOk(s, s.cores[c].idle);
    if p: nat :| Beats(s, c, p) {
      assert Switched(s, Schedule(s, c), c, p);
    }
  }
}
