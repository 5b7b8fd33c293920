/** The kernel operations one after the other: what holds after any sequence of calls. */
module KernelRuns {
  import opened Counting
  import opened KernelTasks
  import opened Scheduler
  import opened SchedulerEffects
  import opened SchedulerRuns
  import opened TaskLists

  lemma Extend(run: seq<Sched>, steps: seq<Step>, a: Step, s: Sched)
    requires IsRun(run, steps) && Inv(run[|steps|]) && Enabled(run[|steps|], a) && s == Apply(run[|steps|], a)
    ensures IsRun(run + [s], steps + [a])
  {
    var run', steps' := run + [s], steps + [a];
    forall i | 0 <= i < |steps'| && Inv(run'[i])
      ensures Enabled(run'[i], steps'[i]) && run'[i + 1] == Apply(run'[i], steps'[i])
    {
      if i < |steps| {
        assert run'[i] == run[i] && run'[i + 1] == run[i + 1] && steps'[i] == steps[i];
      }
    }
  }

  /** The kernel with the history of its operations. */
  class Machine {
    const kernel: Kernel
    ghost var run: seq<Sched>
    ghost var steps: seq<Step>

    ghost predicate Valid()
      reads this, kernel, kernel.table
    {
      kernel.Valid() && IsRun(run, steps) && run[|steps|] == kernel.model
    }

    /** multitasking_init on the boot core is the first step. */
    constructor (nTasks: nat, nCores: nat, boot: nat)
      requires nTasks > 0 && boot < nCores
      ensures Valid() && fresh(kernel) && fresh(kernel.table) && steps == [BootCore(boot)]
    {
      kernel := new Kernel(nTasks, nCores, boot);
      new;
      var blank := Blank(nTasks, nCores);
      InitInv(blank);
      run, steps := [blank], [];
      Extend(run, steps, BootCore(boot), kernel.model);
      run, steps := run + [kernel.model], steps + [BootCore(boot)];
    }

    /** The operation a has been performed. */
    ghost method Record(a: Step)
      requires kernel.Valid() && IsRun(run, steps) && Inv(run[|steps|]) && Enabled(run[|steps|], a)
      requires kernel.model == Apply(run[|steps|], a)
      modifies this`run, this`steps
      ensures Valid() && steps == old(steps) + [a] && run == old(run) + [kernel.model]
    {
      Extend(run, steps, a, kernel.model);
      run, steps := run + [kernel.model], steps + [a];
    }

    method Boot(c: nat) returns (id: nat)
      requires Valid() && c < |kernel.cores| && kernel.cores[c].idle == NONE
      modifies this, kernel
      ensures Valid() && steps == old(steps) + [BootCore(c)] && run == old(run) + [kernel.model]
    {
      id := kernel.BootCore(c);
      Record(BootCore(c));
    }

    method Create(prio: nat, c: nat) returns (ret: Error, id: nat)
      requires Valid()
      modifies this, kernel, kernel.table
      ensures Valid() && steps == old(steps) + [CreateTask(prio, c)] && run == old(run) + [kernel.model]
    {
      ret, id := kernel.CreateTask(prio, c);
      Record(CreateTask(prio, c));
    }

    method Clone(prio: nat, self: nat) returns (ret: Error, id: nat, c: nat)
      requires Valid() && self < |kernel.cores| && kernel.cores[self].idle != NONE
      modifies this, kernel, kernel.table
      ensures Valid() && steps == old(steps) + [CreateTask(prio, c)] && run == old(run) + [kernel.model]
    {
      ret, id, c := kernel.CloneTask(prio, self);
      Record(CreateTask(prio, c));
    }

    method Wakeup(t: nat) returns (ret: Error)
      requires Valid() && t < |kernel.tasks|
      modifies this, kernel, kernel.table
      ensures Valid() && steps == old(steps) + [WakeTask(t)] && run == old(run) + [kernel.model]
      ensures old(kernel.tasks)[t].status != Blocked ==> ret == EInval && kernel.model == old(kernel.model)
      ensures old(kernel.tasks)[t].status == Blocked ==> ret == Success && JoinedLast(old(kernel.model), t)
    {
      ghost var s := kernel.model;
      ret := kernel.WakeupTask(t);
      Record(WakeTask(t));
      WakeupEffect(s, t);
      if s.tasks[t].status == Blocked {
        LastLinked(s, t);
      }
    }

    /** The task is ready, and the links of its ready queue join the tasks that were there and it. */
    ghost predicate JoinedLast(s: Sched, t: nat)
      reads kernel, kernel.table
    {
      && t < |kernel.tasks| == |s.tasks| && kernel.tasks[t].status == Ready && !kernel.tasks[t].timer
      && var c, prio := s.tasks[t].core, s.tasks[t].prio;
         && c < |kernel.cores| == |s.cores| && |kernel.cores[c].queue| == |s.cores[c].queue| == MAX_PRIO >= prio >= 1
         && kernel.cores[c].queue[prio - 1].last == t
         && Linked(kernel.table.links, kernel.cores[c].queue[prio - 1], s.cores[c].queue[prio - 1] + [t])
    }

    lemma LastLinked(s: Sched, t: nat)
      requires kernel.Valid() && t < |s.tasks| && s.tasks[t].core < |s.cores|
      requires Elsewhere(s, kernel.model, t, s.tasks[t].core)
      requires Joins(s.cores[s.tasks[t].core], kernel.model.cores[s.tasks[t].core], s.tasks[t].prio, t)
      requires kernel.tasks[t].status == Ready && !kernel.tasks[t].timer
      ensures JoinedLast(s, t)
    {
      var w := ReadyQ(s.tasks[t].core, s.tasks[t].prio - 1);
      assert Linked(kernel.table.links, HeadOf(kernel.cores, kernel.model, w), ListOf(kernel.model, w));
    }

    method Block(t: nat) returns (ret: Error)
      requires Valid() && t < |kernel.tasks|
      modifies this, kernel, kernel.table
      ensures Valid() && steps == old(steps) + [BlockTask(t)] && run == old(run) + [kernel.model]
    {
      ret := kernel.BlockTask(t);
      Record(BlockTask(t));
    }

    method SetTimer(c: nat, deadline: nat) returns (ret: Error)
      requires Valid() && c < |kernel.cores| && kernel.cores[c].idle != NONE && kernel.cores[c].oldTask == NONE
      modifies this, kernel, kernel.table
      ensures Valid() && steps == old(steps) + [ArmTimer(c, deadline)] && run == old(run) + [kernel.model]
    {
      ret := kernel.SetTimer(c, deadline);
      Record(ArmTimer(c, deadline));
    }

    method CheckTimers(c: nat, tick: nat)
      requires Valid() && c < |kernel.cores| && kernel.cores[c].idle != NONE
      modifies this, kernel, kernel.table
      ensures Valid() && steps == old(steps) + [TimerTick(c, tick)] && run == old(run) + [kernel.model]
    {
      kernel.CheckTimers(c, tick);
      Record(TimerTick(c, tick));
    }

    method Schedule(c: nat) returns (switched: bool)
      requires Valid() && c < |kernel.cores| && kernel.cores[c].idle != NONE && kernel.cores[c].oldTask == NONE
      modifies this, kernel, kernel.table
      ensures Valid() && steps == old(steps) + [Reschedule(c)] && run == old(run) + [kernel.model]
    {
      switched := kernel.Schedule(c);
      Record(Reschedule(c));
    }

    method FinishTaskSwitch(c: nat)
      requires Valid() && c < |kernel.cores| && kernel.cores[c].idle != NONE
      modifies this, kernel, kernel.table
      ensures Valid() && steps == old(steps) + [FinishSwitch(c)] && run == old(run) + [kernel.model]
    {
      kernel.FinishTaskSwitch(c);
      Record(FinishSwitch(c));
    }

    method Exit(c: nat)
      requires Valid() && c < |kernel.cores| && kernel.cores[c].idle != NONE && kernel.cores[c].oldTask == NONE
      requires 0 <= kernel.cores[c].current < |kernel.tasks|
      requires kernel.tasks[kernel.cores[c].current].status == Running
      modifies this, kernel
      ensures Valid() && steps == old(steps) + [ExitTask(c)] && run == old(run) + [kernel.model]
    {
      kernel.Exit(c);
      Record(ExitTask(c));
    }

    /**
     After any sequence of calls the links of a ready queue join exactly the tasks that are ready on its
     core with its priority, but for a pending old_task; those of the timer queue join the tasks blocked
     with a timer; the bitmap tells which ready queues have a first task, and the counter is right.
     */
    lemma ListsExactly(c: nat, p: nat, t: nat)
      requires Valid() && c < |kernel.cores| && p < MAX_PRIO && t < |kernel.tasks|
      ensures |kernel.cores[c].queue| == MAX_PRIO
      ensures c < |kernel.model.cores| && |kernel.model.cores[c].queue| == MAX_PRIO
      ensures
        var k, x := kernel.cores[c], kernel.tasks[t];
        var ready, timers := kernel.model.cores[c].queue[p], kernel.model.cores[c].timers;
        && Linked(kernel.table.links, k.queue[p], ready) && Linked(kernel.table.links, k.timers, timers)
        && (t in ready <==> x.status == Ready && x.core == c && x.prio == p + 1 && k.oldTask != t)
        && (t in timers <==> x.status == Blocked && x.timer && x.core == c)
        && (p + 1 in k.bitmap <==> k.queue[p].first != NONE)
        && k.nr == Count(kernel.tasks, RunnableOn(c))
    {
      ListsExact(run, steps, |steps|, c, p, t);
      var s, w, w' := kernel.model, ReadyQ(c, p), TimerQ(c);
      assert Linked(kernel.table.links, HeadOf(kernel.cores, s, w), ListOf(s, w));
      assert Linked(kernel.table.links, HeadOf(kernel.cores, s, w'), ListOf(s, w'));
    }

    /** The pop of scheduler() finds a ready task of this core and of the priority looked for. */
    lemma PopFinds(c: nat)
      requires Valid() && c < |kernel.cores| && Msb(kernel.cores[c].bitmap) <= MAX_PRIO
      ensures
        var prio := Msb(kernel.cores[c].bitmap);
        && 1 <= prio && |kernel.cores[c].queue| == MAX_PRIO
        && var t := kernel.cores[c].queue[prio - 1].first;
           && 0 <= t < |kernel.tasks|
           && kernel.tasks[t].status == Ready && kernel.tasks[t].core == c && kernel.tasks[t].prio == prio
    {
      PopFindsTask(run, steps, |steps|, c);
      var w := ReadyQ(c, Msb(kernel.cores[c].bitmap) - 1);
      assert Linked(kernel.table.links, HeadOf(kernel.cores, kernel.model, w), ListOf(kernel.model, w));
    }
  }
}
