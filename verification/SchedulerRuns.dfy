/** What the scheduler invariant gives: every run, timer expiry, the choice of scheduler(), round robin. */
module SchedulerRuns {
  import opened Counting
  import opened Distinct
  import opened Scheduler
  import opened SchedulerInvariant

  // ---------- check_timers ----------

  lemma WakeHead(s: Sched, c: nat)
    requires Inv(s) && c < |s.cores| && s.cores[c].timers != []
    ensures var t := s.cores[c].timers[0];
      && t < |s.tasks| && s.tasks[t].status == Blocked && s.tasks[t].core == c && Placed(s, t)
      && Inv(Wakeup(s, t))
      && |Wakeup(s, t).cores| == |s.cores|
      && Wakeup(s, t).cores[c].timers == s.cores[c].timers[1..]
  {
    var t := s.cores[c].timers[0];
    assert CoreOk(s, c);
    WakeupKeeps(s, t);
  }

  /** check_timers on core c: wake the head of the timer queue while its deadline has passed. */
  ghost function CheckTimers(s: Sched, c: nat, tick: nat): Sched
    requires Inv(s) && c < |s.cores|
    decreases |s.cores[c].timers|
  {
    var ids := s.cores[c].timers;
    if ids == [] then s
    else
      WakeHead(s, c);
      if s.tasks[ids[0]].timeout > tick then s else CheckTimers(Wakeup(s, ids[0]), c, tick)
  }

  /** The tasks of ids that have the given priority, in order. */
  function OfPrio(tasks: seq<Task>, ids: seq<nat>, prio: nat): seq<nat>
    requires forall i :: 0 <= i < |ids| ==> ids[i] < |tasks|
  {
    if ids == [] then []
    else (if tasks[ids[0]].prio == prio then [ids[0]] else []) + OfPrio(tasks, ids[1..], prio)
  }

  ghost predicate TimersInRange(s: Sched, c: nat) {
    c < |s.cores| && forall i :: 0 <= i < |s.cores[c].timers| ==> s.cores[c].timers[i] < |s.tasks|
  }

  /** Exactly the first k timers of core c have been woken, in deadline order, and nothing else changed. */
  ghost predicate WokenPrefix(s: Sched, s': Sched, c: nat, k: nat) {
    && TimersInRange(s, c) && k <= |s.cores[c].timers| && |s.cores[c].queue| == MAX_PRIO
    && var ids, q := s.cores[c].timers, s.cores[c].queue;
    && |s'.tasks| == |s.tasks| && |s'.cores| == |s.cores| && |s'.cores[c].queue| == MAX_PRIO
    && (forall t :: 0 <= t < |s.tasks| ==>
          s'.tasks[t] == if t in ids[..k] then s.tasks[t].(status := Ready, timer := false) else s.tasks[t])
    && (forall p :: 0 <= p < MAX_PRIO ==> s'.cores[c].queue[p] == q[p] + OfPrio(s.tasks, ids[..k], p + 1))
    && s'.cores[c].timers == ids[k..]
    && s'.cores[c].nr == s.cores[c].nr + k
    && s'.cores[c].idle == s.cores[c].idle && s'.cores[c].current == s.cores[c].current
    && s'.cores[c].oldTask == s.cores[c].oldTask
    && (forall d :: 0 <= d < |s.cores| && d != c ==> s'.cores[d] == s.cores[d])
  }

  lemma {:induction false} OfPrioSame(tasks: seq<Task>, tasks': seq<Task>, ids: seq<nat>, prio: nat)
    requires |tasks| == |tasks'| && forall i :: 0 <= i < |ids| ==> ids[i] < |tasks|
    requires forall i :: 0 <= i < |ids| ==> tasks'[ids[i]].prio == tasks[ids[i]].prio
    ensures OfPrio(tasks, ids, prio) == OfPrio(tasks', ids, prio)
  {
    if ids != [] {
      OfPrioSame(tasks, tasks', ids[1..], prio);
    }
  }

  lemma WokenOnce(s: Sched, c: nat)
    requires Inv(s) && c < |s.cores| && s.cores[c].timers != []
    requires var t := s.cores[c].timers[0];
      t < |s.tasks| && s.tasks[t].status == Blocked && s.tasks[t].timer && s.tasks[t].core == c && Placed(s, t)
    ensures WokenPrefix(s, Wakeup(s, s.cores[c].timers[0]), c, 1)
  {
    var ids, t := s.cores[c].timers, s.cores[c].timers[0];
    var s' := Wakeup(s, t);
    assert CoreOk(s, c);
    assert ids[..1] == [t];
    forall p | 0 <= p < MAX_PRIO
      ensures s'.cores[c].queue[p] == s.cores[c].queue[p] + OfPrio(s.tasks, ids[..1], p + 1)
    {
      assert OfPrio(s.tasks, ids[..1][1..], p + 1) == [];
    }
  }

  /** The ready queues after the first timer and then k more have been woken. */
  lemma QueuesCompose(s: Sched, s1: Sched, s2: Sched, c: nat, k: nat, p: nat)
    requires WokenPrefix(s, s1, c, 1) && WokenPrefix(s1, s2, c, k) && p < MAX_PRIO && k < |s.cores[c].timers|
    ensures s2.cores[c].queue[p] == s.cores[c].queue[p] + OfPrio(s.tasks, s.cores[c].timers[..k + 1], p + 1)
  {
    var ids, ids1 := s.cores[c].timers, s1.cores[c].timers;
    OfPrioSame(s.tasks, s1.tasks, ids1[..k], p + 1);
    assert ids[..k + 1][1..] == ids1[..k] && ids[..1] == [ids[0]];
    assert OfPrio(s.tasks, ids[..1][1..], p + 1) == [];
  }

  lemma WokenCompose(s: Sched, s1: Sched, s2: Sched, c: nat, k: nat)
    requires WokenPrefix(s, s1, c, 1) && WokenPrefix(s1, s2, c, k)
    requires s.cores[c].timers[0] !in s.cores[c].timers[1..]
    ensures WokenPrefix(s, s2, c, k + 1)
  {
    var ids, ids1 := s.cores[c].timers, s1.cores[c].timers;
    assert ids[..k + 1] == [ids[0]] + ids1[..k] && ids[..1] == [ids[0]];
    forall p | 0 <= p < MAX_PRIO
      ensures s2.cores[c].queue[p] == s.cores[c].queue[p] + OfPrio(s.tasks, ids[..k + 1], p + 1)
    {
      QueuesCompose(s, s1, s2, c, k, p);
    }
  }

  /** The tasks due are the first k of the timer queue. */
  ghost predicate DuePrefix(s: Sched, c: nat, tick: nat, k: nat)
    requires TimersInRange(s, c)
  {
    forall i :: 0 <= i < |s.cores[c].timers| ==> (s.tasks[s.cores[c].timers[i]].timeout <= tick <==> i < k)
  }

  lemma DueCompose(s: Sched, s1: Sched, c: nat, tick: nat, k: nat)
    requires WokenPrefix(s, s1, c, 1) && TimersInRange(s1, c) && DuePrefix(s1, c, tick, k)
    requires s.tasks[s.cores[c].timers[0]].timeout <= tick
    ensures DuePrefix(s, c, tick, k + 1)
  {
    var ids := s.cores[c].timers;
    forall i | 0 <= i < |ids| ensures s.tasks[ids[i]].timeout <= tick <==> i < k + 1 {
      if i > 0 {
        assert ids[i] == s1.cores[c].timers[i - 1];
      }
    }
  }

  /** check_timers wakes exactly the k tasks whose deadline has passed and keeps the others queued, sorted. */
  lemma {:induction false} CheckTimersExact(s: Sched, c: nat, tick: nat) returns (k: nat)
    requires Inv(s) && c < |s.cores|
    ensures Inv(CheckTimers(s, c, tick)) && WokenPrefix(s, CheckTimers(s, c, tick), c, k) && DuePrefix(s, c, tick, k)
    decreases |s.cores[c].timers|
  {
    var ids := s.cores[c].timers;
    assert CoreOk(s, c);
    if ids == [] || s.tasks[ids[0]].timeout > tick {
      k := 0;
    } else {
      WakeHead(s, c);
      var s1 := Wakeup(s, ids[0]);
      var k1 := CheckTimersExact(s1, c, tick);
      WokenOnce(s, c);
      WokenCompose(s, s1, CheckTimers(s1, c, tick), c, k1);
      DueCompose(s, s1, c, tick, k1);
      k := k1 + 1;
    }
  }

  lemma CheckTimersKeeps(s: Sched, c: nat, tick: nat)
    requires Inv(s) && c < |s.cores|
    ensures Inv(CheckTimers(s, c, tick))
  {
    var k := CheckTimersExact(s, c, tick);
  }

  /** A task that calls set_timer is woken by check_timers exactly when its own deadline has been reached. */
  lemma TimerWakesOnTime(s: Sched, c: nat, deadline: nat, tick: nat)
    requires Inv(s) && Booted(s, c) && CurrentOk(s, c) && s.tasks[s.cores[c].current].status == Running
    ensures s.tasks[s.cores[c].current].core == c && TimersInRange(s, c) && Inv(SetTimer(s, c, deadline))
    ensures
      var t, s' := s.cores[c].current, CheckTimers(SetTimer(s, c, deadline), c, tick);
      && |s'.tasks| == |s.tasks|
      && s'.tasks[t].status == (if deadline <= tick then Ready else Blocked)
      && (s'.tasks[t].timer <==> tick < deadline)
  {
    SetTimerKeeps(s, c, deadline);
    var t, s1 := s.cores[c].current, SetTimer(s, c, deadline);
    assert TaskOk(s1, t) && CoreOk(s1, c);
    var k := CheckTimersExact(s1, c, tick);
    var ids := s1.cores[c].timers;
    var i :| 0 <= i < |ids| && ids[i] == t;
    assert t in ids[..k] <==> i < k by {
      if i < k {
        assert ids[..k][i] == t;
      }
    }
  }

  // ---------- the choice of scheduler() ----------

  /** A task that is ready before scheduler() on core c waits in a queue whose bit is set. */
  lemma ReadyIsQueued(s: Sched, c: nat, t: nat)
    requires c < |s.cores| && t < |s.tasks| && s.cores[c].oldTask == NONE
    requires BitmapOk(s.cores[c]) && TaskOk(s, t) && s.tasks[t].status == Ready && s.tasks[t].core == c
    ensures s.tasks[t].prio in s.cores[c].bitmap && s.tasks[t].prio <= Msb(s.cores[c].bitmap) <= MAX_PRIO
  {
    assert s.cores[c].queue[s.tasks[t].prio - 1] != [];
    HighestIsMax(s.cores[c].bitmap, MAX_PRIO);
  }

  lemma NoneOutranks(s: Sched, c: nat, t: nat)
    requires c < |s.cores| && t < |s.tasks| && s.cores[c].oldTask == NONE
    requires CurrentOk(s, c) && QueuesOk(s, c) && BitmapOk(s.cores[c])
    requires TaskOk(s, t) && TaskOk(s, s.cores[c].current)
    requires RunnableOn(c)(Schedule(s, c).tasks[t])
    ensures
      var s' := Schedule(s, c);
      var curr := s'.cores[c].current;
      && 0 <= curr < |s'.tasks|
      && s'.tasks[curr].status == Running && s'.tasks[t].prio <= s'.tasks[curr].prio
  {
    var k := s.cores[c];
    HighestIsMax(k.bitmap, MAX_PRIO);
    if s.tasks[t].status == Ready {
      ReadyIsQueued(s, c, t);
    }
  }

  /** After scheduler() the current task runs at the highest priority of the core, or the core has nothing to run. */
  lemma ScheduleChoosesHighest(s: Sched, c: nat)
    requires Inv(s) && Booted(s, c) && s.cores[c].oldTask == NONE
    ensures CurrentOk(s, c) && QueuesOk(s, c) && BitmapOk(s.cores[c])
    ensures
      var s' := Schedule(s, c);
      var curr := s'.cores[c].current;
      && 0 <= curr < |s'.tasks|
      && (forall t: nat :: t < |s'.tasks| && RunnableOn(c)(s'.tasks[t]) ==>
            s'.tasks[curr].status == Running && s'.tasks[t].prio <= s'.tasks[curr].prio)
      && (s'.tasks[curr].status == Running || (s'.tasks[curr].status == Idle && s'.cores[c].nr == 0))
  {
    ScheduleKeeps(s, c);
    var s' := Schedule(s, c);
    assert CoreOk(s, c) && CoreOk(s', c) && TaskOk(s, s.cores[c].current);
    forall t: nat | t < |s'.tasks| && RunnableOn(c)(s'.tasks[t])
      ensures s'.tasks[s'.cores[c].current].status == Running
      ensures s'.tasks[t].prio <= s'.tasks[s'.cores[c].current].prio
    {
      assert TaskOk(s, t);
      NoneOutranks(s, c, t);
    }
    if s'.tasks[s'.cores[c].current].status == Idle {
      CountNone(s'.tasks, RunnableOn(c));
    }
  }

  // ---------- round robin ----------

  /** The task running on core c together with the queue of its own priority. */
  ghost function Ring(s: Sched, c: nat): seq<nat>
    requires Running1(s, c)
  {
    [s.cores[c].current] + s.cores[c].queue[s.tasks[s.cores[c].current].prio - 1]
  }

  /** Core c runs a task that no queued task outranks. */
  ghost predicate Running1(s: Sched, c: nat) {
    && Inv(s) && Booted(s, c) && s.cores[c].oldTask == NONE
    && CoreOk(s, c)
    && s.tasks[s.cores[c].current].status == Running
    && 1 <= s.tasks[s.cores[c].current].prio <= MAX_PRIO
    && forall b :: b in s.cores[c].bitmap ==> b <= s.tasks[s.cores[c].current].prio
  }

  /** One scheduler() call followed by finish_task_switch. */
  ghost function Round(s: Sched, c: nat): Sched
    requires Inv(s) && Booted(s, c) && s.cores[c].oldTask == NONE
  {
    ScheduleKeeps(s, c);
    FinishKeeps(Schedule(s, c), c);
    Finish(Schedule(s, c), c)
  }

  /** A round with a non-empty own queue: the front task takes over, the running one goes to the back. */
  lemma RoundSwitches(s: Sched, c: nat)
    requires Running1(s, c) && |Ring(s, c)| > 1
    ensures
      var k, s', curr := s.cores[c], Round(s, c), s.cores[c].current;
      var prio := s.tasks[curr].prio;
      var t := k.queue[prio - 1][0];
      && s'.cores[c] == k.(queue := k.queue[prio - 1 := k.queue[prio - 1][1..] + [curr]], current := t)
      && t < |s'.tasks| && s'.tasks[t].status == Running && s'.tasks[t].prio == prio
  {
    ScheduleKeeps(s, c);
    FinishKeeps(Schedule(s, c), c);
    var k, curr := s.cores[c], s.cores[c].current;
    var prio := s.tasks[curr].prio;
    HighestIsMax(k.bitmap, MAX_PRIO);
    assert prio in k.bitmap;
    assert Round(s, c).cores[c].bitmap == k.bitmap;
  }

  lemma RoundStays(s: Sched, c: nat)
    requires Running1(s, c) && |Ring(s, c)| == 1
    ensures Round(s, c) == s
  {
    ScheduleKeeps(s, c);
    HighestIsMax(s.cores[c].bitmap, MAX_PRIO);
    assert s.tasks[s.cores[c].current].prio !in s.cores[c].bitmap;
    assert s.cores[c := s.cores[c]] == s.cores;
  }

  lemma RoundRotates(s: Sched, c: nat)
    requires Running1(s, c)
    ensures Running1(Round(s, c), c)
    ensures Ring(Round(s, c), c) == Ring(s, c)[1..] + Ring(s, c)[..1]
  {
    if |Ring(s, c)| == 1 {
      RoundStays(s, c);
    } else {
      ScheduleKeeps(s, c);
      FinishKeeps(Schedule(s, c), c);
      RoundSwitches(s, c);
      assert CoreOk(Round(s, c), c);
      RingMoved(s, Round(s, c), c);
    }
  }

  lemma RingMoved(s: Sched, s': Sched, c: nat)
    requires Running1(s, c) && Running1(s', c) && |Ring(s, c)| > 1
    requires
      var k, curr := s.cores[c], s.cores[c].current;
      var p := s.tasks[curr].prio - 1;
      && s'.cores[c].queue == k.queue[p := k.queue[p][1..] + [curr]] && s'.cores[c].current == k.queue[p][0]
      && s'.tasks[s'.cores[c].current].prio == p + 1
    ensures Ring(s', c) == Ring(s, c)[1..] + Ring(s, c)[..1]
  {}

  ghost function Rounds(s: Sched, c: nat, n: nat): (s': Sched)
    requires Running1(s, c)
    ensures Running1(s', c)
    decreases n
  {
    if n == 0 then s
    else
      RoundRotates(s, c);
      Rounds(Round(s, c), c, n - 1)
  }

  lemma Rotate(r: seq<nat>, j: nat)
    requires 1 <= j <= |r|
    ensures var r1 := r[1..] + r[..1]; r1[j - 1..] + r1[..j - 1] == r[j..] + r[..j]
  {
    var r1 := r[1..] + r[..1];
    assert r1[j - 1..] == r[j..] + r[..1];
    assert r1[..j - 1] == r[1..j];
  }

  /** After j rounds without other events the task in place j of the ring runs. */
  lemma {:induction false} RoundRobin(s: Sched, c: nat, j: nat)
    requires Running1(s, c) && j <= |Ring(s, c)|
    ensures Ring(Rounds(s, c, j), c) == Ring(s, c)[j..] + Ring(s, c)[..j]
    decreases j
  {
    if j > 0 {
      RoundRotates(s, c);
      var r := Ring(s, c);
      RoundRobin(Round(s, c), c, j - 1);
      Rotate(r, j);
    }
  }

  lemma ChosenAt(s: Sched, c: nat, j: nat)
    requires Running1(s, c) && 1 <= j <= |Ring(s, c)|
    ensures Rounds(s, c, j).cores[c].current == Ring(s, c)[if j == |Ring(s, c)| then 0 else j]
  {
    RoundRobin(s, c, j);
    assert Ring(Rounds(s, c, j), c)[0] == Rounds(s, c, j).cores[c].current;
  }

  /** In every |Ring| rounds each task of the ring is chosen exactly once. */
  lemma RoundRobinFair(s: Sched, c: nat, t: nat)
    requires Running1(s, c) && t in Ring(s, c)
    ensures exists j :: 1 <= j <= |Ring(s, c)| && Rounds(s, c, j).cores[c].current == t
    ensures forall i, j :: 1 <= i < j <= |Ring(s, c)| ==>
      Rounds(s, c, i).cores[c].current != Rounds(s, c, j).cores[c].current
    ensures Rounds(s, c, |Ring(s, c)|).cores[c].current == s.cores[c].current
  {
    var r := Ring(s, c);
    assert NoDup(r);
    forall j | 1 <= j <= |r| ensures Rounds(s, c, j).cores[c].current == r[if j == |r| then 0 else j] {
      ChosenAt(s, c, j);
    }
    var i :| 0 <= i < |r| && r[i] == t;
    assert Rounds(s, c, if i == 0 then |r| else i).cores[c].current == t;
  }

  // ---------- runs ----------

  /**
   One atomic kernel operation. Code of the current task of a core (set_timer, do_exit, the next
   scheduler()) runs only after finish_task_switch has cleared the pending old_task of that core.
   */
  datatype Step =
    | BootCore(c: nat)
    | CreateTask(prio: nat, c: nat)
    | WakeTask(t: nat)
    | BlockTask(t: nat)
    | ArmTimer(c: nat, deadline: nat)
    | TimerTick(c: nat, tick: nat)
    | Reschedule(c: nat)
    | FinishSwitch(c: nat)
    | ExitTask(c: nat)

  ghost predicate Enabled(s: Sched, a: Step) {
    match a
    case BootCore(c) => c < |s.cores| && s.cores[c].idle == NONE
    case CreateTask(_, _) => true
    case WakeTask(t) => t < |s.tasks|
    case BlockTask(t) => t < |s.tasks|
    case ArmTimer(c, _) => Booted(s, c) && s.cores[c].oldTask == NONE
    case TimerTick(c, _) => Booted(s, c)
    case Reschedule(c) => Booted(s, c) && s.cores[c].oldTask == NONE
    case FinishSwitch(c) => Booted(s, c)
    case ExitTask(c) =>
      && Booted(s, c) && s.cores[c].oldTask == NONE && 0 <= s.cores[c].current < |s.tasks|
      && s.tasks[s.cores[c].current].status == Running
  }

  ghost function Apply(s: Sched, a: Step): (s': Sched)
    requires Inv(s) && Enabled(s, a)
    ensures Inv(s')
  {
    match a
    case BootCore(c) => BootKeeps(s, c); Boot(s, c)
    case CreateTask(prio, c) => CreateKeeps(s, prio, c); Create(s, prio, c)
    case WakeTask(t) => WakeupKeeps(s, t); Wakeup(s, t)
    case BlockTask(t) => (if s.tasks[t].status == Running then BlockKeeps(s, t); Block(s, t) else Block(s, t))
    case ArmTimer(c, deadline) => SetTimerKeeps(s, c, deadline); SetTimer(s, c, deadline)
    case TimerTick(c, tick) => CheckTimersKeeps(s, c, tick); CheckTimers(s, c, tick)
    case Reschedule(c) => ScheduleKeeps(s, c); Schedule(s, c)
    case FinishSwitch(c) => FinishKeeps(s, c); Finish(s, c)
    case ExitTask(c) => ExitKeeps(s, c); Exit(s, c)
  }

  /** The state at power-on: no task, no core has its idle task yet. */
  ghost predicate Init(s: Sched) {
    && (forall t :: 0 <= t < |s.tasks| ==> s.tasks[t].status == Invalid && !s.tasks[t].timer)
    && forall c :: 0 <= c < |s.cores| ==>
         && s.cores[c].idle == NONE && s.cores[c].oldTask == NONE && s.cores[c].nr == 0
         && s.cores[c].bitmap == {} && s.cores[c].timers == [] && |s.cores[c].queue| == MAX_PRIO
         && forall p :: 0 <= p < MAX_PRIO ==> s.cores[c].queue[p] == []
  }

  /** run[i] is the state before steps[i]. */
  ghost predicate IsRun(run: seq<Sched>, steps: seq<Step>) {
    && |run| == |steps| + 1 && Init(run[0])
    && forall i :: 0 <= i < |steps| ==>
         Inv(run[i]) ==> Enabled(run[i], steps[i]) && run[i + 1] == Apply(run[i], steps[i])
  }

  lemma InitInv(s: Sched)
    requires Init(s)
    ensures Inv(s)
  {
    forall c: nat | c < |s.cores| ensures CoreOk(s, c) {
      CountNone(s.tasks, RunnableOn(c));
    }
  }

  /** The invariant holds in every state of every run. */
  lemma {:induction false} RunKeepsInv(run: seq<Sched>, steps: seq<Step>, i: nat)
    requires IsRun(run, steps) && i < |run|
    ensures Inv(run[i])
  {
    if i == 0 {
      InitInv(run[0]);
    } else {
      RunKeepsInv(run, steps, i - 1);
    }
  }

  /**
   In every reachable state a ready queue and a timer queue hold exactly the tasks they should, the
   bitmap tells which ready queues are not empty, and nr is the number of ready and running tasks.
   */
  lemma ListsExact(run: seq<Sched>, steps: seq<Step>, n: nat, c: nat, p: nat, t: nat)
    requires IsRun(run, steps) && n < |run|
    requires c < |run[n].cores| && p < MAX_PRIO && t < |run[n].tasks|
    ensures
      var s := run[n];
      && |s.cores[c].queue| == MAX_PRIO
      && (t in s.cores[c].queue[p] <==>
            && s.tasks[t].status == Ready && s.tasks[t].core == c && s.tasks[t].prio == p + 1
            && s.cores[c].oldTask != t)
      && (t in s.cores[c].timers <==> s.tasks[t].status == Blocked && s.tasks[t].timer && s.tasks[t].core == c)
      && (p + 1 in s.cores[c].bitmap <==> s.cores[c].queue[p] != [])
      && s.cores[c].nr == Count(s.tasks, RunnableOn(c))
  {
    RunKeepsInv(run, steps, n);
    assert CoreOk(run[n], c) && TaskOk(run[n], t);
  }

  /** In every reachable state the pop of scheduler() meets a ready task of the priority it looked for. */
  lemma PopFindsTask(run: seq<Sched>, steps: seq<Step>, n: nat, c: nat)
    requires IsRun(run, steps) && n < |run| && c < |run[n].cores|
    requires Msb(run[n].cores[c].bitmap) <= MAX_PRIO
    ensures
      var s := run[n];
      var prio := Msb(s.cores[c].bitmap);
      && 1 <= prio && |s.cores[c].queue| == MAX_PRIO && s.cores[c].queue[prio - 1] != []
      && var t := s.cores[c].queue[prio - 1][0];
         t < |s.tasks| && s.tasks[t].status == Ready && s.tasks[t].core == c && s.tasks[t].prio == prio
  {
    RunKeepsInv(run, steps, n);
    assert CoreOk(run[n], c);
    HighestIsMax(run[n].cores[c].bitmap, MAX_PRIO);
  }
}
