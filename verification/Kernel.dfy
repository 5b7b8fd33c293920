/**
 The scheduler of kernel/tasks.c on its own data: the task table, the ready-queue records and the
 intrusive links. Every method is proved to do to the lists what the operation of the same name in
 Scheduler does to sequences of task ids, and to keep all lists linked and apart.
 */
module KernelTasks {
  import opened Circular
  import opened Distinct
  import opened Scheduler
  import opened SchedulerInvariant
  import opened SchedulerRuns
  import opened TaskLists

  datatype ReadyQueues = ReadyQueues(
    idle: int, current: int, oldTask: int, nr: int, bitmap: set<nat>, queue: seq<TaskList>, timers: TaskList)

  /** Names a list: the ready queue for priority p + 1 of core c, or the timer queue of core c. */
  datatype Which = ReadyQ(c: nat, p: nat) | TimerQ(c: nat)

  ghost predicate Names(s: Sched, w: Which) {
    w.c < |s.cores| && (w.ReadyQ? ==> w.p < MAX_PRIO && |s.cores[w.c].queue| == MAX_PRIO)
  }

  ghost function ListOf(s: Sched, w: Which): seq<nat>
    requires Names(s, w)
  {
    match w
    case ReadyQ(c, p) => s.cores[c].queue[p]
    case TimerQ(c) => s.cores[c].timers
  }

  ghost predicate SameShape(cores: seq<ReadyQueues>, s: Sched) {
    && |cores| == |s.cores|
    && forall c :: 0 <= c < |cores| ==> |cores[c].queue| == MAX_PRIO && |s.cores[c].queue| == MAX_PRIO
  }

  ghost function HeadOf(cores: seq<ReadyQueues>, s: Sched, w: Which): TaskList
    requires SameShape(cores, s) && Names(s, w)
  {
    match w
    case ReadyQ(c, p) => cores[c].queue[p]
    case TimerQ(c) => cores[c].timers
  }

  ghost predicate AllLinked(links: seq<Link>, cores: seq<ReadyQueues>, s: Sched) {
    && SameShape(cores, s)
    && forall w {:trigger ListOf(s, w)} :: Names(s, w) ==> Linked(links, HeadOf(cores, s, w), ListOf(s, w))
  }

  /** No task is on two lists. */
  ghost predicate Apart(s: Sched) {
    forall w, w', u {:trigger u in ListOf(s, w), u in ListOf(s, w')} ::
      Names(s, w) && Names(s, w') && w != w' && u in ListOf(s, w) ==> u !in ListOf(s, w')
  }

  lemma InvApart(s: Sched)
    requires Inv(s)
    ensures Apart(s)
  {
    forall w, w', u | Names(s, w) && Names(s, w') && w != w' && u in ListOf(s, w) ensures u !in ListOf(s, w') {
      assert CoreOk(s, w.c) && CoreOk(s, w'.c);
    }
  }

  /** Rewriting the list w, with task t going in or out, leaves every other list linked. */
  lemma Relinked(links: seq<Link>, links': seq<Link>, cores: seq<ReadyQueues>, cores': seq<ReadyQueues>,
                 s: Sched, s': Sched, w: Which, t: nat)
    requires AllLinked(links, cores, s) && SameShape(cores', s') && |s'.cores| == |s.cores|
    requires Apart(s) && Names(s, w) && SameOutside(links, links', ListOf(s, w), t)
    requires forall w' :: Names(s, w') && w' != w ==>
      && Names(s', w') && ListOf(s', w') == ListOf(s, w') && t !in ListOf(s, w')
      && HeadOf(cores', s', w') == HeadOf(cores, s, w')
    requires Linked(links', HeadOf(cores', s', w), ListOf(s', w))
    ensures AllLinked(links', cores', s')
  {
    forall w' {:trigger ListOf(s', w')} | Names(s', w')
      ensures Linked(links', HeadOf(cores', s', w'), ListOf(s', w'))
    {
      if w' != w {
        assert Names(s, w');
        var ids := ListOf(s, w');
        assert Linked(links, HeadOf(cores, s, w'), ids);
        forall i | 0 <= i < |ids| ensures links'[ids[i]] == links[ids[i]] {
          assert ids[i] in ListOf(s, w');
        }
        LinkedFrame(links, links', HeadOf(cores, s, w'), ids);
      }
    }
  }

  lemma SameLists(links: seq<Link>, cores: seq<ReadyQueues>, cores': seq<ReadyQueues>, s: Sched, s': Sched)
    requires AllLinked(links, cores, s) && |cores'| == |cores| && |s'.cores| == |s.cores|
    requires forall c :: 0 <= c < |cores| ==>
      && cores'[c].queue == cores[c].queue && cores'[c].timers == cores[c].timers
      && s'.cores[c].queue == s.cores[c].queue && s'.cores[c].timers == s.cores[c].timers
    ensures AllLinked(links, cores', s')
  {
    forall w {:trigger ListOf(s', w)} | Names(s', w) ensures Linked(links, HeadOf(cores', s', w), ListOf(s', w)) {
      assert Names(s, w) && ListOf(s', w) == ListOf(s, w);
    }
  }

  ghost predicate Matches(r: ReadyQueues, k: Core) {
    && r.idle == k.idle && r.current == k.current && r.oldTask == k.oldTask
    && r.nr == k.nr && r.bitmap == k.bitmap
  }

  /** What block_task relies on: the task it takes from its core has null links. */
  ghost predicate RunningUnlinked(tasks: seq<Task>, links: seq<Link>) {
    |links| == |tasks| && forall t :: 0 <= t < |tasks| && tasks[t].status == Running ==> links[t] == UNLINKED
  }

  ghost predicate NoneRunning(tasks: seq<Task>, ids: seq<nat>) {
    forall i :: 0 <= i < |ids| ==> ids[i] < |tasks| && tasks[ids[i]].status != Running
  }

  /** The timer list of core c becomes ids, with task t going in or out. */
  lemma TimersRelinked(links: seq<Link>, links': seq<Link>, cores: seq<ReadyQueues>, s: Sched, c: nat, l: TaskList,
                       ids: seq<nat>, t: nat)
    requires AllLinked(links, cores, s) && Apart(s) && c < |cores| && SameOutside(links, links', s.cores[c].timers, t)
    requires t in s.cores[c].timers || forall w :: Names(s, w) ==> t !in ListOf(s, w)
    requires Linked(links', l, ids)
    ensures AllLinked(links', cores[c := cores[c].(timers := l)], s.(cores := s.cores[c := s.cores[c].(timers := ids)]))
  {
    var cores', s' := cores[c := cores[c].(timers := l)], s.(cores := s.cores[c := s.cores[c].(timers := ids)]);
    var w := TimerQ(c);
    assert ListOf(s, w) == s.cores[c].timers;
    forall w' | Names(s, w') && w' != w
      ensures Names(s', w') && ListOf(s', w') == ListOf(s, w') && t !in ListOf(s, w')
      ensures HeadOf(cores', s', w') == HeadOf(cores, s, w')
    {
      assert t in ListOf(s, w) ==> t !in ListOf(s, w');
    }
    Relinked(links, links', cores, cores', s, s', w, t);
  }

  lemma StillUnlinked(tasks: seq<Task>, links: seq<Link>, links': seq<Link>, ids: seq<nat>, t: nat)
    requires RunningUnlinked(tasks, links) && NoneRunning(tasks, ids) && SameOutside(links, links', ids, t)
    requires t < |tasks| && tasks[t].status != Running
    ensures RunningUnlinked(tasks, links')
  {
    forall u | 0 <= u < |tasks| && tasks[u].status == Running ensures links'[u] == UNLINKED {
      assert forall i :: 0 <= i < |ids| ==> ids[i] != u;
    }
  }

  /** The task table and queues before the first idle task. */
  ghost function Blank(nTasks: nat, nCores: nat): Sched {
    Sched(seq(nTasks, _ => Task(Invalid, 0, 0, false, 0)),
          seq(nCores, _ => Core(NONE, 0, NONE, 0, {}, seq(MAX_PRIO, _ => []), [])))
  }

  class Kernel {
    var tasks: seq<Task>
    var cores: seq<ReadyQueues>
    const table: LinkTable
    /** The static counter of get_next_core_id. */
    var lastCore: nat
    /** The same state with every list as a sequence of task ids. */
    ghost var model: Sched

    ghost predicate Valid()
      reads this, table
    {
      && Inv(model)
      && model.tasks == tasks && |table.links| == |tasks|
      && AllLinked(table.links, cores, model)
      && (forall c :: 0 <= c < |cores| ==> Matches(cores[c], model.cores[c]))
      && RunningUnlinked(tasks, table.links)
    }

    /** The static tables, where slot 0 is the idle task, and multitasking_init on the boot core. */
    constructor (nTasks: nat, nCores: nat, boot: nat)
      requires nTasks > 0 && boot < nCores
      ensures Valid() && fresh(table) && |tasks| == nTasks && |cores| == nCores
      ensures Init(Blank(nTasks, nCores)) && model == Boot(Blank(nTasks, nCores), boot)
      ensures tasks[0].status == Idle && cores[boot].idle == cores[boot].current == 0
    {
      var t := new LinkTable(nTasks);
      lastCore := nCores;
      table := t;
      tasks := seq(nTasks, _ => Task(Invalid, 0, 0, false, 0))[0 := Task(Idle, boot, 0, false, 0)];
      var empty := ReadyQueues(NONE, 0, NONE, 0, {}, seq(MAX_PRIO, _ => TaskList(NONE, NONE)), TaskList(NONE, NONE));
      cores := seq(nCores, _ => empty)[boot := empty.(idle := 0, current := 0)];
      model := Boot(Blank(nTasks, nCores), boot);
      new;
      InitInv(Blank(nTasks, nCores));
      BootKeeps(Blank(nTasks, nCores), boot);
    }

    /** readyqueues_push_back: task t joins the ready queue of its priority on core c. */
    method PushReady(c: nat, t: nat)
      requires AllLinked(table.links, cores, model) && Apart(model)
      requires c < |cores| && t < |table.links| == |tasks| && 1 <= tasks[t].prio <= MAX_PRIO
      requires forall w :: Names(model, w) ==> t !in ListOf(model, w)
      requires RunningUnlinked(tasks, table.links) && tasks[t].status != Running
      requires NoneRunning(tasks, model.cores[c].queue[tasks[t].prio - 1])
      modifies this, table
      ensures tasks == old(tasks) && |table.links| == |old(table.links)| && |cores| == |old(cores)|
      ensures model.tasks == old(model.tasks)
      ensures model.cores == old(model.cores)[c := Enqueue(old(model.cores)[c], tasks[t].prio, t)]
      ensures AllLinked(table.links, cores, model)
      ensures cores == old(cores)[c := cores[c]]
      ensures cores[c] == old(cores)[c].(queue := cores[c].queue, bitmap := old(cores)[c].bitmap + {tasks[t].prio})
      ensures RunningUnlinked(tasks, table.links)
    {
      var p := tasks[t].prio - 1;
      ghost var s, w := model, ReadyQ(c, p);
      assert Linked(table.links, HeadOf(cores, s, w), ListOf(s, w));
      var l := table.PushBack(cores[c].queue[p], t, model.cores[c].queue[p]);
      var r := cores[c];
      cores := cores[c := r.(queue := r.queue[p := l], bitmap := r.bitmap + {tasks[t].prio})];
      model := model.(cores := model.cores[c := Enqueue(model.cores[c], tasks[t].prio, t)]);
      Relinked(old(table.links), table.links, old(cores), cores, s, model, w, t);
    }

    /** The first free slot of the task table; |tasks| when it is full. */
    method FindSlot() returns (i: nat)
      ensures i == FreeSlot(tasks)
    {
      i := 0;
      while i < |tasks| && tasks[i].status != Invalid
        invariant i <= |tasks|
        invariant forall j :: 0 <= j < i ==> tasks[j].status != Invalid
      {
        i := i + 1;
      }
    }

    /** set_idle_task; the result is |tasks| when no slot is free. */
    method BootCore(c: nat) returns (id: nat)
      requires Valid() && c < |cores| && cores[c].idle == NONE
      modifies this
      ensures Valid() && model == Boot(old(model), c) && id == FreeSlot(old(tasks))
    {
      BootKeeps(model, c);
      id := FindSlot();
      if id < |tasks| {
        ghost var s := model;
        tasks := tasks[id := tasks[id].(status := Idle, core := c, prio := 0)];
        cores := cores[c := cores[c].(idle := id, current := id)];
        model := Boot(model, c);
        SameLists(table.links, old(cores), cores, s, model);
      }
    }

    /** create_task: find a slot, fill it in and queue the task on core c. */
    method CreateTask(prio: nat, c: nat) returns (ret: Error, id: nat)
      requires Valid()
      modifies this, table
      ensures Valid()
      ensures (forall k :: 0 <= k < |old(model).cores| ==> |old(model).cores[k].queue| == MAX_PRIO)
      ensures model == Create(old(model), prio, c)
      ensures ret == if CreateRefused(old(model), prio, c) then EInval
                     else if FreeSlot(old(tasks)) == |old(tasks)| then ENoMem else Success
      ensures ret == Success ==> id == FreeSlot(old(tasks))
    {
      CreateKeeps(model, prio, c);
      id := 0;
      if prio == 0 || prio > MAX_PRIO || c >= |cores| || cores[c].idle == NONE {
        return EInval, id;
      }
      id := FindSlot();
      if id == |tasks| {
        return ENoMem, id;
      }
      ghost var s := model;
      assert TaskOk(model, id) && CoreOk(model, c);
      NotListed(model, id);
      InvApart(model);
      tasks := tasks[id := tasks[id].(status := Ready, core := c, prio := prio)];
      PushReady(c, id);
      ghost var s1, cores1 := model, cores;
      cores := cores[c := cores[c].(nr := cores[c].nr + 1)];
      model := Create(s, prio, c);
      SameLists(table.links, cores1, cores, s1, model);
      ret := Success;
    }

    /** get_next_core_id on core self: the next booted core in cyclic order. */
    method NextCore(self: nat) returns (c: nat)
      requires self < |cores| && cores[self].idle != NONE
      modifies this`lastCore
      ensures c < |cores| && cores[c].idle != NONE && lastCore == c
      ensures NextBooted(cores, Advance(if old(lastCore) >= |cores| then self else old(lastCore), 1, |cores|), c)
    {
      var start := if lastCore >= |cores| then self else lastCore;
      var n, i := |cores|, 0;
      c := Increment(start, n);
      ghost var first := c;
      while i < 2 * n && cores[c].idle == NONE
        invariant 0 <= i <= 2 * n && c == Advance(first, i, n)
        invariant forall e: nat :: e < i ==> cores[Advance(first, e, n)].idle == NONE
      {
        AdvanceAdd(first, i, 1, n);
        c := Increment(c, n);
        i := i + 1;
      }
      if i == 2 * n {
        var e := AdvanceReaches(first, self, n);
        assert false;
      }
      lastCore := c;
    }

    /** clone_task by the current task of core self. */
    method CloneTask(prio: nat, self: nat) returns (ret: Error, id: nat, c: nat)
      requires Valid() && self < |cores| && cores[self].idle != NONE
      modifies this, table
      ensures Valid()
      ensures (forall k :: 0 <= k < |old(model).cores| ==> |old(model).cores[k].queue| == MAX_PRIO)
      ensures model == Create(old(model), prio, c)
      ensures ret == if CreateRefused(old(model), prio, c) || FreeSlot(old(tasks)) == |old(tasks)| then EInval
                     else Success
      ensures 1 <= prio <= MAX_PRIO ==>
        var from := if old(lastCore) >= |old(cores)| then self else old(lastCore);
        NextBooted(old(cores), Advance(from, 1, |old(cores)|), c)
      ensures ret == Success ==> id == FreeSlot(old(tasks))
    {
      CreateKeeps(model, prio, self);
      id, c := 0, self;
      if prio == 0 || prio > MAX_PRIO {
        return EInval, id, c;
      }
      c := NextCore(self);
      ret, id := CreateTask(prio, c);
      if ret == ENoMem {
        ret := EInval;
      }
    }

    method Unhook(c: nat, t: nat) returns (l: TaskList)
      requires c < |cores| && |model.cores| == |cores| && t in model.cores[c].timers
      requires Linked(table.links, cores[c].timers, model.cores[c].timers)
      modifies table
      ensures Linked(table.links, l, Without(model.cores[c].timers, t))
      ensures SameOutside(old(table.links), table.links, model.cores[c].timers, t)
    {
      ghost var ids := model.cores[c].timers;
      ghost var k: nat := PlaceOf(ids, t);
      l := table.Remove(cores[c].timers, t, ids, k);
    }

    /** The unlinking of timer_queue_remove for a blocked task t of core c. */
    method PopTimer(c: nat, t: nat)
      requires AllLinked(table.links, cores, model) && Apart(model)
      requires c < |cores| && t in model.cores[c].timers
      requires RunningUnlinked(tasks, table.links) && NoneRunning(tasks, model.cores[c].timers)
      modifies this, table
      ensures tasks == old(tasks) && |table.links| == |old(table.links)| && |cores| == |old(cores)|
      ensures
        var k := old(model.cores)[c];
        model == old(model).(cores := old(model.cores)[c := k.(timers := Without(k.timers, t))])
      ensures AllLinked(table.links, cores, model)
      ensures cores == old(cores)[c := old(cores)[c].(timers := cores[c].timers)]
      ensures RunningUnlinked(tasks, table.links)
    {
      ghost var s, w, ids := model, TimerQ(c), model.cores[c].timers;
      assert Linked(table.links, HeadOf(cores, s, w), ListOf(s, w));
      var l := Unhook(c, t);
      TimersRelinked(old(table.links), table.links, cores, s, c, l, Without(ids, t), t);
      StillUnlinked(tasks, old(table.links), table.links, ids, t);
      cores := cores[c := cores[c].(timers := l)];
      model := model.(cores := model.cores[c := model.cores[c].(timers := Without(ids, t))]);
    }

    /** wakeup_task. */
    method WakeupTask(t: nat) returns (ret: Error)
      requires Valid() && t < |tasks|
      modifies this, table
      ensures Valid()
      ensures old(model).tasks[t].status == Blocked ==> Placed(old(model), t)
      ensures model == Wakeup(old(model), t)
      ensures ret == if old(tasks)[t].status == Blocked then Success else EInval
    {
      WakeupKeeps(model, t);
      var c := tasks[t].core;
      if tasks[t].status == Blocked {
        ghost var s := model;
        assert CoreOk(s, c) && TaskOk(s, t);
        InvApart(s);
        if tasks[t].timer {
          PopTimer(c, t);
          WithoutMembers(s.cores[c].timers, t);
        }
        BlockedOffLists(s, model, t);
        tasks := tasks[t := tasks[t].(status := Ready, timer := false)];
        PushReady(c, t);
        ghost var s1, cores1 := model, cores;
        cores := cores[c := cores[c].(nr := cores[c].nr + 1)];
        model := Wakeup(s, t);
        SameLists(table.links, cores1, cores, s1, model);
        ret := Success;
      } else {
        ret := EInval;
      }
    }

    /** block_task. A running task is on no list, so the removal from its ready queue finds nothing. */
    method BlockTask(t: nat) returns (ret: Error)
      requires Valid() && t < |tasks|
      modifies this, table
      ensures Valid()
      ensures old(tasks)[t].status == Running ==> old(tasks)[t].core < |old(model).cores|
      ensures model == Block(old(model), t)
      ensures ret == if old(tasks)[t].status == Running then Success else EInval
    {
      if tasks[t].status == Running {
        ghost var s := model;
        BlockKeeps(s, t);
        var c, p := tasks[t].core, tasks[t].prio - 1;
        assert TaskOk(s, t) && CoreOk(s, c);
        NotListed(s, t);
        assert Linked(table.links, HeadOf(cores, s, ReadyQ(c, p)), ListOf(s, ReadyQ(c, p)));
        tasks := tasks[t := tasks[t].(status := Blocked)];
        var l := table.RemoveAny(cores[c].queue[p], t);
        assert table.links == old(table.links) && l == cores[c].queue[p];
        var r := cores[c];
        var bits := if l.first == NONE then r.bitmap - {tasks[t].prio} else r.bitmap;
        assert bits == r.bitmap;
        cores := cores[c := r.(queue := r.queue[p := l], bitmap := bits, nr := r.nr - 1)];
        model := Block(s, t);
        SameLists(table.links, old(cores), cores, s, model);
        ret := Success;
      } else {
        ret := EInval;
      }
    }

    /** The search loop of timer_queue_push: the first task of the queue with a later deadline, at place k. */
    method FindLater(c: nat, deadline: nat) returns (tmp: int, ghost k: nat)
      requires AllLinked(table.links, cores, model) && c < |cores| && NoneRunning(tasks, model.cores[c].timers)
      ensures k <= |model.cores[c].timers| && tmp == At(model.cores[c].timers, k)
      ensures k == Position(tasks, model.cores[c].timers, deadline)
    {
      ghost var ids := model.cores[c].timers;
      assert Linked(table.links, HeadOf(cores, model, TimerQ(c)), ListOf(model, TimerQ(c)));
      tmp, k := cores[c].timers.first, 0;
      while tmp != NONE && deadline >= tasks[tmp].timeout
        invariant 0 <= k <= |ids| && tmp == At(ids, k)
        invariant forall i :: 0 <= i < k ==> tasks[ids[i]].timeout <= deadline
        decreases |ids| - k
      {
        assert LinkOk(table.links, ids, k);
        tmp, k := table.links[tmp].next, k + 1;
      }
    }

    /** timer_queue_push: link task t in before the first later deadline. */
    method PushTimer(c: nat, t: nat) returns (ghost k: nat)
      requires AllLinked(table.links, cores, model) && Apart(model)
      requires c < |cores| && t < |tasks|
      requires forall w :: Names(model, w) ==> t !in ListOf(model, w)
      requires RunningUnlinked(tasks, table.links) && tasks[t].status != Running
      requires NoneRunning(tasks, model.cores[c].timers)
      modifies this, table
      ensures tasks == old(tasks) && |table.links| == |old(table.links)| && |cores| == |old(cores)|
      ensures k == Position(tasks, old(model).cores[c].timers, tasks[t].timeout)
      ensures
        var r := old(model).cores[c];
        model == old(model).(cores := old(model).cores[c := r.(timers := InsertAt(r.timers, k, t))])
      ensures AllLinked(table.links, cores, model)
      ensures cores == old(cores)[c := old(cores)[c].(timers := cores[c].timers)]
      ensures RunningUnlinked(tasks, table.links)
    {
      ghost var s, w, ids := model, TimerQ(c), model.cores[c].timers;
      assert Linked(table.links, HeadOf(cores, s, w), ListOf(s, w));
      var tmp;
      tmp, k := FindLater(c, tasks[t].timeout);
      var l := table.InsertBefore(cores[c].timers, t, tmp, ids, k);
      TimersRelinked(old(table.links), table.links, cores, s, c, l, InsertAt(ids, k, t), t);
      StillUnlinked(tasks, old(table.links), table.links, ids, t);
      cores := cores[c := cores[c].(timers := l)];
      model := model.(cores := model.cores[c := model.cores[c].(timers := InsertAt(ids, k, t))]);
    }

    /** set_timer by the current task of core c. */
    method SetTimer(c: nat, deadline: nat) returns (ret: Error)
      requires Valid() && c < |cores| && cores[c].idle != NONE
      modifies this, table
      ensures Valid()
      ensures TimerReady(old(model), c)
      ensures model == Scheduler.SetTimer(old(model), c, deadline)
      ensures ret == if old(tasks)[old(cores)[c].current].status == Running then Success else EInval
    {
      SetTimerKeeps(model, c, deadline);
      var t := cores[c].current;
      if tasks[t].status == Running {
        ghost var s := model;
        assert TaskOk(s, t);
        var _ := BlockTask(t);
        Arm(c, t, deadline);
        ret := Success;
      } else {
        ret := EInval;
      }
    }

    /** The timer half of set_timer: flag the blocked task t and queue it by its deadline. */
    method Arm(c: nat, t: nat, deadline: nat)
      requires Valid() && c < |cores| && t < |tasks| && cores[c].idle != NONE
      requires tasks[t].status == Blocked && !tasks[t].timer && tasks[t].core == c
      modifies this, table
      ensures Valid()
      ensures forall i :: 0 <= i < |old(model).cores[c].timers| ==> old(model).cores[c].timers[i] < |old(model).tasks|
      ensures
        var s, ids := old(model), old(model).cores[c].timers;
        var at := Position(s.tasks, ids, deadline);
        model == Sched(s.tasks[t := s.tasks[t].(timer := true, timeout := deadline)],
                       s.cores[c := s.cores[c].(timers := ids[..at] + [t] + ids[at..])])
    {
      ghost var s := model;
      assert CoreOk(s, c);
      NotListed(s, t);
      InvApart(s);
      tasks := tasks[t := tasks[t].(timer := true, timeout := deadline)];
      var k := PushTimer(c, t);
      PositionSame(s.tasks, tasks, s.cores[c].timers, deadline);
      ghost var s1 := model;
      model := model.(tasks := tasks);
      SameLists(table.links, cores, cores, s1, model);
      ArmKeeps(s, model, c, t, deadline);
    }

    /** check_timers. */
    method CheckTimers(c: nat, tick: nat)
      requires Valid() && c < |cores|
      modifies this, table
      ensures Valid() && model == SchedulerRuns.CheckTimers(old(model), c, tick)
    {
      assert Linked(table.links, HeadOf(cores, model, TimerQ(c)), ListOf(model, TimerQ(c)));
      while cores[c].timers.first != NONE && tasks[cores[c].timers.first].timeout <= tick
        invariant Valid() && c < |cores|
        invariant cores[c].timers.first == At(model.cores[c].timers, 0) < |tasks|
        invariant SchedulerRuns.CheckTimers(model, c, tick) == SchedulerRuns.CheckTimers(old(model), c, tick)
        decreases |model.cores[c].timers|
      {
        WakeHead(model, c);
        var _ := WakeupTask(cores[c].timers.first);
        assert Linked(table.links, HeadOf(cores, model, TimerQ(c)), ListOf(model, TimerQ(c)));
      }
    }

    /** msb() on the priority bitmap. */
    method FindMsb(bitmap: set<nat>) returns (prio: nat)
      ensures prio == Msb(bitmap)
    {
      var b: int := MAX_PRIO;
      while b >= 0
        invariant -1 <= b <= MAX_PRIO
        invariant Msb(bitmap) == if b >= 0 then Highest(bitmap, b) else NO_BIT
      {
        if b in bitmap {
          return b;
        }
        b := b - 1;
      }
      prio := NO_BIT;
    }

    /** The pop of scheduler() from the queue of priority prio, with the bitmap update after it. */
    method PopReady(c: nat, prio: nat) returns (t: nat)
      requires AllLinked(table.links, cores, model) && Apart(model)
      requires c < |cores| && 1 <= prio <= MAX_PRIO && model.cores[c].queue[prio - 1] != []
      requires RunningUnlinked(tasks, table.links) && NoneRunning(tasks, model.cores[c].queue[prio - 1])
      modifies this, table
      ensures t == old(model).cores[c].queue[prio - 1][0] && t < |tasks|
      ensures tasks == old(tasks) && |cores| == |old(cores)|
      ensures
        var k := old(model).cores[c];
        model == old(model).(cores := old(model).cores[c := Dequeue(k, prio).(bitmap := k.bitmap)])
      ensures AllLinked(table.links, cores, model)
      ensures cores == old(cores)[c := old(cores)[c].(queue := cores[c].queue, bitmap := cores[c].bitmap)]
      ensures cores[c].bitmap ==
        if old(model).cores[c].queue[prio - 1][1..] == [] then old(cores)[c].bitmap - {prio} else old(cores)[c].bitmap
      ensures RunningUnlinked(tasks, table.links) && table.links[t] == UNLINKED
    {
      ghost var s, w := model, ReadyQ(c, prio - 1);
      ghost var ids := ListOf(s, w);
      assert Linked(table.links, HeadOf(cores, s, w), ids);
      var l;
      l, t := table.PopFront(cores[c].queue[prio - 1], ids);
      var bits := if l.first == NONE then cores[c].bitmap - {prio} else cores[c].bitmap;
      cores := cores[c := cores[c].(queue := cores[c].queue[prio - 1 := l], bitmap := bits)];
      model := model.(cores := model.cores[c := model.cores[c].(queue := model.cores[c].queue[prio - 1 := ids[1..]])]);
      assert t in ListOf(s, w);
      Relinked(old(table.links), table.links, old(cores), cores, s, model, w, t);
    }

    /** scheduler() on core c; switched tells whether another task was chosen. */
    method Schedule(c: nat) returns (switched: bool)
      requires Valid() && c < |cores| && cores[c].idle != NONE && cores[c].oldTask == NONE
      modifies this, table
      ensures Valid()
      ensures CurrentOk(old(model), c) && QueuesOk(old(model), c) && BitmapOk(old(model).cores[c])
      ensures model == Scheduler.Schedule(old(model), c)
      ensures switched <==> model.cores[c].current != old(model).cores[c].current
    {
      ScheduleKeeps(model, c);
      ghost var s := model;
      assert CoreOk(s, c) && TaskOk(s, s.cores[c].current);
      HighestIsMax(s.cores[c].bitmap, MAX_PRIO);
      var orig := cores[c].current;
      var prio := FindMsb(cores[c].bitmap);
      if prio <= MAX_PRIO && !(tasks[orig].prio > prio && tasks[orig].status == Running) {
        Switch(c, prio);
      } else {
        var curr := orig;
        if prio > MAX_PRIO && tasks[orig].status != Running && tasks[orig].status != Idle {
          curr := cores[c].idle;
        }
        cores := cores[c := cores[c].(oldTask := if tasks[orig].status == Finished then orig else NONE,
                                      current := curr)];
        model := Scheduler.Schedule(s, c);
        SameLists(table.links, old(cores), cores, s, model);
      }
      switched := cores[c].current != orig;
    }

    /** The part of scheduler() that leaves the current task for the front task of priority prio. */
    method Switch(c: nat, prio: nat)
      requires Valid() && Switching(model, c, prio)
      modifies this, table
      ensures Valid() && model == Scheduler.Schedule(old(model), c)
    {
      ScheduleKeeps(model, c);
      ghost var s := model;
      assert CoreOk(s, c);
      assert TaskOk(s, s.cores[c].current);
      HighestIsMax(s.cores[c].bitmap, MAX_PRIO);
      InvApart(s);
      var curr := cores[c].current;
      var preempted := tasks[curr].status == Running;
      var pending := if preempted || tasks[curr].status == Finished then curr else NONE;
      var t := PopReady(c, prio);
      ghost var s1, cores1 := model, cores;
      if preempted {
        tasks := tasks[curr := tasks[curr].(status := Ready)];
      }
      tasks := tasks[t := tasks[t].(status := Running)];
      cores := cores[c := cores[c].(oldTask := pending, current := t)];
      model := Scheduler.Schedule(s, c);
      SameLists(table.links, cores1, cores, s1, model);
    }

    /** finish_task_switch on core c. */
    method FinishTaskSwitch(c: nat)
      requires Valid() && c < |cores|
      modifies this, table
      ensures Valid()
      ensures FinishReady(old(model), c)
      ensures model == Finish(old(model), c)
    {
      FinishKeeps(model, c);
      ghost var s := model;
      assert CoreOk(s, c);
      var o := cores[c].oldTask;
      if o != NONE {
        assert TaskOk(s, o);
        cores := cores[c := cores[c].(oldTask := NONE)];
        model := model.(cores := model.cores[c := model.cores[c].(oldTask := NONE)]);
        if tasks[o].status == Finished {
          tasks := tasks[o := tasks[o].(status := Invalid)];
          model := Finish(s, c);
          SameLists(table.links, old(cores), cores, s, model);
        } else {
          SameLists(table.links, old(cores), cores, s, model);
          OldOffLists(s, model, c);
          PushReady(c, o);
          assert model.cores == Finish(s, c).cores;
        }
      }
    }

    /** do_exit by the running task of core c, up to its reschedule(). */
    method Exit(c: nat)
      requires Valid() && c < |cores| && cores[c].idle != NONE
      requires 0 <= cores[c].current < |tasks| && tasks[cores[c].current].status == Running
      modifies this
      ensures Valid() && model == Scheduler.Exit(old(model), c)
    {
      ghost var s := model;
      ExitKeeps(s, c);
      cores := cores[c := cores[c].(nr := cores[c].nr - 1)];
      tasks := tasks[cores[c].current := tasks[cores[c].current].(status := Finished)];
      model := Scheduler.Exit(s, c);
      SameLists(table.links, old(cores), cores, s, model);
    }
  }

  ghost predicate TimerReady(s: Sched, c: nat) {
    && c < |s.cores| && 0 <= s.cores[c].current < |s.tasks|
    && s.tasks[s.cores[c].current].core == c
    && forall i :: 0 <= i < |s.cores[c].timers| ==> s.cores[c].timers[i] < |s.tasks|
  }

  ghost predicate FinishReady(s: Sched, c: nat) {
    && c < |s.cores| && |s.cores[c].queue| == MAX_PRIO
    && (s.cores[c].oldTask != NONE ==> 0 <= s.cores[c].oldTask < |s.tasks| && Placed(s, s.cores[c].oldTask))
  }

  /** A preempted task waiting for finish_task_switch is on no list. */
  lemma OldOffLists(s: Sched, s': Sched, c: nat)
    requires Inv(s) && c < |s.cores| && 0 <= s.cores[c].oldTask < |s.tasks|
    requires s'.cores == s.cores[c := s.cores[c].(oldTask := NONE)]
    ensures Apart(s') && forall w :: Names(s', w) ==> s.cores[c].oldTask !in ListOf(s', w)
  {
    InvApart(s);
    var o := s.cores[c].oldTask;
    assert forall w :: Names(s', w) ==> Names(s, w) && ListOf(s', w) == ListOf(s, w);
    forall w | Names(s', w) ensures o !in ListOf(s', w) {
      assert CoreOk(s, c) && CoreOk(s, w.c) && TaskOk(s, o);
    }
  }

  /** c is the first booted core met from place first on, in cyclic order. */
  ghost predicate NextBooted(cores: seq<ReadyQueues>, first: nat, c: nat) {
    && c < |cores| && first < |cores| && cores[c].idle != NONE
    && exists i: nat ::
         && c == Advance(first, i, |cores|)
         && forall e: nat :: e < i ==> cores[Advance(first, e, |cores|)].idle == NONE
  }

  lemma {:induction false} PositionSame(tasks: seq<Task>, tasks': seq<Task>, ids: seq<nat>, deadline: nat)
    requires |tasks| == |tasks'| && forall i :: 0 <= i < |ids| ==> ids[i] < |tasks|
    requires forall i :: 0 <= i < |ids| ==> tasks[ids[i]] == tasks'[ids[i]]
    ensures Position(tasks, ids, deadline) == Position(tasks', ids, deadline)
  {
    if ids != [] && tasks[ids[0]].timeout <= deadline {
      PositionSame(tasks, tasks', ids[1..], deadline);
    }
  }

  lemma PlaceOf(ids: seq<nat>, t: nat) returns (k: nat)
    requires NoDup(ids) && t in ids
    ensures k < |ids| && ids[k] == t && Without(ids, t) == RemoveAt(ids, k)
  {
    k :| 0 <= k < |ids| && ids[k] == t;
    WithoutAt(ids, k);
  }

  /** Once its timer entry is gone a blocked task is on no list, and the lists are still apart. */
  lemma BlockedOffLists(s: Sched, s': Sched, t: nat)
    requires Inv(s) && t < |s.tasks| && s.tasks[t].status == Blocked && s.tasks[t].core < |s.cores|
    requires |s'.cores| == |s.cores|
    requires
      var c := s.tasks[t].core;
      s'.cores == s.cores[c := s.cores[c].(
                             timers := if s.tasks[t].timer then Without(s.cores[c].timers, t) else s.cores[c].timers)]
    ensures Apart(s') && forall w :: Names(s', w) ==> t !in ListOf(s', w)
  {
    var c := s.tasks[t].core;
    InvApart(s);
    assert CoreOk(s, c) && TaskOk(s, t);
    if s.tasks[t].timer {
      WithoutMembers(s.cores[c].timers, t);
    }
    forall w, u | Names(s', w) && u in ListOf(s', w) ensures Names(s, w) && u in ListOf(s, w) && u != t {
      assert CoreOk(s, w.c);
    }
  }

  /** A task that is neither ready nor blocked is on no list. */
  lemma NotListed(s: Sched, t: nat)
    requires Inv(s) && t < |s.tasks| && s.tasks[t].status != Ready && !s.tasks[t].timer
    ensures forall w :: Names(s, w) ==> t !in ListOf(s, w)
  {
    forall w | Names(s, w) ensures t !in ListOf(s, w) {
      assert CoreOk(s, w.c);
    }
  }
}
