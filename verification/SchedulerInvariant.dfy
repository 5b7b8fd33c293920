/** Every kernel operation keeps the scheduler invariant. */
module SchedulerInvariant {
  import opened Counting
  import opened Distinct
  import opened Scheduler

  // ---------- what an operation does not touch ----------

  /** s' differs from s in the tasks ts and core c only. */
  ghost predicate Touches(s: Sched, s': Sched, ts: set<nat>, c: nat) {
    && c < |s.cores|
    && |s'.tasks| == |s.tasks| && |s'.cores| == |s.cores|
    && (forall t :: t in ts ==> t < |s.tasks|)
    && (forall u :: 0 <= u < |s.tasks| && u !in ts ==> s'.tasks[u] == s.tasks[u])
    && (forall d :: 0 <= d < |s.cores| && d != c ==> s'.cores[d] == s.cores[d])
  }

  /** Seen from task u, the two core records agree. */
  ghost predicate SameFor(k: Core, k': Core, u: nat) {
    && k'.idle == k.idle
    && (k'.current == u <==> k.current == u)
    && (k'.oldTask == u <==> k.oldTask == u)
    && |k'.queue| == |k.queue|
    && (forall p :: 0 <= p < |k.queue| ==> (u in k'.queue[p] <==> u in k.queue[p]))
    && (u in k'.timers <==> u in k.timers)
  }

  lemma OtherTask(s: Sched, s': Sched, u: nat)
    requires u < |s.tasks| == |s'.tasks| && |s.cores| == |s'.cores|
    requires TaskOk(s, u) && s'.tasks[u] == s.tasks[u]
    requires s.tasks[u].core < |s.cores| ==> SameFor(s.cores[s.tasks[u].core], s'.cores[s.tasks[u].core], u)
    ensures TaskOk(s', u)
  {}

  lemma OtherCore(s: Sched, s': Sched, ts: set<nat>, c: nat, d: nat)
    requires Touches(s, s', ts, c) && d < |s.cores| && d != c
    requires CoreOk(s, d)
    requires forall t :: t in ts ==> s'.tasks[t].core == c && (s.tasks[t].core == c || s.tasks[t].status == Invalid)
    ensures CoreOk(s', d)
  {
    CountSame(s.tasks, s'.tasks, RunnableOn(d));
    assert forall u :: 0 <= u < |s.tasks| && s.tasks[u].core == d && s.tasks[u].status != Invalid ==>
      s'.tasks[u] == s.tasks[u];
  }

  /** The invariant after an operation on the tasks ts and core c follows from ts and c alone. */
  lemma Local(s: Sched, s': Sched, ts: set<nat>, c: nat)
    requires Inv(s) && Touches(s, s', ts, c)
    requires forall t :: t in ts ==> s'.tasks[t].core == c && (s.tasks[t].core == c || s.tasks[t].status == Invalid)
    requires forall u: nat :: u < |s.tasks| && u !in ts ==> SameFor(s.cores[c], s'.cores[c], u)
    requires CoreOk(s', c) && forall t :: t in ts ==> TaskOk(s', t)
    ensures Inv(s')
  {
    forall u: nat | u < |s'.tasks| ensures TaskOk(s', u) {
      if u !in ts {
        assert TaskOk(s, u);
        OtherTask(s, s', u);
      }
    }
    forall d: nat | d < |s'.cores| ensures CoreOk(s', d) {
      if d != c {
        assert CoreOk(s, d);
        OtherCore(s, s', ts, c, d);
      }
    }
  }

  // ---------- the queues of the touched core ----------

  /** The members of one queue: ready tasks of core c with the priority the queue serves. */
  ghost predicate QueueOk(s: Sched, ids: seq<nat>, p: nat, c: nat) {
    && NoDup(ids)
    && forall i :: 0 <= i < |ids| ==>
      && ids[i] < |s.tasks| && s.tasks[ids[i]].status == Ready
      && s.tasks[ids[i]].core == c && s.tasks[ids[i]].prio == p + 1
  }

  lemma QueuesFrom(s: Sched, c: nat)
    requires c < |s.cores| && |s.cores[c].queue| == MAX_PRIO
    requires forall p: nat :: p < MAX_PRIO ==> QueueOk(s, s.cores[c].queue[p], p, c)
    ensures QueuesOk(s, c)
  {}

  lemma QueueSame(s: Sched, s': Sched, ts: set<nat>, c: nat, ids: seq<nat>, p: nat)
    requires Touches(s, s', ts, c) && QueueOk(s, ids, p, c) && forall t :: t in ts ==> t !in ids
    ensures QueueOk(s', ids, p, c)
  {
    forall i | 0 <= i < |ids| ensures s'.tasks[ids[i]] == s.tasks[ids[i]] {
      assert ids[i] in ids;
    }
  }

  lemma EnqueueOk(s: Sched, s': Sched, t: nat, c: nat)
    requires Touches(s, s', {t}, c) && QueuesOk(s, c) && BitmapOk(s.cores[c])
    requires s.tasks[t].status == Ready ==> forall p :: 0 <= p < MAX_PRIO ==> t !in s.cores[c].queue[p]
    requires s'.tasks[t].status == Ready && s'.tasks[t].core == c && 1 <= s'.tasks[t].prio <= MAX_PRIO
    requires s'.cores[c].queue == Enqueue(s.cores[c], s'.tasks[t].prio, t).queue
    requires s'.cores[c].bitmap == Enqueue(s.cores[c], s'.tasks[t].prio, t).bitmap
    ensures QueuesOk(s', c) && BitmapOk(s'.cores[c])
    ensures t in s'.cores[c].queue[s'.tasks[t].prio - 1]
    ensures forall u, p :: u != t && 0 <= p < MAX_PRIO ==> (u in s'.cores[c].queue[p] <==> u in s.cores[c].queue[p])
  {
    var k, k', q := s.cores[c], s'.cores[c], s'.tasks[t].prio - 1;
    forall p: nat | p < MAX_PRIO ensures QueueOk(s', k'.queue[p], p, c) {
      assert t !in k.queue[p];
      QueueSame(s, s', {t}, c, k.queue[p], p);
      if p == q {
        AppendOk(s', k.queue[q], q, c, t);
      }
    }
    QueuesFrom(s', c);
    EnqueueMembers(k, q + 1, t);
  }

  lemma AppendOk(s: Sched, ids: seq<nat>, p: nat, c: nat, t: nat)
    requires QueueOk(s, ids, p, c) && t !in ids && t < |s.tasks|
    requires s.tasks[t].status == Ready && s.tasks[t].core == c && s.tasks[t].prio == p + 1
    ensures QueueOk(s, ids + [t], p, c)
  {}

  lemma EnqueueMembers(k: Core, prio: nat, t: nat)
    requires BitmapOk(k) && 1 <= prio <= MAX_PRIO
    ensures
      var k' := Enqueue(k, prio, t);
      && (forall b :: b in k'.bitmap ==> 1 <= b <= MAX_PRIO)
      && (forall p :: 0 <= p < MAX_PRIO ==> (p + 1 in k'.bitmap <==> k'.queue[p] != []))
      && t in k'.queue[prio - 1]
      && (forall u, p :: u != t && 0 <= p < MAX_PRIO ==> (u in k'.queue[p] <==> u in k.queue[p]))
  {
    var k', q := Enqueue(k, prio, t), prio - 1;
    assert k'.queue[q] == k.queue[q] + [t] && k'.queue[q][|k.queue[q]|] == t;
    assert forall p :: 0 <= p < MAX_PRIO && p != q ==> k'.queue[p] == k.queue[p];
  }

  lemma TimersKept(s: Sched, s': Sched, t: nat, c: nat)
    requires Touches(s, s', {t}, c) && TimersOk(s, c)
    requires s.tasks[t].status != Blocked || !s.tasks[t].timer
    requires s'.cores[c].timers == s.cores[c].timers
    ensures TimersOk(s', c)
  {
    var ids := s.cores[c].timers;
    assert forall i :: 0 <= i < |ids| ==> s'.tasks[ids[i]] == s.tasks[ids[i]];
  }

  lemma QueuesKept(s: Sched, s': Sched, t: nat, c: nat)
    requires Touches(s, s', {t}, c) && QueuesOk(s, c) && BitmapOk(s.cores[c])
    requires s.tasks[t].status != Ready || forall p :: 0 <= p < MAX_PRIO ==> t !in s.cores[c].queue[p]
    requires s'.cores[c].queue == s.cores[c].queue && s'.cores[c].bitmap == s.cores[c].bitmap
    ensures QueuesOk(s', c) && BitmapOk(s'.cores[c])
  {
    forall p: nat | p < MAX_PRIO ensures QueueOk(s', s'.cores[c].queue[p], p, c) {
      QueueSame(s, s', {t}, c, s.cores[c].queue[p], p);
    }
    QueuesFrom(s', c);
  }

  // ---------- the timer queue ----------

  lemma RemoveTail(ids: seq<nat>, k: nat)
    requires 0 < k < |ids|
    ensures RemoveAt(ids, k) == [ids[0]] + RemoveAt(ids[1..], k - 1)
  {}

  lemma {:induction false} WithoutAt(ids: seq<nat>, k: nat)
    requires NoDup(ids) && k < |ids|
    ensures Without(ids, ids[k]) == RemoveAt(ids, k)
  {
    if k > 0 {
      var rest := ids[1..];
      assert rest[k - 1] == ids[k] && ids[0] != ids[k];
      WithoutAt(rest, k - 1);
      RemoveTail(ids, k);
    }
  }

  lemma WithoutMembers(ids: seq<nat>, t: nat)
    requires NoDup(ids) && t in ids
    ensures NoDup(Without(ids, t)) && forall u :: u in Without(ids, t) <==> u in ids && u != t
  {
    var k :| 0 <= k < |ids| && ids[k] == t;
    WithoutAt(ids, k);
    RemoveDistinct(ids, k);
    RemoveMembers(ids, k);
  }

  lemma WithoutSorted(tasks: seq<Task>, ids: seq<nat>, t: nat)
    requires NoDup(ids) && t in ids && SortedByTimeout(tasks, ids)
    ensures SortedByTimeout(tasks, Without(ids, t))
  {
    var k :| 0 <= k < |ids| && ids[k] == t;
    WithoutAt(ids, k);
    RemoveSorted(tasks, ids, k);
  }

  lemma RemoveSorted(tasks: seq<Task>, ids: seq<nat>, k: nat)
    requires k < |ids| && SortedByTimeout(tasks, ids)
    ensures SortedByTimeout(tasks, RemoveAt(ids, k))
  {}

  // ---------- the operations ----------

  /** s' puts task t on the ready queue of its core c; the timers may have lost t. */
  ghost predicate Enqueues(s: Sched, s': Sched, t: nat, c: nat) {
    && Touches(s, s', {t}, c) && Booted(s, c)
    && s'.tasks[t].status == Ready && !s'.tasks[t].timer && s'.tasks[t].core == c && 1 <= s'.tasks[t].prio <= MAX_PRIO
    && |s.cores[c].queue| == MAX_PRIO
    && s'.cores[c] == Enqueue(s.cores[c], s'.tasks[t].prio, t).(
                        oldTask := if s.cores[c].oldTask == t then NONE else s.cores[c].oldTask,
                        timers := s'.cores[c].timers, nr := s'.cores[c].nr)
    && (forall u: nat :: u != t ==> (u in s'.cores[c].timers <==> u in s.cores[c].timers))
    && match s.tasks[t].status
       case Invalid => true
       case Blocked => s.tasks[t].core == c
       case Ready => s.tasks[t].core == c && s.cores[c].oldTask == t
       case _ => false
  }

  lemma EnqueuedCore(s: Sched, s': Sched, t: nat, c: nat)
    requires Enqueues(s, s', t, c) && CoreOk(s, c) && TaskOk(s, t)
    requires TimersOk(s', c) && s'.cores[c].nr == Count(s'.tasks, RunnableOn(c))
    ensures CoreOk(s', c) && TaskOk(s', t)
    ensures forall u, p :: u != t && 0 <= p < MAX_PRIO ==> (u in s'.cores[c].queue[p] <==> u in s.cores[c].queue[p])
  {
    forall p | 0 <= p < MAX_PRIO && s.tasks[t].status == Ready ensures t !in s.cores[c].queue[p] {}
    EnqueueOk(s, s', t, c);
  }

  lemma Enqueued(s: Sched, s': Sched, t: nat, c: nat)
    requires Inv(s) && Enqueues(s, s', t, c)
    requires TimersOk(s', c) && s'.cores[c].nr == Count(s'.tasks, RunnableOn(c))
    ensures Inv(s')
  {
    assert CoreOk(s, c) && TaskOk(s, t);
    EnqueuedCore(s, s', t, c);
    Local(s, s', {t}, c);
  }

  lemma BootCoreOk(s: Sched, c: nat)
    requires c < |s.cores| && s.cores[c].idle == NONE && CoreOk(s, c) && FreeSlot(s.tasks) < |s.tasks|
    ensures CoreOk(Boot(s, c), c)
  {
    CountSame(s.tasks, Boot(s, c).tasks, RunnableOn(c));
  }

  lemma BootKeeps(s: Sched, c: nat)
    requires Inv(s) && c < |s.cores| && s.cores[c].idle == NONE
    ensures Inv(Boot(s, c))
  {
    var i, s' := FreeSlot(s.tasks), Boot(s, c);
    if i < |s.tasks| {
      forall u: nat | u < |s'.tasks| ensures TaskOk(s', u) {
        assert TaskOk(s, u);
      }
      forall d: nat | d < |s'.cores| ensures CoreOk(s', d) {
        assert CoreOk(s, d);
        if d == c {
          BootCoreOk(s, c);
        } else {
          OtherCore(s, s', {i}, c, d);
        }
      }
    }
  }

  lemma CreateKeeps(s: Sched, prio: nat, c: nat)
    requires Inv(s)
    ensures forall k :: 0 <= k < |s.cores| ==> |s.cores[k].queue| == MAX_PRIO
    ensures Inv(Create(s, prio, c))
  {
    forall k | 0 <= k < |s.cores| ensures |s.cores[k].queue| == MAX_PRIO {
      assert CoreOk(s, k);
    }
    var i := FreeSlot(s.tasks);
    if !CreateRefused(s, prio, c) && i < |s.tasks| {
      var s' := Create(s, prio, c);
      assert CoreOk(s, c) && TaskOk(s, i);
      TimersKept(s, s', i, c);
      CountUpdate(s.tasks, i, s'.tasks[i], RunnableOn(c));
      Enqueued(s, s', i, c);
    }
  }

  lemma BlockKeeps(s: Sched, t: nat)
    requires Inv(s) && t < |s.tasks| && s.tasks[t].status == Running
    ensures s.tasks[t].core < |s.cores| && Inv(Block(s, t))
  {
    assert TaskOk(s, t);
    var s', c := Block(s, t), s.tasks[t].core;
    assert CoreOk(s, c);
    StoppedCore(s, s', t, c, Blocked);
    Local(s, s', {t}, c);
  }

  /** The task running on core c stops: it is blocked or finished. */
  lemma StoppedCore(s: Sched, s': Sched, t: nat, c: nat, st: Status)
    requires t < |s.tasks| && c < |s.cores| && CoreOk(s, c) && TaskOk(s, t)
    requires s.tasks[t].status == Running && s.tasks[t].core == c
    requires (st == Blocked || st == Finished) && s'.tasks == s.tasks[t := s.tasks[t].(status := st)]
    requires s'.cores == s.cores[c := s.cores[c].(nr := s.cores[c].nr - 1)]
    ensures CoreOk(s', c) && TaskOk(s', t)
  {
    CountUpdate(s.tasks, t, s'.tasks[t], RunnableOn(c));
    TimersKept(s, s', t, c);
    QueuesKept(s, s', t, c);
  }

  lemma ExitKeeps(s: Sched, c: nat)
    requires Inv(s) && Booted(s, c) && 0 <= s.cores[c].current < |s.tasks|
    requires s.tasks[s.cores[c].current].status == Running
    ensures Inv(Exit(s, c))
  {
    var t := s.cores[c].current;
    assert TaskOk(s, t) && CoreOk(s, c);
    var s' := Exit(s, c);
    StoppedCore(s, s', t, c, Finished);
    Local(s, s', {t}, c);
  }

  lemma FinishKeeps(s: Sched, c: nat)
    requires Inv(s) && c < |s.cores|
    ensures |s.cores[c].queue| == MAX_PRIO
    ensures s.cores[c].oldTask != NONE ==> 0 <= s.cores[c].oldTask < |s.tasks| && Placed(s, s.cores[c].oldTask)
    ensures Inv(Finish(s, c))
  {
    assert CoreOk(s, c);
    var o := s.cores[c].oldTask;
    if o != NONE {
      assert TaskOk(s, o);
      var s' := Finish(s, c);
      if s.tasks[o].status == Ready {
        TimersKept(s, s', o, c);
        Enqueued(s, s', o, c);
      } else {
        FinishedGone(s, c);
      }
    }
  }

  lemma FinishedGone(s: Sched, c: nat)
    requires Inv(s) && c < |s.cores| && 0 <= s.cores[c].oldTask < |s.tasks| && CoreOk(s, c)
    requires s.tasks[s.cores[c].oldTask].status == Finished && TaskOk(s, s.cores[c].oldTask)
    ensures Inv(Finish(s, c))
  {
    var o, s' := s.cores[c].oldTask, Finish(s, c);
    GoneCore(s, s', o, c);
    Local(s, s', {o}, c);
  }

  lemma GoneCore(s: Sched, s': Sched, o: nat, c: nat)
    requires o < |s.tasks| && c < |s.cores| && s.cores[c].oldTask == o && CoreOk(s, c) && TaskOk(s, o)
    requires s.tasks[o].status == Finished && s'.tasks == s.tasks[o := s.tasks[o].(status := Invalid)]
    requires s'.cores == s.cores[c := s.cores[c].(oldTask := NONE)]
    ensures CoreOk(s', c) && TaskOk(s', o)
  {
    TimersKept(s, s', o, c);
    QueuesKept(s, s', o, c);
    CountUpdate(s.tasks, o, s'.tasks[o], RunnableOn(c));
  }

  lemma WakeupTimers(s: Sched, t: nat)
    requires t < |s.tasks| && TaskOk(s, t) && s.tasks[t].status == Blocked && CoreOk(s, s.tasks[t].core)
    ensures TimersOk(Wakeup(s, t), s.tasks[t].core)
    ensures forall u: nat :: u != t ==>
      (u in Wakeup(s, t).cores[s.tasks[t].core].timers <==> u in s.cores[s.tasks[t].core].timers)
  {
    var s', c := Wakeup(s, t), s.tasks[t].core;
    var ids, ids' := s.cores[c].timers, s'.cores[c].timers;
    if s.tasks[t].timer {
      WithoutMembers(ids, t);
      WithoutSorted(s.tasks, ids, t);
    } else {
      assert t !in ids;
    }
    assert forall i :: 0 <= i < |ids'| ==> ids'[i] in ids && ids'[i] != t;
  }

  lemma WakeupKeeps(s: Sched, t: nat)
    requires Inv(s) && t < |s.tasks|
    ensures s.tasks[t].status == Blocked ==> Placed(s, t)
    ensures Inv(Wakeup(s, t))
  {
    assert TaskOk(s, t);
    if s.tasks[t].status == Blocked {
      var s', c := Wakeup(s, t), s.tasks[t].core;
      assert CoreOk(s, c);
      WakeupTimers(s, t);
      CountUpdate(s.tasks, t, s'.tasks[t], RunnableOn(c));
      Enqueued(s, s', t, c);
    }
  }

  lemma InsertMembers(ids: seq<nat>, at: nat, t: nat, ids': seq<nat>)
    requires at <= |ids| && NoDup(ids) && t !in ids && ids' == ids[..at] + [t] + ids[at..]
    ensures NoDup(ids') && forall u :: u in ids' <==> u in ids || u == t
  {
    assert ids' == InsertAt(ids, at, t);
    InsertDistinct(ids, at, t);
    assert ids == ids[..at] + ids[at..];
  }

  /** Exactly the tasks before place at are due no later. */
  ghost predicate SplitsAt(tasks: seq<Task>, ids: seq<nat>, deadline: nat, at: nat)
    requires forall i :: 0 <= i < |ids| ==> ids[i] < |tasks|
  {
    at <= |ids| && forall i :: 0 <= i < |ids| ==> (i < at <==> tasks[ids[i]].timeout <= deadline)
  }

  /**
   The insertion at Position keeps the timer queue sorted by deadline; the new task comes behind exactly
   those that are due no later.
   */
  lemma InsertSorted(tasks: seq<Task>, ids: seq<nat>, t: nat, deadline: nat)
    requires SortedByTimeout(tasks, ids) && t !in ids && t < |tasks|
    ensures
      var at := Position(tasks, ids, deadline);
      && SortedByTimeout(tasks[t := tasks[t].(timer := true, timeout := deadline)], InsertAt(ids, at, t))
      && SplitsAt(tasks, ids, deadline, at)
  {
    var at := Position(tasks, ids, deadline);
    assert SplitsAt(tasks, ids, deadline, at);
    SortedAt(tasks, ids, t, deadline, at);
  }

  lemma SortedAt(tasks: seq<Task>, ids: seq<nat>, t: nat, deadline: nat, at: nat)
    requires SortedByTimeout(tasks, ids) && t !in ids && t < |tasks| && SplitsAt(tasks, ids, deadline, at)
    ensures SortedByTimeout(tasks[t := tasks[t].(timer := true, timeout := deadline)], InsertAt(ids, at, t))
  {
    var ids', tasks' := InsertAt(ids, at, t), tasks[t := tasks[t].(timer := true, timeout := deadline)];
    forall i, j | 0 <= i < j < |ids'| ensures tasks'[ids'[i]].timeout <= tasks'[ids'[j]].timeout {
      if i == at {
        assert tasks'[ids'[j]] == tasks[ids[j - 1]];
      } else if j == at {
        assert tasks'[ids'[i]] == tasks[ids[i]];
      } else {
        var i0, j0 := if i < at then i else i - 1, if j < at then j else j - 1;
        assert tasks'[ids'[i]] == tasks[ids[i0]] && tasks'[ids'[j]] == tasks[ids[j0]];
      }
    }
  }

  lemma TimersInserted(s: Sched, s': Sched, t: nat, c: nat, deadline: nat, at: nat)
    requires Touches(s, s', {t}, c) && TimersOk(s, c) && t !in s.cores[c].timers
    requires at == Position(s.tasks, s.cores[c].timers, deadline)
    requires s.tasks[t].status == Blocked && s.tasks[t].core == c
    requires s'.tasks == s.tasks[t := s.tasks[t].(timer := true, timeout := deadline)]
    requires s'.cores[c].timers == s.cores[c].timers[..at] + [t] + s.cores[c].timers[at..]
    ensures TimersOk(s', c)
  {
    var ids, ids' := s.cores[c].timers, s'.cores[c].timers;
    InsertMembers(ids, at, t, ids');
    InsertSorted(s.tasks, ids, t, deadline);
    assert ids' == InsertAt(ids, at, t);
    assert forall i :: 0 <= i < |ids'| ==> ids'[i] in ids || ids'[i] == t;
  }

  /** The timer half of set_timer: the blocked current task joins the timer queue of its core. */
  lemma ArmKeeps(s: Sched, s': Sched, c: nat, t: nat, deadline: nat)
    requires Inv(s) && Booted(s, c) && t < |s.tasks|
    requires s.tasks[t].status == Blocked && !s.tasks[t].timer && s.tasks[t].core == c
    requires forall i :: 0 <= i < |s.cores[c].timers| ==> s.cores[c].timers[i] < |s.tasks|
    requires
      var ids := s.cores[c].timers;
      var at := Position(s.tasks, ids, deadline);
      s' == Sched(s.tasks[t := s.tasks[t].(timer := true, timeout := deadline)],
                  s.cores[c := s.cores[c].(timers := ids[..at] + [t] + ids[at..])])
    ensures Inv(s')
  {
    assert CoreOk(s, c) && TaskOk(s, t);
    ArmCore(s, s', c, t, deadline);
    Local(s, s', {t}, c);
  }

  lemma ArmCore(s: Sched, s': Sched, c: nat, t: nat, deadline: nat)
    requires Booted(s, c) && t < |s.tasks| && CoreOk(s, c) && TaskOk(s, t)
    requires s.tasks[t].status == Blocked && !s.tasks[t].timer && s.tasks[t].core == c
    requires
      var ids := s.cores[c].timers;
      var at := Position(s.tasks, ids, deadline);
      s' == Sched(s.tasks[t := s.tasks[t].(timer := true, timeout := deadline)],
                  s.cores[c := s.cores[c].(timers := ids[..at] + [t] + ids[at..])])
    ensures CoreOk(s', c) && TaskOk(s', t)
    ensures forall u: nat :: u < |s.tasks| && u != t ==> SameFor(s.cores[c], s'.cores[c], u)
  {
    var at := Position(s.tasks, s.cores[c].timers, deadline);
    InsertMembers(s.cores[c].timers, at, t, s'.cores[c].timers);
    TimersInserted(s, s', t, c, deadline, at);
    QueuesKept(s, s', t, c);
    CountUpdate(s.tasks, t, s'.tasks[t], RunnableOn(c));
  }

  lemma SetTimerKeeps(s: Sched, c: nat, deadline: nat)
    requires Inv(s) && Booted(s, c)
    ensures 0 <= s.cores[c].current < |s.tasks| && s.tasks[s.cores[c].current].core == c
    ensures forall i :: 0 <= i < |s.cores[c].timers| ==> s.cores[c].timers[i] < |s.tasks|
    ensures Inv(SetTimer(s, c, deadline))
  {
    assert CoreOk(s, c);
    var t := s.cores[c].current;
    assert TaskOk(s, t);
    if s.tasks[t].status == Running {
      BlockKeeps(s, t);
      ArmKeeps(Block(s, t), SetTimer(s, c, deadline), c, t, deadline);
    }
  }

  // ---------- scheduler() ----------

  lemma DequeueOk(s: Sched, s': Sched, curr: nat, t: nat, c: nat, prio: nat)
    requires Touches(s, s', {curr, t}, c) && QueuesOk(s, c) && BitmapOk(s.cores[c])
    requires 1 <= prio <= MAX_PRIO && s.cores[c].queue[prio - 1] != [] && t == s.cores[c].queue[prio - 1][0]
    requires s.tasks[curr].status == Ready ==> s'.tasks[curr] == s.tasks[curr] || curr == t
    requires s'.cores[c].queue == Dequeue(s.cores[c], prio).queue
    requires s'.cores[c].bitmap == Dequeue(s.cores[c], prio).bitmap
    ensures QueuesOk(s', c) && BitmapOk(s'.cores[c])
    ensures forall p :: 0 <= p < MAX_PRIO ==> t !in s'.cores[c].queue[p]
    ensures forall u, p :: u != t && 0 <= p < MAX_PRIO ==> (u in s'.cores[c].queue[p] <==> u in s.cores[c].queue[p])
  {
    var k, k', q := s.cores[c], s'.cores[c], prio - 1;
    assert k'.queue[q] == k.queue[q][1..];
    assert k.queue[q] == [t] + k'.queue[q];
    assert forall p :: 0 <= p < MAX_PRIO && p != q ==> k'.queue[p] == k.queue[p];
    forall p: nat | p < MAX_PRIO ensures t !in k'.queue[p] && QueueOk(s', k'.queue[p], p, c) {
      if p == q {
        TailOk(s, k.queue[q], q, c);
      }
      QueueMoved(s, s', curr, t, c, k'.queue[p], p);
    }
    QueuesFrom(s', c);
  }

  lemma TailOk(s: Sched, ids: seq<nat>, p: nat, c: nat)
    requires QueueOk(s, ids, p, c) && ids != []
    ensures QueueOk(s, ids[1..], p, c) && ids[0] !in ids[1..]
  {
    assert forall i :: 0 <= i < |ids| - 1 ==> ids[1..][i] == ids[i + 1];
  }

  /** The task that runs is in no other queue; the one that ran is only where it stays ready. */
  lemma QueueMoved(s: Sched, s': Sched, curr: nat, t: nat, c: nat, ids: seq<nat>, p: nat)
    requires Touches(s, s', {curr, t}, c) && QueueOk(s, ids, p, c) && t !in ids
    requires s.tasks[curr].status == Ready ==> s'.tasks[curr] == s.tasks[curr] || curr == t
    ensures QueueOk(s', ids, p, c)
  {
    forall i | 0 <= i < |ids| ensures s'.tasks[ids[i]] == s.tasks[ids[i]] {
      assert ids[i] in ids;
    }
  }

  /** scheduler() takes the front task of the highest non-empty queue. */
  ghost predicate Switching(s: Sched, c: nat, prio: nat) {
    && Booted(s, c) && s.cores[c].oldTask == NONE
    && CurrentOk(s, c) && QueuesOk(s, c) && BitmapOk(s.cores[c])
    && prio == Msb(s.cores[c].bitmap) <= MAX_PRIO
    && !(s.tasks[s.cores[c].current].prio > prio && s.tasks[s.cores[c].current].status == Running)
  }

  lemma SwitchQueues(s: Sched, c: nat, prio: nat) returns (curr: nat, t: nat)
    requires Switching(s, c, prio) && TaskOk(s, s.cores[c].current)
    ensures 1 <= prio && s.cores[c].queue[prio - 1] != []
    ensures curr == s.cores[c].current && t == s.cores[c].queue[prio - 1][0] && t < |s.tasks|
    ensures s.tasks[t].status == Ready && s.tasks[t].core == c && s.tasks[t].prio == prio
    ensures var s' := Schedule(s, c);
      && Touches(s, s', {curr, t}, c)
      && QueuesOk(s', c) && BitmapOk(s'.cores[c])
      && (forall p :: 0 <= p < MAX_PRIO ==> t !in s'.cores[c].queue[p])
      && (forall u, p :: u != t && 0 <= p < MAX_PRIO ==> (u in s'.cores[c].queue[p] <==> u in s.cores[c].queue[p]))
  {
    HighestIsMax(s.cores[c].bitmap, MAX_PRIO);
    curr, t := s.cores[c].current, s.cores[c].queue[prio - 1][0];
    DequeueOk(s, Schedule(s, c), curr, t, c, prio);
  }

  lemma SwitchCore(s: Sched, c: nat, prio: nat)
    requires Switching(s, c, prio) && CoreOk(s, c) && TaskOk(s, s.cores[c].current)
    ensures CoreOk(Schedule(s, c), c)
  {
    var curr, t := SwitchQueues(s, c, prio);
    var s', ids := Schedule(s, c), s.cores[c].timers;
    CountSame(s.tasks, s'.tasks, RunnableOn(c));
    assert forall i :: 0 <= i < |ids| ==> s'.tasks[ids[i]] == s.tasks[ids[i]];
  }

  lemma SwitchTasks(s: Sched, c: nat, prio: nat)
    requires Switching(s, c, prio) && TaskOk(s, s.cores[c].current)
    requires prio >= 1 && s.cores[c].queue[prio - 1] != [] && s.cores[c].queue[prio - 1][0] < |s.tasks|
    requires TaskOk(s, s.cores[c].queue[prio - 1][0])
    ensures TaskOk(Schedule(s, c), s.cores[c].current) && TaskOk(Schedule(s, c), s.cores[c].queue[prio - 1][0])
  {
    var curr, t := SwitchQueues(s, c, prio);
  }

  lemma ScheduleKeeps(s: Sched, c: nat)
    requires Inv(s) && Booted(s, c) && s.cores[c].oldTask == NONE
    ensures CurrentOk(s, c) && QueuesOk(s, c) && BitmapOk(s.cores[c])
    ensures Inv(Schedule(s, c))
  {
    assert CoreOk(s, c) && TaskOk(s, s.cores[c].current);
    if Switching(s, c, Msb(s.cores[c].bitmap)) {
      SwitchKeeps(s, c, Msb(s.cores[c].bitmap));
    } else {
      StayKeeps(s, c);
    }
  }

  lemma SwitchKeeps(s: Sched, c: nat, prio: nat)
    requires Inv(s) && Switching(s, c, prio) && CoreOk(s, c) && TaskOk(s, s.cores[c].current)
    ensures Inv(Schedule(s, c))
  {
    var curr, t := SwitchQueues(s, c, prio);
    SwitchCore(s, c, prio);
    assert TaskOk(s, t);
    SwitchTasks(s, c, prio);
    SwitchOthers(s, c, prio, curr, t);
    Local(s, Schedule(s, c), {curr, t}, c);
  }

  /** The core record looks the same to the other tasks. */
  lemma SwitchOthers(s: Sched, c: nat, prio: nat, curr: nat, t: nat)
    requires Switching(s, c, prio) && 1 <= prio && s.cores[c].queue[prio - 1] != []
    requires curr == s.cores[c].current && t == s.cores[c].queue[prio - 1][0] && t < |s.tasks|
    requires forall u, p :: u != t && 0 <= p < MAX_PRIO ==>
      (u in Schedule(s, c).cores[c].queue[p] <==> u in s.cores[c].queue[p])
    ensures forall u: nat :: u < |s.tasks| && u !in {curr, t} ==> SameFor(s.cores[c], Schedule(s, c).cores[c], u)
  {}

  lemma StayKeeps(s: Sched, c: nat)
    requires Inv(s) && Booted(s, c) && s.cores[c].oldTask == NONE
    requires CurrentOk(s, c) && QueuesOk(s, c) && BitmapOk(s.cores[c]) && !Switching(s, c, Msb(s.cores[c].bitmap))
    ensures Inv(Schedule(s, c))
  {
    assert CoreOk(s, c) && TaskOk(s, s.cores[c].current) && TaskOk(s, s.cores[c].idle);
    StayCore(s, c);
    StayTasks(s, c);
    Local(s, Schedule(s, c), {s.cores[c].current, s.cores[c].idle}, c);
  }

  /** Without a switch only current and old_task of the core change. */
  lemma StayCore(s: Sched, c: nat)
    requires c < |s.cores| && CoreOk(s, c) && CurrentOk(s, c) && s.cores[c].oldTask == NONE && Booted(s, c)
    requires TaskOk(s, s.cores[c].current) && !Switching(s, c, Msb(s.cores[c].bitmap))
    ensures
      var k, s' := s.cores[c], Schedule(s, c);
      && s'.tasks == s.tasks
      && s'.cores == s.cores[c := k.(current := s'.cores[c].current, oldTask := s'.cores[c].oldTask)]
      && (s'.cores[c].current == k.current || s'.cores[c].current == k.idle)
      && s'.cores[c].oldTask == if s.tasks[k.current].status == Finished then k.current else NONE
    ensures CoreOk(Schedule(s, c), c)
  {}

  lemma StayTasks(s: Sched, c: nat)
    requires c < |s.cores| && CoreOk(s, c) && CurrentOk(s, c) && s.cores[c].oldTask == NONE && Booted(s, c)
    requires TaskOk(s, s.cores[c].current) && TaskOk(s, s.cores[c].idle) && !Switching(s, c, Msb(s.cores[c].bitmap))
    ensures TaskOk(Schedule(s, c), s.cores[c].current) && TaskOk(Schedule(s, c), s.cores[c].idle)
    ensures forall u: nat :: u < |s.tasks| && u != s.cores[c].current && u != s.cores[c].idle ==>
      SameFor(s.cores[c], Schedule(s, c).cores[c], u)
  {
    StayCore(s, c);
  }
}
