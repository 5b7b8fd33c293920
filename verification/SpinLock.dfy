/**
 The recursive spinlock of include/hermit/spinlock.h: the ticket lock plus the owner and counter
 fields, every access to them a separate atomic step.
 */
module SpinLock {
  import TicketLock

  /** Where a task stands in spinlock_lock or spinlock_unlock; depth counts its nested acquisitions. */
  datatype Local =
    | Idle                  // outside
    | Ticket                // owner was not us: about to take a ticket
    | Spinning              // waiting for dequeue
    | Entered               // ticket served: about to set owner
    | Owning                // about to set counter
    | Held(depth: int)      // in the critical section
    | Again(depth: int)     // owner was us: about to increment counter
    | Dropped(depth: int)   // counter decremented: about to test it
    | Clearing              // about to reset owner
    | Leaving               // about to increment dequeue

  /** owner is a task number, or |local| (MAX_TASKS) for none. */
  datatype Spin = Spin(ticket: TicketLock.Lock, owner: nat, counter: int, local: seq<Local>)

  datatype Step =
    | TestOwner(t: nat)     // lock: if (s->owner == curr_task->id)
    | Bump(t: nat)          // lock: s->counter++
    | TakeTicket(t: nat)
    | EndSpin(t: nat)
    | SetOwner(t: nat)
    | SetCounter(t: nat)
    | Drop(t: nat)          // unlock: s->counter--
    | TestCounter(t: nat)   // unlock: if (!s->counter)
    | ClearOwner(t: nat)
    | Release(t: nat)

  /** The access a step makes to the ticket counters, if it makes one. */
  function TicketStep(a: Step): seq<TicketLock.Step> {
    match a
    case TakeTicket(t) => [TicketLock.Take(t)]
    case EndSpin(t) => [TicketLock.Enter(t)]
    case Release(t) => [TicketLock.Leave(t)]
    case _ => []
  }

  /** A task may call unlock only while it holds the lock; the spinning ends when the ticket lock lets it. */
  predicate Enabled(s: Spin, a: Step) {
    && a.t < |s.local|
    && match a
       case TestOwner(t) => s.local[t] == Idle || s.local[t].Held?
       case Bump(t) => s.local[t].Again?
       case TakeTicket(t) => s.local[t] == Ticket && TicketLock.Enabled(s.ticket, TicketLock.Take(t))
       case EndSpin(t) => s.local[t] == Spinning && TicketLock.Enabled(s.ticket, TicketLock.Enter(t))
       case SetOwner(t) => s.local[t] == Entered
       case SetCounter(t) => s.local[t] == Owning
       case Drop(t) => s.local[t].Held?
       case TestCounter(t) => s.local[t].Dropped?
       case ClearOwner(t) => s.local[t] == Clearing
       case Release(t) => s.local[t] == Leaving && TicketLock.Enabled(s.ticket, TicketLock.Leave(t))
  }

  function Depth(x: Local): int {
    match x
    case Held(d) => d
    case Again(d) => d
    case Dropped(d) => d
    case _ => 0
  }

  function Apply(s: Spin, a: Step): Spin
    requires s.ticket.queue < s.ticket.m && s.ticket.dequeue < s.ticket.m && Enabled(s, a)
  {
    var x := s.local[a.t];
    match a
    case TestOwner(t) => s.(local := s.local[t := if s.owner == t then Again(Depth(x)) else Ticket])
    case Bump(t) => s.(counter := s.counter + 1, local := s.local[t := Held(x.depth + 1)])
    case TakeTicket(t) => s.(ticket := TicketLock.Apply(s.ticket, TicketLock.Take(t)), local := s.local[t := Spinning])
    case EndSpin(t) => s.(ticket := TicketLock.Apply(s.ticket, TicketLock.Enter(t)), local := s.local[t := Entered])
    case SetOwner(t) => s.(owner := t, local := s.local[t := Owning])
    case SetCounter(t) => s.(counter := 1, local := s.local[t := Held(1)])
    case Drop(t) => s.(counter := s.counter - 1, local := s.local[t := Dropped(x.depth - 1)])
    case TestCounter(t) => s.(local := s.local[t := if s.counter == 0 then Clearing else Held(x.depth)])
    case ClearOwner(t) => s.(owner := |s.local|, local := s.local[t := Leaving])
    case Release(t) => s.(ticket := TicketLock.Apply(s.ticket, TicketLock.Leave(t)), local := s.local[t := Idle])
  }

  /** spinlock_init. */
  function Initial(n: nat, m: nat): Spin
    requires m > 0
  {
    Spin(TicketLock.Initial(n, m), n, 0, seq(n, _ => Idle))
  }

  // ---------- the invariant ----------

  predicate OwnsField(x: Local) {
    x.Owning? || x.Held? || x.Again? || x.Dropped? || x.Clearing?
  }

  /** From the end of the spinning to the increment of dequeue. */
  predicate Inside(x: Local) {
    OwnsField(x) || x.Entered? || x.Leaving?
  }

  ghost predicate LocalOk(s: Spin, t: nat)
    requires t < |s.local| == |s.ticket.phase|
  {
    && (Inside(s.local[t]) <==> s.ticket.phase[t] == TicketLock.In)
    && (s.local[t] == Spinning <==> s.ticket.phase[t].Wait?)
    && (s.owner == t <==> OwnsField(s.local[t]))
    && (s.local[t].Held? || s.local[t].Again? ==> s.counter == s.local[t].depth >= 1)
    && (s.local[t].Dropped? ==> s.counter == s.local[t].depth >= 0)
  }

  ghost predicate Inv(s: Spin) {
    && TicketLock.Inv(s.ticket) && |s.local| == |s.ticket.phase|
    && s.ticket.queue < s.ticket.m && s.ticket.dequeue < s.ticket.m
    && s.owner <= |s.local|
    && forall t: nat :: t < |s.local| ==> LocalOk(s, t)
  }

  lemma OneInside(s: Spin, t: nat, u: nat)
    requires Inv(s) && t < |s.local| && u < |s.local| && Inside(s.local[t]) && Inside(s.local[u])
    ensures t == u
  {
    assert LocalOk(s, t) && LocalOk(s, u);
    TicketLock.InvExclusive(s.ticket);
  }

  /** What a step by task a.t does to the local state of any task. */
  lemma LocalKeeps(s: Spin, a: Step, t: nat)
    requires |s.local| == |s.ticket.phase| && s.ticket.queue < s.ticket.m && s.ticket.dequeue < s.ticket.m
    requires Enabled(s, a) && t < |s.local| && s.owner <= |s.local| && LocalOk(s, t) && LocalOk(s, a.t)
    requires Inside(s.local[t]) && Inside(s.local[a.t]) ==> t == a.t
    ensures |Apply(s, a).local| == |Apply(s, a).ticket.phase| == |s.local| && LocalOk(Apply(s, a), t)
  {}

  lemma StepKeeps(s: Spin, a: Step)
    requires Inv(s) && Enabled(s, a)
    ensures Inv(Apply(s, a))
  {
    var s' := Apply(s, a);
    assert LocalOk(s, a.t);
    if TicketStep(a) != [] {
      TicketLock.StepKeeps(s.ticket, TicketStep(a)[0]);
    }
    forall t: nat | t < |s'.local| ensures LocalOk(s', t) {
      assert LocalOk(s, t);
      if Inside(s.local[t]) && Inside(s.local[a.t]) {
        OneInside(s, t, a.t);
      }
      LocalKeeps(s, a, t);
    }
  }

  // ---------- runs ----------

  predicate Legal(s: Spin, steps: seq<Step>)
    decreases |steps|
  {
    && s.ticket.queue < s.ticket.m && s.ticket.dequeue < s.ticket.m
    && (steps == [] || (Enabled(s, steps[0]) && Legal(Apply(s, steps[0]), steps[1..])))
  }

  function After(s: Spin, steps: seq<Step>): Spin
    requires Legal(s, steps)
    decreases |steps|
  {
    if steps == [] then s else After(Apply(s, steps[0]), steps[1..])
  }

  function TicketSteps(steps: seq<Step>): seq<TicketLock.Step> {
    if steps == [] then [] else TicketStep(steps[0]) + TicketSteps(steps[1..])
  }

  /** Every run keeps the invariant, and its ticket accesses form a run of the ticket lock. */
  lemma {:induction false} RunKeeps(s: Spin, steps: seq<Step>)
    requires Inv(s) && Legal(s, steps)
    ensures Inv(After(s, steps))
    ensures TicketLock.Legal(s.ticket, TicketSteps(steps))
    ensures TicketLock.After(s.ticket, TicketSteps(steps)) == After(s, steps).ticket
    decreases |steps|
  {
    if steps != [] {
      StepKeeps(s, steps[0]);
      RunKeeps(Apply(s, steps[0]), steps[1..]);
      if TicketStep(steps[0]) != [] {
        assert TicketSteps(steps)[1..] == TicketSteps(steps[1..]);
      } else {
        assert TicketSteps(steps) == TicketSteps(steps[1..]);
      }
    }
  }

  /**
   One task at a time is between the end of its spinning and its release, owner names a task only
   while it holds the lock, and counter is its nesting depth.
   */
  ghost predicate Safe(s: Spin) {
    && (forall t, u :: 0 <= t < |s.local| && 0 <= u < |s.local| && Inside(s.local[t]) && Inside(s.local[u]) ==> t == u)
    && (forall t :: 0 <= t < |s.local| ==> (s.owner == t <==> OwnsField(s.local[t])))
    && (forall t :: 0 <= t < |s.local| && s.local[t].Held? ==> s.counter == s.local[t].depth >= 1)
  }

  lemma InvSafe(s: Spin)
    requires Inv(s)
    ensures Safe(s)
  {
    forall t, u | 0 <= t < |s.local| && 0 <= u < |s.local| && Inside(s.local[t]) && Inside(s.local[u]) ensures t == u {
      OneInside(s, t, u);
    }
    forall t | 0 <= t < |s.local|
      ensures s.owner == t <==> OwnsField(s.local[t])
      ensures s.local[t].Held? ==> s.counter == s.local[t].depth >= 1
    {
      assert LocalOk(s, t);
    }
  }

  /** Every run of at most m tasks is safe, and the tasks get the lock in the order of their tickets. */
  lemma SpinLockSafe(n: nat, m: nat, steps: seq<Step>)
    requires 0 < m && n <= m && Legal(Initial(n, m), steps)
    ensures Safe(After(Initial(n, m), steps)) && |After(Initial(n, m), steps).local| == n
    ensures TicketLock.Enters(TicketSteps(steps)) <= TicketLock.Takes(TicketSteps(steps))
  {
    var s0 := Initial(n, m);
    InitialInv(n, m);
    RunKeeps(s0, steps);
    SameSize(s0, steps);
    InvSafe(After(s0, steps));
    ServedInOrder(n, m, TicketSteps(steps));
  }

  lemma InitialInv(n: nat, m: nat)
    requires 0 < m && n <= m
    ensures Inv(Initial(n, m))
  {
    TicketLock.InitialInv(n, m);
  }

  lemma ServedInOrder(n: nat, m: nat, steps: seq<TicketLock.Step>)
    requires 0 < m && n <= m && TicketLock.Legal(TicketLock.Initial(n, m), steps)
    ensures TicketLock.Enters(steps) <= TicketLock.Takes(steps)
  {
    var l := TicketLock.Initial(n, m);
    TicketLock.InitialInv(n, m);
    TicketLock.RunIsFifo(l, steps);
    assert TicketLock.Waiting(l) + TicketLock.Takes(steps) == TicketLock.Takes(steps);
  }

  lemma {:induction false} SameSize(s: Spin, steps: seq<Step>)
    requires Legal(s, steps)
    ensures |After(s, steps).local| == |s.local|
    decreases |steps|
  {
    if steps != [] {
      SameSize(Apply(s, steps[0]), steps[1..]);
    }
  }

  // ---------- balanced recursion ----------

  /** What a step adds to the locks of task t that are not unlocked yet. */
  function Delta(a: Step, t: nat): int {
    if a.t != t then 0 else if a.Bump? || a.SetCounter? then 1 else if a.Drop? then -1 else 0
  }

  /** The calls of spinlock_lock that succeeded minus those of spinlock_unlock, read off the steps. */
  function Owed(steps: seq<Step>, t: nat): int {
    if steps == [] then 0 else Delta(steps[0], t) + Owed(steps[1..], t)
  }

  lemma DepthStep(s: Spin, a: Step, t: nat)
    requires Inv(s) && Enabled(s, a) && t < |s.local|
    ensures |Apply(s, a).local| == |s.local|
    ensures Depth(Apply(s, a).local[t]) == Depth(s.local[t]) + Delta(a, t)
  {
    assert LocalOk(s, a.t);
  }

  lemma {:induction false} DepthIsOwed(s: Spin, steps: seq<Step>, t: nat)
    requires Inv(s) && Legal(s, steps) && t < |s.local|
    ensures |After(s, steps).local| == |s.local|
    ensures Depth(After(s, steps).local[t]) == Depth(s.local[t]) + Owed(steps, t)
    decreases |steps|
  {
    if steps != [] {
      StepKeeps(s, steps[0]);
      DepthStep(s, steps[0], t);
      DepthIsOwed(Apply(s, steps[0]), steps[1..], t);
    }
  }

  /**
   In every run a task that owes d > 0 unlocks is in its critical section at depth d, alone inside, and
   nobody can end its spinning; a task resets owner and dequeue only when it owes none.
   */
  lemma Balanced(n: nat, m: nat, steps: seq<Step>, t: nat)
    requires 0 < m && n <= m && Legal(Initial(n, m), steps) && t < n
    ensures
      var s, d := After(Initial(n, m), steps), Owed(steps, t);
      && |s.local| == n && d >= 0
      && (d > 0 ==>
            && (s.local[t] == Held(d) || s.local[t] == Again(d) || s.local[t] == Dropped(d))
            && s.owner == t && s.counter == d
            && (forall u: nat :: u < n && u != t ==> !Inside(s.local[u]))
            && (forall u: nat :: u < n ==> !Enabled(s, EndSpin(u))))
      && (Enabled(s, ClearOwner(t)) || Enabled(s, Release(t)) || s.local[t] == Idle ==> d == 0)
  {
    var s0, s := Initial(n, m), After(Initial(n, m), steps);
    InitialInv(n, m);
    RunKeeps(s0, steps);
    DepthIsOwed(s0, steps, t);
    assert LocalOk(s, t);
    if Owed(steps, t) > 0 {
      forall u: nat | u < n && u != t ensures !Inside(s.local[u]) {
        if Inside(s.local[u]) {
          OneInside(s, t, u);
        }
      }
      forall u: nat | u < n ensures !Enabled(s, EndSpin(u)) {
        NobodyEnters(s, t, u);
      }
    }
  }

  lemma NobodyEnters(s: Spin, t: nat, u: nat)
    requires Inv(s) && t < |s.local| && u < |s.local| && Inside(s.local[t])
    ensures !Enabled(s, EndSpin(u))
  {
    assert LocalOk(s, t);
    if TicketLock.Enabled(s.ticket, TicketLock.Enter(u)) {
      TicketLock.HeadEnters(s.ticket, u);
      var i := TicketLock.InLine(s.ticket, t);
    }
  }

  // ---------- a call alone ----------

  /** One step and then a run. */
  lemma Before(s: Spin, a: Step, rest: seq<Step>, all: seq<Step>)
    requires Inv(s) && Enabled(s, a) && Legal(Apply(s, a), rest) && all == [a] + rest
    ensures Legal(s, all) && After(s, all) == After(Apply(s, a), rest)
  {
    assert all[1..] == rest;
  }

  lemma Two(s: Spin, a: Step, b: Step)
    requires Inv(s) && Enabled(s, a) && Enabled(Apply(s, a), b)
    ensures Legal(s, [a, b]) && After(s, [a, b]) == Apply(Apply(s, a), b)
    ensures Inv(Apply(s, a)) && Inv(Apply(Apply(s, a), b))
  {
    StepKeeps(s, a);
    StepKeeps(Apply(s, a), b);
    Before(Apply(s, a), b, [], [b]);
    Before(s, a, [b], [a, b]);
  }

  lemma {:induction false} Then(s: Spin, first: seq<Step>, second: seq<Step>)
    requires Inv(s) && Legal(s, first) && Legal(After(s, first), second)
    ensures Legal(s, first + second) && After(s, first + second) == After(After(s, first), second)
    decreases |first|
  {
    if first == [] {
      assert first + second == second;
    } else {
      StepKeeps(s, first[0]);
      assert (first + second)[1..] == first[1..] + second;
      Then(Apply(s, first[0]), first[1..], second);
    }
  }

  /** Agent t has the first place in the line of a free lock. */
  lemma TakeAlone(s: Spin, t: nat)
    requires Inv(s) && t < |s.local| && s.ticket.line == [] && s.local[t] == Idle
    ensures
      var steps := [TestOwner(t), TakeTicket(t)];
      && Legal(s, steps)
      && var s' := After(s, steps);
         && Inv(s') && s'.local == s.local[t := Spinning] && s'.ticket.line == [t]
         && TicketLock.Enabled(s'.ticket, TicketLock.Enter(t))
  {
    assert LocalOk(s, t);
    var s1 := Apply(s, TestOwner(t));
    TicketLock.TakeJoins(s.ticket, t);
    Two(s, TestOwner(t), TakeTicket(t));
    assert Apply(s1, TakeTicket(t)).local == s.local[t := Spinning];
  }

  lemma EnterAlone(s: Spin, t: nat)
    requires Inv(s) && t < |s.local| && s.local[t] == Spinning && TicketLock.Enabled(s.ticket, TicketLock.Enter(t))
    ensures
      var steps := [EndSpin(t), SetOwner(t)] + [SetCounter(t)];
      && Legal(s, steps)
      && var s' := After(s, steps);
         && s'.local == s.local[t := Held(1)] && s'.owner == t && s'.counter == 1
         && s'.ticket.line == s.ticket.line
  {
    Two(s, EndSpin(t), SetOwner(t));
    var s2 := Apply(Apply(s, EndSpin(t)), SetOwner(t));
    Before(s2, SetCounter(t), [], [SetCounter(t)]);
    Then(s, [EndSpin(t), SetOwner(t)], [SetCounter(t)]);
    assert Apply(s2, SetCounter(t)).local == s.local[t := Held(1)];
  }

  /** A call of spinlock_lock on a free lock, nobody else moving. */
  lemma LockAlone(s: Spin, t: nat)
    requires Inv(s) && t < |s.local| && s.ticket.line == [] && s.local[t] == Idle
    ensures
      var steps := [TestOwner(t), TakeTicket(t)] + ([EndSpin(t), SetOwner(t)] + [SetCounter(t)]);
      && Legal(s, steps)
      && var s' := After(s, steps);
         s'.local == s.local[t := Held(1)] && s'.owner == t && s'.counter == 1 && s'.ticket.line == [t]
  {
    TakeAlone(s, t);
    EnterAlone(After(s, [TestOwner(t), TakeTicket(t)]), t);
    Then(s, [TestOwner(t), TakeTicket(t)], [EndSpin(t), SetOwner(t)] + [SetCounter(t)]);
  }

  /** A nested call only counts. */
  lemma LockAgain(s: Spin, t: nat)
    requires Inv(s) && t < |s.local| && s.local[t].Held?
    ensures
      var steps, d := [TestOwner(t), Bump(t)], s.local[t].depth;
      && Legal(s, steps)
      && After(s, steps) == s.(counter := d + 1, local := s.local[t := Held(d + 1)])
  {
    assert LocalOk(s, t);
    Two(s, TestOwner(t), Bump(t));
    assert Apply(Apply(s, TestOwner(t)), Bump(t)).local == s.local[t := Held(s.local[t].depth + 1)];
  }

  /** An unlock at depth above 1 only counts. */
  lemma UnlockInner(s: Spin, t: nat)
    requires Inv(s) && t < |s.local| && s.local[t].Held?
    ensures
      var d := s.local[t].depth;
      && Legal(s, [Drop(t), TestCounter(t)])
      && After(s, [Drop(t), TestCounter(t)]) ==
           s.(counter := d - 1, local := s.local[t := if d > 1 then Held(d - 1) else Clearing])
  {
    assert LocalOk(s, t);
    Two(s, Drop(t), TestCounter(t));
    var d := s.local[t].depth;
    assert Apply(Apply(s, Drop(t)), TestCounter(t)).local == s.local[t := if d > 1 then Held(d - 1) else Clearing];
  }

  lemma ReleaseAlone(s: Spin, t: nat)
    requires Inv(s) && t < |s.local| && s.local[t] == Clearing
    ensures
      var steps := [ClearOwner(t), Release(t)];
      && Legal(s, steps)
      && var s' := After(s, steps);
         && Inv(s') && s'.local == s.local[t := Idle] && s'.owner == |s.local|
         && s.ticket.line != [] && s'.ticket.line == s.ticket.line[1..]
  {
    assert LocalOk(s, t);
    Two(s, ClearOwner(t), Release(t));
    assert Apply(Apply(s, ClearOwner(t)), Release(t)).local == s.local[t := Idle];
    TicketLock.LeaveAdmits(s.ticket, t);
  }

  /** The first in the line is inside or may enter. */
  lemma FirstEnters(s: Spin)
    requires Inv(s) && s.ticket.line != []
    ensures s.ticket.line[0] < |s.local|
    ensures Inside(s.local[s.ticket.line[0]]) || Enabled(s, EndSpin(s.ticket.line[0]))
  {
    TicketLock.HeadMoves(s.ticket);
    assert LocalOk(s, s.ticket.line[0]);
  }

  lemma NextEnters(s: Spin, t: nat, s': Spin)
    requires Inv(s) && t < |s.local| && Inside(s.local[t])
    requires Inv(s') && s'.local == s.local[t := Idle] && s'.ticket.line != []
    ensures s'.ticket.line[0] < |s'.local| && Enabled(s', EndSpin(s'.ticket.line[0]))
  {
    FirstEnters(s');
    if Inside(s'.local[s'.ticket.line[0]]) {
      OneInside(s, t, s'.ticket.line[0]);
    }
  }

  /** An unlock at depth 1 frees the lock and lets in the next in the line. */
  lemma UnlockAlone(s: Spin, t: nat)
    requires Inv(s) && t < |s.local| && s.local[t] == Held(1)
    ensures
      var steps := [Drop(t), TestCounter(t)] + [ClearOwner(t), Release(t)];
      && Legal(s, steps)
      && var s' := After(s, steps);
         && s'.local == s.local[t := Idle] && s'.owner == |s.local|
         && s.ticket.line != [] && s'.ticket.line == s.ticket.line[1..]
         && (s'.ticket.line != [] ==> Enabled(s', EndSpin(s'.ticket.line[0])))
  {
    UnlockInner(s, t);
    RunKeeps(s, [Drop(t), TestCounter(t)]);
    var s2 := After(s, [Drop(t), TestCounter(t)]);
    ReleaseAlone(s2, t);
    Then(s, [Drop(t), TestCounter(t)], [ClearOwner(t), Release(t)]);
    var s' := After(s2, [ClearOwner(t), Release(t)]);
    assert s'.local == s.local[t := Idle];
    if s'.ticket.line != [] {
      NextEnters(s, t, s');
    }
  }
}
