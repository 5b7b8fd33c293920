/**
 The ticket lock under include/hermit/islelock.h and include/hermit/spinlock.h, as a state machine
 over its atomic steps, for any number of tasks and counters that wrap at any modulus.
 */
module TicketLock {
  import opened Circular
  import opened Distinct

  datatype Phase = Out | Wait(ticket: nat) | In

  /**
   queue and dequeue are the two counters, modulo m. The last two fields are history: the tasks that
   hold a ticket, in ticket order, and the number of tickets already given back.
   */
  datatype Lock = Lock(m: nat, queue: nat, dequeue: nat, phase: seq<Phase>, line: seq<nat>, served: nat)

  /** One atomic access to the lock by task t. */
  datatype Step =
    | Take(t: nat)    // ticket = atomic_inc(&queue)
    | Enter(t: nat)   // the read of dequeue that ends the spinning
    | Leave(t: nat)   // atomic_inc(&dequeue)

  predicate Enabled(l: Lock, a: Step) {
    && a.t < |l.phase|
    && match a
       case Take(t) => l.phase[t] == Out
       case Enter(t) => l.phase[t] == Wait(l.dequeue)
       case Leave(t) => l.phase[t] == In
  }

  function Apply(l: Lock, a: Step): Lock
    requires l.queue < l.m && l.dequeue < l.m && Enabled(l, a)
  {
    match a
    case Take(t) =>
      var k := Advance(l.queue, 1, l.m);
      l.(queue := k, phase := l.phase[t := Wait(k)], line := l.line + [t])
    case Enter(t) => l.(phase := l.phase[t := In])
    case Leave(t) =>
      l.(dequeue := Advance(l.dequeue, 1, l.m), phase := l.phase[t := Out],
         line := if l.line == [] then [] else l.line[1..], served := l.served + 1)
  }

  /** islelock_init: queue 0, dequeue 1. */
  function Initial(n: nat, m: nat): Lock
    requires m > 0
  {
    Lock(m, 0, Advance(0, 1, m), seq(n, _ => Out), [], 0)
  }

  // ---------- runs ----------

  predicate Legal(l: Lock, steps: seq<Step>)
    decreases |steps|
  {
    && l.queue < l.m && l.dequeue < l.m
    && (steps == [] || (Enabled(l, steps[0]) && Legal(Apply(l, steps[0]), steps[1..])))
  }

  function After(l: Lock, steps: seq<Step>): Lock
    requires Legal(l, steps)
    decreases |steps|
  {
    if steps == [] then l else After(Apply(l, steps[0]), steps[1..])
  }

  function Takes(steps: seq<Step>): seq<nat> {
    if steps == [] then [] else (if steps[0].Take? then [steps[0].t] else []) + Takes(steps[1..])
  }

  function Enters(steps: seq<Step>): seq<nat> {
    if steps == [] then [] else (if steps[0].Enter? then [steps[0].t] else []) + Enters(steps[1..])
  }

  ghost predicate Exclusive(l: Lock) {
    forall t, u :: 0 <= t < u < |l.phase| ==> !(l.phase[t] == In && l.phase[u] == In)
  }

  // ---------- the invariant ----------

  /** The ticket of the task at place i of the line. */
  function TicketAt(l: Lock, i: nat): nat
    requires l.m > 0
  {
    Advance(0, l.served + 1 + i, l.m)
  }

  ghost predicate Inv(l: Lock) {
    && |l.phase| <= l.m && 0 < l.m
    && NoDup(l.line) && (forall i :: 0 <= i < |l.line| ==> l.line[i] < |l.phase|)
    && l.queue == Advance(0, l.served + |l.line|, l.m)
    && l.dequeue == TicketAt(l, 0)
    && (forall t: nat :: OutOk(l, t))
    && (forall i: nat :: i < |l.line| ==> PlaceOk(l, i))
  }

  predicate OutOk(l: Lock, t: nat) {
    t < |l.phase| && t !in l.line ==> l.phase[t] == Out
  }

  predicate PlaceOk(l: Lock, i: nat)
    requires i < |l.line| && l.line[i] < |l.phase| && 0 < l.m
  {
    l.phase[l.line[i]] == Wait(TicketAt(l, i)) || (i == 0 && l.phase[l.line[i]] == In)
  }

  lemma InLine(l: Lock, t: nat) returns (i: nat)
    requires Inv(l) && t < |l.phase| && l.phase[t] != Out
    ensures i < |l.line| && l.line[i] == t && PlaceOk(l, i)
  {
    assert OutOk(l, t);
    var j :| 0 <= j < |l.line| && l.line[j] == t;
    i := j;
  }

  lemma OutOfLine(l: Lock, t: nat)
    requires Inv(l) && t < |l.phase| && l.phase[t] == Out
    ensures t !in l.line
  {
    forall i: nat | i < |l.line| ensures l.line[i] != t {
      assert PlaceOk(l, i);
    }
  }

  /** Only the head of the line can see its own ticket in dequeue. */
  lemma HeadEnters(l: Lock, t: nat)
    requires Inv(l) && t < |l.phase| && l.phase[t] == Wait(l.dequeue)
    ensures l.line != [] && l.line[0] == t
  {
    var i := InLine(l, t);
    Pigeonhole(l.line, |l.phase|);
    AdvanceAdd(0, l.served + 1, i, l.m);
    AdvanceAdd(0, l.served + 1, 0, l.m);
    AdvanceInjective(l.dequeue, i, 0, l.m);
  }

  lemma TakeKeeps(l: Lock, t: nat)
    requires Inv(l) && l.queue < l.m && l.dequeue < l.m && Enabled(l, Take(t))
    ensures Inv(Apply(l, Take(t)))
  {
    var l' := Apply(l, Take(t));
    AdvanceAdd(0, l.served + |l.line|, 1, l.m);
    OutOfLine(l, t);
    forall u: nat ensures OutOk(l', u) {
      assert OutOk(l, u);
      assert u in l.line ==> u in l'.line;
      assert l'.line[|l.line|] == t;
    }
    forall i: nat | i < |l'.line| ensures PlaceOk(l', i) {
      if i < |l.line| {
        assert PlaceOk(l, i) && l'.line[i] == l.line[i];
      }
    }
  }

  lemma LeaveKeeps(l: Lock, t: nat)
    requires Inv(l) && l.queue < l.m && l.dequeue < l.m && Enabled(l, Leave(t))
    ensures Inv(Apply(l, Leave(t))) && l.line != [] && l.line[0] == t
  {
    var l' := Apply(l, Leave(t));
    var k := InLine(l, t);
    AdvanceAdd(0, l.served + 1, 1, l.m);
    assert l.line == [t] + l'.line;
    forall u: nat ensures OutOk(l', u) {
      assert OutOk(l, u);
      assert u in l.line ==> u == t || u in l'.line;
    }
    forall i: nat | i < |l'.line| ensures PlaceOk(l', i) {
      assert PlaceOk(l, i + 1) && l'.line[i] == l.line[i + 1];
    }
  }

  lemma EnterKeeps(l: Lock, t: nat)
    requires Inv(l) && l.queue < l.m && l.dequeue < l.m && Enabled(l, Enter(t))
    ensures Inv(Apply(l, Enter(t))) && l.line != [] && l.line[0] == t
  {
    HeadEnters(l, t);
    var l' := Apply(l, Enter(t));
    forall u: nat ensures OutOk(l', u) {
      assert OutOk(l, u);
    }
    forall i: nat | i < |l'.line| ensures PlaceOk(l', i) {
      assert PlaceOk(l, i);
    }
  }

  lemma StepKeeps(l: Lock, a: Step)
    requires Inv(l) && l.queue < l.m && l.dequeue < l.m && Enabled(l, a)
    ensures Inv(Apply(l, a))
    ensures a.Enter? || a.Leave? ==> l.line != [] && l.line[0] == a.t
  {
    match a
    case Take(t) => TakeKeeps(l, t);
    case Enter(t) => EnterKeeps(l, t);
    case Leave(t) => LeaveKeeps(l, t);
  }

  // ---------- what every run keeps ----------

  /** The tasks that have a ticket and still wait, in ticket order. */
  function Waiting(l: Lock): seq<nat> {
    if l.line != [] && l.line[0] < |l.phase| && l.phase[l.line[0]] == In then l.line[1..] else l.line
  }

  lemma TakeIsFifo(l: Lock, t: nat)
    requires Inv(l) && l.queue < l.m && l.dequeue < l.m && Enabled(l, Take(t))
    ensures Waiting(Apply(l, Take(t))) == Waiting(l) + [t]
  {
    OutOfLine(l, t);
    if l.line != [] {
      var line' := l.line + [t];
      assert line'[0] == l.line[0] && line'[1..] == l.line[1..] + [t];
    }
  }

  lemma EnterIsFifo(l: Lock, t: nat)
    requires Inv(l) && l.queue < l.m && l.dequeue < l.m && Enabled(l, Enter(t))
    ensures Waiting(l) == [t] + Waiting(Apply(l, Enter(t)))
  {
    HeadEnters(l, t);
  }

  lemma LeaveIsFifo(l: Lock, t: nat)
    requires Inv(l) && l.queue < l.m && l.dequeue < l.m && Enabled(l, Leave(t))
    ensures Waiting(l) == Waiting(Apply(l, Leave(t)))
  {
    LeaveKeeps(l, t);
    if |l.line| > 1 {
      assert PlaceOk(l, 1) && l.line[1] != t;
    }
  }

  lemma StepIsFifo(l: Lock, a: Step)
    requires Inv(l) && l.queue < l.m && l.dequeue < l.m && Enabled(l, a)
    ensures Waiting(l) + (if a.Take? then [a.t] else []) == (if a.Enter? then [a.t] else []) + Waiting(Apply(l, a))
  {
    match a
    case Take(t) => TakeIsFifo(l, t);
    case Enter(t) => EnterIsFifo(l, t);
    case Leave(t) => LeaveIsFifo(l, t);
  }

  /** Who takes a ticket is last in the line; alone there it may enter. */
  lemma TakeJoins(l: Lock, t: nat)
    requires Inv(l) && l.queue < l.m && l.dequeue < l.m && Enabled(l, Take(t))
    ensures
      var l' := Apply(l, Take(t));
      l'.line == l.line + [t] && l'.phase[t].Wait? && (l.line == [] ==> Enabled(l', Enter(t)))
    ensures forall u :: 0 <= u < |l.phase| && u != t ==> Apply(l, Take(t)).phase[u] == l.phase[u]
  {
    AdvanceAdd(0, l.served + |l.line|, 1, l.m);
  }

  /** Who leaves is out, and the next in the line may enter. */
  lemma LeaveAdmits(l: Lock, t: nat)
    requires Inv(l) && l.queue < l.m && l.dequeue < l.m && Enabled(l, Leave(t))
    ensures
      var l' := Apply(l, Leave(t));
      && l.line != [] && l.line[0] == t && l'.line == l.line[1..] && l'.phase[t] == Out
      && (l'.line != [] ==> Enabled(l', Enter(l'.line[0])))
    ensures forall u :: 0 <= u < |l.phase| && u != t ==> Apply(l, Leave(t)).phase[u] == l.phase[u]
  {
    LeaveKeeps(l, t);
    var l' := Apply(l, Leave(t));
    if l'.line != [] {
      assert PlaceOk(l, 1) && l.line[1] == l'.line[0] && l.line[0] != l.line[1];
      assert PlaceOk(l', 0);
    }
  }

  /** While tasks hold tickets the first of them can enter or leave. */
  lemma HeadMoves(l: Lock)
    requires Inv(l) && l.line != []
    ensures l.line[0] < |l.phase| && (Enabled(l, Enter(l.line[0])) || Enabled(l, Leave(l.line[0])))
  {
    assert PlaceOk(l, 0);
  }

  /** With at most m tasks, every run keeps the invariant and serves the tasks in ticket order. */
  lemma {:induction false} RunIsFifo(l: Lock, steps: seq<Step>)
    requires Inv(l) && Legal(l, steps)
    ensures Inv(After(l, steps))
    ensures Waiting(l) + Takes(steps) == Enters(steps) + Waiting(After(l, steps))
    decreases |steps|
  {
    if steps != [] {
      StepKeeps(l, steps[0]);
      StepIsFifo(l, steps[0]);
      RunIsFifo(Apply(l, steps[0]), steps[1..]);
      FifoConcat(Waiting(l), if steps[0].Take? then [steps[0].t] else [], Takes(steps[1..]),
                 if steps[0].Enter? then [steps[0].t] else [], Waiting(Apply(l, steps[0])),
                 Enters(steps[1..]), Waiting(After(l, steps)));
    }
  }

  lemma FifoConcat(w: seq<nat>, t: seq<nat>, ts: seq<nat>, e: seq<nat>, w1: seq<nat>, es: seq<nat>, w2: seq<nat>)
    requires w + t == e + w1 && w1 + ts == es + w2
    ensures w + (t + ts) == (e + es) + w2
  {
    assert w + (t + ts) == (w + t) + ts == (e + w1) + ts == e + (w1 + ts);
    assert e + (es + w2) == (e + es) + w2;
  }

  lemma InvExclusive(l: Lock)
    requires Inv(l)
    ensures Exclusive(l)
  {
    forall t, u | 0 <= t < u < |l.phase| && l.phase[t] == In ensures l.phase[u] != In {
      var i := InLine(l, t);
      if l.phase[u] != Out {
        var j := InLine(l, u);
      }
    }
  }

  lemma InitialInv(n: nat, m: nat)
    requires 0 < m && n <= m
    ensures Inv(Initial(n, m))
  {}

  // ---------- the exact number of tasks the lock can serve ----------

  /** k tasks take a ticket one after the other. */
  function TakeAll(k: nat): (steps: seq<Step>)
    ensures |steps| == k
  {
    if k == 0 then [] else TakeAll(k - 1) + [Take(k - 1)]
  }

  lemma {:induction false} AppendStep(l: Lock, steps: seq<Step>, a: Step)
    requires Legal(l, steps) && Enabled(After(l, steps), a)
    requires After(l, steps).queue < After(l, steps).m && After(l, steps).dequeue < After(l, steps).m
    ensures Legal(l, steps + [a]) && After(l, steps + [a]) == Apply(After(l, steps), a)
    decreases |steps|
  {
    if steps == [] {
      assert ([a])[1..] == [];
      assert steps + [a] == [a];
    } else {
      assert (steps + [a])[1..] == steps[1..] + [a];
      AppendStep(Apply(l, steps[0]), steps[1..], a);
    }
  }

  lemma {:induction false} TakeAllState(n: nat, m: nat, k: nat)
    requires 0 < m && k <= n
    ensures Legal(Initial(n, m), TakeAll(k))
    ensures
      var l := After(Initial(n, m), TakeAll(k));
      && l.m == m && l.queue == Advance(0, k, m) && l.dequeue == Advance(0, 1, m) && |l.phase| == n
      && (forall t: nat :: t < k ==> l.phase[t] == Wait(Advance(0, t + 1, m)))
      && (forall t: nat :: k <= t < n ==> l.phase[t] == Out)
  {
    if k > 0 {
      TakeAllState(n, m, k - 1);
      AppendStep(Initial(n, m), TakeAll(k - 1), Take(k - 1));
      AdvanceAdd(0, k - 1, 1, m);
    }
  }

  /** With more than m tasks two tickets coincide and two tasks enter. */
  lemma TooManyTasks(n: nat, m: nat) returns (steps: seq<Step>)
    requires 0 < m < n
    ensures Legal(Initial(n, m), steps) && !Exclusive(After(Initial(n, m), steps))
  {
    var l0 := Initial(n, m);
    TakeAllState(n, m, m + 1);
    AdvanceExact(0, m, m);
    AdvanceAdd(0, m, 1, m);
    steps := TakeAll(m + 1);
    AppendStep(l0, steps, Enter(0));
    steps := steps + [Enter(0)];
    AppendStep(l0, steps, Enter(m));
    steps := steps + [Enter(m)];
    var l := After(l0, steps);
    assert l.phase[0] == In && l.phase[m] == In;
  }

  /** The lock excludes in every run exactly when no more tasks than counter values compete for it. */
  lemma ExclusionExactly(n: nat, m: nat)
    requires 0 < m
    ensures (forall steps :: Legal(Initial(n, m), steps) ==> Exclusive(After(Initial(n, m), steps))) <==> n <= m
  {
    if n <= m {
      InitialInv(n, m);
      forall steps | Legal(Initial(n, m), steps) ensures Exclusive(After(Initial(n, m), steps)) {
        RunIsFifo(Initial(n, m), steps);
        InvExclusive(After(Initial(n, m), steps));
      }
    } else {
      var steps := TooManyTasks(n, m);
    }
  }
}
