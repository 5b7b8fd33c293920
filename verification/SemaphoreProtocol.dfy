/**
 Any number of tasks using one semaphore: every interleaving of sem_trywait, the passes of untimed
 sem_wait and sem_post, each atomic under the semaphore's lock.
 */
module SemaphoreProtocol {
  import opened Counting
  import opened Distinct
  import opened Semaphore

  /** A woken task is ready again but has not yet retried its sem_wait. */
  datatype Mode = Active | Sleeping | Woken

  /** posts and waits count the completed operations since sem_init with initial. */
  datatype State = State(sem: Sem, mode: seq<Mode>, initial: nat, posts: nat, waits: nat)

  /** A post may come from anywhere, an interrupt handler included. */
  datatype Step = TryWaitStep(t: nat) | WaitStep(t: nat) | PostStep

  predicate Enabled(s: State, a: Step) {
    match a
    case TryWaitStep(t) => t < |s.mode| && s.mode[t] == Active
    case WaitStep(t) => t < |s.mode| && s.mode[t] != Sleeping
    case PostStep => true
  }

  function Apply(s: State, a: Step): State
    requires Enabled(s, a)
  {
    match a
    case TryWaitStep(t) => s.(sem := TryWait(s.sem), waits := if s.sem.value > 0 then s.waits + 1 else s.waits)
    case WaitStep(t) =>
      var got := s.sem.value > 0;
      s.(sem := Wait(s.sem, t), mode := s.mode[t := if got then Active else Sleeping],
         waits := if got then s.waits + 1 else s.waits)
    case PostStep =>
      var ids := s.sem.sleepers;
      s.(sem := Post(s.sem), posts := s.posts + 1,
         mode := if ids == [] || ids[0] >= |s.mode| then s.mode else s.mode[ids[0] := Woken])
  }

  function IsWoken(): Mode -> bool {
    (m: Mode) => m == Woken
  }

  ghost predicate Inv(s: State) {
    && s.sem.value + s.waits == s.initial + s.posts
    && NoDup(s.sem.sleepers)
    && (forall i :: 0 <= i < |s.sem.sleepers| ==> s.sem.sleepers[i] < |s.mode|)
    && (forall t: nat :: t < |s.mode| ==> (s.mode[t] == Sleeping <==> t in s.sem.sleepers))
    && (s.sem.sleepers != [] ==> s.sem.value <= Count(s.mode, IsWoken()))
  }

  /** Without its first element a list has all the others. */
  lemma Others(ids: seq<nat>, t: nat)
    requires ids != [] && NoDup(ids)
    ensures t in ids[1..] <==> t in ids && t != ids[0]
  {
    assert ids == [ids[0]] + ids[1..];
  }

  lemma PostKeeps(s: State)
    requires Inv(s)
    ensures Inv(Apply(s, PostStep))
  {
    var s', ids := Apply(s, PostStep), s.sem.sleepers;
    if ids != [] {
      CountUpdate(s.mode, ids[0], Woken, IsWoken());
      assert s.mode[ids[0]] == Sleeping;
      forall t: nat | t < |s.mode| ensures s'.mode[t] == Sleeping <==> t in ids[1..] {
        Others(ids, t);
      }
    }
  }

  lemma WaitKeeps(s: State, a: Step)
    requires Inv(s) && a.WaitStep? && Enabled(s, a)
    ensures Inv(Apply(s, a))
  {
    var s', t := Apply(s, a), a.t;
    CountUpdate(s.mode, t, s'.mode[t], IsWoken());
    assert forall u :: u in s.sem.sleepers + [t] <==> u in s.sem.sleepers || u == t;
  }

  lemma StepKeeps(s: State, a: Step)
    requires Inv(s) && Enabled(s, a)
    ensures Inv(Apply(s, a))
  {
    match a
    case TryWaitStep(_) =>
    case WaitStep(_) => WaitKeeps(s, a);
    case PostStep => PostKeeps(s);
  }

  // ---------- runs ----------

  predicate Legal(s: State, steps: seq<Step>)
    decreases |steps|
  {
    steps == [] || (Enabled(s, steps[0]) && Legal(Apply(s, steps[0]), steps[1..]))
  }

  function After(s: State, steps: seq<Step>): State
    requires Legal(s, steps)
    decreases |steps|
  {
    if steps == [] then s else After(Apply(s, steps[0]), steps[1..])
  }

  function Initial(v: nat, n: nat): State {
    State(Sem(v, []), seq(n, _ => Active), v, 0, 0)
  }

  lemma {:induction false} RunKeeps(s: State, steps: seq<Step>)
    requires Inv(s) && Legal(s, steps)
    ensures Inv(After(s, steps)) && |After(s, steps).mode| == |s.mode| && After(s, steps).initial == s.initial
    decreases |steps|
  {
    if steps != [] {
      StepKeeps(s, steps[0]);
      RunKeeps(Apply(s, steps[0]), steps[1..]);
    }
  }

  /**
   After every run: resources are conserved, the wait queue never needs more than MAX_TASKS slots,
   and no wakeup is lost: while a task sleeps, every free resource has a woken task coming for it.
   */
  lemma SemaphoreSafe(v: nat, n: nat, steps: seq<Step>)
    requires Legal(Initial(v, n), steps)
    ensures
      var s := After(Initial(v, n), steps);
      && s.sem.value + s.waits == v + s.posts
      && |s.sem.sleepers| <= n && NoDup(s.sem.sleepers)
      && (s.sem.sleepers != [] ==> s.sem.value <= Count(s.mode, IsWoken()))
      && (s.sem.sleepers != [] && s.sem.value > 0 ==> exists t :: 0 <= t < |s.mode| && s.mode[t] == Woken)
  {
    RunKeeps(Initial(v, n), steps);
    var s := After(Initial(v, n), steps);
    Pigeonhole(s.sem.sleepers, n);
    if forall t :: 0 <= t < |s.mode| ==> s.mode[t] != Woken {
      CountNone(s.mode, IsWoken());
    }
  }

  /** A task that calls sem_wait is not queued yet, so its slot is free: the wait queue never overflows. */
  lemma WaiterFits(s: State, t: nat)
    requires Inv(s) && Enabled(s, WaitStep(t))
    ensures t !in s.sem.sleepers && |s.sem.sleepers| < |s.mode|
  {
    var ids := s.sem.sleepers + [t];
    assert NoDup(ids);
    Pigeonhole(ids, |s.mode|);
  }

  /** Without a resource the caller sleeps last in the queue and can do nothing until it is woken. */
  lemma WaitSleeps(s: State, t: nat)
    requires Inv(s) && Enabled(s, WaitStep(t)) && s.sem.value == 0
    ensures
      var s' := Apply(s, WaitStep(t));
      && s'.sem == Sem(0, s.sem.sleepers + [t]) && s'.mode == s.mode[t := Sleeping]
      && s'.waits == s.waits && s'.posts == s.posts && !Enabled(s', WaitStep(t)) && !Enabled(s', TryWaitStep(t))
  {}

  /** With a resource both kinds of wait take it; without one sem_trywait changes nothing. */
  lemma WaitTakes(s: State, t: nat)
    requires Inv(s) && Enabled(s, TryWaitStep(t))
    ensures s.sem.value > 0 ==>
      var s' := s.(sem := s.sem.(value := s.sem.value - 1), waits := s.waits + 1);
      Apply(s, TryWaitStep(t)) == s' && Apply(s, WaitStep(t)) == s'
    ensures s.sem.value == 0 ==> Apply(s, TryWaitStep(t)) == s
  {
    assert s.mode[t := Active] == s.mode;
  }

  /** A post wakes the task that has slept longest; if nobody is quicker, its retry then succeeds. */
  lemma PostServesOldest(s: State)
    requires Inv(s) && s.sem.sleepers != []
    ensures
      var t, s1 := s.sem.sleepers[0], Apply(s, PostStep);
      && t < |s.mode| && s1.sem == Sem(s.sem.value + 1, s.sem.sleepers[1..]) && s1.mode == s.mode[t := Woken]
      && Enabled(s1, WaitStep(t))
      && var s2 := Apply(s1, WaitStep(t));
         && s2.sem == Sem(s.sem.value, s.sem.sleepers[1..]) && s2.mode == s.mode[t := Active]
         && s2.posts == s.posts + 1 && s2.waits == s.waits + 1
  {
    assert s.sem.sleepers[0] in s.sem.sleepers;
  }
}
