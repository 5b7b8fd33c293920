/**
 The linear sense-reversing barrier RCCE_barrier of usr/ircce/RCCE_synch.c (whole-line flags, no fat
 barrier), for any number of members and unlimited reuse. Member 0 is the root. Every read or write
 of a flag is one step.
 */
module LinearBarrier {

  /** Where a member stands; cycle is the flag value of its episode. */
  datatype Place =
    | Out
    | Flipped(cycle: bool)                           // has read and flipped its gather flag locally
    | Wait(cycle: bool)                              // not the root: waits for its release flag
    | Poll(cycle: bool, next: nat, counter: nat)     // the root: about to read gather flag number next
    | Release(cycle: bool, next: nat)                // the root: about to write release flag number next

  /** calls and returns_ count the barrier calls; released[u] counts the release writes to u (history). */
  datatype State = State(
    gather: seq<bool>, release: seq<bool>, place: seq<Place>, calls: seq<nat>, returns_: seq<nat>, released: seq<nat>)

  datatype Step =
    | Flip(u: nat) | Put(u: nat) | Leave(u: nat)
    | PollOne | EndRound | ReleaseOne | EndRelease

  ghost predicate Shape(s: State) {
    var n := |s.place|;
    && 0 < n && |s.gather| == n && |s.release| == n
    && |s.calls| == n && |s.returns_| == n && |s.released| == n
  }

  ghost predicate Enabled(s: State, a: Step) {
    && Shape(s)
    && var n, r := |s.place|, s.place[0];
       match a
       case Flip(u) => u < n && s.place[u] == Out
       case Put(u) => u < n && s.place[u].Flipped?
       case Leave(u) => u < n && s.place[u].Wait? && s.release[u] == s.place[u].cycle
       case PollOne => r.Poll? && r.next < n
       case EndRound => r.Poll? && r.next >= n
       case ReleaseOne => r.Release? && r.next < n
       case EndRelease => r.Release? && r.next >= n
  }

  ghost function Apply(s: State, a: Step): State
    requires Enabled(s, a)
  {
    var n, r := |s.place|, s.place[0];
    match a
    case Flip(u) => s.(place := s.place[u := Flipped(!s.gather[u])], calls := s.calls[u := s.calls[u] + 1])
    case Put(u) =>
      var cycle := s.place[u].cycle;
      s.(gather := s.gather[u := cycle], place := s.place[u := if u == 0 then Poll(cycle, 1, 1) else Wait(cycle)])
    case Leave(u) => s.(place := s.place[u := Out], returns_ := s.returns_[u := s.returns_[u] + 1])
    case PollOne =>
      var counter := if s.gather[r.next] == r.cycle then r.counter + 1 else r.counter;
      s.(place := s.place[0 := Poll(r.cycle, r.next + 1, counter)])
    case EndRound =>
      s.(place := s.place[0 := if r.counter == n then Release(r.cycle, 1) else Poll(r.cycle, 1, 1)])
    case ReleaseOne =>
      s.(release := s.release[r.next := r.cycle], released := s.released[r.next := s.released[r.next] + 1],
         place := s.place[0 := Release(r.cycle, r.next + 1)])
    case EndRelease => s.(place := s.place[0 := Out], returns_ := s.returns_[0 := s.returns_[0] + 1])
  }

  ghost predicate Init(s: State) {
    && Shape(s)
    && forall u :: 0 <= u < |s.place| ==>
         && !s.gather[u] && !s.release[u] && s.place[u] == Out
         && s.calls[u] == 0 && s.returns_[u] == 0 && s.released[u] == 0
  }

  // ---------- the invariant ----------

  predicate Odd(k: nat) { k % 2 == 1 }

  /** How often u has written its gather flag: its call number, but for a call still before the put. */
  function Puts(s: State, u: nat): int
    requires u < |s.place| == |s.calls|
  {
    if s.place[u].Flipped? then s.calls[u] as int - 1 else s.calls[u]
  }

  /** The release flag of u lags at most one episode behind its call number, so its one bit is exact. */
  ghost predicate MemberOk(s: State, u: nat)
    requires Shape(s) && 0 < u < |s.place|
  {
    var x, c, f := s.place[u], s.calls[u], s.released[u];
    && s.release[u] == Odd(f)
    && (x == Out || x.Flipped? || x.Wait?)
    && (x == Out ==> c == s.returns_[u] == f)
    && (x.Flipped? ==> c == s.returns_[u] + 1 == f + 1 && x.cycle == Odd(c))
    && (x.Wait? ==> c == s.returns_[u] + 1 && (c == f || c == f + 1) && x.cycle == Odd(c))
  }

  ghost predicate RootOk(s: State)
    requires Shape(s)
  {
    var n, x, c, done := |s.place|, s.place[0], s.calls[0], s.returns_[0];
    match x
    case Out => c == done && (forall u :: 0 < u < n ==> s.released[u] == done)
    case Flipped(cycle) => c == done + 1 && cycle == Odd(c) && (forall u :: 0 < u < n ==> s.released[u] == done)
    case Wait(_) => false
    case Poll(cycle, next, counter) =>
      && c == done + 1 && cycle == Odd(c) && 1 <= next <= n && 1 <= counter <= next
      && (forall u :: 0 < u < n ==> s.released[u] == done)
      && (counter == next ==> forall u :: 0 < u < next ==> Puts(s, u) == c)
    case Release(cycle, next) =>
      && c == done + 1 && cycle == Odd(c) && 1 <= next <= n
      && (forall u :: 0 < u < n ==> s.released[u] == if u < next then c else done)
      && (forall u :: 0 < u < n ==> Puts(s, u) >= c)
  }

  ghost predicate Inv(s: State) {
    && Shape(s)
    && (forall u :: 0 <= u < |s.place| ==> Puts(s, u) >= 0 && s.gather[u] == Odd(Puts(s, u)))
    && RootOk(s)
    && forall u: nat :: 0 < u < |s.place| ==> MemberOk(s, u)
  }

  /** The gather flag read by the root tells exactly whether the member is in the root's episode. */
  lemma PollExact(s: State, u: nat)
    requires Inv(s) && s.place[0].Poll? && 0 < u < |s.place|
    ensures s.gather[u] == s.place[0].cycle <==> Puts(s, u) == s.calls[0]
  {
    assert MemberOk(s, u);
  }

  /** The release flag seen by a waiting member tells exactly whether its own episode was released. */
  lemma ReleaseExact(s: State, u: nat)
    requires Inv(s) && 0 < u < |s.place| && s.place[u].Wait?
    ensures s.release[u] == s.place[u].cycle <==> s.released[u] == s.calls[u]
  {
    assert MemberOk(s, u);
  }

  lemma FlipKeeps(s: State, u: nat)
    requires Inv(s) && Enabled(s, Flip(u))
    ensures Inv(Apply(s, Flip(u)))
  {
    var s' := Apply(s, Flip(u));
    assert forall v :: 0 <= v < |s.place| ==> Puts(s', v) == Puts(s, v);
    forall v: nat | 0 < v < |s'.place| ensures MemberOk(s', v) {
      assert MemberOk(s, v);
    }
  }

  lemma PutKeeps(s: State, u: nat)
    requires Inv(s) && Enabled(s, Put(u))
    ensures Inv(Apply(s, Put(u)))
  {
    var s' := Apply(s, Put(u));
    forall v: nat | 0 < v < |s'.place| ensures MemberOk(s', v) {
      assert MemberOk(s, v);
    }
    if u > 0 {
      assert MemberOk(s, u);
    }
    assert forall v :: 0 <= v < |s.place| && v != u ==> Puts(s', v) == Puts(s, v);
    assert Puts(s', u) == Puts(s, u) + 1;
  }

  lemma LeaveKeeps(s: State, u: nat)
    requires Inv(s) && Enabled(s, Leave(u))
    ensures Inv(Apply(s, Leave(u)))
  {
    var s' := Apply(s, Leave(u));
    ReleaseExact(s, u);
    assert forall v :: 0 <= v < |s.place| ==> Puts(s', v) == Puts(s, v);
    forall v: nat | 0 < v < |s'.place| ensures MemberOk(s', v) {
      assert MemberOk(s, v);
    }
  }

  lemma RootKeeps(s: State, a: Step)
    requires Inv(s) && Enabled(s, a) && (a.PollOne? || a.EndRound? || a.EndRelease?)
    ensures Inv(Apply(s, a))
  {
    var s' := Apply(s, a);
    if a.PollOne? {
      PollExact(s, s.place[0].next);
    }
    assert forall v :: 0 <= v < |s.place| ==> Puts(s', v) == Puts(s, v);
    forall v: nat | 0 < v < |s'.place| ensures MemberOk(s', v) {
      assert MemberOk(s, v);
    }
  }

  lemma ReleaseKeeps(s: State)
    requires Inv(s) && Enabled(s, ReleaseOne)
    ensures Inv(Apply(s, ReleaseOne))
  {
    var s', u := Apply(s, ReleaseOne), s.place[0].next;
    assert MemberOk(s, u) && Puts(s, u) >= s.calls[0] && s.released[u] == s.returns_[0];
    assert forall v :: 0 <= v < |s.place| ==> Puts(s', v) == Puts(s, v);
    forall v: nat | 0 < v < |s'.place| ensures MemberOk(s', v) {
      assert MemberOk(s, v);
    }
  }

  lemma StepKeeps(s: State, a: Step)
    requires Inv(s) && Enabled(s, a)
    ensures Inv(Apply(s, a))
  {
    match a
    case Flip(u) => FlipKeeps(s, u);
    case Put(u) => PutKeeps(s, u);
    case Leave(u) => LeaveKeeps(s, u);
    case ReleaseOne => ReleaseKeeps(s);
    case _ => RootKeeps(s, a);
  }

  // ---------- runs ----------

  /** run[i] is the state before steps[i]. */
  ghost predicate IsRun(run: seq<State>, steps: seq<Step>) {
    && |run| == |steps| + 1 && Init(run[0])
    && forall i :: 0 <= i < |steps| ==> Next(run[i], steps[i], run[i + 1])
  }

  ghost predicate Next(s: State, a: Step, s': State) {
    Enabled(s, a) && s' == Apply(s, a)
  }

  lemma {:induction false} RunKeeps(run: seq<State>, steps: seq<Step>, i: nat)
    requires IsRun(run, steps) && i < |run|
    ensures Inv(run[i])
  {
    if i > 0 {
      RunKeeps(run, steps, i - 1);
      assert Next(run[i - 1], steps[i - 1], run[i - 1 + 1]);
      StepKeeps(run[i - 1], steps[i - 1]);
    }
  }

  /**
   In every run no member has returned from its k-th call before every member has entered its k-th
   call, and both flags are read without confusing an episode with the one two before or after it.
   */
  lemma BarrierSafe(run: seq<State>, steps: seq<Step>, i: nat, u: nat, v: nat)
    requires IsRun(run, steps) && i < |run| && u < |run[i].place| && v < |run[i].place|
    ensures Shape(run[i]) && run[i].returns_[u] <= run[i].calls[v]
    ensures run[i].place[0].Poll? && v > 0 ==>
      (run[i].gather[v] == run[i].place[0].cycle <==> Puts(run[i], v) == run[i].calls[0])
    ensures v > 0 && run[i].place[v].Wait? ==>
      (run[i].release[v] == run[i].place[v].cycle <==> run[i].released[v] == run[i].calls[v])
  {
    var s := run[i];
    RunKeeps(run, steps, i);
    if v > 0 {
      assert MemberOk(s, v);
    }
    if u > 0 {
      assert MemberOk(s, u);
    }
  }
}
