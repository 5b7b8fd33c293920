/** The linear barrier makes progress: a gathered episode ends for everybody. */
module BarrierProgress {
  import opened LinearBarrier

  ghost predicate Leads(s: State, steps: seq<Step>, s': State)
    decreases |steps|
  {
    if steps == [] then s' == s else Enabled(s, steps[0]) && Leads(Apply(s, steps[0]), steps[1..], s')
  }

  lemma Front(s: State, a: Step, rest: seq<Step>, s': State)
    requires Enabled(s, a) && Leads(Apply(s, a), rest, s')
    ensures Leads(s, [a] + rest, s')
  {
    assert ([a] + rest)[1..] == rest;
  }

  lemma FrontTwo(s: State, a: Step, b: Step, rest: seq<Step>, s': State)
    requires Enabled(s, a) && Enabled(Apply(s, a), b) && Leads(Apply(Apply(s, a), b), rest, s')
    ensures Leads(s, [a, b] + rest, s')
  {
    Front(Apply(s, a), b, rest, s');
    Front(s, a, [b] + rest, s');
    assert [a] + ([b] + rest) == [a, b] + rest;
  }

  lemma {:induction false} Join(s: State, first: seq<Step>, m: State, second: seq<Step>, s': State)
    requires Leads(s, first, m) && Leads(m, second, s')
    ensures Leads(s, first + second, s')
    decreases |first|
  {
    if first == [] {
      assert first + second == second;
    } else {
      Join(Apply(s, first[0]), first[1..], m, second, s');
      Front(s, first[0], first[1..] + second, s');
      assert [first[0]] + (first[1..] + second) == first + second;
    }
  }

  lemma JoinTwo(s: State, first: seq<Step>, m: State, second: seq<Step>, m': State, third: seq<Step>, s': State)
    requires Leads(s, first, m) && Leads(m, second, m') && Leads(m', third, s')
    ensures Leads(s, first + second + third, s')
  {
    Join(s, first, m, second, m');
    Join(s, first + second, m', third, s');
  }

  /** n times the same step. */
  function Times(a: Step, n: nat): seq<Step> {
    if n == 0 then [] else [a] + Times(a, n - 1)
  }

  /** Every member has put its gather flag for the root's episode. */
  ghost predicate Gathered(s: State) {
    Inv(s) && s.place[0].Poll? && forall u :: 0 < u < |s.place| ==> Puts(s, u) == s.calls[0]
  }

  /** One round of polls over the flags from number k on counts them all. */
  lemma {:induction false} PollAll(s: State, k: nat)
    requires Gathered(s) && 1 <= k <= |s.place| && s.place[0] == Poll(s.place[0].cycle, k, k)
    ensures Leads(s, Times(PollOne, |s.place| - k),
      s.(place := s.place[0 := Poll(s.place[0].cycle, |s.place|, |s.place|)]))
    decreases |s.place| - k
  {
    var n := |s.place|;
    if k < n {
      PollExact(s, k);
      StepKeeps(s, PollOne);
      var s1 := Apply(s, PollOne);
      assert forall u :: 0 < u < n ==> Puts(s1, u) == Puts(s, u);
      PollAll(s1, k + 1);
      assert s1.place[0 := Poll(s.place[0].cycle, n, n)] == s.place[0 := Poll(s.place[0].cycle, n, n)];
      Front(s, PollOne, Times(PollOne, n - k - 1), s.(place := s.place[0 := Poll(s.place[0].cycle, n, n)]));
    } else {
      assert s.place[0 := Poll(s.place[0].cycle, n, n)] == s.place;
    }
  }

  /** The release flags from number k on are written. */
  lemma {:induction false} ReleaseAll(s: State, k: nat) returns (s': State)
    requires Inv(s) && 1 <= k <= |s.place| && s.place[0].Release? && s.place[0].next == k
    ensures Leads(s, Times(ReleaseOne, |s.place| - k), s') && Inv(s')
    ensures s'.place == s.place[0 := Release(s.place[0].cycle, |s.place|)]
    ensures s'.calls == s.calls && s'.returns_ == s.returns_ && s'.gather == s.gather
    decreases |s.place| - k
  {
    var n := |s.place|;
    if k < n {
      StepKeeps(s, ReleaseOne);
      s' := ReleaseAll(Apply(s, ReleaseOne), k + 1);
      Front(s, ReleaseOne, Times(ReleaseOne, n - k - 1), s');
    } else {
      s' := s;
    }
  }

  /** The members from number k on leave. */
  function Leaves(k: nat, n: nat): seq<Step>
    decreases n - k
  {
    if k >= n then [] else [Leave(k)] + Leaves(k + 1, n)
  }

  /** Members below k are out, the others wait and are released. */
  ghost predicate Leaving(s: State, k: nat) {
    && Inv(s) && s.place[0] == Out && 1 <= k <= |s.place|
    && (forall u :: 0 < u < k ==> s.place[u] == Out)
    && (forall u :: k <= u < |s.place| ==> s.place[u].Wait? && s.released[u] == s.calls[u])
  }

  lemma {:induction false} LeaveAll(s: State, k: nat) returns (s': State)
    requires Leaving(s, k)
    ensures Leads(s, Leaves(k, |s.place|), s') && Inv(s') && |s'.place| == |s.place|
    ensures forall u :: 0 <= u < |s.place| ==> s'.place[u] == Out
    ensures s'.calls == s.calls
    decreases |s.place| - k
  {
    if k < |s.place| {
      ReleaseExact(s, k);
      StepKeeps(s, Leave(k));
      s' := LeaveAll(Apply(s, Leave(k)), k + 1);
      Front(s, Leave(k), Leaves(k + 1, |s.place|), s');
    } else {
      s' := s;
    }
  }

  /** In a gathered episode every member but the root waits for its release. */
  lemma GatheredWaits(s: State, u: nat)
    requires Gathered(s) && 0 < u < |s.place|
    ensures s.place[u].Wait? && s.calls[u] == s.calls[0]
  {
    assert MemberOk(s, u) && s.released[u] == s.returns_[0] && Puts(s, u) == s.calls[0];
  }

  /**
   From the start of a round of polls with every gather flag put, that round ends in the release, and
   when the flags are written everybody leaves: all have returned from the same number of calls.
   */
  lemma GatheredEnds(s: State) returns (steps: seq<Step>, s': State)
    requires Gathered(s) && s.place[0] == Poll(s.place[0].cycle, 1, 1)
    ensures
      var n := |s.place|;
      steps == Times(PollOne, n - 1) + [EndRound] + Times(ReleaseOne, n - 1) + [EndRelease] + Leaves(1, n)
    ensures Leads(s, steps, s') && Inv(s') && |s'.place| == |s.place| && s'.calls == s.calls
    ensures forall u :: 0 <= u < |s.place| ==> s'.place[u] == Out && s'.returns_[u] == s'.calls[u] == s.calls[0]
  {
    var s6 := RootReturns(s);
    s' := LeaveAll(s6, 1);
    var n := |s.place|;
    var first := Times(PollOne, n - 1) + [EndRound] + Times(ReleaseOne, n - 1) + [EndRelease];
    steps := first + Leaves(1, n);
    Join(s, first, s6, Leaves(1, n), s');
    AllReturned(s, s');
  }

  lemma RootReturns(s: State) returns (s': State)
    requires Gathered(s) && s.place[0] == Poll(s.place[0].cycle, 1, 1)
    ensures
      var n := |s.place|;
      Leads(s, Times(PollOne, n - 1) + [EndRound] + Times(ReleaseOne, n - 1) + [EndRelease], s')
    ensures Leaving(s', 1) && |s'.place| == |s.place| && s'.calls == s.calls
  {
    var n := |s.place|;
    PollAll(s, 1);
    var s1 := s.(place := s.place[0 := Poll(s.place[0].cycle, n, n)]);
    LeadsKeeps(s, Times(PollOne, n - 1), s1);
    var s2 := Apply(s1, EndRound);
    RoundEnds(s, s1);
    var s5 := ReleaseAll(s2, 1);
    s' := Apply(s5, EndRelease);
    RootLeaves(s, s5);
    Single(s1, EndRound);
    Single(s5, EndRelease);
    JoinTwo(s, Times(PollOne, n - 1), s1, [EndRound], s2, Times(ReleaseOne, n - 1), s5);
    Join(s, Times(PollOne, n - 1) + [EndRound] + Times(ReleaseOne, n - 1), s5, [EndRelease], s');
  }

  lemma {:induction false} LeadsKeeps(s: State, steps: seq<Step>, s': State)
    requires Inv(s) && Leads(s, steps, s')
    ensures Inv(s')
    decreases |steps|
  {
    if steps != [] {
      StepKeeps(s, steps[0]);
      LeadsKeeps(Apply(s, steps[0]), steps[1..], s');
    }
  }

  lemma Single(s: State, a: Step)
    requires Enabled(s, a)
    ensures Leads(s, [a], Apply(s, a))
  {
    Front(s, a, [], Apply(s, a));
    assert [a] + [] == [a];
  }

  lemma AllReturned(s: State, s': State)
    requires Gathered(s) && Inv(s') && |s'.place| == |s.place| && s'.calls == s.calls
    requires forall u :: 0 <= u < |s.place| ==> s'.place[u] == Out
    ensures forall u :: 0 <= u < |s.place| ==> s'.returns_[u] == s'.calls[u] == s.calls[0]
  {
    forall u: nat | u < |s.place| ensures s'.returns_[u] == s'.calls[u] == s.calls[0] {
      if u > 0 {
        GatheredWaits(s, u);
        assert MemberOk(s', u);
      }
    }
  }

  /** A round that has counted every flag is the last. */
  lemma RoundEnds(s: State, s1: State)
    requires Gathered(s) && Inv(s1) && s1 == s.(place := s.place[0 := Poll(s.place[0].cycle, |s.place|, |s.place|)])
    ensures Enabled(s1, EndRound) && Inv(Apply(s1, EndRound))
    ensures
      var s2 := Apply(s1, EndRound);
      && s2 == s.(place := s.place[0 := Release(s.place[0].cycle, 1)])
  {
    StepKeeps(s1, EndRound);
    assert Apply(s1, EndRound).place == s.place[0 := Release(s.place[0].cycle, 1)];
  }

  lemma RootLeaves(s: State, s5: State)
    requires Gathered(s) && Inv(s5) && s5.place == s.place[0 := Release(s.place[0].cycle, |s.place|)]
    requires s5.calls == s.calls
    ensures Enabled(s5, EndRelease) && Leaving(Apply(s5, EndRelease), 1)
  {
    StepKeeps(s5, EndRelease);
    var s6 := Apply(s5, EndRelease);
    forall u | 0 < u < |s.place| ensures s6.place[u].Wait? && s6.released[u] == s6.calls[u] {
      GatheredWaits(s, u);
      assert s5.released[u] == s5.calls[0];
    }
  }

  // ---------- the way there ----------

  /** Member k flips and puts its flag, then those below it, the root last. */
  function Arrivals(k: nat): seq<Step> {
    if k == 0 then [] else [Flip(k - 1), Put(k - 1)] + Arrivals(k - 1)
  }

  /** Members from k on have put their flags, the others are out. */
  ghost predicate Arriving(s: State, k: nat, c: nat) {
    && Inv(s) && k <= |s.place|
    && (forall u :: 0 <= u < k ==> s.place[u] == Out && s.calls[u] == c)
    && (forall u :: k <= u < |s.place| && u > 0 ==> s.place[u].Wait? && s.calls[u] == c + 1)
    && (k == 0 ==> s.place[0].Poll? && s.place[0].next == 1 == s.place[0].counter && s.calls[0] == c + 1)
  }

  lemma ArriveOne(s: State, k: nat, c: nat)
    requires Arriving(s, k, c) && k > 0
    ensures Enabled(s, Flip(k - 1)) && Enabled(Apply(s, Flip(k - 1)), Put(k - 1))
    ensures Arriving(Apply(Apply(s, Flip(k - 1)), Put(k - 1)), k - 1, c)
  {
    StepKeeps(s, Flip(k - 1));
    StepKeeps(Apply(s, Flip(k - 1)), Put(k - 1));
  }

  lemma {:induction false} ArriveAll(s: State, k: nat, c: nat) returns (s': State)
    requires Arriving(s, k, c)
    ensures Leads(s, Arrivals(k), s') && Arriving(s', 0, c) && |s'.place| == |s.place|
    decreases k
  {
    if k == 0 {
      s' := s;
    } else {
      ArriveOne(s, k, c);
      var s1 := Apply(s, Flip(k - 1));
      s' := ArriveAll(Apply(s1, Put(k - 1)), k - 1, c);
      FrontTwo(s, Flip(k - 1), Put(k - 1), Arrivals(k - 1), s');
    }
  }

  /** From every reachable state in which nobody is in the barrier, one call of everybody can be completed. */
  lemma EpisodeCompletes(s: State) returns (steps: seq<Step>, s': State)
    requires Inv(s) && forall u :: 0 <= u < |s.place| ==> s.place[u] == Out
    ensures Leads(s, steps, s') && Inv(s') && |s'.place| == |s.place|
    ensures forall u :: 0 <= u < |s.place| ==>
      s'.place[u] == Out && s'.returns_[u] == s.returns_[u] + 1 && s'.calls[u] == s.calls[u] + 1
  {
    var n := |s.place|;
    forall u: nat | 0 < u < n ensures s.calls[u] == s.returns_[u] == s.calls[0] {
      assert MemberOk(s, u);
    }
    var s1 := ArriveAll(s, n, s.calls[0]);
    var rest;
    rest, s' := GatheredEnds(s1);
    steps := Arrivals(n) + rest;
    Join(s, Arrivals(n), s1, rest, s');
  }
}
