/** The test-and-set barrier makes progress: from every reachable state the next episode can be completed. */
module TnsProgress {
  import opened Distinct
  import opened TnsBarrier

  ghost predicate Leads(s: State, steps: seq<Step>, s': State)
    decreases |steps|
  {
    if steps == [] then s' == s
    else Enabled(s, steps[0]) && InRange(s, steps[0]) && Leads(Apply(s, steps[0]), steps[1..], s')
  }

  lemma Front(s: State, a: Step, rest: seq<Step>, s': State)
    requires Enabled(s, a) && InRange(s, a) && Leads(Apply(s, a), rest, s')
    ensures Leads(s, [a] + rest, s')
  {
    assert ([a] + rest)[1..] == rest;
  }

  lemma {:induction false} Join(s: State, first: seq<Step>, m: State, second: seq<Step>, s': State)
    requires Leads(s, first, m) && Leads(m, second, s')
    ensures Leads(s, first + second, s')
    decreases |first|
  {
    if first == [] {
      assert first + second == second;
    } else {
      Join(Apply(s, first[0]), first[1..], m, second, s');
      Front(s, first[0], first[1..] + second, s');
      assert [first[0]] + (first[1..] + second) == first + second;
    }
  }

  ghost predicate Scanning(s: State, u: nat) {
    u < |s.place| && s.place[u].Scan?
  }

  ghost predicate NoScan(s: State) {
    forall u: nat :: !Scanning(s, u)
  }

  /** The release goes on: the episode, its order and the early UEs stay. */
  ghost predicate SameEpisode(s: State, s': State) {
    && |s'.place| == |s.place| && s'.episode == s.episode && s'.order == s.order && s'.early == s.early
    && (NoScan(s) ==> NoScan(s'))
  }

  /** The last arrival has still to free register 0. */
  ghost predicate Closed(s: State)
    requires Lists(s)
  {
    s.place[s.order[|s.place| - 1]] == First
  }

  /** The step of the UE whose turn it is. */
  ghost function TurnStep(s: State): Step
    requires Lists(s) && s.gone < |s.place|
  {
    if Closed(s) then FreeFirst(s.order[|s.place| - 1])
    else
      var u := s.order[s.gone];
      if s.place[u].Spin? then Retry(u) else if s.place[u].Got? then FreeOwn(u) else FreeNext(u)
  }

  lemma TurnEnabled(s: State)
    requires Inv(s) && s.gone < |s.place|
    ensures Enabled(s, TurnStep(s)) && InRange(s, TurnStep(s))
  {
    WhoIs(s, s.order[|s.place| - 1]);
  }

  /** The steps to the end of the release. */
  ghost function Rank(s: State): nat
    requires Lists(s)
  {
    if s.gone == |s.place| then 0 else 4 * (|s.place| - s.gone) - 3 + Stage(s)
  }

  ghost function Stage(s: State): nat
    requires Lists(s) && s.gone < |s.place|
  {
    var x := s.place[s.order[s.gone]];
    if Closed(s) then 3 else if x.Spin? then 2 else if x.Got? then 1 else 0
  }

  /** Where the UE whose turn it is can stand. */
  ghost predicate TurnOk(s: State)
    requires Lists(s)
  {
    s.gone < |s.place| ==>
      var x := s.place[s.order[s.gone]];
      if Closed(s) then s.gone == 0 && (|s.place| > 1 ==> x.Spin?) else x.Spin? || x.Got? || x.Pass?
  }

  lemma InvTurn(s: State)
    requires Inv(s)
    ensures TurnOk(s)
  {
    WhoIs(s, s.order[|s.place| - 1]);
  }

  lemma TurnRank(s: State, s': State)
    requires Lists(s) && s.gone < |s.place| && Enabled(s, TurnStep(s)) && InRange(s, TurnStep(s))
    requires s' == Apply(s, TurnStep(s)) && Lists(s') && TurnOk(s) && TurnOk(s')
    ensures Rank(s') < Rank(s)
  {}

  lemma TurnKeeps(s: State)
    requires Inv(s) && s.gone < |s.place| && Enabled(s, TurnStep(s)) && InRange(s, TurnStep(s))
    ensures SameEpisode(s, Apply(s, TurnStep(s)))
  {
    forall v: nat | NoScan(s) ensures !Scanning(Apply(s, TurnStep(s)), v) {
      assert !Scanning(s, v);
    }
  }

  /** Another step of the UE whose turn it is. */
  lemma ReleaseStep(s: State) returns (a: Step)
    requires Inv(s) && s.gone < |s.place|
    ensures Enabled(s, a) && InRange(s, a) && Inv(Apply(s, a)) && SameEpisode(s, Apply(s, a))
    ensures Rank(Apply(s, a)) < Rank(s)
  {
    a := TurnStep(s);
    TurnEnabled(s);
    StepKeeps(s, a);
    TurnKeeps(s);
    InvTurn(s);
    InvTurn(Apply(s, a));
    TurnRank(s, Apply(s, a));
  }

  lemma {:induction false} ReleaseRest(s: State) returns (steps: seq<Step>, s': State)
    requires Inv(s)
    ensures Leads(s, steps, s') && Inv(s') && SameEpisode(s, s') && s'.gone == |s.place|
    decreases Rank(s)
  {
    if s.gone == |s.place| {
      steps, s' := [], s;
    } else {
      var a := ReleaseStep(s);
      var rest;
      rest, s' := ReleaseRest(Apply(s, a));
      Front(s, a, rest, s');
      steps := [a] + rest;
    }
  }

  // ---------- arrivals ----------

  /** u has taken the register behind the early ones, and with the last register the episode begins. */
  ghost predicate Arrived(s: State, s': State, u: nat) {
    && |s'.place| == |s.place|
    && if |s.early| + 1 == |s.place| then
         s'.episode == s.episode + 1 && s'.gone == 0 && s'.order == s.early + [u] && s'.early == []
       else s'.episode == s.episode && s'.gone == s.gone && s'.early == s.early + [u]
  }

  /** A scanning UE meets the first free register behind those of the early ones. */
  lemma {:induction false} TakeRegister(s: State, u: nat) returns (steps: seq<Step>, s': State)
    requires Inv(s) && s.gone == |s.place| && u < |s.place| && s.place[u].Scan?
    ensures Leads(s, steps, s') && Inv(s') && Arrived(s, s', u)
    decreases |s.early| - s.place[u].step
  {
    WhoIs(s, u);
    StepKeeps(s, Probe(u));
    var x, s1 := s.place[u].step, Apply(s, Probe(u));
    if s.taken[x] {
      assert x < |s.early|;
      var rest;
      rest, s' := TakeRegister(s1, u);
      Front(s, Probe(u), rest, s');
      steps := [Probe(u)] + rest;
    } else {
      ScanMeets(s, u);
      Front(s, Probe(u), [], s1);
      steps, s' := [Probe(u)] + [], s1;
    }
  }

  /** As long as the next episode is not complete somebody is free. */
  lemma SomebodyFree(s: State) returns (u: nat)
    requires Inv(s) && s.gone == |s.place|
    ensures u < |s.place| && u !in s.early && (s.place[u] == Out || s.place[u].Scan?)
  {
    var n := |s.place|;
    if forall v: nat :: v < n ==> v in s.early {
      SubsetSize(Below(n), Elements(s.early));
      ElementsSize(s.early);
      assert false;
    }
    u :| u < n && u !in s.early;
    assert s.order[n..] == [];
    assert Free(s, u);
  }

  lemma {:induction false} ArriveAll(s: State) returns (steps: seq<Step>, s': State)
    requires Inv(s) && s.gone == |s.place|
    ensures Leads(s, steps, s') && Inv(s') && |s'.place| == |s.place|
    ensures s'.episode == s.episode + 1 && s'.gone == 0 && s'.early == []
    decreases |s.place| - |s.early|
  {
    var u := SomebodyFree(s);
    var s1 := s;
    if s.place[u] == Out {
      StepKeeps(s, Enter(u));
      s1 := Apply(s, Enter(u));
      Front(s, Enter(u), [], s1);
    }
    var probes, s2 := TakeRegister(s1, u);
    var first := if s.place[u] == Out then [Enter(u)] + [] else [];
    Join(s, first, s1, probes, s2);
    if |s.early| + 1 == |s.place| {
      steps, s' := first + probes, s2;
    } else {
      var rest;
      rest, s' := ArriveAll(s2);
      Join(s, first + probes, s2, rest, s');
      steps := first + probes + rest;
    }
  }

  /** When all have just arrived, nobody scans. */
  lemma NobodyScans(s: State)
    requires Inv(s) && s.gone == 0
    ensures NoScan(s)
  {
    var n := |s.place|;
    forall u: nat ensures !Scanning(s, u) {
      if u < n {
        Pigeonhole(s.order, n);
        assert s.order[0..] == s.order && u in s.order;
        WhoIs(s, u);
      }
    }
  }

  /**
   From every reachable state there is a continuation after which every UE is out of the barrier and
   has returned from the same call, the one after the current episode.
   */
  lemma EverybodyReturns(s: State) returns (steps: seq<Step>, s': State)
    requires Inv(s)
    ensures Leads(s, steps, s') && Inv(s') && |s'.place| == |s.place|
    ensures forall u: nat :: u < |s.place| ==> s'.place[u] == Out && s'.returns_[u] == s'.calls[u] == s.episode + 1
  {
    var first, s1 := ReleaseRest(s);
    var second, s2 := ArriveAll(s1);
    NobodyScans(s2);
    var third;
    third, s' := ReleaseRest(s2);
    Join(s, first, s1, second, s2);
    Join(s, first + second, s2, third, s');
    steps := first + second + third;
    AllOut(s');
  }

  lemma AllOut(s: State)
    requires Inv(s) && NoScan(s) && s.gone == |s.place| && s.early == []
    ensures forall u: nat :: u < |s.place| ==> s.place[u] == Out && s.returns_[u] == s.calls[u] == s.episode
  {
    forall u: nat | u < |s.place| ensures s.place[u] == Out && s.returns_[u] == s.calls[u] == s.episode {
      assert s.order[|s.place|..] == [] && Free(s, u) && !Scanning(s, u) && CountOk(s, u);
    }
  }
}
