/**
 The test-and-set barrier RCCE_TNS_barrier of usr/ircce/RCCE_admin.c, for any number of UEs and
 unlimited reuse. A read of a free register takes it and succeeds, a read of a taken one fails, and
 any write frees it.
 */
module TnsBarrier {
  import opened Distinct

  /** Where a UE stands in the barrier; step is the register it has or tries. */
  datatype Place =
    | Out
    | Scan(step: nat)     // searching the first free register
    | Spin(step: nat)     // waiting for its register to be freed
    | First               // holds the last register: about to free register 0
    | Got(step: nat)      // was released: about to free its own register
    | Pass(step: nat)     // about to free the next register

  /**
   calls and returns count the barrier calls of each UE. The last four fields are history: order
   lists the UEs of the episode by the register they took, the first gone of them are released, early
   lists the UEs that already hold a register for the next episode.
   */
  datatype State = State(
    taken: seq<bool>, place: seq<Place>, calls: seq<nat>, returns_: seq<nat>,
    episode: nat, order: seq<nat>, gone: nat, early: seq<nat>)

  datatype Step =
    | Enter(u: nat) | Probe(u: nat) | FreeFirst(u: nat) | Retry(u: nat) | FreeOwn(u: nat) | FreeNext(u: nat)

  predicate Enabled(s: State, a: Step) {
    && a.u < |s.place|
    && var x := s.place[a.u];
       match a
       case Enter(_) => x == Out
       case Probe(_) => x.Scan?
       case FreeFirst(_) => x == First
       case Retry(_) => x.Spin? && x.step < |s.taken| && !s.taken[x.step]
       case FreeOwn(_) => x.Got?
       case FreeNext(_) => x.Pass?
  }

  ghost predicate Shape(s: State) {
    var n := |s.place|;
    0 < n && |s.taken| == n && |s.calls| == n && |s.returns_| == n
  }

  /** The registers a step touches exist. */
  ghost predicate InRange(s: State, a: Step)
    requires Enabled(s, a)
  {
    && Shape(s)
    && (a.Probe? || a.Retry? || a.FreeOwn? ==> s.place[a.u].step < |s.taken|)
    && (a.FreeNext? ==> s.place[a.u].step + 1 < |s.taken|)
  }

  ghost function Apply(s: State, a: Step): State
    requires Enabled(s, a) && InRange(s, a)
  {
    var u, x, n := a.u, s.place[a.u], |s.place|;
    match a
    case Enter(_) => s.(place := s.place[u := Scan(0)], calls := s.calls[u := s.calls[u] + 1])
    case Probe(_) =>
      if s.taken[x.step] then s.(place := s.place[u := Scan(x.step + 1)])
      else
        var s1 := s.(taken := s.taken[x.step := true],
                     place := s.place[u := if x.step == n - 1 then First else Spin(x.step)]);
        if |s.early| + 1 == n then s1.(episode := s.episode + 1, order := s.early + [u], gone := 0, early := [])
        else s1.(early := s.early + [u])
    case FreeFirst(_) => s.(taken := s.taken[0 := false], place := s.place[u := Spin(n - 1)])
    case Retry(_) => s.(taken := s.taken[x.step := true], place := s.place[u := Got(x.step)])
    case FreeOwn(_) =>
      if x.step == n - 1 then
        s.(taken := s.taken[x.step := false], place := s.place[u := Out],
           returns_ := s.returns_[u := s.returns_[u] + 1], gone := s.gone + 1)
      else s.(taken := s.taken[x.step := false], place := s.place[u := Pass(x.step)])
    case FreeNext(_) =>
      s.(taken := s.taken[x.step + 1 := false], place := s.place[u := Out],
         returns_ := s.returns_[u := s.returns_[u] + 1], gone := s.gone + 1)
  }

  ghost predicate Init(s: State) {
    && Shape(s)
    && (forall u :: 0 <= u < |s.place| ==> !s.taken[u] && s.place[u] == Out && s.calls[u] == 0 && s.returns_[u] == 0)
    && s.episode == 0 && s.early == [] && s.gone == |s.place| == |s.order|
    && forall u :: 0 <= u < |s.order| ==> s.order[u] == u
  }

  // ---------- the invariant ----------

  /** u waits for its release from the current episode. */
  ghost predicate Waiting(s: State, u: nat) {
    s.gone <= |s.order| && u in s.order[s.gone..]
  }

  ghost predicate Free(s: State, u: nat) {
    u < |s.place| && u !in s.early && !Waiting(s, u)
  }

  ghost predicate Lists(s: State) {
    var n := |s.place|;
    && Shape(s)
    && |s.order| == n && NoDup(s.order) && s.gone <= n
    && NoDup(s.early) && |s.early| <= s.gone && |s.early| < n
    && (forall i :: 0 <= i < n ==> s.order[i] < n)
    && (forall i :: 0 <= i < |s.early| ==> s.early[i] < n && !Waiting(s, s.early[i]))
  }

  /** The UEs of the next episode hold the registers 0..m and nothing else before the baton is taken. */
  ghost predicate EarlyOk(s: State)
    requires Lists(s)
  {
    && (forall i :: 0 <= i < |s.early| ==> s.place[s.early[i]] == Spin(i) && s.taken[i])
    && (forall i :: |s.early| <= i < s.gone ==> !s.taken[i])
    && (forall u: nat :: Free(s, u) ==> s.place[u] == Out || (s.place[u].Scan? && s.place[u].step <= |s.early|))
  }

  /** The last arrival has not yet freed register 0. */
  ghost predicate Full(s: State)
    requires Lists(s)
  {
    var n := |s.place|;
    && s.gone == 0 && s.place[s.order[n - 1]] == First
    && (forall i :: 0 <= i < n ==> s.taken[i])
    && (forall i :: 0 <= i < n - 1 ==> s.place[s.order[i]] == Spin(i))
  }

  /** The release goes from register to register; its baton is at register gone. */
  ghost predicate Baton(s: State)
    requires Lists(s)
  {
    var n, b := |s.place|, s.gone;
    b < n ==>
      && (forall i :: b < i < n ==> s.taken[i] && s.place[s.order[i]] == Spin(i))
      && (|| (s.place[s.order[b]] == Spin(b) && !s.taken[b])
          || (s.place[s.order[b]] == Got(b) && s.taken[b])
          || (s.place[s.order[b]] == Pass(b) && !s.taken[b] && b < n - 1))
  }

  ghost predicate CountOk(s: State, u: nat)
    requires Lists(s) && u < |s.place|
  {
    if Waiting(s, u) then s.calls[u] == s.episode == s.returns_[u] + 1
    else s.returns_[u] == s.episode && s.calls[u] == if s.place[u] == Out then s.episode else s.episode + 1
  }

  ghost predicate Inv(s: State) {
    && Lists(s) && EarlyOk(s) && (Full(s) || Baton(s))
    && forall u: nat :: u < |s.place| ==> CountOk(s, u)
  }

  /** While a UE is free, the early holders have not used up the released registers. */
  lemma RoomForFree(s: State, u: nat)
    requires Lists(s) && Free(s, u)
    ensures |s.early| < s.gone
  {
    var rest := s.order[s.gone..];
    var ids := s.early + rest + [u];
    forall i, j | 0 <= i < j < |ids| ensures ids[i] != ids[j] {
      assert ids[i] == if i < |s.early| then s.early[i] else rest[i - |s.early|];
      assert j < |ids| - 1 ==> ids[j] == if j < |s.early| then s.early[j] else rest[j - |s.early|];
      assert j >= |s.early| && j < |ids| - 1 ==> rest[j - |s.early|] in rest;
      assert i >= |s.early| ==> rest[i - |s.early|] in rest;
    }
    assert forall i :: 0 <= i < |rest| ==> rest[i] == s.order[s.gone + i];
    Pigeonhole(ids, |s.place|);
  }

  /** What the place of a UE tells about it. */
  lemma WhoIs(s: State, u: nat)
    requires Inv(s) && u < |s.place|
    ensures s.place[u] == Out || s.place[u].Scan? ==> Free(s, u)
    ensures s.place[u] == First ==> Full(s) && u == s.order[|s.place| - 1]
    ensures s.place[u].Got? || s.place[u].Pass? ==>
      Baton(s) && s.gone < |s.place| && u == s.order[s.gone] && s.place[u].step == s.gone
    ensures s.place[u].Spin? && s.place[u].step < |s.taken| && !s.taken[s.place[u].step] ==>
      Baton(s) && s.gone < |s.place| && u == s.order[s.gone] && s.place[u].step == s.gone
  {
    if Waiting(s, u) {
      WaitsAt(s, u);
    } else if u in s.early {
      var i :| 0 <= i < |s.early| && s.early[i] == u;
    } else {
      assert Free(s, u);
    }
  }

  /** Where a UE that waits for its release stands. */
  lemma WaitsAt(s: State, u: nat)
    requires Lists(s) && (Full(s) || Baton(s)) && Waiting(s, u)
    ensures
      var x, n := s.place[u], |s.place|;
      || (Full(s) && x == First && u == s.order[n - 1])
      || (x.Spin? && x.step < n && s.taken[x.step])
      || (Baton(s) && s.gone < n && u == s.order[s.gone] && (x.Spin? || x.Got? || x.Pass?) && x.step == s.gone)
  {
    var i :| s.gone <= i < |s.order| && s.order[i] == u;
  }

  lemma SameLists(s: State, s': State)
    requires Lists(s) && Shape(s') && |s'.place| == |s.place|
    requires s'.order == s.order && s'.gone == s.gone && s'.early == s.early
    ensures Lists(s')
    ensures forall v: nat :: Waiting(s', v) <==> Waiting(s, v)
    ensures forall v: nat :: Free(s', v) <==> Free(s, v)
  {}

  lemma AtPlace(s: State, i: nat)
    requires Lists(s) && s.gone <= i < |s.order|
    ensures Waiting(s, s.order[i])
  {
    assert s.order[s.gone..][i - s.gone] == s.order[i];
  }

  /** A free UE has no part in the release. */
  lemma OtherPlace(s: State, s': State, u: nat)
    requires Lists(s) && Lists(s') && Free(s, u) && |s'.place| == |s.place| && s'.taken == s.taken
    requires s'.order == s.order && s'.gone == s.gone && s'.early == s.early
    requires forall v :: 0 <= v < |s.place| && v != u ==> s'.place[v] == s.place[v]
    ensures (Full(s) ==> Full(s')) && (Baton(s) ==> Baton(s'))
  {
    forall i | s.gone <= i < |s.order| ensures s'.place[s.order[i]] == s.place[s.order[i]] {
      AtPlace(s, i);
    }
  }

  lemma EnterKeeps(s: State, u: nat)
    requires Inv(s) && Enabled(s, Enter(u))
    ensures InRange(s, Enter(u)) && Inv(Apply(s, Enter(u)))
  {
    WhoIs(s, u);
    var s' := Apply(s, Enter(u));
    SameLists(s, s');
    OtherPlace(s, s', u);
    forall v: nat | v < |s'.place| ensures CountOk(s', v) {
      assert CountOk(s, v);
    }
  }

  /** The last arrival frees register 0, where the baton starts. */
  lemma FirstFreed(s: State, s': State)
    requires Lists(s) && Lists(s') && Full(s) && |s'.place| == |s.place| && s'.order == s.order && s'.gone == s.gone
    requires s'.taken == s.taken[0 := false]
    requires s'.place == s.place[s.order[|s.place| - 1] := Spin(|s.place| - 1)]
    ensures Baton(s')
  {
    var n := |s.place|;
    forall i | 0 <= i < n ensures s'.place[s.order[i]] == Spin(i) {
      if i < n - 1 {
        assert s.order[i] != s.order[n - 1];
      }
    }
  }

  /** A UE that waits is neither early nor free. */
  lemma EarlySame(s: State, s': State, u: nat)
    requires Lists(s) && Lists(s') && EarlyOk(s) && Waiting(s, u) && u < |s.place| == |s'.place|
    requires s'.order == s.order && s'.gone == s.gone && s'.early == s.early
    requires forall i :: 0 <= i < s.gone ==> s'.taken[i] == s.taken[i]
    requires forall v :: 0 <= v < |s.place| && v != u ==> s'.place[v] == s.place[v]
    ensures EarlyOk(s')
  {
    assert forall v: nat :: Free(s', v) <==> Free(s, v);
  }

  lemma FreeFirstKeeps(s: State, u: nat)
    requires Inv(s) && Enabled(s, FreeFirst(u))
    ensures InRange(s, FreeFirst(u)) && Inv(Apply(s, FreeFirst(u)))
  {
    WhoIs(s, u);
    var s' := Apply(s, FreeFirst(u));
    SameLists(s, s');
    AtPlace(s, |s.place| - 1);
    FirstFreed(s, s');
    EarlySame(s, s', u);
    forall v: nat | v < |s'.place| ensures CountOk(s', v) {
      assert CountOk(s, v);
    }
  }

  lemma RetryKeeps(s: State, u: nat)
    requires Inv(s) && Enabled(s, Retry(u))
    ensures InRange(s, Retry(u)) && Inv(Apply(s, Retry(u)))
  {
    WhoIs(s, u);
    var s' := Apply(s, Retry(u));
    SameLists(s, s');
    AtPlace(s, s.gone);
    EarlySame(s, s', u);
    assert Baton(s');
    forall v: nat | v < |s'.place| ensures CountOk(s', v) {
      assert CountOk(s, v);
    }
  }

  /** The baton moves on: order[gone] becomes free and everyone else stays what they were. */
  lemma BatonMoves(s: State, s': State)
    requires Lists(s) && s.gone < |s.place| && Shape(s') && |s'.place| == |s.place|
    requires s'.order == s.order && s'.early == s.early && s'.gone == s.gone + 1
    ensures Lists(s')
    ensures forall v: nat :: Waiting(s, v) <==> Waiting(s', v) || v == s.order[s.gone]
    ensures !Waiting(s', s.order[s.gone])
    ensures forall v: nat :: Free(s', v) <==> Free(s, v) || v == s.order[s.gone]
  {
    var b := s.gone;
    assert s.order[b..] == [s.order[b]] + s.order[b + 1..];
    assert Waiting(s, s.order[b]);
    forall i | b + 1 <= i < |s.order| ensures s.order[i] != s.order[b] {}
  }

  /** u has given its register back and left: the early holders and the UEs behind it stay where they are. */
  lemma ReleasedOnce(s: State, s': State, u: nat)
    requires Lists(s) && EarlyOk(s) && Baton(s) && s.gone < |s.place| && u == s.order[s.gone]
    requires Lists(s') && s'.order == s.order && s'.early == s.early && s'.gone == s.gone + 1
    requires s'.place == s.place[u := Out] && |s'.taken| == |s.taken| && !s'.taken[s.gone]
    requires forall i :: 0 <= i < |s.taken| && i != s.gone && i != s.gone + 1 ==> s'.taken[i] == s.taken[i]
    requires s.gone + 1 < |s.place| ==> !s'.taken[s.gone + 1]
    requires forall v: nat :: Free(s', v) <==> Free(s, v) || v == u
    ensures EarlyOk(s') && Baton(s')
  {
    AtPlace(s, s.gone);
    forall i | 0 <= i < |s.early| ensures s'.place[s.early[i]] == s.place[s.early[i]] && s'.taken[i] == s.taken[i] {
      assert s.early[i] != u;
    }
    BatonFrame(s, s', u);
  }

  lemma BatonFrame(s: State, s': State, u: nat)
    requires Lists(s) && Baton(s) && s.gone < |s.place| && u == s.order[s.gone]
    requires Lists(s') && s'.order == s.order && s'.gone == s.gone + 1 && s'.place == s.place[u := Out]
    requires |s'.taken| == |s.taken| && (s.gone + 1 < |s.place| ==> !s'.taken[s.gone + 1])
    requires forall i :: s.gone + 1 < i < |s.taken| ==> s'.taken[i] == s.taken[i]
    ensures Baton(s')
  {
    forall i | s.gone < i < |s.place| ensures s'.place[s.order[i]] == s.place[s.order[i]] {
      assert s.order[i] != u;
    }
  }

  lemma ReleaseKeeps(s: State, u: nat, a: Step)
    requires Inv(s) && Enabled(s, a) && a.u == u
    requires a == FreeNext(u) || (a == FreeOwn(u) && s.place[u].step == |s.place| - 1)
    ensures InRange(s, a) && Inv(Apply(s, a))
  {
    WhoIs(s, u);
    var s' := Apply(s, a);
    BatonMoves(s, s');
    ReleasedOnce(s, s', u);
    forall v: nat | v < |s'.place| ensures CountOk(s', v) {
      assert CountOk(s, v);
    }
  }

  lemma FreeOwnKeeps(s: State, u: nat)
    requires Inv(s) && Enabled(s, FreeOwn(u)) && s.place[u].step != |s.place| - 1
    ensures InRange(s, FreeOwn(u)) && Inv(Apply(s, FreeOwn(u)))
  {
    WhoIs(s, u);
    var s' := Apply(s, FreeOwn(u));
    SameLists(s, s');
    AtPlace(s, s.gone);
    EarlySame(s, s', u);
    assert Baton(s');
    forall v: nat | v < |s'.place| ensures CountOk(s', v) {
      assert CountOk(s, v);
    }
  }

  /** A scanning UE has passed only registers of early holders. */
  lemma ScanMeets(s: State, u: nat)
    requires Inv(s) && u < |s.place| && s.place[u].Scan?
    ensures Free(s, u) && s.place[u].step <= |s.early| < s.gone
    ensures s.taken[s.place[u].step] <==> s.place[u].step < |s.early|
  {
    WhoIs(s, u);
    RoomForFree(s, u);
  }

  lemma ProbePasses(s: State, u: nat)
    requires Inv(s) && Enabled(s, Probe(u)) && s.place[u].step < |s.taken| && s.taken[s.place[u].step]
    ensures InRange(s, Probe(u)) && Inv(Apply(s, Probe(u)))
  {
    ScanMeets(s, u);
    var s' := Apply(s, Probe(u));
    SameLists(s, s');
    assert Baton(s');
    forall v: nat | v < |s'.place| ensures CountOk(s', v) {
      assert CountOk(s, v);
    }
  }

  lemma EarlyGrows(s: State, u: nat)
    requires Inv(s) && Enabled(s, Probe(u)) && s.place[u].step < |s.taken| && !s.taken[s.place[u].step]
    requires |s.early| + 1 < |s.place|
    ensures InRange(s, Probe(u))
    ensures var s' := Apply(s, Probe(u)); Lists(s') && EarlyOk(s') && s.gone > 0
    ensures forall v: nat :: Waiting(Apply(s, Probe(u)), v) <==> Waiting(s, v)
    ensures !Waiting(s, u) && s.place[u].step < s.gone
  {
    ScanMeets(s, u);
    var s' := Apply(s, Probe(u));
    assert forall v: nat :: Waiting(s', v) <==> Waiting(s, v);
    assert forall v: nat :: v in s'.early <==> v in s.early || v == u;
    assert forall v: nat :: Free(s', v) <==> Free(s, v) && v != u;
  }

  /** A UE takes a register while others still wait for their release or have not arrived. */
  lemma ProbeTakes(s: State, u: nat)
    requires Inv(s) && Enabled(s, Probe(u)) && s.place[u].step < |s.taken| && !s.taken[s.place[u].step]
    requires |s.early| + 1 < |s.place|
    ensures InRange(s, Probe(u)) && Inv(Apply(s, Probe(u)))
  {
    EarlyGrows(s, u);
    var s' := Apply(s, Probe(u));
    forall i | s.gone <= i < |s.place| ensures s.order[i] != u {
      assert s.order[i] in s.order[s.gone..];
    }
    assert Baton(s');
    forall v: nat | v < |s'.place| ensures CountOk(s', v) {
      assert CountOk(s, v);
    }
  }

  /** The last UE takes the last register: the next episode is complete. */
  lemma ProbeCompletes(s: State, u: nat)
    requires Inv(s) && Enabled(s, Probe(u)) && s.place[u].step < |s.taken| && !s.taken[s.place[u].step]
    requires |s.early| + 1 == |s.place|
    ensures InRange(s, Probe(u)) && Inv(Apply(s, Probe(u)))
  {
    ScanMeets(s, u);
    var s', n := Apply(s, Probe(u)), |s.place|;
    var ids := s.early + [u];
    assert s'.order == ids && s'.order[s'.gone..] == ids;
    assert NoDup(ids);
    Pigeonhole(ids, n);
    assert Lists(s');
    assert forall v: nat :: v < n ==> Waiting(s', v);
    assert EarlyOk(s');
    assert Full(s');
    forall v: nat | v < n ensures CountOk(s', v) {
      assert CountOk(s, v);
      assert v in ids;
      assert s.gone == n && s.order[n..] == [];
    }
  }

  lemma StepKeeps(s: State, a: Step)
    requires Inv(s) && Enabled(s, a)
    ensures InRange(s, a) && Inv(Apply(s, a))
  {
    match a
    case Enter(u) => EnterKeeps(s, u);
    case Probe(u) =>
      ScanMeets(s, u);
      if s.taken[s.place[u].step] {
        ProbePasses(s, u);
      } else if |s.early| + 1 < |s.place| {
        ProbeTakes(s, u);
      } else {
        ProbeCompletes(s, u);
      }
    case FreeFirst(u) => FreeFirstKeeps(s, u);
    case Retry(u) => RetryKeeps(s, u);
    case FreeOwn(u) =>
      if s.place[u].step == |s.place| - 1 {
        ReleaseKeeps(s, u, a);
      } else {
        FreeOwnKeeps(s, u);
      }
    case FreeNext(u) => ReleaseKeeps(s, u, a);
  }

  // ---------- runs ----------

  /** run[i] is the state before steps[i]; a step that leaves the registers would end the run. */
  ghost predicate IsRun(run: seq<State>, steps: seq<Step>) {
    && |run| == |steps| + 1 && Init(run[0])
    && forall i :: 0 <= i < |steps| ==> Next(run[i], steps[i], run[i + 1])
  }

  ghost predicate Next(s: State, a: Step, s': State) {
    Enabled(s, a) && (InRange(s, a) ==> s' == Apply(s, a))
  }

  lemma InitInv(s: State)
    requires Init(s)
    ensures Inv(s)
  {
    assert s.order[|s.place|..] == [];
  }

  lemma {:induction false} RunKeeps(run: seq<State>, steps: seq<Step>, i: nat)
    requires IsRun(run, steps) && i < |run|
    ensures Inv(run[i])
  {
    if i == 0 {
      InitInv(run[0]);
    } else {
      RunKeeps(run, steps, i - 1);
      assert Next(run[i - 1], steps[i - 1], run[i - 1 + 1]);
      StepKeeps(run[i - 1], steps[i - 1]);
    }
  }

  /**
   In every run: no UE has returned from its k-th call before every UE has entered its k-th call, and
   no step touches a register beyond the N of the communicator.
   */
  lemma BarrierSafe(run: seq<State>, steps: seq<Step>, i: nat, u: nat, v: nat)
    requires IsRun(run, steps) && i < |run| && u < |run[i].place| && v < |run[i].place|
    ensures Shape(run[i]) && run[i].returns_[u] <= run[i].calls[v]
    ensures i < |steps| ==> Enabled(run[i], steps[i]) && InRange(run[i], steps[i])
  {
    RunKeeps(run, steps, i);
    assert CountOk(run[i], u) && CountOk(run[i], v);
    if i < |steps| {
      assert Next(run[i], steps[i], run[i + 1]);
      StepKeeps(run[i], steps[i]);
    }
  }

  /**
   In every run a UE that re-enters early takes only the register right after those of the early
   holders before it, and that register has already been given back by the previous episode.
   */
  lemma EarlyNeverSteals(run: seq<State>, steps: seq<Step>, i: nat)
    requires IsRun(run, steps) && i < |steps| && steps[i].Probe?
    ensures
      var s, u := run[i], steps[i].u;
      && Enabled(s, steps[i]) && InRange(s, steps[i])
      && (!s.taken[s.place[u].step] ==>
            s.place[u].step == |s.early| < s.gone
            && forall w: nat :: w < |s.place| && Waiting(s, w) && s.place[w].Spin? ==> s.place[w].step > |s.early|)
  {
    var s, u := run[i], steps[i].u;
    RunKeeps(run, steps, i);
    assert Next(run[i], steps[i], run[i + 1]);
    ScanMeets(s, u);
    forall w: nat | w < |s.place| && Waiting(s, w) && s.place[w].Spin? ensures s.place[w].step > |s.early| {
      var j :| s.gone <= j < |s.order| && s.order[j] == w;
    }
  }
}
