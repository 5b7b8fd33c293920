/** The queue of posted receives from one source: RCCE_irecv, RCCE_irecv_test and RCCE_irecv_push. */
module ReceiveQueue {
  import opened Receive

  /** A posted receive: its size, and what its pieces held that have come in. */
  datatype Req = Req(size: nat, taken: seq<Bytes>)

  /**
   The requests posted so far are those of done, completed, and those of queue, in this order. The
   source has presented pieces of which used have been taken.
   */
  datatype State = State(queue: seq<Req>, done: seq<Req>, used: nat)

  /** Posting a receive, and a call that finds the flag set m times while it pushes the head. */
  datatype Step = Post(size: nat) | Push(m: nat)

  function Missing(r: Req, chunk: nat): int
    requires chunk > 0
  {
    |Plan(r.size, chunk)| - |r.taken|
  }

  /** A push takes no more than the head still needs. */
  predicate Enabled(s: State, a: Step, chunk: nat, comm: seq<Bytes>)
    requires chunk > 0
  {
    match a
    case Post(_) => true
    case Push(m) => s.queue != [] && m <= Missing(s.queue[0], chunk) && s.used + m <= |comm|
  }

  /** The next m pieces presented go to the head, which leaves the queue when it is complete. */
  function Do(s: State, a: Step, chunk: nat, comm: seq<Bytes>): State
    requires chunk > 0 && Enabled(s, a, chunk, comm)
  {
    match a
    case Post(size) => s.(queue := s.queue + [Req(size, [])])
    case Push(m) =>
      var head := s.queue[0].(taken := s.queue[0].taken + comm[s.used..s.used + m]);
      if Missing(head, chunk) == 0 then State(s.queue[1..], s.done + [head], s.used + m)
      else State([head] + s.queue[1..], s.done, s.used + m)
  }

  function Posted(s: State): seq<Req> {
    s.done + s.queue
  }

  /** Pieces of the first j requests. */
  function Offset(rs: seq<Req>, j: nat, chunk: nat): nat
    requires chunk > 0 && j <= |rs|
  {
    if j == 0 then 0 else Offset(rs, j - 1, chunk) + |Plan(rs[j - 1].size, chunk)|
  }

  /** The request at place j got the pieces from its offset on, in order. */
  ghost predicate ReqOk(s: State, j: nat, chunk: nat, comm: seq<Bytes>)
    requires chunk > 0 && j < |Posted(s)|
  {
    var r, from := Posted(s)[j], Offset(Posted(s), j, chunk);
    if j > |s.done| then r.taken == []
    else
      && from + |r.taken| <= |comm| && r.taken == comm[from..from + |r.taken|]
      && (if j < |s.done| then Missing(r, chunk) == 0 else Missing(r, chunk) > 0 && s.used == from + |r.taken|)
  }

  ghost predicate Inv(s: State, chunk: nat, comm: seq<Bytes>)
    requires chunk > 0
  {
    && (forall j :: 0 <= j < |Posted(s)| ==> ReqOk(s, j, chunk, comm))
    && (s.queue == [] ==> s.used == Offset(s.done, |s.done|, chunk)) && s.used <= |comm|
  }

  lemma {:induction false} OffsetSame(rs: seq<Req>, qs: seq<Req>, j: nat, chunk: nat)
    requires chunk > 0 && j <= |rs| && j <= |qs| && forall i :: 0 <= i < j ==> rs[i].size == qs[i].size
    ensures Offset(rs, j, chunk) == Offset(qs, j, chunk)
  {
    if j > 0 {
      OffsetSame(rs, qs, j - 1, chunk);
    }
  }

  lemma PostKeeps(s: State, size: nat, chunk: nat, comm: seq<Bytes>)
    requires chunk > 0 && Inv(s, chunk, comm)
    ensures Inv(Do(s, Post(size), chunk, comm), chunk, comm)
  {
    var s' := Do(s, Post(size), chunk, comm);
    var rs, rs' := Posted(s), Posted(s');
    assert rs' == rs + [Req(size, [])];
    PlanNotEmpty(size, chunk);
    forall j | 0 <= j < |rs'| ensures ReqOk(s', j, chunk, comm) {
      OffsetSame(rs, rs', j, chunk);
      if j < |rs| {
        assert ReqOk(s, j, chunk, comm);
      } else if s.queue == [] {
        assert rs == s.done;
      }
    }
  }

  /** After a push the same requests are posted; only the first that was not complete has changed. */
  lemma PushPosted(s: State, m: nat, chunk: nat, comm: seq<Bytes>)
    requires chunk > 0 && Enabled(s, Push(m), chunk, comm)
    ensures
      var head := s.queue[0].(taken := s.queue[0].taken + comm[s.used..s.used + m]);
      Posted(Do(s, Push(m), chunk, comm)) == Posted(s)[|s.done| := head]
  {}

  lemma PushHead(s: State, m: nat, chunk: nat, comm: seq<Bytes>)
    requires chunk > 0 && Inv(s, chunk, comm) && Enabled(s, Push(m), chunk, comm)
    ensures
      var s' := Do(s, Push(m), chunk, comm);
      |Posted(s')| == |Posted(s)| && ReqOk(s', |s.done|, chunk, comm)
  {
    var s', d := Do(s, Push(m), chunk, comm), |s.done|;
    PushPosted(s, m, chunk, comm);
    OffsetSame(Posted(s), Posted(s'), d, chunk);
    assert ReqOk(s, d, chunk, comm);
    var from, n := Offset(Posted(s), d, chunk), |s.queue[0].taken|;
    assert Posted(s)[d] == s.queue[0] && s.used == from + n && s.queue[0].taken == comm[from..from + n];
    assert comm[from..from + n] + comm[from + n..from + n + m] == comm[from..from + n + m];
    assert Posted(s')[d].taken == comm[from..from + n + m];
  }

  lemma PushLater(s: State, m: nat, chunk: nat, comm: seq<Bytes>, j: nat)
    requires chunk > 0 && Inv(s, chunk, comm) && Enabled(s, Push(m), chunk, comm) && |s.done| < j < |Posted(s)|
    ensures
      var s' := Do(s, Push(m), chunk, comm);
      |Posted(s')| == |Posted(s)| && ReqOk(s', j, chunk, comm)
  {
    var s' := Do(s, Push(m), chunk, comm);
    PushPosted(s, m, chunk, comm);
    OffsetSame(Posted(s), Posted(s'), j, chunk);
    assert ReqOk(s, j, chunk, comm);
    HeadOffset(s, chunk, comm);
    PlanNotEmpty(Posted(s)[j].size, chunk);
  }

  lemma PushReq(s: State, m: nat, chunk: nat, comm: seq<Bytes>, j: nat)
    requires chunk > 0 && Inv(s, chunk, comm) && Enabled(s, Push(m), chunk, comm) && j < |Posted(s)|
    ensures
      var s' := Do(s, Push(m), chunk, comm);
      |Posted(s')| == |Posted(s)| && ReqOk(s', j, chunk, comm)
  {
    if j == |s.done| {
      PushHead(s, m, chunk, comm);
    } else if j > |s.done| {
      PushLater(s, m, chunk, comm, j);
    } else {
      PushPosted(s, m, chunk, comm);
      OffsetSame(Posted(s), Posted(Do(s, Push(m), chunk, comm)), j, chunk);
      assert ReqOk(s, j, chunk, comm);
    }
  }

  lemma HeadOffset(s: State, chunk: nat, comm: seq<Bytes>)
    requires chunk > 0 && Inv(s, chunk, comm) && s.queue != []
    ensures
      var from := Offset(Posted(s), |s.done|, chunk);
      && s.used == from + |s.queue[0].taken|
      && Offset(Posted(s), |s.done| + 1, chunk) == from + |Plan(s.queue[0].size, chunk)|
  {
    assert ReqOk(s, |s.done|, chunk, comm);
  }

  /** A push changes the oldest request that is not complete and no other, and completes it or leaves it the oldest. */
  lemma PushKeeps(s: State, m: nat, chunk: nat, comm: seq<Bytes>)
    requires chunk > 0 && Inv(s, chunk, comm) && Enabled(s, Push(m), chunk, comm)
    ensures Inv(Do(s, Push(m), chunk, comm), chunk, comm)
    ensures
      var s', d := Do(s, Push(m), chunk, comm), |s.done|;
      && |Posted(s')| == |Posted(s)| && (forall j :: 0 <= j < |Posted(s)| && j != d ==> Posted(s')[j] == Posted(s)[j])
      && Posted(s')[d].size == Posted(s)[d].size && |Posted(s')[d].taken| == |Posted(s)[d].taken| + m
      && |s'.done| == if Missing(Posted(s')[d], chunk) == 0 then d + 1 else d
  {
    var s' := Do(s, Push(m), chunk, comm);
    PushPosted(s, m, chunk, comm);
    forall j | 0 <= j < |Posted(s')| ensures ReqOk(s', j, chunk, comm) {
      PushReq(s, m, chunk, comm, j);
    }
    if s'.queue == [] {
      HeadOffset(s, chunk, comm);
      OffsetSame(Posted(s), s'.done, |s.done| + 1, chunk);
    }
  }

  // ---------- runs ----------

  ghost predicate Next(s: State, a: Step, s': State, chunk: nat, comm: seq<Bytes>)
    requires chunk > 0
  {
    Enabled(s, a, chunk, comm) && s' == Do(s, a, chunk, comm)
  }

  ghost predicate IsRun(run: seq<State>, steps: seq<Step>, chunk: nat, comm: seq<Bytes>)
    requires chunk > 0
  {
    && |run| == |steps| + 1 && run[0] == State([], [], 0)
    && forall i :: 0 <= i < |steps| ==> Next(run[i], steps[i], run[i + 1], chunk, comm)
  }

  lemma {:induction false} RunKeeps(run: seq<State>, steps: seq<Step>, chunk: nat, comm: seq<Bytes>, k: nat)
    requires chunk > 0 && IsRun(run, steps, chunk, comm) && k < |run|
    ensures Inv(run[k], chunk, comm)
  {
    if k > 0 {
      RunKeeps(run, steps, chunk, comm, k - 1);
      assert Next(run[k - 1], steps[k - 1], run[k], chunk, comm);
      match steps[k - 1]
      case Post(size) => PostKeeps(run[k - 1], size, chunk, comm);
      case Push(m) => PushKeeps(run[k - 1], m, chunk, comm);
    }
  }

  function Sizes(rs: seq<Req>): seq<nat> {
    seq(|rs|, i requires 0 <= i < |rs| => rs[i].size)
  }

  /** The sizes of the receives posted by the steps, in order. */
  function PostSizes(steps: seq<Step>): seq<nat> {
    if steps == [] then []
    else
      var front, last := steps[..|steps| - 1], steps[|steps| - 1];
      PostSizes(front) + if last.Post? then [last.size] else []
  }

  lemma {:induction false} PostedInOrder(run: seq<State>, steps: seq<Step>, chunk: nat, comm: seq<Bytes>, k: nat)
    requires chunk > 0 && IsRun(run, steps, chunk, comm) && k < |run|
    ensures Sizes(Posted(run[k])) == PostSizes(steps[..k])
  {
    if k > 0 {
      PostedInOrder(run, steps, chunk, comm, k - 1);
      assert Next(run[k - 1], steps[k - 1], run[k], chunk, comm);
      assert steps[..k][..k - 1] == steps[..k - 1];
      match steps[k - 1]
      case Post(size) => assert Posted(run[k]) == Posted(run[k - 1]) + [Req(size, [])];
      case Push(m) => PushPosted(run[k - 1], m, chunk, comm);
    }
  }

  /** The source sends the messages in turn, one for each receive posted, each in the pieces of its own plan. */
  ghost predicate SendsInTurn(comm: seq<Bytes>, rs: seq<Req>, msgs: seq<Bytes>, chunk: nat, j: nat)
    requires chunk > 0 && j < |rs|
  {
    var from := Offset(rs, j, chunk);
    var to := from + |Plan(rs[j].size, chunk)|;
    && j < |msgs| && |msgs[j]| == rs[j].size
    && (to <= |comm| ==> Presents(comm[from..to], Plan(rs[j].size, chunk), msgs[j]))
  }

  /** The j-th receive that completes is the j-th posted, and it holds the j-th message sent. */
  lemma InOrder(run: seq<State>, steps: seq<Step>, chunk: nat, comm: seq<Bytes>, msgs: seq<Bytes>, k: nat, j: nat,
                buf: Bytes)
    requires chunk > 0 && IsRun(run, steps, chunk, comm) && k < |run| && j < |run[k].done|
    requires SendsInTurn(comm, Posted(run[k]), msgs, chunk, j) && |buf| == |msgs[j]|
    ensures Sizes(run[k].done + run[k].queue) == PostSizes(steps[..k])
    ensures
      var r := run[k].done[j];
      && r.size == PostSizes(steps[..k])[j] == |msgs[j]|
      && |r.taken| == |Plan(r.size, chunk)| && Filled(buf, Plan(r.size, chunk), r.taken) == msgs[j]
  {
    RunKeeps(run, steps, chunk, comm, k);
    PostedInOrder(run, steps, chunk, comm, k);
    var s, r := run[k], run[k].done[j];
    assert ReqOk(s, j, chunk, comm) && Posted(s)[j] == r;
    assert Sizes(Posted(s))[j] == r.size;
    if r.size == 0 {
      assert Plan(0, chunk)[..0] == [] && r.taken[..0] == [];
    } else {
      PiecesTile(0, r.size, chunk);
      FilledIsMessage(buf, Plan(r.size, chunk), r.taken, msgs[j], r.size);
      assert msgs[j][..r.size] + buf[r.size..] == msgs[j];
    }
  }
}
