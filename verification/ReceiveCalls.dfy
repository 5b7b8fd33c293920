/** RCCE_irecv, RCCE_irecv_test and RCCE_irecv_push on the linked queue of requests from one source. */
module ReceiveCalls {
  import opened Receive
  import opened ReceiveQueue
  import opened ReceiveRequest

  const NULL: int := -1

  datatype Code = SUCCESS | PENDING | RESERVED

  /** As long as the flag is found set, the communication buffer holds the next piece the source presents. */
  ghost predicate Offers(polls: seq<Poll>, comm: seq<Bytes>, used: nat) {
    if polls == [] || polls[0].Unset? then used <= |comm|
    else used < |comm| && polls[0].comm == comm[used] && Offers(polls[1..], comm, used + 1)
  }

  lemma {:induction false} TakenIs(polls: seq<Poll>, comm: seq<Bytes>, used: nat, left: nat)
    requires Offers(polls, comm, used)
    ensures
      var m := |Taken(polls, left)|;
      used + m <= |comm| && Taken(polls, left) == comm[used..used + m]
  {
    if left > 0 && polls != [] && polls[0].Set? {
      TakenIs(polls[1..], comm, used + 1, left - 1);
      var m := |Taken(polls[1..], left - 1)|;
      assert comm[used..used + 1 + m] == [comm[used]] + comm[used + 1..used + 1 + m];
    } else {
      assert comm[used..used] == [];
    }
  }

  function Last<T>(s: seq<T>): T
    requires s != []
  {
    s[|s| - 1]
  }

  lemma Extend(run: seq<State>, steps: seq<Step>, a: Step, chunk: nat, comm: seq<Bytes>)
    requires chunk > 0 && IsRun(run, steps, chunk, comm) && Enabled(Last(run), a, chunk, comm)
    ensures IsRun(run + [Do(Last(run), a, chunk, comm)], steps + [a], chunk, comm)
  {
    var run', steps' := run + [Do(Last(run), a, chunk, comm)], steps + [a];
    forall i | 0 <= i < |steps'| ensures Next(run'[i], steps'[i], run'[i + 1], chunk, comm) {
      if i < |steps| {
        assert Next(run[i], steps[i], run[i + 1], chunk, comm);
      }
    }
  }

  /** The oldest request that is not complete lacks a piece. */
  lemma HeadLacks(run: seq<State>, steps: seq<Step>, chunk: nat, comm: seq<Bytes>)
    requires chunk > 0 && IsRun(run, steps, chunk, comm) && Last(run).queue != []
    ensures Missing(Last(run).queue[0], chunk) > 0
  {
    RunKeeps(run, steps, chunk, comm, |run| - 1);
    assert ReqOk(Last(run), |Last(run).done|, chunk, comm);
  }

  /** The run goes on with a push that finds m pieces for the oldest request that is not complete. */
  lemma RunPushed(run: seq<State>, steps: seq<Step>, m: nat, chunk: nat, comm: seq<Bytes>) returns (s': State)
    requires chunk > 0 && IsRun(run, steps, chunk, comm) && Enabled(Last(run), Push(m), chunk, comm)
    ensures IsRun(run + [s'], steps + [Push(m)], chunk, comm)
    ensures
      var s, d := Last(run), |Last(run).done|;
      var head := s.queue[0].(taken := s.queue[0].taken + comm[s.used..s.used + m]);
      Posted(s') == Posted(s)[d := head] && |s'.done| == if Missing(head, chunk) == 0 then d + 1 else d
  {
    s' := Do(Last(run), Push(m), chunk, comm);
    Extend(run, steps, Push(m), chunk, comm);
    PushPosted(Last(run), m, chunk, comm);
  }

  lemma RunPosted(run: seq<State>, steps: seq<Step>, size: nat, chunk: nat, comm: seq<Bytes>) returns (s': State)
    requires chunk > 0 && IsRun(run, steps, chunk, comm)
    ensures IsRun(run + [s'], steps + [Post(size)], chunk, comm)
    ensures Posted(s') == Posted(Last(run)) + [Req(size, [])] && s'.done == Last(run).done && s'.used == Last(run).used
  {
    s' := Do(Last(run), Post(size), chunk, comm);
    Extend(run, steps, Post(size), chunk, comm);
  }

  class RecvQueue {
    /** The requests posted so far, a request being named by its place, with their next links. */
    const chunk: nat
    var reqs: seq<Request>
    var next: seq<int>
    var head: int
    /** What the source presents, and the run of the queue on values. */
    ghost const comm: seq<Bytes>
    ghost var run: seq<State>
    ghost var steps: seq<Step>

    ghost predicate Valid()
      reads this, reqs, set r | r in reqs :: r.privbuf
    {
      Queued(head)
    }

    /** The queue is in order when first is taken for its head. */
    ghost predicate Queued(first: int)
      reads this`reqs, this`next, this`run, this`steps, reqs, set r | r in reqs :: r.privbuf
    {
      && chunk > 0 && (forall i :: 0 <= i < |comm| ==> CommOk(comm[i], chunk))
      && IsRun(run, steps, chunk, comm)
      && |next| == |reqs| == |Posted(Last(run))|
      && first == Link(|Last(run).done|)
      && (forall i :: 0 <= i < |reqs| ==> Entry(i))
      && (forall i :: |Last(run).done| <= i < |reqs| ==> Pending(i))
      && (forall i, j :: 0 <= i < j < |reqs| ==> reqs[i] != reqs[j])
      && (forall i, j :: |Last(run).done| <= i < j < |reqs| ==> reqs[i].privbuf != reqs[j].privbuf)
    }

    /** The link to the request at place i. */
    ghost function Link(i: nat): int
      reads this`reqs
    {
      if i < |reqs| then i else NULL
    }

    ghost predicate Entry(i: nat)
      requires run != [] && i < |reqs| == |Posted(Last(run))|
      reads this`reqs, this`run, reqs[i]
    {
      && Posted(Last(run))[i] == Req(reqs[i].Size(), reqs[i].comm) && reqs[i].chunk == chunk
      && (reqs[i].finished <==> i < |Last(run).done|)
    }

    ghost predicate Pending(i: nat)
      requires i < |reqs| == |next|
      reads this`reqs, this`next, reqs[i], reqs[i].privbuf
    {
      reqs[i].Valid() && next[i] == Link(i + 1)
    }

    /** An empty queue. */
    constructor (chunk: nat, ghost comm: seq<Bytes>)
      requires chunk > 0 && forall i :: 0 <= i < |comm| ==> CommOk(comm[i], chunk)
      ensures Valid() && reqs == [] && steps == [] && this.chunk == chunk && this.comm == comm
    {
      this.chunk, this.comm := chunk, comm;
      reqs, next, head, run, steps := [], [], NULL, [State([], [], 0)], [];
    }

    /** RCCE_push_recv_request on the oldest request that is not complete. */
    method Advance(i: nat, polls: seq<Poll>) returns (ghost m: nat)
      requires Queued(i) && Offers(polls, comm, Last(run).used)
      requires forall k :: 0 <= k < |polls| && polls[k].Set? ==> CommOk(polls[k].comm, chunk)
      modifies this`run, this`steps, reqs[i], reqs[i].privbuf
      ensures steps == old(steps) + [Push(m)] && Queued(if reqs[i].finished then next[i] else i)
      ensures reqs[i].Valid() && reqs[i].comm == old(reqs[i].comm) + Taken(polls, old(reqs[i].Lacks()))
      ensures m == |Taken(polls, old(reqs[i].Lacks()))|
    {
      var r := reqs[i];
      ghost var s := Last(run);
      assert Entry(i) && Pending(i);
      assert s.queue[0] == Posted(s)[i];
      HeadLacks(run, steps, chunk, comm);
      m := |Taken(polls, r.Lacks())|;
      TakenIs(polls, comm, s.used, r.Lacks());
      r.Push(polls);
      ghost var s' := RunPushed(run, steps, m, chunk, comm);
      run, steps := run + [s'], steps + [Push(m)];
      forall j | 0 <= j < |reqs| ensures Entry(j) {
        assert old(Entry(j)) && (j != i ==> reqs[j] != r);
      }
      forall j | |Last(run).done| <= j < |reqs| ensures Pending(j) {
        assert old(Pending(j)) && (j != i ==> reqs[j] != r && reqs[j].privbuf != r.privbuf);
      }
    }

    /** The objects a push of the head may change. */
    ghost function Cells(): set<object>
      reads this
    {
      if 0 <= head < |reqs| then {reqs[head], reqs[head].privbuf} else {}
    }

    /** The pieces the head still lacks. */
    ghost function Wants(): nat
      reads this`head, this`reqs, reqs
    {
      if 0 <= head < |reqs| then reqs[head].Lacks() else 0
    }

    /** A push of the head, which leaves the queue when it is complete. */
    method PushHead(polls: seq<Poll>) returns (finished: bool, ghost m: nat)
      requires Valid() && head != NULL && Offers(polls, comm, Last(run).used)
      requires forall k :: 0 <= k < |polls| && polls[k].Set? ==> CommOk(polls[k].comm, chunk)
      modifies this`head, this`run, this`steps, Cells()
      ensures Valid() && steps == old(steps) + [Push(m)] && 0 <= old(head) < |reqs|
      ensures finished == reqs[old(head)].finished == (head != old(head)) && reqs[old(head)].Valid()
      ensures m == |Taken(polls, old(Wants()))|
    {
      var request := head;
      assert Pending(request);
      m := Advance(request, polls);
      finished := reqs[request].finished;
      if finished {
        head := next[request];
      }
    }

    /** RCCE_irecv_push. */
    method IrecvPush(polls: seq<Poll>) returns (code: Code, ghost m: nat)
      requires Valid() && Offers(polls, comm, Last(run).used)
      requires forall k :: 0 <= k < |polls| && polls[k].Set? ==> CommOk(polls[k].comm, chunk)
      modifies this`head, this`run, this`steps, Cells()
      ensures Valid() && steps == if old(head) == NULL then old(steps) else old(steps) + [Push(m)]
      ensures old(head) != NULL ==>
        0 <= old(head) < |reqs| && reqs[old(head)].Valid() && m == |Taken(polls, old(Wants()))|
      ensures code == if old(head) == NULL || head != old(head) then SUCCESS else PENDING
    {
      m := 0;
      assert head != NULL ==> Entry(head);
      if head == NULL || reqs[head].finished {
        return SUCCESS, m;
      }
      var finished;
      finished, m := PushHead(polls);
      code := if finished then SUCCESS else PENDING;
    }

    /** RCCE_irecv_test of the request at place i. */
    method IrecvTest(i: nat, polls: seq<Poll>) returns (code: Code, test: bool, ghost m: nat)
      requires Valid() && i < |reqs| && Offers(polls, comm, Last(run).used)
      requires forall k :: 0 <= k < |polls| && polls[k].Set? ==> CommOk(polls[k].comm, chunk)
      modifies this`head, this`run, this`steps, Cells()
      ensures Valid() && steps == if old(head) != i then old(steps) else old(steps) + [Push(m)]
      ensures old(head) == i ==> reqs[i].Valid() && m == |Taken(polls, old(Wants()))|
      ensures test == reqs[i].finished == (i < |Last(run).done|)
      ensures code == if test then SUCCESS else if old(head) == i then PENDING else RESERVED
    {
      m := 0;
      assert Entry(i);
      if reqs[i].finished {
        return SUCCESS, true, m;
      }
      if head != i {
        return RESERVED, false, m;
      }
      test, m := PushHead(polls);
      assert Entry(i);
      code := if test then SUCCESS else PENDING;
    }

    /** The walk to the end of the queue. */
    method FindLast() returns (last: nat)
      requires Valid() && head != NULL
      ensures last == |reqs| - 1
    {
      assert Pending(head);
      if next[head] == NULL {
        return head;
      }
      last := head;
      while next[last] != NULL
        invariant |Last(run).done| <= last < |reqs|
        decreases |reqs| - last
      {
        assert Pending(last);
        last := next[last];
      }
      assert Pending(last);
    }

    /** A new request behind the last one of the queue, or alone if there is none. */
    method Enter(privbuf: array<int>, last: int) returns (i: nat)
      requires Valid() && forall j :: |Last(run).done| <= j < |reqs| ==> reqs[j].privbuf != privbuf
      requires last == if head == NULL then NULL else |reqs| - 1
      modifies this`reqs, this`next, this`run, this`steps
      ensures Queued(if head == NULL then i else head)
      ensures i == |old(reqs)| && |reqs| == i + 1 && reqs[..i] == old(reqs) && fresh(reqs[i]) && next[i] == NULL
      ensures reqs[i].privbuf == privbuf && reqs[i].was == privbuf[..] && reqs[i].comm == []
      ensures steps == old(steps) + [Post(privbuf.Length)] && Last(run).used == old(Last(run).used)
      ensures Last(run).done == old(Last(run).done)
    {
      var r := new Request(privbuf, chunk);
      ghost var s' := RunPosted(run, steps, privbuf.Length, chunk, comm);
      i := |reqs|;
      reqs, next := reqs + [r], (if last != NULL then next[last := i] else next) + [NULL];
      run, steps := run + [s'], steps + [Post(privbuf.Length)];
      forall j | 0 <= j < |reqs| ensures Entry(j) {
        if j < i {
          assert old(Entry(j));
        }
      }
      forall j | |Last(run).done| <= j < |reqs| ensures Pending(j) {
        if j < i {
          assert old(Pending(j));
        }
      }
    }

    /** The branch for an empty queue. */
    method IrecvFirst(privbuf: array<int>, polls: seq<Poll>) returns (code: Code, i: nat, ghost m: nat)
      requires Valid() && head == NULL && Offers(polls, comm, Last(run).used)
      requires forall k :: 0 <= k < |polls| && polls[k].Set? ==> CommOk(polls[k].comm, chunk)
      modifies this, privbuf
      ensures Valid() && i == |old(reqs)| && |reqs| == i + 1 && reqs[..i] == old(reqs) && fresh(reqs[i])
      ensures reqs[i].privbuf == privbuf && reqs[i].was == old(privbuf[..]) && reqs[i].Valid()
      ensures steps == old(steps) + [Post(privbuf.Length), Push(m)]
      ensures m == |Taken(polls, |Plan(privbuf.Length, chunk)|)|
      ensures code == if reqs[i].finished then SUCCESS else PENDING
    {
      i := Enter(privbuf, NULL);
      assert Entry(i);
      m := Advance(i, polls);
      if reqs[i].finished {
        return SUCCESS, i, m;
      }
      head := i;
      code := PENDING;
    }

    /** RCCE_irecv: a request for an empty queue is pushed at once and queued only if it is not complete. */
    method Irecv(privbuf: array<int>, polls: seq<Poll>) returns (code: Code, i: nat, ghost m: nat)
      requires Valid() && Offers(polls, comm, Last(run).used)
      requires forall j :: |Last(run).done| <= j < |reqs| ==> reqs[j].privbuf != privbuf
      requires forall k :: 0 <= k < |polls| && polls[k].Set? ==> CommOk(polls[k].comm, chunk)
      modifies this, privbuf
      ensures Valid() && i == |old(reqs)| && |reqs| == i + 1 && reqs[..i] == old(reqs) && fresh(reqs[i])
      ensures reqs[i].privbuf == privbuf && reqs[i].was == old(privbuf[..])
      ensures steps == old(steps) + [Post(privbuf.Length)] + if old(head) == NULL then [Push(m)] else []
      ensures reqs[i].Valid() && (old(head) == NULL ==> m == |Taken(polls, |Plan(privbuf.Length, chunk)|)|)
      ensures code == if old(head) != NULL then RESERVED else if reqs[i].finished then SUCCESS else PENDING
    {
      m := 0;
      if head == NULL {
        code, i, m := IrecvFirst(privbuf, polls);
      } else {
        var last := FindLast();
        i := Enter(privbuf, last);
        assert Pending(i);
        code := RESERVED;
      }
    }

    /**
     After any calls the requests are those posted, in order; when one has completed all older ones have,
     and its buffer, unless written since, holds the message sent for it.
     */
    lemma Delivered(i: nat, msgs: seq<Bytes>)
      requires Valid() && i < |reqs| && reqs[i].finished && reqs[i].Valid()
      requires SendsInTurn(comm, Posted(Last(run)), msgs, chunk, i)
      ensures reqs[i].privbuf[..] == msgs[i] && forall j :: 0 <= j < i ==> reqs[j].finished
      ensures |PostSizes(steps)| == |reqs| && forall j :: 0 <= j < |reqs| ==> PostSizes(steps)[j] == reqs[j].Size()
    {
      var s, n := Last(run), |steps|;
      assert steps[..n] == steps;
      assert Entry(i);
      reqs[i].LikeBlocking();
      InOrder(run, steps, chunk, comm, msgs, n, i, reqs[i].was);
      forall j | 0 <= j < |reqs| ensures PostSizes(steps)[j] == reqs[j].Size() && (j < i ==> reqs[j].finished) {
        assert Entry(j) && Sizes(Posted(s))[j] == Posted(s)[j].size;
      }
    }
  }
}
