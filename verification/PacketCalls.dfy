/** The bytes the sender stores and the receiver gets, read off the steps of a run. */
module PacketCalls {
  import opened Options
  import opened PacketRing

  /** The last byte stored at offset k of the packet the sender works on at place n. */
  function LastStore(steps: seq<Step>, n: nat, k: nat): Option<int>
    requires n <= |steps|
  {
    if n == 0 || steps[n - 1].Request? then None
    else if steps[n - 1].Store? && steps[n - 1].k == k then Some(steps[n - 1].b)
    else LastStore(steps, n - 1, k)
  }

  /** The pending packet holds the bytes stored. */
  ghost predicate Stored(s: Net, steps: seq<Step>, n: nat, k: nat)
    requires n <= |steps|
  {
    var live := Live(s.ring);
    Sending(s) && k < live[|live| - 1].len && LastStore(steps, n, k).Some? ==>
      live[|live| - 1].addr + k < |s.heap| && s.heap[live[|live| - 1].addr + k] == LastStore(steps, n, k).value
  }

  /** A step of the receiver leaves a pending packet where it is, the last one. */
  lemma PendingStays(s: Net, a: Step)
    requires Inv(s) && Enabled(s, a) && (a.Take? || a.Copy? || a.Release?)
    ensures Sending(Apply(s, a)) <==> Sending(s)
    ensures Sending(s) ==>
      var live, live' := Live(s.ring), Live(Apply(s, a).ring);
      live' != [] && live'[|live'| - 1] == live[|live| - 1]
  {
    var live := Live(s.ring);
    assert StatOk(live, 0) && StatOk(live, |live| - 1);
    match a
    case Take => SetStatKeeps(s.ring, 0, InProc);
    case Copy => SetStatKeeps(s.ring, 0, Proc);
    case Release => FreeKeeps(s.ring);
  }

  lemma StoredStep(s: Net, s': Net, steps: seq<Step>, n: nat, k: nat)
    requires n < |steps| && Inv(s) && Next(s, steps[n], s') && Stored(s, steps, n, k)
    ensures Stored(s', steps, n + 1, k)
  {
    match steps[n]
    case Request(_) =>
    case Store(_, _) =>
    case Commit => SetStatKeeps(s.ring, |Live(s.ring)| - 1, Ready);
    case _ => PendingStays(s, steps[n]);
  }

  lemma {:induction false} RunStored(run: seq<Net>, steps: seq<Step>, n: nat, k: nat)
    requires IsRun(run, steps) && n < |run|
    ensures Stored(run[n], steps, n, k)
  {
    if n > 0 {
      RunStored(run, steps, n - 1, k);
      RunKeeps(run, steps, n - 1);
      StoredStep(run[n - 1], run[n - 1 + 1], steps, n - 1, k);
    }
  }

  /** In every run a commit sends the pending packet with every byte as the sender last stored it. */
  lemma CommitSendsStored(run: seq<Net>, steps: seq<Step>, n: nat, k: nat)
    requires IsRun(run, steps) && n < |steps| && steps[n].Commit?
    ensures
      var live, sent := Live(run[n].ring), run[n + 1].sent;
      && live != [] && |sent| == |run[n].sent| + 1 && sent[..|run[n].sent|] == run[n].sent
      && var packet := sent[|run[n].sent|];
         && |packet| == live[|live| - 1].len
         && (k < |packet| && LastStore(steps, n, k).Some? ==> packet[k] == LastStore(steps, n, k).value)
  {
    RunStored(run, steps, n, k);
    RunKeeps(run, steps, n);
    assert Next(run[n], steps[n], run[n + 1]);
    LaidBounds(run[n].ring, |Live(run[n].ring)| - 1);
  }

  // ---------- a call alone ----------

  ghost predicate Leads(s: Net, steps: seq<Step>, s': Net)
    decreases |steps|
  {
    if steps == [] then s' == s else Enabled(s, steps[0]) && Leads(Apply(s, steps[0]), steps[1..], s')
  }

  lemma Front(s: Net, a: Step, rest: seq<Step>, all: seq<Step>, s': Net)
    requires Enabled(s, a) && Leads(Apply(s, a), rest, s') && all == [a] + rest
    ensures Leads(s, all, s')
  {
    assert all[1..] == rest;
  }

  lemma {:induction false} Join(s: Net, first: seq<Step>, m: Net, second: seq<Step>, s': Net)
    requires Leads(s, first, m) && Leads(m, second, s')
    ensures Leads(s, first + second, s')
    decreases |first|
  {
    if first == [] {
      assert first + second == second;
    } else {
      Join(Apply(s, first[0]), first[1..], m, second, s');
      Front(s, first[0], first[1..] + second, first + second, s');
    }
  }

  /** mmnif_rx on a ready packet: the receiver gets the oldest packet not yet received, and its place is free. */
  lemma ReceiveAlone(s: Net) returns (s': Net)
    requires Inv(s) && Live(s.ring) != [] && Live(s.ring)[0].stat == Ready
    ensures Leads(s, [Take, Copy, Release], s') && Inv(s') && Live(s'.ring) == Live(s.ring)[1..]
    ensures |s.received| < |s.sent| && s'.received == s.received + [s.sent[|s.received|]]
    ensures s'.sent == s.sent && s'.heap == s.heap
  {
    var live := Live(s.ring);
    SetStatKeeps(s.ring, 0, InProc);
    var s1 := Apply(s, Take);
    SetStatKeeps(s1.ring, 0, Proc);
    var s2 := Apply(s1, Copy);
    FreeKeeps(s2.ring);
    s' := Apply(s2, Release);
    assert Inv(s') by {
      StepKeeps(s, Take);
      StepKeeps(s1, Copy);
      StepKeeps(s2, Release);
    }
    Front(s2, Release, [], [Release], s');
    Front(s1, Copy, [Release], [Copy, Release], s');
    Front(s, Take, [Copy, Release], [Take, Copy, Release], s');
    OldestWaits(s);
  }

  lemma OldestWaits(s: Net)
    requires Inv(s) && Live(s.ring) != [] && Live(s.ring)[0].stat == Ready
    ensures |s.received| < |s.sent| && s.sent[|s.received|] == Content(s.heap, Live(s.ring)[0])
  {
    assert Waiting(Live(s.ring))[0] == Live(s.ring)[0];
  }

  /** The bytes from place k on are stored one after the other. */
  function Stores(msg: seq<int>, k: nat): seq<Step>
    requires k <= |msg|
    decreases |msg| - k
  {
    if k == |msg| then [] else [Store(k, msg[k])] + Stores(msg, k + 1)
  }

  ghost predicate Partly(s: Net, msg: seq<int>, k: nat) {
    var live := Live(s.ring);
    && Sending(s) && k <= |msg| == live[|live| - 1].len && live[|live| - 1].addr + |msg| <= |s.heap|
    && forall i :: 0 <= i < k ==> s.heap[live[|live| - 1].addr + i] == msg[i]
  }

  lemma {:induction false} StoreAll(s: Net, msg: seq<int>, k: nat) returns (s': Net)
    requires Partly(s, msg, k)
    ensures Leads(s, Stores(msg, k), s') && Partly(s', msg, |msg|) && s' == s.(heap := s'.heap)
    decreases |msg| - k
  {
    if k == |msg| {
      s' := s;
    } else {
      s' := StoreAll(Apply(s, Store(k, msg[k])), msg, k + 1);
      Front(s, Store(k, msg[k]), Stores(msg, k + 1), Stores(msg, k), s');
    }
  }

  /** The request is granted: the new packet is pending, last, and within the heap. */
  lemma RequestGranted(s: Net, msg: seq<int>) returns (s1: Net)
    requires Inv(s) && !Sending(s) && 20 <= |msg| <= 1536 && Alloc(s.ring, |msg|).1.Some?
    ensures Leads(s, [Request(|msg|)], s1) && Inv(s1) && Partly(s1, msg, 0) && s1 == s.(ring := s1.ring)
    ensures |Live(s1.ring)| == |Live(s.ring)| + 1 && Live(s1.ring)[..|Live(s.ring)|] == Live(s.ring)
  {
    AllocKeeps(s.ring, |msg|);
    RequestKeeps(s, |msg|);
    s1 := Apply(s, Request(|msg|));
    LaidBounds(s1.ring, |Live(s.ring)|);
    Front(s, Request(|msg|), [], [Request(|msg|)], s1);
  }

  /** What was stored is sent. */
  lemma CommitSent(s: Net, msg: seq<int>) returns (s': Net)
    requires Laid(s.ring) && Partly(s, msg, |msg|)
    ensures Leads(s, [Commit], s') && s'.sent == s.sent + [msg] && s'.received == s.received
    ensures
      var live := Live(s.ring);
      Live(s'.ring) == live[|live| - 1 := live[|live| - 1].(stat := Ready)]
  {
    var last := |Live(s.ring)| - 1;
    SetStatKeeps(s.ring, last, Ready);
    s' := Apply(s, Commit);
    Front(s, Commit, [], [Commit], s');
    assert Content(s.heap, Live(s.ring)[last]) == msg;
  }

  /** mmnif_tx of a message when there is room: it is sent as it is and waits ready behind all others. */
  lemma SendAlone(s: Net, msg: seq<int>) returns (s': Net)
    requires Inv(s) && !Sending(s) && 20 <= |msg| <= 1536 && Alloc(s.ring, |msg|).1.Some?
    ensures Leads(s, [Request(|msg|)] + Stores(msg, 0) + [Commit], s')
    ensures s'.sent == s.sent + [msg] && s'.received == s.received
    ensures |Live(s'.ring)| == |Live(s.ring)| + 1 && Live(s'.ring)[..|Live(s.ring)|] == Live(s.ring)
    ensures Live(s'.ring)[|Live(s.ring)|].stat == Ready
  {
    var s1 := RequestGranted(s, msg);
    var s2 := StoreAll(s1, msg, 0);
    s' := CommitSent(s2, msg);
    Join(s, [Request(|msg|)], s1, Stores(msg, 0), s2);
    Join(s, [Request(|msg|)] + Stores(msg, 0), s2, [Commit], s');
  }
}
