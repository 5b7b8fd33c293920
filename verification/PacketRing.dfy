/**
 The receive buffer of drivers/net/mmnif.c on values: a byte ring in which a packet never wraps, so
 that a hole may be left at its end, with one in-order sender and one receiver.
 */
module PacketRing {
  import opened Options

  const RX_BUFFERLEN: nat := 28 * 1024
  const MAX_DESCRIPTORS: nat := 64

  /** MMNIF_STATUS_*; Free is the status of a descriptor without a packet. */
  datatype Status = Free | Pending | Ready | InProc | Proc

  datatype Packet = Packet(addr: nat, len: nat, stat: Status)

  /** Live packets, oldest first: those before the wrap-around and those behind it. */
  datatype Ring = Ring(head: nat, tail: nat, upper: seq<Packet>, lower: seq<Packet>)

  function Live(r: Ring): seq<Packet> {
    r.upper + r.lower
  }

  // ---------- layout ----------

  /** The packets lie one behind the other from byte from up to byte to. */
  predicate Chain(ps: seq<Packet>, from: nat, to: nat) {
    if ps == [] then from == to
    else ps[0].addr == from && ps[0].len > 0 && Chain(ps[1..], from + ps[0].len, to)
  }

  /** Unwrapped, the packets fill [head, tail); wrapped, [head, end) and then [0, tail), below head. */
  ghost predicate Laid(r: Ring) {
    && r.head <= RX_BUFFERLEN && r.tail <= RX_BUFFERLEN && |Live(r)| <= MAX_DESCRIPTORS
    && if r.lower == [] then Chain(r.upper, r.head, r.tail)
       else r.upper != [] && r.tail < r.head && Chain(r.lower, 0, r.tail) && ChainUp(r.upper, r.head)
  }

  ghost predicate ChainUp(ps: seq<Packet>, from: nat) {
    exists end: nat :: end <= RX_BUFFERLEN && Chain(ps, from, end)
  }

  lemma {:induction false} ChainAppend(ps: seq<Packet>, from: nat, to: nat, p: Packet)
    requires Chain(ps, from, to) && p.addr == to && p.len > 0
    ensures Chain(ps + [p], from, to + p.len)
  {
    if ps == [] {
      assert Chain([], to + p.len, to + p.len);
    } else {
      ChainAppend(ps[1..], from + ps[0].len, to, p);
      assert (ps + [p])[1..] == ps[1..] + [p];
    }
  }

  lemma {:induction false} ChainBounds(ps: seq<Packet>, from: nat, to: nat, i: nat)
    requires Chain(ps, from, to) && i < |ps|
    ensures from <= ps[i].addr && ps[i].len > 0 && ps[i].addr + ps[i].len <= to
  {
    if i > 0 {
      ChainBounds(ps[1..], from + ps[0].len, to, i - 1);
    } else if |ps| > 1 {
      ChainBounds(ps[1..], from + ps[0].len, to, 0);
    }
  }

  lemma {:induction false} ChainOrdered(ps: seq<Packet>, from: nat, to: nat, i: nat, j: nat)
    requires Chain(ps, from, to) && i < j < |ps|
    ensures ps[i].addr + ps[i].len <= ps[j].addr
  {
    if i > 0 {
      ChainOrdered(ps[1..], from + ps[0].len, to, i - 1, j - 1);
    } else {
      ChainBounds(ps[1..], from + ps[0].len, to, j - 1);
    }
  }

  lemma {:induction false} ChainSame(ps: seq<Packet>, qs: seq<Packet>, from: nat, to: nat)
    requires Chain(ps, from, to) && |ps| == |qs|
    requires forall i :: 0 <= i < |ps| ==> qs[i].addr == ps[i].addr && qs[i].len == ps[i].len
    ensures Chain(qs, from, to)
  {
    if ps != [] {
      ChainSame(ps[1..], qs[1..], from + ps[0].len, to);
    }
  }

  /** Every live packet lies inside the heap. */
  lemma LaidBounds(r: Ring, i: nat)
    requires Laid(r) && i < |Live(r)|
    ensures Live(r)[i].len > 0 && Live(r)[i].addr + Live(r)[i].len <= RX_BUFFERLEN
    ensures r.lower != [] ==> if i < |r.upper| then r.head <= Live(r)[i].addr else
                                Live(r)[i].addr + Live(r)[i].len <= r.tail
  {
    if r.lower == [] {
      ChainBounds(r.upper, r.head, r.tail, i);
    } else if i < |r.upper| {
      var end: nat :| end <= RX_BUFFERLEN && Chain(r.upper, r.head, end);
      ChainBounds(r.upper, r.head, end, i);
    } else {
      ChainBounds(r.lower, 0, r.tail, i - |r.upper|);
    }
  }

  /** No byte belongs to two live packets. */
  lemma LaidDisjoint(r: Ring, i: nat, j: nat)
    requires Laid(r) && i < j < |Live(r)|
    ensures
      var p, q := Live(r)[i], Live(r)[j];
      p.addr + p.len <= q.addr || q.addr + q.len <= p.addr
  {
    LaidBounds(r, i);
    LaidBounds(r, j);
    if r.lower == [] {
      ChainOrdered(r.upper, r.head, r.tail, i, j);
    } else if j < |r.upper| {
      var end: nat :| end <= RX_BUFFERLEN && Chain(r.upper, r.head, end);
      ChainOrdered(r.upper, r.head, end, i, j);
    } else if |r.upper| <= i {
      ChainOrdered(r.lower, 0, r.tail, i - |r.upper|, j - |r.upper|);
    }
  }

  /** head is where the oldest live packet starts; head and tail meet exactly when there is none. */
  lemma HeadIsOldest(r: Ring)
    requires Laid(r)
    ensures Live(r) != [] ==> Live(r)[0].addr == r.head
    ensures Live(r) == [] <==> r.head == r.tail
    ensures r.lower != [] <==> r.head > r.tail
  {
    if r.lower == [] && r.upper != [] {
      ChainBounds(r.upper, r.head, r.tail, 0);
    }
  }

  // ---------- mmnif_rxbuff_alloc ----------

  function Alloc(r: Ring, len: nat): (Ring, Option<nat>) {
    if |Live(r)| >= MAX_DESCRIPTORS then (r, None)
    else if r.tail > r.head then
      if RX_BUFFERLEN - r.tail > len then
        (r.(tail := r.tail + len, upper := r.upper + [Packet(r.tail, len, Pending)]), Some(r.tail))
      else if r.head > len then
        (r.(tail := len, lower := r.lower + [Packet(0, len, Pending)]), Some(0))
      else (r, None)
    else if r.head - r.tail > len then
      (r.(tail := r.tail + len, lower := r.lower + [Packet(r.tail, len, Pending)]), Some(r.tail))
    else if r.tail == r.head then
      var restart := RX_BUFFERLEN - r.tail < len;
      var start := if restart then 0 else r.tail;
      var head := if restart && Live(r) == [] then 0 else r.head;
      (Ring(head, start + len, r.upper + [Packet(start, len, Pending)], r.lower), Some(start))
    else (r, None)
  }

  /** The new packet is behind all others, inside the heap, and touches none of them; an empty ring takes it. */
  lemma AllocKeeps(r: Ring, len: nat)
    requires Laid(r) && 0 < len <= RX_BUFFERLEN
    ensures var (r', a) := Alloc(r, len);
      && Laid(r')
      && (a.None? ==> r' == r && Live(r) != [])
      && (a.Some? ==> Live(r') == Live(r) + [Packet(a.value, len, Pending)])
  {
    HeadIsOldest(r);
    var (r', a) := Alloc(r, len);
    if a.Some? {
      var p := Packet(a.value, len, Pending);
      if r.lower != [] {
        ChainAppend(r.lower, 0, r.tail, p);
        assert Live(r') == Live(r) + [p];
      } else if r'.lower != [] {
        ChainAppend([], 0, 0, p);
        assert r.lower + [p] == [] + [p];
        assert Chain(r.upper, r.head, r.tail) && ChainUp(r.upper, r.head);
      } else if Live(r) == [] {
        ChainAppend([], p.addr, p.addr, p);
        assert r.upper + [p] == [] + [p];
      } else {
        ChainAppend(r.upper, r.head, r.tail, p);
      }
    }
  }

  /** A refusal means: no free descriptor, or no gap larger than len at the place the ring would use. */
  lemma AllocRefuses(r: Ring, len: nat)
    requires Laid(r) && 0 < len <= RX_BUFFERLEN
    ensures Alloc(r, len).1.None? <==>
      || |Live(r)| == MAX_DESCRIPTORS
      || (r.lower == [] && Live(r) != [] && RX_BUFFERLEN - r.tail <= len && r.head <= len)
      || (r.lower != [] && r.head - r.tail <= len)
  {
    HeadIsOldest(r);
    if r.lower == [] && Live(r) != [] {
      ChainBounds(r.upper, r.head, r.tail, 0);
    }
  }

  // ---------- mmnif_rxbuff_free, for one processed descriptor ----------

  function FreeOldest(r: Ring): Ring
    requires Live(r) != []
  {
    var live := Live(r);
    var p := live[0];
    var head :=
      if r.tail > r.head then r.head + p.len
      else if |live| > 1 && p.addr > live[1].addr then 0
      else r.head + p.len;
    if |r.upper| == 1 then Ring(head, r.tail, r.lower, [])
    else Ring(head, r.tail, r.upper[if r.upper == [] then 0 else 1..], r.lower)
  }

  lemma FreeKeeps(r: Ring)
    requires Laid(r) && Live(r) != []
    ensures Laid(FreeOldest(r)) && Live(FreeOldest(r)) == Live(r)[1..]
  {
    var r' := FreeOldest(r);
    HeadIsOldest(r);
    assert r.upper != [];
    assert Live(r') == Live(r)[1..];
    if r.lower == [] {
      ChainBounds(r.upper, r.head, r.tail, 0);
    } else {
      LaidBounds(r, 1);
      var end: nat :| end <= RX_BUFFERLEN && Chain(r.upper, r.head, end);
      if |r.upper| > 1 {
        ChainOrdered(r.upper, r.head, end, 0, 1);
        assert Chain(r.upper[1..], r'.head, end);
        ChainBounds(r.upper, r.head, end, 0);
      } else {
        ChainBounds(r.lower, 0, r.tail, 0);
      }
    }
  }

  // ---------- the protocol ----------

  function SetStat(r: Ring, i: nat, stat: Status): Ring
    requires i < |Live(r)|
  {
    if i < |r.upper| then r.(upper := r.upper[i := r.upper[i].(stat := stat)])
    else r.(lower := r.lower[i - |r.upper| := r.lower[i - |r.upper|].(stat := stat)])
  }

  lemma SetStatKeeps(r: Ring, i: nat, stat: Status)
    requires Laid(r) && i < |Live(r)|
    ensures Laid(SetStat(r, i, stat)) && Live(SetStat(r, i, stat)) == Live(r)[i := Live(r)[i].(stat := stat)]
  {
    var r' := SetStat(r, i, stat);
    if r.lower == [] {
      ChainSame(r.upper, r'.upper, r.head, r.tail);
    } else {
      var end: nat :| end <= RX_BUFFERLEN && Chain(r.upper, r.head, end);
      ChainSame(r.upper, r'.upper, r.head, end);
      ChainSame(r.lower, r'.lower, 0, r.tail);
    }
  }

  /**
   The shared memory of one receiver, with what the sender committed and what the receiver copied
   out, in order.
   */
  datatype Net = Net(ring: Ring, heap: seq<int>, sent: seq<seq<int>>, received: seq<seq<int>>)

  datatype Step =
    | Request(len: nat)
    | Store(k: nat, b: int)
    | Commit
    | Take
    | Copy
    | Release

  function Content(heap: seq<int>, p: Packet): seq<int> {
    if p.addr + p.len <= |heap| then heap[p.addr..p.addr + p.len] else []
  }

  function Contents(heap: seq<int>, ps: seq<Packet>): seq<seq<int>> {
    seq(|ps|, i requires 0 <= i < |ps| => Content(heap, ps[i]))
  }

  predicate HasPending(ps: seq<Packet>) {
    ps != [] && ps[|ps| - 1].stat == Pending
  }

  /** The sender is between allocating and committing. */
  predicate Sending(n: Net) {
    HasPending(Live(n.ring))
  }

  /** The receiver has not yet freed the packet it took. */
  predicate InHand(ps: seq<Packet>) {
    ps != [] && (ps[0].stat == InProc || ps[0].stat == Proc)
  }

  /**
   mmnif_tx drops illegal lengths, asks again when refused, stores the bytes in any order, and
   commits; mmnif_rx takes the first ready packet, copies it out, marks it processed and frees it.
   */
  predicate Enabled(n: Net, a: Step) {
    var live := Live(n.ring);
    match a
    case Request(len) => !Sending(n) && 20 <= len <= 1536
    case Store(k, b) => Sending(n) && k < live[|live| - 1].len && live[|live| - 1].addr + k < |n.heap|
    case Commit => Sending(n)
    case Take => live != [] && live[0].stat == Ready
    case Copy => live != [] && live[0].stat == InProc
    case Release => live != [] && live[0].stat == Proc
  }

  function Apply(n: Net, a: Step): Net
    requires Enabled(n, a)
  {
    var live := Live(n.ring);
    match a
    case Request(len) => n.(ring := Alloc(n.ring, len).0)
    case Store(k, b) => n.(heap := n.heap[live[|live| - 1].addr + k := b])
    case Commit =>
      n.(ring := SetStat(n.ring, |live| - 1, Ready), sent := n.sent + [Content(n.heap, live[|live| - 1])])
    case Take => n.(ring := SetStat(n.ring, 0, InProc))
    case Copy => n.(ring := SetStat(n.ring, 0, Proc), received := n.received + [Content(n.heap, live[0])])
    case Release => n.(ring := FreeOldest(n.ring))
  }

  /** Only the newest packet can be pending, and only the oldest one in the receiver's hands. */
  ghost predicate Ordered(ps: seq<Packet>) {
    forall i :: 0 <= i < |ps| ==> StatOk(ps, i)
  }

  predicate StatOk(ps: seq<Packet>, i: nat)
    requires i < |ps|
  {
    && ps[i].stat != Free && (ps[i].stat == Pending ==> i == |ps| - 1)
    && (ps[i].stat == InProc || ps[i].stat == Proc ==> i == 0)
  }

  /** The packets committed and not yet copied out. */
  function Waiting(ps: seq<Packet>): seq<Packet> {
    var from := if ps != [] && ps[0].stat == Proc then 1 else 0;
    var to := if HasPending(ps) then |ps| - 1 else |ps|;
    if from <= to then ps[from..to] else []
  }

  ghost predicate Inv(n: Net) {
    && Laid(n.ring) && |n.heap| == RX_BUFFERLEN && Ordered(Live(n.ring))
    && n.sent == n.received + Contents(n.heap, Waiting(Live(n.ring)))
  }

  ghost predicate Init(n: Net) {
    n.ring == Ring(0, 0, [], []) && |n.heap| == RX_BUFFERLEN && n.sent == [] && n.received == []
  }

  lemma ContentsAppend(heap: seq<int>, ps: seq<Packet>, qs: seq<Packet>)
    ensures Contents(heap, ps + qs) == Contents(heap, ps) + Contents(heap, qs)
  {}

  lemma NewlyPending(live: seq<Packet>, p: Packet)
    requires Ordered(live) && !HasPending(live) && p.stat == Pending
    ensures Ordered(live + [p]) && Waiting(live + [p]) == Waiting(live)
  {
    forall i | 0 <= i <= |live| ensures StatOk(live + [p], i) {
      assert i < |live| ==> StatOk(live, i);
    }
  }

  lemma RequestKeeps(n: Net, len: nat)
    requires Inv(n) && Enabled(n, Request(len))
    ensures Inv(Apply(n, Request(len)))
  {
    AllocKeeps(n.ring, len);
    var a := Alloc(n.ring, len).1;
    if a.Some? {
      NewlyPending(Live(n.ring), Packet(a.value, len, Pending));
    }
  }

  /** A byte stored into the pending packet is in no other packet. */
  lemma StoreKeeps(n: Net, k: nat, b: int)
    requires Inv(n) && Enabled(n, Store(k, b))
    ensures Inv(Apply(n, Store(k, b)))
  {
    var live, n' := Live(n.ring), Apply(n, Store(k, b));
    var w, last := Waiting(live), |live| - 1;
    forall i | 0 <= i < |w| ensures Content(n'.heap, w[i]) == Content(n.heap, w[i]) {
      var j: nat := if live[0].stat == Proc then i + 1 else i;
      assert w[i] == live[j];
      LaidDisjoint(n.ring, j, last);
      LaidBounds(n.ring, j);
    }
    assert Contents(n'.heap, w) == Contents(n.heap, w);
  }

  lemma NewlyReady(live: seq<Packet>)
    requires Ordered(live) && HasPending(live)
    ensures
      var last := live[|live| - 1].(stat := Ready);
      var live' := live[|live| - 1 := last];
      Ordered(live') && Waiting(live') == Waiting(live) + [last]
  {
    var live' := live[|live| - 1 := live[|live| - 1].(stat := Ready)];
    forall i | 0 <= i < |live'| ensures StatOk(live', i) {
      assert StatOk(live, i);
    }
    assert StatOk(live, 0);
  }

  lemma CommitKeeps(n: Net)
    requires Inv(n) && Enabled(n, Commit)
    ensures Inv(Apply(n, Commit))
  {
    var live, last := Live(n.ring), |Live(n.ring)| - 1;
    SetStatKeeps(n.ring, last, Ready);
    NewlyReady(live);
    var w, p, c := Waiting(live), live[last].(stat := Ready), Content(n.heap, live[last]);
    assert n.sent + [c] == n.received + Contents(n.heap, w + [p]) by {
      ContentsAppend(n.heap, w, [p]);
      assert Contents(n.heap, [p]) == [c];
    }
  }

  lemma NewlyInProc(live: seq<Packet>)
    requires Ordered(live) && live != [] && live[0].stat == Ready
    ensures
      var live' := live[0 := live[0].(stat := InProc)];
      && Ordered(live') && |Waiting(live')| == |Waiting(live)|
      && forall i :: 0 <= i < |Waiting(live)| ==>
        Waiting(live')[i].addr == Waiting(live)[i].addr && Waiting(live')[i].len == Waiting(live)[i].len
  {
    var live' := live[0 := live[0].(stat := InProc)];
    forall i | 0 <= i < |live'| ensures StatOk(live', i) {
      assert StatOk(live, i);
    }
  }

  lemma TakeKeeps(n: Net)
    requires Inv(n) && Enabled(n, Take)
    ensures Inv(Apply(n, Take))
  {
    var live := Live(n.ring);
    var live' := live[0 := live[0].(stat := InProc)];
    SetStatKeeps(n.ring, 0, InProc);
    NewlyInProc(live);
    ContentsSame(n.heap, Waiting(live), Waiting(live'));
  }

  lemma ContentsSame(heap: seq<int>, ps: seq<Packet>, qs: seq<Packet>)
    requires |ps| == |qs| && forall i :: 0 <= i < |ps| ==> ps[i].addr == qs[i].addr && ps[i].len == qs[i].len
    ensures Contents(heap, ps) == Contents(heap, qs)
  {
    forall i | 0 <= i < |ps| ensures Contents(heap, ps)[i] == Contents(heap, qs)[i] {}
  }

  lemma NewlyProc(live: seq<Packet>)
    requires Ordered(live) && live != [] && live[0].stat == InProc
    ensures
      var live' := live[0 := live[0].(stat := Proc)];
      Ordered(live') && Waiting(live) == [live[0]] + Waiting(live')
  {
    var live' := live[0 := live[0].(stat := Proc)];
    forall i | 0 <= i < |live'| ensures StatOk(live', i) {
      assert StatOk(live, i);
    }
  }

  lemma CopyKeeps(n: Net)
    requires Inv(n) && Enabled(n, Copy)
    ensures Inv(Apply(n, Copy))
  {
    var live := Live(n.ring);
    var live' := live[0 := live[0].(stat := Proc)];
    SetStatKeeps(n.ring, 0, Proc);
    NewlyProc(live);
    var c, w := Content(n.heap, live[0]), Waiting(live');
    assert n.sent == (n.received + [c]) + Contents(n.heap, w) by {
      ContentsAppend(n.heap, [live[0]], w);
      assert Contents(n.heap, [live[0]]) == [c];
    }
  }

  lemma Released(live: seq<Packet>)
    requires Ordered(live) && live != [] && live[0].stat == Proc
    ensures Ordered(live[1..]) && Waiting(live[1..]) == Waiting(live)
    ensures live[1..] != [] ==> live[1].stat != Proc
  {
    var live' := live[1..];
    forall i | 0 <= i < |live'| ensures StatOk(live', i) {
      assert StatOk(live, i + 1);
    }
    assert live' != [] ==> StatOk(live, 1) && live'[0] == live[1] && live'[|live'| - 1] == live[|live| - 1];
  }

  lemma ReleaseKeeps(n: Net)
    requires Inv(n) && Enabled(n, Release)
    ensures Inv(Apply(n, Release))
  {
    FreeKeeps(n.ring);
    Released(Live(n.ring));
  }

  lemma StepKeeps(n: Net, a: Step)
    requires Inv(n) && Enabled(n, a)
    ensures Inv(Apply(n, a))
  {
    match a
    case Request(len) => RequestKeeps(n, len);
    case Store(k, b) => StoreKeeps(n, k, b);
    case Commit => CommitKeeps(n);
    case Take => TakeKeeps(n);
    case Copy => CopyKeeps(n);
    case Release => ReleaseKeeps(n);
  }

  // ---------- runs ----------

  ghost predicate Next(n: Net, a: Step, n': Net) {
    Enabled(n, a) && n' == Apply(n, a)
  }

  ghost predicate IsRun(run: seq<Net>, steps: seq<Step>) {
    && |run| == |steps| + 1 && Init(run[0])
    && forall i :: 0 <= i < |steps| ==> Next(run[i], steps[i], run[i + 1])
  }

  lemma {:induction false} RunKeeps(run: seq<Net>, steps: seq<Step>, i: nat)
    requires IsRun(run, steps) && i < |run|
    ensures Inv(run[i])
  {
    if i > 0 {
      RunKeeps(run, steps, i - 1);
      assert Next(run[i - 1], steps[i - 1], run[i]);
      StepKeeps(run[i - 1], steps[i - 1]);
    }
  }

  /**
   In every state of every run live packets occupy disjoint byte ranges inside the heap, head is the
   start of the oldest one, and what was received is a prefix of what was sent, unchanged.
   */
  lemma RingSafe(run: seq<Net>, steps: seq<Step>, k: nat)
    requires IsRun(run, steps) && k < |run|
    ensures
      var r, live := run[k].ring, Live(run[k].ring);
      && (forall i, j :: 0 <= i < j < |live| ==>
            live[i].addr + live[i].len <= live[j].addr || live[j].addr + live[j].len <= live[i].addr)
      && (forall i :: 0 <= i < |live| ==> 0 < live[i].len && live[i].addr + live[i].len <= RX_BUFFERLEN)
      && (if live == [] then r.head == r.tail else r.head == live[0].addr && r.head != r.tail)
      && |live| <= MAX_DESCRIPTORS
      && run[k].received <= run[k].sent
  {
    RunKeeps(run, steps, k);
    var r, live := run[k].ring, Live(run[k].ring);
    HeadIsOldest(r);
    forall i, j | 0 <= i < j < |live|
      ensures live[i].addr + live[i].len <= live[j].addr || live[j].addr + live[j].len <= live[i].addr
    {
      LaidDisjoint(r, i, j);
    }
    forall i | 0 <= i < |live| ensures 0 < live[i].len && live[i].addr + live[i].len <= RX_BUFFERLEN {
      LaidBounds(r, i);
    }
  }

  /** When the ring is empty everything sent has arrived, and the next request is granted. */
  lemma DrainedDelivers(run: seq<Net>, steps: seq<Step>, k: nat, len: nat)
    requires IsRun(run, steps) && k < |run| && Live(run[k].ring) == [] && 20 <= len <= 1536
    ensures run[k].received == run[k].sent && Alloc(run[k].ring, len).1.Some?
  {
    RunKeeps(run, steps, k);
    AllocKeeps(run[k].ring, len);
    assert Contents(run[k].heap, []) == [];
  }
}
