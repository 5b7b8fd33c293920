/** mm_rx_buffer_t of drivers/net/mmnif.c with the functions that change it, against the ring on values. */
module PacketBuffer {
  import opened Circular
  import opened Options
  import opened PacketRing

  /** The slots from dread on hold the live packets, oldest first; all others are free. */
  ghost predicate Queue(table: seq<Packet>, dread: nat, live: seq<Packet>) {
    && |table| == MAX_DESCRIPTORS && dread < MAX_DESCRIPTORS && |live| <= MAX_DESCRIPTORS
    && forall i: nat :: i < MAX_DESCRIPTORS ==> SlotOk(table, dread, live, i)
  }

  ghost predicate SlotOk(table: seq<Packet>, dread: nat, live: seq<Packet>, i: nat)
    requires |table| == MAX_DESCRIPTORS && dread < MAX_DESCRIPTORS
  {
    var d := table[Advance(dread, i, MAX_DESCRIPTORS)];
    if i < |live| then d == live[i] else d.stat == Free
  }

  /** (p + i) % MMNIF_MAX_DESCRIPTORS. */
  lemma ModIsAdvance(p: nat, i: nat)
    requires p < MAX_DESCRIPTORS && i <= MAX_DESCRIPTORS
    ensures (p + i) % MAX_DESCRIPTORS == Advance(p, i, MAX_DESCRIPTORS)
  {
    AdvanceExact(p, i, MAX_DESCRIPTORS);
  }

  lemma QueueSet(table: seq<Packet>, dread: nat, live: seq<Packet>, live': seq<Packet>, k: nat, p: Packet)
    requires Queue(table, dread, live) && k < MAX_DESCRIPTORS
    requires (k < |live| && live' == live[k := p]) || (k == |live| && live' == live + [p])
    ensures Queue(table[Advance(dread, k, MAX_DESCRIPTORS) := p], dread, live')
  {
    var table' := table[Advance(dread, k, MAX_DESCRIPTORS) := p];
    forall i: nat | i < MAX_DESCRIPTORS ensures SlotOk(table', dread, live', i) {
      assert SlotOk(table, dread, live, i);
      if i != k && Advance(dread, i, MAX_DESCRIPTORS) == Advance(dread, k, MAX_DESCRIPTORS) {
        AdvanceInjective(dread, i, k, MAX_DESCRIPTORS);
      }
    }
  }

  lemma QueuePop(table: seq<Packet>, dread: nat, live: seq<Packet>)
    requires Queue(table, dread, live) && live != []
    ensures Queue(table[dread := table[dread].(stat := Free)], Advance(dread, 1, MAX_DESCRIPTORS), live[1..])
  {
    var table', d := table[dread := table[dread].(stat := Free)], Advance(dread, 1, MAX_DESCRIPTORS);
    forall i: nat | i < MAX_DESCRIPTORS ensures SlotOk(table', d, live[1..], i) {
      AdvanceAdd(dread, 1, i, MAX_DESCRIPTORS);
      if i == MAX_DESCRIPTORS - 1 {
        AdvanceExact(dread, MAX_DESCRIPTORS, MAX_DESCRIPTORS);
      } else {
        assert SlotOk(table, dread, live, i + 1);
        AdvanceExact(dread, i + 1, MAX_DESCRIPTORS);
      }
    }
  }

  class RxBuffer {
    var head: nat
    var tail: nat
    const table: array<Packet>
    var dcount: nat
    var dread: nat
    var dwrite: nat
    ghost var ring: Ring

    /** The descriptor half of the invariant; free and live descriptors together are all there are. */
    ghost predicate Descriptors()
      reads this, table
    {
      && table.Length == MAX_DESCRIPTORS && Queue(table[..], dread, Live(ring))
      && dcount + |Live(ring)| == MAX_DESCRIPTORS
      && dwrite == Advance(dread, |Live(ring)|, MAX_DESCRIPTORS)
    }

    ghost predicate Valid()
      reads this, table
    {
      Descriptors() && head == ring.head && tail == ring.tail && Laid(ring) && Ordered(Live(ring))
    }

    constructor ()
      ensures Valid() && ring == Ring(0, 0, [], []) && fresh(table)
    {
      head, tail, dcount, dread, dwrite := 0, 0, MAX_DESCRIPTORS, 0, 0;
      table := new Packet[MAX_DESCRIPTORS](i => Packet(0, 0, Free));
      ring := Ring(0, 0, [], []);
    }

    /** The assignments every successful branch of mmnif_rxbuff_alloc makes to the descriptor queue. */
    method PutDescriptor(addr: nat, len: nat, ghost r: Ring)
      requires Descriptors() && dcount > 0 && Live(r) == Live(ring) + [Packet(addr, len, Pending)]
      modifies this`dcount, this`dwrite, this`ring, table
      ensures Descriptors() && ring == r
    {
      QueueSet(table[..], dread, Live(ring), Live(r), |Live(ring)|, Packet(addr, len, Pending));
      AdvanceAdd(dread, |Live(ring)|, 1, MAX_DESCRIPTORS);
      ghost var t := table[..][dwrite := Packet(addr, len, Pending)];
      table[dwrite] := Packet(addr, len, Pending);
      assert table[..] == t;
      dcount := dcount - 1;
      dwrite := Increment(dwrite, MAX_DESCRIPTORS);
      ring := r;
    }

    /** mmnif_rxbuff_alloc; addresses count from the start of the heap. */
    method Request(len: nat) returns (addr: Option<nat>)
      requires Valid() && 0 < len <= RX_BUFFERLEN && !HasPending(Live(ring))
      modifies this, table
      ensures Valid() && (ring, addr) == Alloc(old(ring), len)
    {
      ghost var (r, a) := Alloc(ring, len);
      AllocKeeps(ring, len);
      HeadIsOldest(ring);
      if a.Some? {
        NewlyPending(Live(ring), Packet(a.value, len, Pending));
      }
      addr := None;
      if dcount != 0 {
        if tail > head {
          if RX_BUFFERLEN - tail > len {
            addr := Some(tail);
            PutDescriptor(tail, len, r);
            tail := tail + len;
          } else if head > len {
            addr := Some(0);
            PutDescriptor(0, len, r);
            tail := len;
          }
        } else if head - tail > len {
          addr := Some(tail);
          PutDescriptor(tail, len, r);
          tail := tail + len;
        } else if tail == head {
          if RX_BUFFERLEN - tail < len {
            tail := 0;
            if dread == dwrite {
              head := 0;
            }
          }
          addr := Some(tail);
          PutDescriptor(tail, len, r);
          tail := tail + len;
        }
      }
    }

    /** Change the status of the packet at place k of the queue, in slot j. */
    method SetStatus(j: nat, stat: Status, ghost k: nat)
      requires Descriptors() && Laid(ring) && k < |Live(ring)| && j == Advance(dread, k, MAX_DESCRIPTORS)
      modifies this`ring, table
      ensures Descriptors() && ring == SetStat(old(ring), k, stat) && Laid(ring)
      ensures Live(ring) == old(Live(ring))[k := old(Live(ring))[k].(stat := stat)]
    {
      ghost var live := Live(ring);
      SetStatKeeps(ring, k, stat);
      assert SlotOk(table[..], dread, live, k);
      QueueSet(table[..], dread, live, live[k := live[k].(stat := stat)], k, live[k].(stat := stat));
      ghost var t := table[..][j := live[k].(stat := stat)];
      table[j] := table[j].(stat := stat);
      assert table[..] == t;
      ring := SetStat(ring, k, stat);
    }

    /** mmnif_commit_packet. */
    method CommitPacket(addr: nat) returns (ok: bool)
      requires Valid()
      modifies this`ring, table
      ensures Valid()
      ensures ok <==> old(HasPending(Live(ring)) && Live(ring)[|Live(ring)| - 1].addr == addr)
      ensures ring == if ok then SetStat(old(ring), |Live(old(ring))| - 1, Ready) else old(ring)
    {
      ghost var live := Live(ring);
      var i := 0;
      while i < MAX_DESCRIPTORS
        invariant 0 <= i <= MAX_DESCRIPTORS
        invariant forall j :: 0 <= j < i ==> !(table[j].addr == addr && table[j].stat == Pending)
        invariant unchanged(this) && unchanged(table)
      {
        if table[i].addr == addr && table[i].stat == Pending {
          ghost var k := AdvanceReaches(dread, i, MAX_DESCRIPTORS);
          assert SlotOk(table[..], dread, live, k) && StatOk(live, k);
          NewlyReady(live);
          SetStatus(i, Ready, k);
          return true;
        }
        i := i + 1;
      }
      if HasPending(live) {
        assert SlotOk(table[..], dread, live, |live| - 1);
      }
      ok := false;
    }

    /** The search of mmnif_rx; the receiver has no packet in hand. */
    method TakeReady() returns (slot: Option<nat>)
      requires Valid() && !InHand(Live(ring))
      modifies this`ring, table
      ensures Valid()
      ensures slot.Some? <==> old(Live(ring) != [] && Live(ring)[0].stat == Ready)
      ensures slot.Some? ==> slot.value == dread
      ensures ring == if slot.Some? then SetStat(old(ring), 0, InProc) else old(ring)
    {
      ghost var live := Live(ring);
      var j := dread;
      assert SlotOk(table[..], dread, live, 0) && SlotOk(table[..], dread, live, 1);
      assert live != [] ==> StatOk(live, 0);
      if table[dread].stat == Free {
        return None;
      }
      var i := 0;
      while i < MAX_DESCRIPTORS
        invariant 0 <= i <= 1 && (i == 1 ==> live[0].stat == Pending)
        invariant unchanged(this) && unchanged(table)
      {
        ModIsAdvance(j, i);
        if table[(j + i) % MAX_DESCRIPTORS].stat == Ready {
          NewlyInProc(live);
          SetStatus((j + i) % MAX_DESCRIPTORS, InProc, 0);
          return Some((j + i) % MAX_DESCRIPTORS);
        }
        if table[(j + i) % MAX_DESCRIPTORS].stat == Free {
          return None;
        }
        i := i + 1;
      }
      slot := None;
    }

    /** The packet has been copied out; nothing else writes this status, so no lock is taken. */
    method MarkProcessed(slot: nat)
      requires Valid() && Live(ring) != [] && Live(ring)[0].stat == InProc && slot == dread
      modifies this`ring, table
      ensures Valid() && ring == SetStat(old(ring), 0, Proc)
    {
      NewlyProc(Live(ring));
      SetStatus(slot, Proc, 0);
    }

    /** The body of the loop in mmnif_rxbuff_free, for a processed packet in slot dread. */
    method FreeSlot(j: nat)
      requires Valid() && Live(ring) != [] && Live(ring)[0].stat == Proc && j == dread
      modifies this, table
      ensures Valid() && ring == FreeOldest(old(ring)) && dread == Advance(j, 1, MAX_DESCRIPTORS)
    {
      ghost var live := Live(ring);
      FreeKeeps(ring);
      Released(live);
      assert SlotOk(table[..], dread, live, 0) && SlotOk(table[..], dread, live, 1);
      assert |live| > 1 ==> StatOk(live, 1);
      QueuePop(table[..], dread, live);
      AdvanceAdd(dread, 1, |live| - 1, MAX_DESCRIPTORS);
      ModIsAdvance(j, 1);
      var next := table[(j + 1) % MAX_DESCRIPTORS];
      dcount := dcount + 1;
      dread := Increment(dread, MAX_DESCRIPTORS);
      ghost var t := table[..][j := table[j].(stat := Free)];
      table[j] := table[j].(stat := Free);
      assert table[..] == t;
      if tail > head {
        head := head + table[j].len;
      } else if next.stat != Free && table[j].addr > next.addr {
        head := 0;
      } else {
        head := head + table[j].len;
      }
      ring := FreeOldest(ring);
    }

    /** mmnif_rxbuff_free: frees the oldest packet if it has been processed, and nothing else. */
    method FreeProcessed()
      requires Valid()
      modifies this, table
      ensures Valid()
      ensures ring == if old(Live(ring) != [] && Live(ring)[0].stat == Proc) then FreeOldest(old(ring)) else old(ring)
    {
      var rpos := dread;
      var i, j := 0, rpos;
      ghost var live := Live(ring);
      assert SlotOk(table[..], dread, live, 0);
      while i < MAX_DESCRIPTORS
        invariant Valid() && 0 <= i <= 1 && j == rpos < MAX_DESCRIPTORS && dread == Advance(rpos, i, MAX_DESCRIPTORS)
        invariant i == 0 ==> ring == old(ring)
        invariant i == 1 ==> live != [] && live[0].stat == Proc && ring == FreeOldest(old(ring))
      {
        ModIsAdvance(j, i);
        j := (j + i) % MAX_DESCRIPTORS;
        assert SlotOk(table[..], dread, Live(ring), 0);
        if i == 1 {
          FreeKeeps(old(ring));
          Released(live);
        }
        if table[j].stat != Proc {
          break;
        }
        FreeSlot(j);
        i := i + 1;
      }
    }
  }
}
