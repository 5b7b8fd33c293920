/** Runs of vma_alloc, vma_free and vma_add on the linked list. */
module VmaRuns {
  import opened Options
  import opened Vma
  import opened VmaList

  /** A free that splits an area with a successor, on the list as it is before the call. */
  predicate Splits(l: seq<Area>, a: Call) {
    a.FreeCall? && SplitsInside(l, a.start, a.end, a.node)
  }

  /** No call has split an area that had a successor. */
  ghost predicate NoSplits(run: seq<seq<Area>>, calls: seq<Call>) {
    |run| == |calls| + 1 && forall i :: 0 <= i < |calls| ==> !Splits(run[i], calls[i])
  }

  lemma Extend(run: seq<seq<Area>>, calls: seq<Call>, a: Call, l: seq<Area>, flags: nat)
    requires |run| == |calls| + 1
    ensures IsRun(run, calls, flags) && l == Do(run[|calls|], a) ==> IsRun(run + [l], calls + [a], flags)
    ensures NoSplits(run + [l], calls + [a]) <==> NoSplits(run, calls) && !Splits(run[|calls|], a)
  {
    var run', calls' := run + [l], calls + [a];
    if NoSplits(run', calls') {
      assert !Splits(run'[|calls|], calls'[|calls|]);
      forall i | 0 <= i < |calls| ensures !Splits(run[i], calls[i]) {
        assert !Splits(run'[i], calls'[i]);
      }
    }
  }

  /** The list with the history of its calls: run[i] is the list that calls[i] found. */
  class Recorded {
    const space: Space
    const flags: nat
    ghost var run: seq<seq<Area>>
    ghost var calls: seq<Call>
    /** Every vma_free so far met a prev link that serves. */
    ghost var served: bool

    /**
     As long as every vma_free has met a prev link that serves, the lists are those of a run on values;
     and without a split of an area that had a successor this is so, and the prev links are consistent.
     */
    ghost predicate Kept()
      reads this, space
    {
      && |run| == |calls| + 1 && space.list == run[|calls|]
      && (served ==> space.Linked() && IsRun(run, calls, flags))
      && (NoSplits(run, calls) ==> served && Back(space.arena, space.ids))
    }

    constructor (flags: nat)
      ensures Kept() && served && space.Linked() && fresh(space)
      ensures calls == [] && run == [[Area(VMA_MIN, VMA_MIN, flags)]]
    {
      this.flags := flags;
      space := new Space(flags);
      run, calls, served := [[Area(VMA_MIN, VMA_MIN, flags)]], [], true;
    }

    method Allocate(size: nat, flags: nat, node: bool) returns (start: nat)
      requires Kept() && space.Linked()
      modifies this, space
      ensures Kept() && space.Linked() && served == old(served)
      ensures calls == old(calls) + [AllocCall(size, flags, node)] && run == old(run) + [space.list]
      ensures (space.list, start) == Alloc(old(space.list), size, flags, node)
    {
      ghost var l := space.list;
      start := space.AllocRange(size, flags, node);
      Extend(run, calls, AllocCall(size, flags, node), space.list, this.flags);
      run, calls := run + [space.list], calls + [AllocCall(size, flags, node)];
    }

    method Insert(v: Area, node: bool) returns (e: Option<Error>)
      requires Kept() && space.Linked()
      modifies this, space
      ensures Kept() && space.Linked() && served == old(served)
      ensures calls == old(calls) + [AddCall(v, node)] && run == old(run) + [space.list]
      ensures (space.list, e) == Add(old(space.list), v, node)
    {
      e := space.AddRange(v, node);
      Extend(run, calls, AddCall(v, node), space.list, flags);
      run, calls := run + [space.list], calls + [AddCall(v, node)];
    }

    /** Links that make up no list afterwards end the run. */
    method Release(start: nat, end: nat, node: bool) returns (e: Option<Error>)
      requires Kept() && space.Linked()
      modifies this, space
      ensures Kept() && served == (old(served) && old(space.Serves(start, end)))
      ensures calls == old(calls) + [FreeCall(start, end, node)] && run == old(run) + [space.list]
      ensures e == Free(old(space.list), start, end, node).1
      ensures old(space.Serves(start, end)) ==>
        space.Linked() && space.list == Free(old(space.list), start, end, node).0
      ensures Ordered(old(space.list)) && !old(space.Serves(start, end)) ==>
        NoChain(space.arena, space.head, Free(old(space.list), start, end, node).0)
      ensures
        var i := FirstContaining(old(space.list), 0, start, end);
        && (forall j: nat :: old(space.Whole(start, end)) && Skipped(old(space.arena), old(space.ids), i, j) ==>
              space.Linked() && space.list == old(space.list)[..j + 1] + old(space.list)[i + 1..])
        && (old(Back(space.arena, space.ids)) && SplitsInside(old(space.list), start, end, node) ==>
              Skipped(space.arena, space.ids, i + 2, i))
    {
      ghost var serves := space.Serves(start, end);
      e := space.FreeRange(start, end, node);
      Extend(run, calls, FreeCall(start, end, node), space.list, flags);
      run, calls, served := run + [space.list], calls + [FreeCall(start, end, node)], served && serves;
    }

    /**
     In every run within the bounds in which no vma_free split an area that had a successor, or at least
     every one met a prev link that serves, the list covers exactly the addresses held, and vma_alloc
     granted the lowest gap that fits, of at least the size asked for, to be held by nobody else.
     */
    lemma Safe(k: nat, x: nat)
      requires Kept() && (NoSplits(run, calls) || served) && AllWithin(calls)
      ensures Ordered(space.list) && (In(space.list, x) <==> Held(run, calls, |calls|, x))
      ensures k < |calls| && calls[k].AllocCall? ==>
        var a, l := calls[k], run[k];
        var n, start := PageCeil(a.size), Alloc(l, a.size, a.flags, a.node).1;
        var f := LowestFit(l, 0, n);
        && (start == 0 ==> run[k + 1] == l && (f > |l| || !a.node))
        && (start != 0 ==>
              && f <= |l| && start == GapStart(l, f) && VMA_MIN <= start && a.size <= n && start + n < VMA_MAX
              && (start <= x < start + n ==> !Held(run, calls, k, x)))
    {
      UsedIsHeld(run, calls, flags, |calls|, x);
      RunKeeps(run, calls, flags, |calls|);
      if k < |calls| && calls[k].AllocCall? {
        AllocSafe(run, calls, flags, k);
      }
    }
  }

  function Dropped(): seq<Area> {
    Boot() + [Area(0x100000, 0x140000, 1)]
  }

  function Regrown(): seq<Area> {
    Boot() + [Area(0x100000, 0x1A0000, 1)]
  }

  lemma DroppedGrows()
    ensures Alloc(Dropped(), 0x60000, 1, true) == (Regrown(), 0x140000)
  {
    var l := Dropped();
    assert PageCeil(0x60000) == 0x60000;
    assert !AllocTest(l, 0, 0x60000) && AllocTest(l, 2, 0x60000);
    assert Sum(VMA_MIN, 0x60000) == VMA_MIN + 0x60000 && !AllocTest(l, 1, 0x60000);
    assert FirstGap(l, 0, 0x60000) == FirstGap(l, 1, 0x60000) == 2;
    assert Alloc(l, 0x60000, 1, true).0 == Regrown();
  }

  function FiveCalls(): seq<Call> {
    [AddCall(Area(0x100000, 0x200000, 1), true), AddCall(Area(0x300000, 0x400000, 2), true),
     FreeCall(0x140000, 0x180000, true), FreeCall(0x300000, 0x400000, true), AllocCall(0x60000, 1, true)]
  }

  /** The first three calls: the second half of the first area is still held, and the next prev link is stale. */
  method ThreeCalls() returns (r: Recorded)
    ensures fresh(r) && fresh(r.space) && r.Kept() && r.space.Linked() && Skipped(r.space.arena, r.space.ids, 3, 1)
    ensures r.calls == FiveCalls()[..3] && |r.run| == 4 && r.run[0] == Boot() && r.run[3] == Halved() == r.space.list
  {
    TwoAdded();
    TwoHalved();
    r := new Recorded(0);
    var e := r.Insert(Area(0x100000, 0x200000, 1), true);
    e := r.Insert(Area(0x300000, 0x400000, 2), true);
    assert NoSplits(r.run, r.calls);
    e := r.Release(0x140000, 0x180000, true);
  }

  method FourCalls() returns (r: Recorded)
    ensures fresh(r) && fresh(r.space) && r.Kept() && r.space.Linked() && r.calls == FiveCalls()[..4]
    ensures |r.run| == 5 && r.run[0] == Boot() && r.run[4] == Dropped() == r.space.list
  {
    LastContaining();
    r := ThreeCalls();
    var e := r.Release(0x300000, 0x400000, true);
    assert Halved()[..2] + Halved()[4..] == Dropped();
    assert FiveCalls()[..4] == FiveCalls()[..3] + [FreeCall(0x300000, 0x400000, true)];
  }

  lemma StillHeld(run: seq<seq<Area>>)
    requires |run| >= 5 && run[0] == Boot()
    ensures Held(run, FiveCalls(), 4, 0x180000)
  {
    var calls, x := FiveCalls(), 0x180000;
    TwoAdded();
    assert Takes(run[0], calls[0], x) && Held(run, calls, 1, x);
    assert !Gives(run[1], calls[1], x) && Held(run, calls, 2, x);
    assert !Gives(run[2], calls[2], x) && Held(run, calls, 3, x);
    assert !Gives(run[3], calls[3], x);
  }

  /**
   With a split the list can lose addresses that are held: five calls within the bounds, the last of
   which grants memory that was added and never freed.
   */
  method GrantsHeld() returns (r: Recorded, start: nat)
    ensures fresh(r) && r.Kept() && r.calls == FiveCalls() && AllWithin(r.calls) && |r.run| == 6
    ensures start == 0x140000 == Alloc(r.run[4], 0x60000, 1, true).1
    ensures Takes(r.run[4], r.calls[4], 0x180000) && Held(r.run, r.calls, 4, 0x180000)
  {
    r := FourCalls();
    DroppedGrows();
    start := r.Allocate(0x60000, 1, true);
    StillHeld(r.run);
  }
}
