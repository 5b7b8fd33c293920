/**
 The allocator of usr/ircce/RCCE_malloc.c on its circular linked list. The RCCE_BLOCK structs live in
 an arena and are named by their place there; a struct given back to free() just becomes unreachable.
 */
module MpbHeap {
  import opened Distinct
  import opened MpbAlloc
  import opened Options
  import opened Rcce

  datatype Node = Node(space: nat, free: nat, next: nat)

  /** The element of the circle behind place i. */
  ghost function Follow(ids: seq<nat>, i: nat): nat
    requires i < |ids|
  {
    if i + 1 == |ids| then ids[0] else ids[i + 1]
  }

  /** ids, in this order, are the nodes of the circle that ends in tail, and blocks is what they hold. */
  ghost predicate Circle(arena: seq<Node>, tail: nat, ids: seq<nat>, blocks: seq<Block>) {
    && 0 < |ids| == |blocks| && NoDup(ids) && tail == ids[|ids| - 1]
    && (forall i :: 0 <= i < |ids| ==> ids[i] < |arena|)
    && (forall i: nat :: i < |ids| ==> NodeOk(arena, ids, blocks, i))
  }

  ghost predicate NodeOk(arena: seq<Node>, ids: seq<nat>, blocks: seq<Block>, i: nat)
    requires i < |ids| == |blocks| && ids[i] < |arena|
  {
    arena[ids[i]] == Node(blocks[i].space, blocks[i].free, Follow(ids, i))
  }

  // ---------- list surgery ----------

  /** A node behind place i: the circle after an insertion there. */
  lemma CircleSplit(arena: seq<Node>, arena': seq<Node>, tail: nat, ids: seq<nat>, blocks: seq<Block>, i: nat, sz: nat)
    requires Circle(arena, tail, ids, blocks) && i < |ids| && blocks[i].free >= sz
    requires |arena'| == |arena| + 1
    requires arena'[ids[i]] == Node(blocks[i].space, 0, |arena|)
    requires arena'[|arena|] == Node(blocks[i].space + sz, blocks[i].free - sz, Follow(ids, i))
    requires forall u :: 0 <= u < |arena| && u != ids[i] ==> arena'[u] == arena[u]
    ensures Circle(arena', if ids[i] == tail then |arena| else tail,
                   InsertAt(ids, i + 1, |arena|), Carve(blocks, i, sz))
  {
    var b, ids', blocks' := |arena|, InsertAt(ids, i + 1, |arena|), Carve(blocks, i, sz);
    InsertDistinct(ids, i + 1, b);
    forall k: nat | k < |ids'| ensures NodeOk(arena', ids', blocks', k) {
      CarveAt(blocks, i, sz, k);
      if k < i {
        assert NodeOk(arena, ids, blocks, k);
      } else if k > i + 1 {
        assert NodeOk(arena, ids, blocks, k - 1);
      }
    }
  }

  /** The node at place i leaves the circle for its predecessor, whose block takes over its space. */
  lemma CircleJoin(arena: seq<Node>, arena': seq<Node>, tail: nat, ids: seq<nat>, blocks: seq<Block>, i: nat)
    requires Circle(arena, tail, ids, blocks) && i + 1 < |ids|
    requires |arena'| == |arena|
    requires arena'[ids[i]] == Node(blocks[i].space, blocks[i].free + blocks[i + 1].free, Follow(ids, i + 1))
    requires forall u :: 0 <= u < |arena| && u != ids[i] ==> arena'[u] == arena[u]
    ensures Circle(arena', if ids[i + 1] == tail then ids[i] else tail, RemoveAt(ids, i + 1), Join(blocks, i))
  {
    var ids', blocks' := RemoveAt(ids, i + 1), Join(blocks, i);
    RemoveDistinct(ids, i + 1);
    JoinAt(blocks, i, 0);
    forall k: nat | k < |ids'| ensures NodeOk(arena', ids', blocks', k) {
      JoinedNode(arena, arena', tail, ids, blocks, i, k);
    }
  }

  lemma JoinedNode(arena: seq<Node>, arena': seq<Node>, tail: nat, ids: seq<nat>, blocks: seq<Block>, i: nat, k: nat)
    requires Circle(arena, tail, ids, blocks) && i + 1 < |ids| && k + 1 < |ids| && |arena'| == |arena|
    requires arena'[ids[i]] == Node(blocks[i].space, blocks[i].free + blocks[i + 1].free, Follow(ids, i + 1))
    requires forall u :: 0 <= u < |arena| && u != ids[i] ==> arena'[u] == arena[u]
    ensures |Join(blocks, i)| == |RemoveAt(ids, i + 1)| && NodeOk(arena', RemoveAt(ids, i + 1), Join(blocks, i), k)
  {
    JoinAt(blocks, i, k);
    if k < i {
      assert NodeOk(arena, ids, blocks, k);
    } else if k > i {
      assert NodeOk(arena, ids, blocks, k + 1);
    }
  }

  lemma CircleSet(arena: seq<Node>, arena': seq<Node>, tail: nat, ids: seq<nat>, blocks: seq<Block>, i: nat, free: nat)
    requires Circle(arena, tail, ids, blocks) && i < |ids|
    requires arena' == arena[ids[i] := arena[ids[i]].(free := free)]
    ensures Circle(arena', tail, ids, blocks[i := blocks[i].(free := free)])
  {
    var blocks' := blocks[i := blocks[i].(free := free)];
    forall k: nat | k < |ids| ensures NodeOk(arena', ids, blocks', k) {
      assert NodeOk(arena, ids, blocks, k);
    }
    assert NodeOk(arena, ids, blocks, i);
  }

  /** The walks of RCCE_malloc and RCCE_free stand at b1, the node before place i. */
  ghost predicate Before(ids: seq<nat>, i: nat, b1: nat) {
    i < |ids| && b1 == if i == 0 then ids[|ids| - 1] else ids[i - 1]
  }

  lemma NextOf(arena: seq<Node>, tail: nat, ids: seq<nat>, blocks: seq<Block>, i: nat, b1: nat)
    requires Circle(arena, tail, ids, blocks) && Before(ids, i, b1)
    ensures b1 < |arena| && arena[b1].next == ids[i] && ids[i] < |arena|
    ensures arena[ids[i]].space == blocks[i].space && arena[ids[i]].free == blocks[i].free
    ensures ids[i] == tail <==> i == |ids| - 1
    ensures b1 == tail <==> i == 0
  {
    assert NodeOk(arena, ids, blocks, i);
    assert NodeOk(arena, ids, blocks, if i == 0 then |ids| - 1 else i - 1);
  }

  /** The conditions RCCE_free merges on, read off the structs around place i. */
  lemma MergeFlags(arena: seq<Node>, tail: nat, ids: seq<nat>, l: seq<Block>, i: nat, b1: nat)
    requires i + 1 < |l| && Extent(l, i) >= 0
    requires Circle(arena, tail, ids, Mark(l, i)) && Before(ids, i, b1)
    ensures b1 < |arena| && ids[i + 1] < |arena|
    ensures MergesLeft(l, i) <==> arena[b1].free > 0 && b1 != tail
    ensures MergesRight(l, i) <==> arena[ids[i + 1]].free > 0 || ids[i + 1] == tail
  {
    var m := Mark(l, i);
    NextOf(arena, tail, ids, m, i, b1);
    assert NodeOk(arena, ids, m, i + 1);
    if i > 0 {
      assert NodeOk(arena, ids, m, i - 1);
    }
  }

  lemma FirstFitIs(l: seq<Block>, sz: nat, i: nat)
    requires i < |l| && (forall j :: 0 <= j < i ==> l[j].free < sz) && (i == |l| - 1 || l[i].free >= sz)
    ensures FirstFit(l, sz) == i
  {}

  lemma FindIs(l: seq<Block>, ptr: nat, i: nat)
    requires i < |l| && (forall j :: 0 <= j < i ==> l[j].space != ptr) && (i == |l| - 1 || l[i].space == ptr)
    ensures Find(l, ptr) == i
  {}

  class Heap {
    var arena: seq<Node>
    var tail: nat
    ghost var ids: seq<nat>
    ghost var blocks: seq<Block>
    ghost const mem: nat
    ghost const size: nat

    ghost predicate Valid()
      reads this
    {
      Circle(arena, tail, ids, blocks) && MpbAlloc.Valid(blocks, mem, size)
    }

    /** RCCE_malloc_init: one block with all memory, linked to itself. */
    constructor (mem: nat, size: nat)
      ensures Valid() && blocks == Initial(mem, size) && this.mem == mem && this.size == size
    {
      arena, tail := [Node(mem, size, 0)], 0;
      ids, blocks := [0], Initial(mem, size);
      this.mem, this.size := mem, size;
      new;
      assert NodeOk(arena, ids, blocks, 0);
    }

    /** A new struct behind b takes what b has left after sz bytes; b is handed out. */
    method Split(b: nat, sz: nat, ghost i: nat)
      requires Circle(arena, tail, ids, blocks) && i < |ids| && ids[i] == b && blocks[i].free >= sz
      modifies this
      ensures Circle(arena, tail, ids, blocks) && blocks == Carve(old(blocks), i, sz)
      ensures b < |arena| && arena[b].space == old(blocks)[i].space
    {
      assert NodeOk(arena, ids, blocks, i);
      var added := |arena|;
      ghost var was := arena;
      arena := arena + [Node(arena[b].space + sz, arena[b].free - sz, arena[b].next)];
      arena := arena[b := Node(arena[b].space, 0, added)];
      CircleSplit(was, arena, tail, ids, blocks, i, sz);
      if b == tail {
        tail := added;
      }
      ids, blocks := InsertAt(ids, i + 1, added), Carve(blocks, i, sz);
    }

    method SetFree(b: nat, free: nat, ghost i: nat)
      requires Circle(arena, tail, ids, blocks) && i < |ids| && ids[i] == b
      modifies this`arena, this`blocks
      ensures Circle(arena, tail, ids, blocks) && blocks == old(blocks)[i := old(blocks)[i].(free := free)]
      ensures |arena| == old(|arena|) && arena[b].space == old(arena[b].space)
    {
      CircleSet(arena, arena[b := arena[b].(free := free)], tail, ids, blocks, i, free);
      arena := arena[b := arena[b].(free := free)];
      blocks := blocks[i := blocks[i].(free := free)];
    }

    /** The loop of RCCE_malloc over the whole list from the beginning. */
    method Search(sz: nat) returns (b2: nat, found: bool, ghost i: nat)
      requires Circle(arena, tail, ids, blocks) && blocks[|ids| - 1].free < sz
      ensures i == FirstFit(blocks, sz) && found == (i < |ids| - 1)
      ensures ids[i] == b2 < |arena| && arena[b2].free == blocks[i].free && arena[b2].space == blocks[i].space
    {
      var b1: nat := tail;
      i := 0;
      NextOf(arena, tail, ids, blocks, 0, b1);
      while arena[arena[b1].next].free < sz
        invariant Before(ids, i, b1)
        invariant b1 < |arena| && arena[b1].next < |arena|
        invariant forall j :: 0 <= j < i ==> blocks[j].free < sz
        decreases |ids| - i
      {
        NextOf(arena, tail, ids, blocks, i, b1);
        if arena[b1].next == tail {
          FirstFitIs(blocks, sz, i);
          return tail, false, i;
        }
        b1, i := arena[b1].next, i + 1;
        NextOf(arena, tail, ids, blocks, i, b1);
      }
      NextOf(arena, tail, ids, blocks, i, b1);
      FirstFitIs(blocks, sz, i);
      return arena[b1].next, true, i;
    }

    /** RCCE_malloc. */
    method Malloc(sz: nat) returns (r: Option<nat>)
      requires Valid()
      modifies this
      ensures Valid() && (blocks, r) == MpbAlloc.Malloc(old(blocks), sz)
    {
      ghost var l := blocks;
      r := Serve(sz);
      assert MpbAlloc.Valid(blocks, mem, size) by {
        MallocKeeps(l, mem, size, sz);
      }
    }

    /** Its body: the tail is tried first, then the list from the beginning. */
    method Serve(sz: nat) returns (r: Option<nat>)
      requires Circle(arena, tail, ids, blocks)
      modifies this
      ensures Circle(arena, tail, ids, blocks) && (blocks, r) == MpbAlloc.Malloc(old(blocks), sz)
    {
      if sz == 0 || sz % LINE_SIZE != 0 {
        return None;
      }
      var b1: nat := tail;
      ghost var t := |ids| - 1;
      NextOf(arena, tail, ids, blocks, 0, b1);
      assert NodeOk(arena, ids, blocks, t);
      if arena[b1].free >= sz {
        Split(b1, sz, t);
        return Some(arena[b1].space);
      }
      var b2, found, i := Search(sz);
      if !found {
        return None;
      }
      if arena[b2].free > sz {
        Split(b2, sz, i);
      } else {
        SetFree(b2, 0, i);
      }
      r := Some(arena[b2].space);
    }

    /** RCCE_free; a pointer no block starts at changes nothing. */
    method Free(ptr: nat)
      requires Valid()
      modifies this
      ensures Valid() && blocks == MpbAlloc.Free(old(blocks), ptr)
    {
      FreeKeeps(blocks, mem, size, ptr);
      var b1: nat := tail;
      ghost var i: nat := 0;
      NextOf(arena, tail, ids, blocks, 0, b1);
      while arena[arena[b1].next].space != ptr && arena[b1].next != tail
        invariant Before(ids, i, b1)
        invariant b1 < |arena| && arena[b1].next < |arena|
        invariant forall j :: 0 <= j < i ==> blocks[j].space != ptr
        decreases |ids| - i
        modifies {}
      {
        NextOf(arena, tail, ids, blocks, i, b1);
        b1, i := arena[b1].next, i + 1;
        NextOf(arena, tail, ids, blocks, i, b1);
      }
      NextOf(arena, tail, ids, blocks, i, b1);
      FindIs(blocks, ptr, i);
      if arena[b1].next == tail {
        return;
      }
      assert BlockOk(blocks, i);
      ReleaseJoins(blocks, i);
      Merge(b1, i);
    }

    /** The second half of RCCE_free: the block behind b1 is given back. */
    method Merge(b1: nat, ghost i: nat)
      requires Circle(arena, tail, ids, blocks) && Before(ids, i, b1)
      requires i + 1 < |ids| && Extent(blocks, i) >= 0
      modifies this
      ensures Circle(arena, tail, ids, blocks) && blocks == Release(old(blocks), i)
    {
      ghost var l := blocks;
      var b2, b3 := GiveBack(b1, i);
      MergeFlags(arena, tail, ids, l, i, b1);
      var j1 := arena[b1].free > 0 && b1 != tail;
      var j2 := arena[b3].free > 0 || b3 == tail;
      JoinNeighbours(b1, b2, j1, j2, i);
      ReleaseJoins(l, i);
    }

    /** The block behind b1 becomes free up to the next one, b3. */
    method GiveBack(b1: nat, ghost i: nat) returns (b2: nat, b3: nat)
      requires Circle(arena, tail, ids, blocks) && Before(ids, i, b1)
      requires i + 1 < |ids| && Extent(blocks, i) >= 0
      modifies this`arena, this`blocks
      ensures blocks == Mark(old(blocks), i) && Circle(arena, tail, ids, blocks) && b2 == ids[i] && b3 == ids[i + 1]
    {
      NextOf(arena, tail, ids, blocks, i, b1);
      b2 := arena[b1].next;
      NextOf(arena, tail, ids, blocks, i + 1, b2);
      b3 := arena[b2].next;
      SetFree(b2, arena[b3].space - arena[b2].space, i);
    }

    method JoinNeighbours(b1: nat, b2: nat, j1: bool, j2: bool, ghost i: nat)
      requires Circle(arena, tail, ids, blocks) && i + 1 < |ids| && ids[i] == b2 && (j1 ==> i > 0 && ids[i - 1] == b1)
      modifies this
      ensures Circle(arena, tail, ids, blocks)
      ensures blocks == Joined(old(blocks), i, j1, j2)
    {
      if j2 {
        JoinNext(b2, i);
      }
      if j1 {
        JoinNext(b1, i - 1);
      }
    }

    /** The block behind b goes into b, and its struct is given back. */
    method JoinNext(b: nat, ghost i: nat)
      requires Circle(arena, tail, ids, blocks) && i + 1 < |ids| && ids[i] == b
      modifies this
      ensures Circle(arena, tail, ids, blocks) && blocks == Join(old(blocks), i)
      ensures ids == RemoveAt(old(ids), i + 1)
    {
      assert NodeOk(arena, ids, blocks, i) && NodeOk(arena, ids, blocks, i + 1);
      var c := arena[b].next;
      ghost var was := arena;
      arena := arena[b := Node(arena[b].space, arena[b].free + arena[c].free, arena[c].next)];
      CircleJoin(was, arena, tail, ids, blocks, i);
      if c == tail {
        tail := b;
      }
      ids, blocks := RemoveAt(ids, i + 1), Join(blocks, i);
    }
  }
}
