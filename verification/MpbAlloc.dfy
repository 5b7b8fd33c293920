/**
 The dynamic allocator of usr/ircce/RCCE_malloc.c (GORY mode) on values: the blocks of the managed
 region in address order, the last one being the tail.
 */
module MpbAlloc {
  import opened Options
  import opened Rcce

  /** free is the free space of the block; 0 marks a block handed out (but for the tail). */
  datatype Block = Block(space: nat, free: nat)

  function Extent(l: seq<Block>, i: nat): int
    requires i + 1 < |l|
  {
    l[i + 1].space as int - l[i].space
  }

  /** A block before the tail is not empty, and used or wholly free. */
  predicate BlockOk(l: seq<Block>, i: nat) {
    i + 1 < |l| ==> Extent(l, i) > 0 && (l[i].free == 0 || l[i].free == Extent(l, i))
  }

  /** A free block has no free neighbour behind it; the tail always counts as free. */
  predicate PairOk(l: seq<Block>, i: nat) {
    i + 1 < |l| ==> l[i].free == 0 || (i + 2 < |l| && l[i + 1].free == 0)
  }

  /** The blocks tile [mem, mem + size); each is used or wholly free; no two free ones are neighbours. */
  ghost predicate Valid(l: seq<Block>, mem: nat, size: nat) {
    && 0 < |l| && l[0].space == mem && l[|l| - 1].space + l[|l| - 1].free == mem + size
    && (forall i: nat :: BlockOk(l, i))
    && (forall i: nat :: PairOk(l, i))
  }

  /** RCCE_malloc_init: one free block. */
  function Initial(mem: nat, size: nat): (l: seq<Block>)
    ensures Valid(l, mem, size)
  {
    [Block(mem, size)]
  }

  // ---------- RCCE_malloc ----------

  /** The first block before the tail with at least size free bytes; |l| - 1 when there is none. */
  function FirstFit(l: seq<Block>, size: nat): (i: nat)
    requires 0 < |l|
    ensures i < |l|
    ensures i < |l| - 1 ==> l[i].free >= size
    ensures forall j :: 0 <= j < i ==> l[j].free < size
  {
    if |l| == 1 || l[0].free >= size then 0 else 1 + FirstFit(l[1..], size)
  }

  predicate Refused(size: nat) {
    size == 0 || size % LINE_SIZE != 0
  }

  /** Block i is handed out and a new block behind it gets the remaining space. */
  function Carve(l: seq<Block>, i: nat, size: nat): seq<Block>
    requires i < |l| && l[i].free >= size
  {
    l[..i] + [Block(l[i].space, 0), Block(l[i].space + size, l[i].free - size)] + l[i + 1..]
  }

  function Malloc(l: seq<Block>, size: nat): (seq<Block>, Option<nat>)
    requires 0 < |l|
  {
    var t, i := |l| - 1, FirstFit(l, size);
    if Refused(size) then (l, None)
    else if l[t].free >= size then (Carve(l, t, size), Some(l[t].space))
    else if i == t then (l, None)
    else if l[i].free > size then (Carve(l, i, size), Some(l[i].space))
    else (l[i := l[i].(free := 0)], Some(l[i].space))
  }

  // ---------- RCCE_free ----------

  /** The first block before the tail that starts at ptr; |l| - 1 when there is none. */
  function Find(l: seq<Block>, ptr: nat): (i: nat)
    requires 0 < |l|
    ensures i < |l|
    ensures i < |l| - 1 ==> l[i].space == ptr
    ensures forall j :: 0 <= j < i ==> l[j].space != ptr
  {
    if |l| == 1 || l[0].space == ptr then 0 else 1 + Find(l[1..], ptr)
  }

  predicate MergesLeft(l: seq<Block>, i: nat)
    requires i + 1 < |l|
  {
    i > 0 && l[i - 1].free > 0
  }

  predicate MergesRight(l: seq<Block>, i: nat)
    requires i + 1 < |l|
  {
    l[i + 1].free > 0 || i + 1 == |l| - 1
  }

  /** Give back the whole block at place i and merge it with free neighbours. */
  function Release(l: seq<Block>, i: nat): seq<Block>
    requires i + 1 < |l| && Extent(l, i) >= 0
  {
    var gap: nat := Extent(l, i);
    if MergesLeft(l, i) then
      if MergesRight(l, i) then
        l[..i - 1] + [Block(l[i - 1].space, l[i - 1].free + (l[i + 1].free + gap))] + l[i + 2..]
      else l[..i - 1] + [Block(l[i - 1].space, l[i - 1].free + gap)] + l[i + 1..]
    else if MergesRight(l, i) then l[..i] + [Block(l[i].space, gap + l[i + 1].free)] + l[i + 2..]
    else l[i := l[i].(free := gap)]
  }

  ghost function Free(l: seq<Block>, ptr: nat): seq<Block>
    requires 0 < |l| && forall i: nat :: BlockOk(l, i)
  {
    var i := Find(l, ptr);
    assert BlockOk(l, i);
    if i == |l| - 1 then l else Release(l, i)
  }

  // ---------- what the blocks mean ----------

  /** The block at place i is handed out. */
  predicate Used(l: seq<Block>, i: nat) {
    i + 1 < |l| && l[i].free == 0
  }

  /** The regions handed out: start and length. */
  ghost function Live(l: seq<Block>): set<(nat, int)> {
    set i: nat | i < |l| && Used(l, i) :: (l[i].space, Extent(l, i))
  }

  lemma {:induction false} Increasing(l: seq<Block>, mem: nat, size: nat, i: nat, j: nat)
    requires Valid(l, mem, size) && i < j < |l|
    ensures l[i].space < l[j].space
    ensures l[i].space + Extent(l, i) <= l[j].space
    decreases j - i
  {
    if i + 1 < j {
      Increasing(l, mem, size, i, j - 1);
    }
    assert BlockOk(l, j - 1);
  }

  /** Live regions lie inside the managed space and do not overlap. */
  lemma LiveDisjoint(l: seq<Block>, mem: nat, size: nat, a: (nat, int), b: (nat, int))
    requires Valid(l, mem, size) && a in Live(l) && b in Live(l)
    ensures mem <= a.0 && a.1 > 0 && a.0 + a.1 <= mem + size
    ensures a != b ==> a.0 + a.1 <= b.0 || b.0 + b.1 <= a.0
  {
    var i: nat :| i < |l| && Used(l, i) && a == (l[i].space, Extent(l, i));
    var j: nat :| j < |l| && Used(l, j) && b == (l[j].space, Extent(l, j));
    assert BlockOk(l, i);
    if i > 0 {
      Increasing(l, mem, size, 0, i);
    }
    Increasing(l, mem, size, i, |l| - 1);
    if i < j {
      Increasing(l, mem, size, i, j);
    } else if j < i {
      Increasing(l, mem, size, j, i);
    }
  }

  lemma LastUsed(l: seq<Block>, mem: nat, size: nat)
    requires Valid(l, mem, size) && |l| > 1
    ensures (l[|l| - 2].space, Extent(l, |l| - 2)) in Live(l)
  {
    assert PairOk(l, |l| - 2);
    assert Used(l, |l| - 2);
  }

  /** When nothing is handed out, all free space has been merged back into the initial block. */
  lemma NothingLive(l: seq<Block>, mem: nat, size: nat)
    requires Valid(l, mem, size) && Live(l) == {}
    ensures l == [Block(mem, size)]
  {
    if |l| > 1 {
      LastUsed(l, mem, size);
      assert false;
    }
  }

  // ---------- RCCE_malloc keeps the blocks valid ----------

  lemma CarveAt(l: seq<Block>, i: nat, size: nat, j: nat)
    requires i < |l| && l[i].free >= size && j < |l| + 1
    ensures |Carve(l, i, size)| == |l| + 1
    ensures Carve(l, i, size)[j] ==
      if j < i then l[j] else if j == i then Block(l[i].space, 0)
      else if j == i + 1 then Block(l[i].space + size, l[i].free - size) else l[j - 1]
  {}

  /** A block that is carved: the tail with enough space, or a free block with more than enough. */
  ghost predicate Carvable(l: seq<Block>, i: nat, size: nat) {
    i < |l| && size > 0 && (if i == |l| - 1 then l[i].free >= size else l[i].free > size)
  }

  lemma CarveBlock(l: seq<Block>, i: nat, sz: nat, j: nat)
    requires Carvable(l, i, sz) && j + 1 < |l| + 1
    requires BlockOk(l, i) && BlockOk(l, j) && (j > 0 ==> BlockOk(l, j - 1) && PairOk(l, j - 1)) && PairOk(l, i)
    requires PairOk(l, j)
    ensures BlockOk(Carve(l, i, sz), j) && PairOk(Carve(l, i, sz), j)
    ensures |Carve(l, i, sz)| == |l| + 1
    ensures Extent(Carve(l, i, sz), j) ==
      if j < i then Extent(l, j) else if j == i then sz else if j == i + 1 then l[i].free - sz else Extent(l, j - 1)
  {
    CarveAt(l, i, sz, j);
    CarveAt(l, i, sz, j + 1);
    if j + 2 < |l| + 1 {
      CarveAt(l, i, sz, j + 2);
    }
  }

  lemma CarveValid(l: seq<Block>, mem: nat, size: nat, i: nat, sz: nat)
    requires Valid(l, mem, size) && Carvable(l, i, sz)
    ensures Valid(Carve(l, i, sz), mem, size)
  {
    var l' := Carve(l, i, sz);
    CarveAt(l, i, sz, 0);
    CarveAt(l, i, sz, |l|);
    forall j: nat ensures BlockOk(l', j) && PairOk(l', j) {
      if j < |l| {
        CarveBlock(l, i, sz, j);
      }
    }
  }

  lemma CarveLive(l: seq<Block>, mem: nat, size: nat, i: nat, sz: nat)
    requires Valid(l, mem, size) && Carvable(l, i, sz)
    ensures Live(Carve(l, i, sz)) == Live(l) + {(l[i].space, sz as int)}
  {
    var l' := Carve(l, i, sz);
    forall x | x in Live(l') ensures x in Live(l) || x == (l[i].space, sz as int) {
      var j: nat :| j < |l'| && Used(l', j) && x == (l'[j].space, Extent(l', j));
      CarveBlock(l, i, sz, j);
      CarveAt(l, i, sz, j);
      if j < i {
        assert Used(l, j);
      } else if j > i + 1 {
        assert Used(l, j - 1);
      }
    }
    forall x | x in Live(l) ensures x in Live(l') {
      var j: nat :| j < |l| && Used(l, j) && x == (l[j].space, Extent(l, j));
      var k := if j < i then j else j + 1;
      CarveBlock(l, i, sz, k);
      CarveAt(l, i, sz, k);
      assert Used(l', k);
    }
    CarveBlock(l, i, sz, i);
    CarveAt(l, i, sz, i);
    assert Used(l', i);
  }

  /** An exact fit only marks the block as used. */
  lemma ExactFit(l: seq<Block>, mem: nat, size: nat, i: nat)
    requires Valid(l, mem, size) && i + 1 < |l| && l[i].free > 0
    ensures var l' := l[i := l[i].(free := 0)];
      Valid(l', mem, size) && Live(l') == Live(l) + {(l[i].space, l[i].free as int)}
  {
    var l' := l[i := l[i].(free := 0)];
    assert BlockOk(l, i);
    forall j: nat ensures BlockOk(l', j) && PairOk(l', j) {
      assert BlockOk(l, j) && PairOk(l, j);
    }
    forall x | x in Live(l') ensures x in Live(l) || x == (l[i].space, l[i].free as int) {
      var j: nat :| j < |l'| && Used(l', j) && x == (l'[j].space, Extent(l', j));
      assert Extent(l', j) == Extent(l, j);
      assert j != i ==> Used(l, j);
    }
    forall x | x in Live(l) ensures x in Live(l') {
      var j: nat :| j < |l| && Used(l, j) && x == (l[j].space, Extent(l, j));
      assert Used(l', j) && Extent(l', j) == Extent(l, j);
    }
    assert Used(l', i) && Extent(l', i) == Extent(l, i);
  }

  /** RCCE_malloc hands out a region of the asked size, or nothing when no block is large enough. */
  lemma MallocKeeps(l: seq<Block>, mem: nat, size: nat, sz: nat)
    requires Valid(l, mem, size)
    ensures var (l', r) := Malloc(l, sz);
      && Valid(l', mem, size)
      && (r.None? ==> l' == l)
      && (r.Some? ==> Live(l') == Live(l) + {(r.value, sz as int)} && (r.value, sz as int) !in Live(l))
      && (r.None? <==> Refused(sz) || forall i :: 0 <= i < |l| ==> l[i].free < sz)
  {
    var t, i := |l| - 1, FirstFit(l, sz);
    if !Refused(sz) {
      if l[t].free >= sz {
        CarveValid(l, mem, size, t, sz);
        CarveLive(l, mem, size, t, sz);
        NotLive(l, mem, size, t, sz);
      } else if i < t {
        NotLive(l, mem, size, i, sz);
        if l[i].free > sz {
          CarveValid(l, mem, size, i, sz);
          CarveLive(l, mem, size, i, sz);
        } else {
          ExactFit(l, mem, size, i);
        }
      }
    }
  }

  /** A free block or the tail is no live region. */
  lemma NotLive(l: seq<Block>, mem: nat, size: nat, i: nat, sz: nat)
    requires Valid(l, mem, size) && i < |l| && l[i].free > 0
    ensures (l[i].space, sz as int) !in Live(l)
  {
    forall j: nat | j < |l| && Used(l, j) ensures l[j].space != l[i].space {
      if j < i {
        Increasing(l, mem, size, j, i);
      } else if i < j {
        Increasing(l, mem, size, i, j);
      }
    }
  }

  // ---------- RCCE_free keeps the blocks valid ----------

  /** Merge the blocks i and i + 1. */
  function Join(l: seq<Block>, i: nat): seq<Block>
    requires i + 1 < |l|
  {
    l[..i] + [Block(l[i].space, l[i].free + l[i + 1].free)] + l[i + 2..]
  }

  /** The block at place i joined with its neighbours as asked for. */
  function Joined(l: seq<Block>, i: nat, left: bool, right: bool): seq<Block>
    requires i < |l| && (left ==> i > 0) && (right ==> i + 1 < |l|)
  {
    var l1 := if right then Join(l, i) else l;
    if left then Join(l1, i - 1) else l1
  }

  /** Both blocks are free; the second may be the tail. */
  ghost predicate Joinable(l: seq<Block>, i: nat) {
    && i + 1 < |l| && l[i].free == Extent(l, i) > 0
    && (i + 2 < |l| ==> l[i + 1].free == Extent(l, i + 1) > 0)
  }

  lemma JoinAt(l: seq<Block>, i: nat, j: nat)
    requires i + 1 < |l| && j < |l| - 1
    ensures |Join(l, i)| == |l| - 1
    ensures Join(l, i)[j] ==
      if j < i then l[j] else if j == i then Block(l[i].space, l[i].free + l[i + 1].free) else l[j + 1]
  {}

  lemma JoinBlock(l: seq<Block>, i: nat, j: nat)
    requires Joinable(l, i) && j + 1 < |l| - 1 && BlockOk(l, j) && BlockOk(l, j + 1)
    ensures |Join(l, i)| == |l| - 1 && BlockOk(Join(l, i), j)
    ensures Extent(Join(l, i), j) ==
      if j < i then Extent(l, j) else if j == i then l[i].free + l[i + 1].free else Extent(l, j + 1)
  {
    JoinAt(l, i, j);
    JoinAt(l, i, j + 1);
  }

  /** Joining two free blocks changes no live region and repairs the pair (i, i + 1). */
  lemma JoinKeeps(l: seq<Block>, mem: nat, size: nat, i: nat)
    requires Joinable(l, i) && l[0].space == mem && l[|l| - 1].space + l[|l| - 1].free == mem + size
    requires (forall j: nat :: BlockOk(l, j)) && (forall j: nat :: j != i && j + 1 != i ==> PairOk(l, j))
    ensures var l' := Join(l, i);
      && 0 < |l'| && l'[0].space == mem && l'[|l'| - 1].space + l'[|l'| - 1].free == mem + size
      && (forall j: nat :: BlockOk(l', j)) && (forall j: nat :: j + 1 != i ==> PairOk(l', j))
      && (i > 0 ==> l'[i - 1] == l[i - 1]) && l'[i].free > 0
  {
    var l' := Join(l, i);
    JoinAt(l, i, 0);
    JoinAt(l, i, i);
    JoinAt(l, i, |l| - 2);
    if i > 0 {
      JoinAt(l, i, i - 1);
    }
    forall j: nat ensures BlockOk(l', j) {
      if j + 1 < |l'| {
        JoinBlock(l, i, j);
      }
    }
    forall j: nat | j + 1 != i ensures PairOk(l', j) {
      if j + 1 < |l'| {
        JoinAt(l, i, j);
        JoinAt(l, i, j + 1);
        assert j < i ==> PairOk(l, j);
        assert j >= i ==> PairOk(l, j + 1);
      }
    }
  }

  lemma JoinLive(l: seq<Block>, i: nat)
    requires Joinable(l, i) && forall j: nat :: BlockOk(l, j)
    ensures Live(Join(l, i)) == Live(l)
  {
    var l' := Join(l, i);
    assert |l'| == |l| - 1;
    forall x | x in Live(l') ensures x in Live(l) {
      var j: nat :| j < |l'| && Used(l', j) && x == (l'[j].space, Extent(l', j));
      JoinAt(l, i, j);
      JoinBlock(l, i, j);
      assert Used(l, if j < i then j else j + 1);
    }
    forall x | x in Live(l) ensures x in Live(l') {
      var j: nat :| j < |l| && Used(l, j) && x == (l[j].space, Extent(l, j));
      var k := if j < i then j else j - 1;
      JoinAt(l, i, k);
      JoinBlock(l, i, k);
      assert Used(l', k);
    }
  }

  /** The first assignment of RCCE_free: the whole target block becomes free space. */
  function Mark(l: seq<Block>, i: nat): seq<Block>
    requires i + 1 < |l| && Extent(l, i) >= 0
  {
    l[i := l[i].(free := Extent(l, i))]
  }

  /** RCCE_free marks the block, then joins it with its successor, then with its predecessor. */
  lemma ReleaseJoins(l: seq<Block>, i: nat)
    requires i + 1 < |l| && Extent(l, i) >= 0
    ensures Release(l, i) == Joined(Mark(l, i), i, MergesLeft(l, i), MergesRight(l, i))
  {
    var m := Mark(l, i);
    if MergesLeft(l, i) {
      if MergesRight(l, i) {
        JoinBoth(l, i);
      } else {
        JoinLeft(l, i);
      }
    } else if MergesRight(l, i) {
      assert m[i + 2..] == l[i + 2..] && m[..i] == l[..i];
    }
  }

  lemma JoinBoth(l: seq<Block>, i: nat)
    requires 0 < i && i + 1 < |l| && Extent(l, i) >= 0
    ensures Join(Join(Mark(l, i), i), i - 1) ==
      l[..i - 1] + [Block(l[i - 1].space, l[i - 1].free + (l[i + 1].free + Extent(l, i)))] + l[i + 2..]
  {
    var m := Mark(l, i);
    var l1 := Join(m, i);
    JoinAt(m, i, i - 1);
    JoinAt(m, i, i);
    assert l1[..i - 1] == l[..i - 1];
    assert l1[i + 1..] == l[i + 2..];
  }

  lemma JoinLeft(l: seq<Block>, i: nat)
    requires 0 < i && i + 1 < |l| && Extent(l, i) >= 0
    ensures Join(Mark(l, i), i - 1) == l[..i - 1] + [Block(l[i - 1].space, l[i - 1].free + Extent(l, i))] + l[i + 1..]
  {
    var m := Mark(l, i);
    assert m[..i - 1] == l[..i - 1] && m[i + 1..] == l[i + 1..];
  }

  lemma MarkKeeps(l: seq<Block>, mem: nat, size: nat, i: nat)
    requires Valid(l, mem, size) && Used(l, i)
    ensures BlockOk(l, i) && Extent(l, i) > 0
    ensures var m := Mark(l, i);
      && m[0].space == mem && m[|m| - 1].space + m[|m| - 1].free == mem + size
      && (forall j: nat :: BlockOk(m, j)) && (forall j: nat :: j != i && j + 1 != i ==> PairOk(m, j))
      && Live(m) == Live(l) - {(l[i].space, Extent(l, i))}
  {
    assert BlockOk(l, i);
    var m := Mark(l, i);
    forall j: nat ensures BlockOk(m, j) && (j != i && j + 1 != i ==> PairOk(m, j)) {
      assert BlockOk(l, j) && PairOk(l, j);
    }
    forall x | x in Live(m) ensures x in Live(l) && x != (l[i].space, Extent(l, i)) {
      var j: nat :| j < |m| && Used(m, j) && x == (m[j].space, Extent(m, j));
      assert j != i && Used(l, j) && Extent(m, j) == Extent(l, j);
      if j < i {
        Increasing(l, mem, size, j, i);
      } else {
        Increasing(l, mem, size, i, j);
      }
    }
    forall x | x in Live(l) && x != (l[i].space, Extent(l, i)) ensures x in Live(m) {
      var j: nat :| j < |l| && Used(l, j) && x == (l[j].space, Extent(l, j));
      assert Used(m, j) && Extent(m, j) == Extent(l, j);
    }
  }

  /** The block marked free and joined with a free successor. */
  function AfterRight(l: seq<Block>, i: nat): seq<Block>
    requires i + 1 < |l| && Extent(l, i) >= 0
  {
    if MergesRight(l, i) then Join(Mark(l, i), i) else Mark(l, i)
  }

  /** The list tiles the region; its pairs are fine but for the one before block i. */
  ghost predicate NearlyValid(l: seq<Block>, mem: nat, size: nat, i: nat) {
    && i < |l| && l[0].space == mem && l[|l| - 1].space + l[|l| - 1].free == mem + size
    && (forall j: nat :: BlockOk(l, j)) && (forall j: nat :: j + 1 != i ==> PairOk(l, j))
  }

  lemma RightKeeps(l: seq<Block>, mem: nat, size: nat, i: nat)
    requires Valid(l, mem, size) && Used(l, i)
    ensures Extent(l, i) > 0
    ensures var l1 := AfterRight(l, i);
      && NearlyValid(l1, mem, size, i) && (i + 1 < |l1| ==> l1[i].free > 0) && (i > 0 ==> l1[i - 1] == l[i - 1])
      && Live(l1) == Live(l) - {(l[i].space, Extent(l, i))}
  {
    MarkKeeps(l, mem, size, i);
    var m := Mark(l, i);
    assert BlockOk(m, i);
    if MergesRight(l, i) {
      assert BlockOk(m, i + 1);
      JoinKeeps(m, mem, size, i);
      JoinLive(m, i);
    } else {
      assert PairOk(m, i);
    }
  }

  lemma LeftKeeps(l: seq<Block>, mem: nat, size: nat, i: nat)
    requires NearlyValid(l, mem, size, i) && i > 0 && l[i - 1].free > 0 && (i + 1 < |l| ==> l[i].free > 0)
    ensures Valid(Join(l, i - 1), mem, size) && Live(Join(l, i - 1)) == Live(l)
  {
    assert BlockOk(l, i - 1) && BlockOk(l, i);
    var l' := Join(l, i - 1);
    JoinLive(l, i - 1);
    JoinKeeps(l, mem, size, i - 1);
    forall j: nat ensures PairOk(l', j) {
      if j + 2 == i {
        assert PairOk(l, j);
      }
    }
  }

  lemma ReleaseKeeps(l: seq<Block>, mem: nat, size: nat, i: nat)
    requires Valid(l, mem, size) && Used(l, i)
    ensures Extent(l, i) > 0 && Valid(Release(l, i), mem, size)
    ensures Live(Release(l, i)) == Live(l) - {(l[i].space, Extent(l, i))}
  {
    RightKeeps(l, mem, size, i);
    ReleaseJoins(l, i);
    var l1 := AfterRight(l, i);
    if MergesLeft(l, i) {
      LeftKeeps(l1, mem, size, i);
    } else {
      forall j: nat ensures PairOk(l1, j) {
        assert j + 1 == i ==> l1[j].free == 0;
      }
    }
  }

  /** A block that is already free is left as it is: giving it back twice has no effect. */
  lemma ReleaseTwice(l: seq<Block>, mem: nat, size: nat, i: nat)
    requires Valid(l, mem, size) && i + 1 < |l| && !Used(l, i)
    ensures Extent(l, i) > 0 && Release(l, i) == l
  {
    assert BlockOk(l, i) && PairOk(l, i);
    if i > 0 {
      assert PairOk(l, i - 1);
    }
  }

  lemma FindUnique(l: seq<Block>, mem: nat, size: nat, i: nat)
    requires Valid(l, mem, size) && i + 1 < |l|
    ensures Find(l, l[i].space) == i
  {
    var k := Find(l, l[i].space);
    if k < i {
      Increasing(l, mem, size, k, i);
    }
  }

  /**
   RCCE_free on any pointer: the live region that starts there is given back; any other pointer
   changes nothing.
   */
  lemma FreeKeeps(l: seq<Block>, mem: nat, size: nat, ptr: nat)
    requires Valid(l, mem, size)
    ensures Valid(Free(l, ptr), mem, size)
    ensures Live(Free(l, ptr)) == set x | x in Live(l) && x.0 != ptr
    ensures (forall x :: x in Live(l) ==> x.0 != ptr) ==> Free(l, ptr) == l
  {
    var i := Find(l, ptr);
    assert BlockOk(l, i);
    forall x | x in Live(l) && x.0 == ptr ensures i + 1 < |l| && Used(l, i) && x == (l[i].space, Extent(l, i)) {
      var j: nat :| j < |l| && Used(l, j) && x == (l[j].space, Extent(l, j));
      FindUnique(l, mem, size, j);
    }
    if i + 1 < |l| {
      if Used(l, i) {
        ReleaseKeeps(l, mem, size, i);
        assert (l[i].space, Extent(l, i)) in Live(l);
      } else {
        ReleaseTwice(l, mem, size, i);
      }
    }
  }

  // ---------- RCCE_free undoes RCCE_malloc ----------

  /** The part carved off merges with what is behind it and with nothing before it. */
  lemma CarveMerges(l: seq<Block>, mem: nat, size: nat, i: nat, sz: nat)
    requires Valid(l, mem, size) && Carvable(l, i, sz)
    ensures
      var l' := Carve(l, i, sz);
      && |l'| == |l| + 1 && Extent(l', i) == sz && MergesRight(l', i) && !MergesLeft(l', i)
      && Block(l'[i].space, sz + l'[i + 1].free) == l[i]
  {
    CarveAt(l, i, sz, i);
    CarveAt(l, i, sz, i + 1);
    if i > 0 {
      CarveAt(l, i, sz, i - 1);
      assert PairOk(l, i - 1);
    }
  }

  lemma CarveUndone(l: seq<Block>, i: nat, sz: nat)
    requires Carvable(l, i, sz)
    requires
      var l' := Carve(l, i, sz);
      && |l'| == |l| + 1 && Extent(l', i) == sz && MergesRight(l', i) && !MergesLeft(l', i)
      && Block(l'[i].space, sz + l'[i + 1].free) == l[i]
    ensures Release(Carve(l, i, sz), i) == l
  {
    Rejoined(l, i, sz);
  }

  lemma Rejoined(l: seq<Block>, i: nat, sz: nat)
    requires i < |l| && l[i].free >= sz
    ensures Carve(l, i, sz)[..i] + [l[i]] + Carve(l, i, sz)[i + 2..] == l
  {
    CarveEnds(l, i, sz);
    assert l == l[..i] + [l[i]] + l[i + 1..];
  }

  lemma CarveEnds(l: seq<Block>, i: nat, sz: nat)
    requires i < |l| && l[i].free >= sz
    ensures Carve(l, i, sz)[..i] == l[..i] && Carve(l, i, sz)[i + 2..] == l[i + 1..]
  {}

  lemma CarveFreed(l: seq<Block>, mem: nat, size: nat, i: nat, sz: nat)
    requires Valid(l, mem, size) && Carvable(l, i, sz) && Valid(Carve(l, i, sz), mem, size)
    ensures Free(Carve(l, i, sz), l[i].space) == l
  {
    CarveAt(l, i, sz, i);
    FindUnique(Carve(l, i, sz), mem, size, i);
    CarveMerges(l, mem, size, i, sz);
    CarveUndone(l, i, sz);
  }

  /** RCCE_free(RCCE_malloc(sz)) restores the exact block list. */
  lemma RoundTrip(l: seq<Block>, mem: nat, size: nat, sz: nat)
    requires Valid(l, mem, size) && Malloc(l, sz).1.Some?
    ensures Valid(Malloc(l, sz).0, mem, size)
    ensures Free(Malloc(l, sz).0, Malloc(l, sz).1.value) == l
  {
    MallocKeeps(l, mem, size, sz);
    var (l', r) := Malloc(l, sz);
    var t := |l| - 1;
    var i := if l[t].free >= sz then t else FirstFit(l, sz);
    if i == t || l[i].free > sz {
      CarveFreed(l, mem, size, i, sz);
    } else {
      FindUnique(l', mem, size, i);
      FitUndone(l, mem, size, i);
    }
  }

  /** A block that fitted exactly becomes free again as it was. */
  lemma FitUndone(l: seq<Block>, mem: nat, size: nat, i: nat)
    requires Valid(l, mem, size) && i + 1 < |l| && l[i].free > 0
    ensures
      var l' := l[i := l[i].(free := 0)];
      Extent(l', i) >= 0 && Release(l', i) == l
  {
    assert BlockOk(l, i) && PairOk(l, i);
    if i > 0 {
      assert PairOk(l, i - 1);
    }
  }

  // ---------- runs ----------

  datatype Op = Alloc(sz: nat) | Dealloc(ptr: nat)

  ghost function Do(l: seq<Block>, op: Op): seq<Block>
    requires 0 < |l| && forall i: nat :: BlockOk(l, i)
  {
    match op
    case Alloc(sz) => Malloc(l, sz).0
    case Dealloc(ptr) => Free(l, ptr)
  }

  /** The block list after a sequence of calls. */
  ghost function Run(l: seq<Block>, mem: nat, size: nat, ops: seq<Op>): (l': seq<Block>)
    requires Valid(l, mem, size)
    ensures Valid(l', mem, size)
    decreases |ops|
  {
    if ops == [] then l
    else
      DoKeeps(l, mem, size, ops[0]);
      Run(Do(l, ops[0]), mem, size, ops[1..])
  }

  lemma DoKeeps(l: seq<Block>, mem: nat, size: nat, op: Op)
    requires Valid(l, mem, size)
    ensures Valid(Do(l, op), mem, size)
  {
    match op
    case Alloc(sz) => MallocKeeps(l, mem, size, sz);
    case Dealloc(ptr) => FreeKeeps(l, mem, size, ptr);
  }

  lemma {:induction false} FreesRemove(l: seq<Block>, mem: nat, size: nat, ops: seq<Op>)
    requires Valid(l, mem, size) && forall i :: 0 <= i < |ops| ==> ops[i].Dealloc?
    ensures Live(Run(l, mem, size, ops)) == set x | x in Live(l) && Dealloc(x.0) !in ops
    decreases |ops|
  {
    if ops != [] {
      FreeKeeps(l, mem, size, ops[0].ptr);
      DoKeeps(l, mem, size, ops[0]);
      FreesRemove(Do(l, ops[0]), mem, size, ops[1..]);
      assert ops == [ops[0]] + ops[1..];
    }
  }

  /** After any calls, freeing every live region in any order gives back the one initial block. */
  lemma FreeEverything(mem: nat, size: nat, calls: seq<Op>, frees: seq<Op>)
    requires forall i :: 0 <= i < |frees| ==> frees[i].Dealloc?
    requires forall x :: x in Live(Run(Initial(mem, size), mem, size, calls)) ==> Dealloc(x.0) in frees
    ensures Run(Run(Initial(mem, size), mem, size, calls), mem, size, frees) == Initial(mem, size)
  {
    var l := Run(Initial(mem, size), mem, size, calls);
    FreesRemove(l, mem, size, frees);
    NothingLive(Run(l, mem, size, frees), mem, size);
  }
}
