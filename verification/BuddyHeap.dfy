/** mm/malloc.c with its free lists threaded through the blocks, against the allocator on values. */
module BuddyHeap {
  import opened Buddy
  import opened Options
  import opened Powers

  const BUDDY_MAGIC: nat := 0xBABE

  /** The first bytes of a block: the link of a free block or the prefix of a live one. */
  datatype Cell = Next(next: nat) | Prefix(exponent: nat, magic: nat)

  ghost predicate Chain(cells: map<nat, Cell>, head: nat, l: seq<nat>)
    decreases l
  {
    if l == [] then head == 0
    else head == l[0] && head != 0 && head in cells && cells[head].Next? && Chain(cells, cells[head].next, l[1..])
  }

  /** The list heads and the links in the blocks make up the free lists. */
  ghost predicate Linked(cells: map<nat, Cell>, lists: seq<nat>, free: seq<seq<nat>>) {
    && |lists| == |free| == BUDDY_LISTS
    && forall k :: 0 <= k < BUDDY_LISTS ==> Chain(cells, lists[k], free[k])
  }

  /** Every live block of the list starts with its prefix. */
  ghost predicate Prefixed(cells: map<nat, Cell>, live: seq<Block>) {
    forall i :: 0 <= i < |live| ==>
      live[i].addr != 0 && live[i].addr in cells && cells[live[i].addr] == Prefix(live[i].exp, BUDDY_MAGIC)
  }

  /** The first bytes of the blocks have not changed. */
  ghost predicate Same(live: seq<Block>, cells: map<nat, Cell>, cells': map<nat, Cell>) {
    forall i :: 0 <= i < |live| && live[i].addr in cells ==>
      live[i].addr in cells' && cells'[live[i].addr] == cells[live[i].addr]
  }

  lemma {:induction false} ChainFrame(cells: map<nat, Cell>, a: nat, c: Cell, head: nat, l: seq<nat>)
    requires Chain(cells, head, l) && a !in l
    ensures Chain(cells[a := c], head, l)
    decreases l
  {
    if l != [] {
      ChainFrame(cells, a, c, cells[head].next, l[1..]);
    }
  }

  ghost predicate NotFree(free: seq<seq<nat>>, a: nat) {
    forall k :: 0 <= k < |free| ==> a !in free[k]
  }

  lemma PushLinked(cells: map<nat, Cell>, lists: seq<nat>, free: seq<seq<nat>>, k: nat, a: nat)
    requires Linked(cells, lists, free) && k < BUDDY_LISTS && NotFree(free, a) && a != 0
    ensures Linked(cells[a := Next(lists[k])], lists[k := a], free[k := [a] + free[k]])
  {
    forall j | 0 <= j < BUDDY_LISTS ensures Chain(cells[a := Next(lists[k])], lists[j], free[j]) {
      ChainFrame(cells, a, Next(lists[k]), lists[j], free[j]);
    }
    assert ([a] + free[k])[1..] == free[k];
  }

  lemma PrefixLinked(cells: map<nat, Cell>, lists: seq<nat>, free: seq<seq<nat>>, a: nat, c: Cell)
    requires Linked(cells, lists, free) && NotFree(free, a)
    ensures Linked(cells[a := c], lists, free)
  {
    forall j | 0 <= j < BUDDY_LISTS ensures Chain(cells[a := c], lists[j], free[j]) {
      ChainFrame(cells, a, c, lists[j], free[j]);
    }
  }

  // ---------- no byte is in two blocks ----------

  lemma {:induction false} ListCovers(l: seq<nat>, e: nat, a: nat)
    requires a in l
    ensures ListWeight(l, e, At(a)) >= 1
  {
    if l[0] == a {
      assert Pow2(e) > 0 && At(a)(a, e) == 1;
    } else {
      ListCovers(l[1..], e, a);
    }
  }

  lemma {:induction false} FreeCovers(free: seq<seq<nat>>, k: nat, a: nat)
    requires k < |free| && a in free[k]
    ensures FreeWeight(free, At(a)) >= 1
  {
    var n := |free| - 1;
    if k == n {
      ListCovers(free[n], n + BUDDY_MIN, a);
    } else {
      FreeCovers(free[..n], k, a);
    }
  }

  /** No free block starts inside a live one. */
  lemma LiveNotFree(s: State, i: nat, a: nat)
    requires Inv(s) && i < |s.live| && InBlock(s.live[i], a)
    ensures NotFree(s.free, a)
  {
    assert ByteOk(s, a);
    TwoCover(s.live, i, i, a);
    forall k | 0 <= k < |s.free| ensures a !in s.free[k] {
      if a in s.free[k] {
        FreeCovers(s.free, k, a);
      }
    }
  }

  /** Nor does another live block. */
  lemma LiveApart(s: State, i: nat, j: nat, a: nat)
    requires Inv(s) && j < i < |s.live| && (InBlock(s.live[i], a) || InBlock(s.live[j], a))
    ensures !(InBlock(s.live[i], a) && InBlock(s.live[j], a))
  {
    assert ByteOk(s, a);
    if InBlock(s.live[i], a) && InBlock(s.live[j], a) {
      TwoCover(s.live, i, j, a);
    }
  }

  lemma ExpIs(n: nat, e: nat)
    requires BUDDY_MIN <= e <= EXP_LIMIT && n <= Pow2(e) && (e == BUDDY_MIN || Pow2(e - 1) < n)
    ensures n <= LARGEST && BuddyExp(n) == e
  {
    LargestIs(EXP_LIMIT);
    Pow2Monotone(e, EXP_LIMIT);
    var least := BuddyExp(n);
    if least < e {
      Pow2Monotone(least, e - 1);
    } else if e < least {
      Pow2Monotone(e, least - 1);
    }
  }

  lemma PrefixedPush(cells: map<nat, Cell>, cells': map<nat, Cell>, s: State, live: seq<Block>, b: Block)
    requires Prefixed(cells, live) && Same(live, cells, cells')
    requires Inv(s) && s.live == live + [b] && b.addr != 0
    ensures Prefixed(cells'[b.addr := Prefix(b.exp, BUDDY_MAGIC)], s.live)
  {
    forall i | 0 <= i < |live| ensures live[i].addr != b.addr {
      assert s.live[i] == live[i] && InBlock(s.live[|live|], b.addr);
      LiveApart(s, |live|, i, b.addr);
    }
  }

  /** A returned pointer, 0 being NULL. */
  function Answer(p: nat): Option<nat> {
    if p == 0 then None else Some(p)
  }

  /**
   buddy_get leads from s to s' and answers r. The quantifier, over one value, keeps the recursive Get
   folded in proofs until a proof mentions Gives.
   */
  ghost predicate Yields(s: State, exp: nat, page: nat, s': State, r: Option<nat>)
    requires |s.free| == BUDDY_LISTS && BUDDY_MIN <= exp < BUDDY_MAX
  {
    forall e: nat :: e == exp ==> Gives(s, e, page, s', r)
  }

  predicate Gives(s: State, exp: nat, page: nat, s': State, r: Option<nat>)
    requires |s.free| == BUDDY_LISTS && BUDDY_MIN <= exp < BUDDY_MAX
  {
    Get(s, exp, page) == (s', r)
  }

  lemma YieldsPop(s: State, exp: nat, page: nat)
    requires |s.free| == BUDDY_LISTS && BUDDY_MIN <= exp < BUDDY_MAX && s.free[exp - BUDDY_MIN] != []
    ensures Yields(s, exp, page, Pop(s, exp - BUDDY_MIN), Some(s.free[exp - BUDDY_MIN][0]))
  {
    GetPop(s, exp, page);
  }

  lemma YieldsNew(s: State, exp: nat, page: nat)
    requires |s.free| == BUDDY_LISTS && BUDDY_ALLOC <= exp < BUDDY_MAX && !LargeAvail(s.free, exp)
    ensures Yields(s, exp, page, if page == 0 then s else
      s.(live := s.live + [Block(page, exp)], got := s.got + [Block(page, exp)]), Answer(page))
  {
    GetNew(s, exp, page);
  }

  lemma YieldsCut(s: State, exp: nat, page: nat, s1: State, buddy: nat)
    requires |s.free| == BUDDY_LISTS && BUDDY_MIN <= exp && exp + 1 < BUDDY_MAX && s.free[exp - BUDDY_MIN] == []
    requires exp < BUDDY_ALLOC || LargeAvail(s.free, exp)
    requires Yields(s, exp + 1, page, s1, Answer(buddy)) && |s1.free| == BUDDY_LISTS
    ensures buddy != 0 ==> s1.live == s.live + [Block(buddy, exp + 1)]
    ensures Yields(s, exp, page, if buddy == 0 then s1 else Cut(s1, s.live, buddy, exp), Answer(buddy))
  {
    assert Gives(s, exp + 1, page, s1, Answer(buddy));
    GetLarger(s, exp, page);
  }

  lemma YieldsKeeps(s: State, exp: nat, page: nat, s': State, r: Option<nat>)
    requires Inv(s) && BUDDY_MIN <= exp <= EXP_LIMIT && PageOk(s, exp, page) && Yields(s, exp, page, s', r)
    ensures Inv(s') && (r.None? ==> s' == s) && (r.Some? ==> s'.live == s.live + [Block(r.value, exp)])
  {
    assert Gives(s, exp, page, s', r);
    GetKeeps(s, exp, page);
    PallocExactly(s, exp, page);
  }

  lemma YieldsKmalloc(s: State, sz: nat, page: nat, s': State, buddy: nat)
    requires Inv(s) && 0 < sz && sz + PREFIX <= LARGEST
    requires Yields(s, BuddyExp(sz + PREFIX), page, s', Answer(buddy))
    ensures Kmalloc(s, sz, page) == (s', Answer(if buddy == 0 then 0 else buddy + PREFIX))
  {
    assert Gives(s, BuddyExp(sz + PREFIX), page, s', Answer(buddy));
  }

  class Heap {
    const lists: array<nat>
    var cells: map<nat, Cell>
    ghost var s: State

    ghost predicate Linking()
      reads this, lists
    {
      lists.Length == BUDDY_LISTS && Inv(s) && Linked(cells, lists[..], s.free)
    }

    ghost predicate Valid()
      reads this, lists
    {
      Linking() && Prefixed(cells, s.live)
    }

    constructor ()
      ensures Valid() && Init(s) && fresh(lists)
    {
      lists := new nat[BUDDY_LISTS](i => 0);
      cells := map[];
      s := State(seq(BUDDY_LISTS, i => []), [], []);
      new;
      InitInv(s);
    }

    /** buddy_large_avail. */
    method LargeAvailable(from: nat) returns (avail: bool)
      requires Linking() && BUDDY_MIN <= from <= BUDDY_MAX
      ensures avail == LargeAvail(s.free, from)
    {
      var exp := from;
      while exp < BUDDY_MAX && lists[exp - BUDDY_MIN] == 0
        invariant BUDDY_MIN <= exp <= BUDDY_MAX && (LargeAvail(s.free, from) <==> LargeAvail(s.free, exp))
      {
        assert Chain(cells, lists[..][exp - BUDDY_MIN], s.free[exp - BUDDY_MIN]);
        exp := exp + 1;
      }
      if exp < BUDDY_MAX {
        assert Chain(cells, lists[..][exp - BUDDY_MIN], s.free[exp - BUDDY_MIN]);
      }
      return exp != BUDDY_MAX;
    }

    /** buddy_get when the list of the size has an element. */
    method PopBuddy(exp: nat, ghost page: nat) returns (buddy: nat)
      requires Linking() && BUDDY_MIN <= exp <= EXP_LIMIT && lists[exp - BUDDY_MIN] != 0
      modifies this`s, lists
      ensures lists.Length == BUDDY_LISTS && Linked(cells, lists[..], s.free)
      ensures buddy == old(lists[exp - BUDDY_MIN]) && Yields(old(s), exp, page, s, Answer(buddy))
    {
      var k := exp - BUDDY_MIN;
      assert Chain(cells, lists[..][k], s.free[k]);
      buddy := lists[k];
      ghost var ls := lists[..][k := cells[buddy].next];
      lists[k] := cells[buddy].next;
      assert lists[..] == ls;
      YieldsPop(s, exp, page);
      s := Pop(s, k);
    }

    /** buddy_get when new memory is needed. */
    method NewBuddy(exp: nat, page: nat) returns (buddy: nat)
      requires Linking() && BUDDY_ALLOC <= exp <= EXP_LIMIT && !LargeAvail(s.free, exp) && PageOk(s, exp, page)
      modifies this`s
      ensures Yields(old(s), exp, page, s, Answer(buddy))
      ensures Linking()
    {
      YieldsNew(s, exp, page);
      buddy := page;
      if page != 0 {
        s := s.(live := s.live + [Block(page, exp)], got := s.got + [Block(page, exp)]);
      }
      YieldsKeeps(old(s), exp, page, s, Answer(buddy));
    }

    /** buddy_get when a larger block is to be split. */
    method SplitLarger(exp: nat, page: nat) returns (buddy: nat)
      requires Linking() && BUDDY_MIN <= exp <= EXP_LIMIT && PageOk(s, exp, page)
      requires s.free[exp - BUDDY_MIN] == [] && (exp < BUDDY_ALLOC || LargeAvail(s.free, exp))
      modifies this, lists
      ensures Yields(old(s), exp, page, s, Answer(buddy))
      ensures Linking() && Same(old(s).live, old(cells), cells)
      decreases EXP_LIMIT - exp, 0
    {
      assert exp + 1 <= EXP_LIMIT && PageOk(s, exp + 1, page) by {
        LargerReady(s, exp, page);
      }
      buddy := GetBuddy(exp + 1, page);
      Halve(exp, page, buddy, old(s), old(cells));
    }

    /** The larger block, if there is one, is split. */
    method Halve(exp: nat, ghost page: nat, buddy: nat, ghost was: State, ghost cells0: map<nat, Cell>)
      requires Linking() && BUDDY_MIN <= exp < EXP_LIMIT && Inv(was) && PageOk(was, exp, page)
      requires was.free[exp - BUDDY_MIN] == [] && (exp < BUDDY_ALLOC || LargeAvail(was.free, exp))
      requires Yields(was, exp + 1, page, s, Answer(buddy)) && Same(was.live, cells0, cells)
      modifies this, lists
      ensures Yields(was, exp, page, s, Answer(buddy))
      ensures Linking() && Same(was.live, cells0, cells)
    {
      YieldsCut(was, exp, page, s, buddy);
      if buddy != 0 {
        PutHalf(exp, buddy, was.live);
      }
      YieldsKeeps(was, exp, page, s, Answer(buddy));
    }

    /** buddy_get; 0 stands for NULL. */
    method GetBuddy(exp: nat, page: nat) returns (buddy: nat)
      requires Linking() && BUDDY_MIN <= exp <= EXP_LIMIT && PageOk(s, exp, page)
      modifies this, lists
      ensures Yields(old(s), exp, page, s, Answer(buddy))
      ensures Linking() && Same(old(s).live, old(cells), cells)
      decreases EXP_LIMIT - exp, 1
    {
      var k := exp - BUDDY_MIN;
      assert Chain(cells, lists[..][k], s.free[k]);
      buddy := lists[k];
      if buddy != 0 {
        ghost var was := s;
        buddy := PopBuddy(exp, page);
        YieldsKeeps(was, exp, page, s, Answer(buddy));
      } else {
        var avail := LargeAvailable(exp);
        if exp >= BUDDY_ALLOC && !avail {
          buddy := NewBuddy(exp, page);
        } else {
          buddy := SplitLarger(exp, page);
        }
      }
    }

    /** The second half of a block goes back to the list of its size. */
    method PutHalf(exp: nat, buddy: nat, ghost live: seq<Block>)
      requires Linking() && BUDDY_MIN <= exp < EXP_LIMIT && s.live == live + [Block(buddy, exp + 1)]
      modifies this, lists
      ensures lists.Length == BUDDY_LISTS && Linked(cells, lists[..], s.free)
      ensures s == Cut(old(s), live, buddy, exp)
      ensures Same(live, old(cells), cells)
    {
      var k, split := exp - BUDDY_MIN, buddy + Pow2(exp);
      assert Pow2(exp + 1) == Pow2(exp) + Pow2(exp) && InBlock(s.live[|live|], split);
      LiveNotFree(s, |live|, split);
      forall i | 0 <= i < |live| ensures live[i].addr != split {
        LiveApart(s, |live|, i, split);
        assert s.live[i] == live[i];
      }
      PushLinked(cells, lists[..], s.free, k, split);
      ghost var ls := lists[..][k := split];
      cells := cells[split := Next(lists[k])];
      lists[k] := split;
      assert lists[..] == ls;
      s := Cut(s, live, buddy, exp);
    }

    /** buddy_exp. */
    method SizeExponent(sz: nat) returns (exp: nat)
      requires sz <= LARGEST
      ensures exp == BuddyExp(sz)
    {
      var e: int := 0;
      LargestIs(EXP_LIMIT);
      while sz > Pow2(e)
        invariant 0 <= e <= EXP_LIMIT && (e > 0 ==> Pow2(e - 1) < sz)
        decreases EXP_LIMIT - e
      {
        e := e + 1;
      }
      ghost var least: nat := e;
      if e > BUDDY_MAX {
        e := 0;
      }
      if e < BUDDY_MIN {
        Pow2Monotone(least, BUDDY_MIN);
        e := BUDDY_MIN;
      }
      ExpIs(sz, e);
      exp := e;
    }

    /** kmalloc; 0 stands for NULL. */
    method KmallocAt(sz: nat, page: nat) returns (addr: nat)
      requires Valid() && sz + PREFIX <= LARGEST && PageOk(s, BuddyExp(sz + PREFIX), page)
      modifies this, lists
      ensures Kmalloc(old(s), sz, page) == (s, Answer(addr))
      ensures Valid()
    {
      if sz == 0 {
        return 0;
      }
      var exp := SizeExponent(sz + PREFIX);
      var buddy := Take(exp, page);
      addr := if buddy != 0 then buddy + PREFIX else 0;
      YieldsKmalloc(old(s), sz, page, s, buddy);
    }

    /** A block of the given exponent with its prefix set up. */
    method Take(exp: nat, page: nat) returns (buddy: nat)
      requires Valid() && BUDDY_MIN <= exp <= EXP_LIMIT && PageOk(s, exp, page)
      modifies this, lists
      ensures Yields(old(s), exp, page, s, Answer(buddy))
      ensures Valid()
    {
      ghost var before, was := s, cells;
      buddy := GetBuddy(exp, page);
      YieldsKeeps(before, exp, page, s, Answer(buddy));
      if buddy != 0 {
        SetPrefix(buddy, exp, before.live, was);
      }
    }

    method SetPrefix(buddy: nat, exp: nat, ghost live: seq<Block>, ghost was: map<nat, Cell>)
      requires Linking() && s.live == live + [Block(buddy, exp)] && buddy != 0
      requires Prefixed(was, live) && Same(live, was, cells)
      modifies this`cells
      ensures Valid()
    {
      assert InBlock(s.live[|live|], buddy);
      LiveNotFree(s, |live|, buddy);
      PrefixLinked(cells, lists[..], s.free, buddy, Prefix(exp, BUDDY_MAGIC));
      PrefixedPush(was, cells, s, live, Block(buddy, exp));
      cells := cells[buddy := Prefix(exp, BUDDY_MAGIC)];
    }

    /** kfree of NULL or of the live block at place i. */
    method KfreeAt(addr: nat, ghost i: nat)
      requires Valid() && (addr == 0 || (i < |s.live| && addr == s.live[i].addr + PREFIX))
      modifies this, lists
      ensures Valid() && (if addr == 0 then s == old(s) else LiveOk(old(s).live, i) && s == Kfree(old(s), i))
      ensures addr != 0 ==> lists[old(s).live[i].exp - BUDDY_MIN] == addr - PREFIX
    {
      if addr != 0 {
        var buddy := addr - PREFIX;
        if cells[buddy].magic == BUDDY_MAGIC {
          PutBuddy(buddy, i);
        }
      }
    }

    /** buddy_put. */
    method PutBuddy(buddy: nat, ghost i: nat)
      requires Valid() && i < |s.live| && buddy == s.live[i].addr
      modifies this, lists
      ensures Valid() && LiveOk(old(s).live, i) && s == Kfree(old(s), i)
      ensures lists[old(s).live[i].exp - BUDDY_MIN] == buddy
    {
      ghost var live := s.live;
      KfreeKeeps(s, i);
      var k := cells[buddy].exponent - BUDDY_MIN;
      assert InBlock(live[i], buddy);
      LiveNotFree(s, i, buddy);
      forall j | 0 <= j < |live| && j != i ensures live[j].addr != buddy {
        LiveApart(s, if i < j then j else i, if i < j then i else j, buddy);
      }
      PushLinked(cells, lists[..], s.free, k, buddy);
      ghost var ls := lists[..][k := buddy];
      cells := cells[buddy := Next(lists[k])];
      lists[k] := buddy;
      assert lists[..] == ls;
      s := Kfree(s, i);
    }
  }
}
