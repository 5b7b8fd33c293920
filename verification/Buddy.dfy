/** The buddy allocator of mm/malloc.c on values. */
module Buddy {
  import opened Options
  import opened Powers

  const BUDDY_MAX: nat := 32
  const BUDDY_MIN: nat := 6
  const BUDDY_ALLOC: nat := 16
  const BUDDY_LISTS: nat := BUDDY_MAX - BUDDY_MIN + 1
  /** The largest exponent a request leads to: beyond it the shifts of the source overflow. */
  const EXP_LIMIT: nat := 30
  const LARGEST: nat := 0x4000_0000
  const PREFIX: nat := 8

  datatype Block = Block(addr: nat, exp: nat)

  /**
   free holds the list of each exponent, first element first; live the blocks handed out, got the
   regions obtained from palloc.
   */
  datatype State = State(free: seq<seq<nat>>, live: seq<Block>, got: seq<Block>)

  // ---------- sums over blocks ----------

  /** Something that is shared out between the halves when a block is split. */
  ghost predicate Additive(f: (nat, nat) -> nat) {
    forall a: nat, e: nat :: SplitsAt(f, a, e)
  }

  predicate SplitsAt(f: (nat, nat) -> nat, a: nat, e: nat) {
    f(a, e + 1) == f(a, e) + f(a + Pow2(e), e)
  }

  function ListWeight(l: seq<nat>, e: nat, f: (nat, nat) -> nat): nat {
    if l == [] then 0 else f(l[0], e) + ListWeight(l[1..], e, f)
  }

  function FreeWeight(free: seq<seq<nat>>, f: (nat, nat) -> nat): nat {
    if free == [] then 0
    else FreeWeight(free[..|free| - 1], f) + ListWeight(free[|free| - 1], |free| - 1 + BUDDY_MIN, f)
  }

  function BlocksWeight(bs: seq<Block>, f: (nat, nat) -> nat): nat {
    if bs == [] then 0 else BlocksWeight(bs[..|bs| - 1], f) + f(bs[|bs| - 1].addr, bs[|bs| - 1].exp)
  }

  lemma {:induction false} FreeUpdate(free: seq<seq<nat>>, i: nat, l: seq<nat>, f: (nat, nat) -> nat)
    requires i < |free|
    ensures FreeWeight(free[i := l], f) + ListWeight(free[i], i + BUDDY_MIN, f)
         == FreeWeight(free, f) + ListWeight(l, i + BUDDY_MIN, f)
  {
    var n := |free| - 1;
    if i == n {
      assert free[i := l][..n] == free[..n];
    } else {
      FreeUpdate(free[..n], i, l, f);
      assert free[i := l][..n] == free[..n][i := l];
    }
  }

  lemma BlocksAppend(bs: seq<Block>, b: Block, f: (nat, nat) -> nat)
    ensures BlocksWeight(bs + [b], f) == BlocksWeight(bs, f) + f(b.addr, b.exp)
  {
    assert (bs + [b])[..|bs|] == bs;
  }

  lemma {:induction false} BlocksRemove(bs: seq<Block>, i: nat, f: (nat, nat) -> nat)
    requires i < |bs|
    ensures BlocksWeight(bs[..i] + bs[i + 1..], f) + f(bs[i].addr, bs[i].exp) == BlocksWeight(bs, f)
  {
    var n := |bs| - 1;
    if i == n {
      assert bs[..i] + bs[i + 1..] == bs[..n];
    } else {
      BlocksRemove(bs[..n], i, f);
      assert bs[..n][..i] + bs[..n][i + 1..] == (bs[..i] + bs[i + 1..])[..n - 1];
    }
  }

  // ---------- the functions of the source ----------

  /** Some list from exp up to BUDDY_MAX - 1 has an element. */
  predicate LargeAvail(free: seq<seq<nat>>, exp: nat)
    requires |free| == BUDDY_LISTS && BUDDY_MIN <= exp <= BUDDY_MAX
    decreases BUDDY_MAX - exp
  {
    exp < BUDDY_MAX && (free[exp - BUDDY_MIN] != [] || LargeAvail(free, exp + 1))
  }

  /**
   buddy_get: the block ends up at the end of live. page is what palloc answers if it is called,
   0 for a failure.
   */
  function Get(s: State, exp: nat, page: nat): (State, Option<nat>)
    requires |s.free| == BUDDY_LISTS && BUDDY_MIN <= exp < BUDDY_MAX
    ensures |Get(s, exp, page).0.free| == BUDDY_LISTS
    ensures Get(s, exp, page).1.Some? ==>
      Get(s, exp, page).0.live == s.live + [Block(Get(s, exp, page).1.value, exp)]
    decreases BUDDY_MAX - exp
  {
    var k := exp - BUDDY_MIN;
    if s.free[k] != [] then (Pop(s, k), Some(s.free[k][0]))
    else if exp >= BUDDY_ALLOC && !LargeAvail(s.free, exp) then
      if page == 0 then (s, None)
      else (s.(live := s.live + [Block(page, exp)], got := s.got + [Block(page, exp)]), Some(page))
    else
      assert LargeAvail(s.free, exp) ==> LargeAvail(s.free, exp + 1);
      var (s1, r) := Get(s, exp + 1, page);
      if r.None? then (s1, None)
      else (Cut(s1, s.live, r.value, exp), r)
  }

  /** The first half of a split block stays live, behind the blocks of live; the second goes to the list. */
  function Cut(s: State, live: seq<Block>, a: nat, exp: nat): State
    requires |s.free| == BUDDY_LISTS && BUDDY_MIN <= exp < BUDDY_MAX
  {
    var k := exp - BUDDY_MIN;
    s.(free := s.free[k := [a + Pow2(exp)] + s.free[k]], live := live + [Block(a, exp)])
  }

  function Pop(s: State, k: nat): State
    requires k < |s.free| && s.free[k] != []
  {
    s.(free := s.free[k := s.free[k][1..]], live := s.live + [Block(s.free[k][0], k + BUDDY_MIN)])
  }

  lemma GetPop(s: State, exp: nat, page: nat)
    requires |s.free| == BUDDY_LISTS && BUDDY_MIN <= exp < BUDDY_MAX && s.free[exp - BUDDY_MIN] != []
    ensures Get(s, exp, page) == (Pop(s, exp - BUDDY_MIN), Some(s.free[exp - BUDDY_MIN][0]))
  {}

  lemma GetNew(s: State, exp: nat, page: nat)
    requires |s.free| == BUDDY_LISTS && BUDDY_ALLOC <= exp < BUDDY_MAX && !LargeAvail(s.free, exp)
    ensures Get(s, exp, page) ==
      if page == 0 then (s, None)
      else (s.(live := s.live + [Block(page, exp)], got := s.got + [Block(page, exp)]), Some(page))
  {
    assert s.free[exp - BUDDY_MIN] == [];
  }

  lemma GetLarger(s: State, exp: nat, page: nat)
    requires |s.free| == BUDDY_LISTS && BUDDY_MIN <= exp < BUDDY_MAX && s.free[exp - BUDDY_MIN] == []
    requires exp < BUDDY_ALLOC || LargeAvail(s.free, exp)
    ensures exp + 1 < BUDDY_MAX && LargeAvail(s.free, exp + 1) == LargeAvail(s.free, exp)
    ensures
      var (s1, r) := Get(s, exp + 1, page);
      Get(s, exp, page) == if r.None? then (s1, None) else (Cut(s1, s.live, r.value, exp), r)
  {
    assert LargeAvail(s.free, exp) ==> LargeAvail(s.free, exp + 1);
  }

  function Exp(n: nat, from: nat): (e: nat)
    requires BUDDY_MIN <= from
    ensures from <= e && n <= Pow2(e)
    ensures e == from || Pow2(e - 1) < n
    decreases n - Pow2(from)
  {
    if n <= Pow2(from) then from else Exp(n, from + 1)
  }

  /** The largest request is 2^30 bytes. */
  lemma LargestIs(k: nat)
    requires k == EXP_LIMIT
    ensures Pow2(k) == LARGEST
  {
    TenBits(k - 10);
    TenBits(k - 20);
    TenBits(k - 30);
  }

  lemma ExpLimit(n: nat)
    requires n <= LARGEST
    ensures Exp(n, BUDDY_MIN) <= EXP_LIMIT
  {
    var e, k := Exp(n, BUDDY_MIN), EXP_LIMIT;
    LargestIs(k);
    if e > k {
      Pow2Monotone(k, e - 1);
    }
  }

  /** The smallest exponent, at least BUDDY_MIN, whose block holds n bytes. */
  function BuddyExp(n: nat): (e: nat)
    requires n <= LARGEST
    ensures BUDDY_MIN <= e <= EXP_LIMIT && n <= Pow2(e) && (e == BUDDY_MIN || Pow2(e - 1) < n)
  {
    ExpLimit(n);
    Exp(n, BUDDY_MIN)
  }

  function Kmalloc(s: State, sz: nat, page: nat): (State, Option<nat>)
    requires |s.free| == BUDDY_LISTS && sz + PREFIX <= LARGEST
  {
    if sz == 0 then (s, None)
    else
      var answer := Get(s, BuddyExp(sz + PREFIX), page);
      (answer.0, HidePrefix(answer.1))
  }

  function HidePrefix(buddy: Option<nat>): Option<nat> {
    match buddy
    case None => None
    case Some(a) => Some(a + PREFIX)
  }

  /** kfree of the live block at place i. */
  function Kfree(s: State, i: nat): State
    requires |s.free| == BUDDY_LISTS && i < |s.live| && BUDDY_MIN <= s.live[i].exp <= BUDDY_MAX
  {
    var k := s.live[i].exp - BUDDY_MIN;
    s.(free := s.free[k := [s.live[i].addr] + s.free[k]], live := s.live[..i] + s.live[i + 1..])
  }

  // ---------- conservation ----------

  ghost predicate Conserved(s: State, f: (nat, nat) -> nat) {
    FreeWeight(s.free, f) + BlocksWeight(s.live, f) == BlocksWeight(s.got, f)
  }

  lemma PopConserves(s: State, k: nat, f: (nat, nat) -> nat)
    requires k < |s.free| && s.free[k] != [] && Conserved(s, f)
    ensures Conserved(Pop(s, k), f)
  {
    FreeUpdate(s.free, k, s.free[k][1..], f);
    BlocksAppend(s.live, Block(s.free[k][0], k + BUDDY_MIN), f);
  }

  lemma {:induction false} GetConserves(s: State, exp: nat, page: nat, f: (nat, nat) -> nat)
    requires |s.free| == BUDDY_LISTS && BUDDY_MIN <= exp < BUDDY_MAX && Additive(f) && Conserved(s, f)
    ensures Conserved(Get(s, exp, page).0, f)
    decreases BUDDY_MAX - exp
  {
    var k := exp - BUDDY_MIN;
    if s.free[k] != [] {
      GetPop(s, exp, page);
      PopConserves(s, k, f);
    } else if exp >= BUDDY_ALLOC && !LargeAvail(s.free, exp) {
      GetNew(s, exp, page);
      BlocksAppend(s.live, Block(page, exp), f);
      BlocksAppend(s.got, Block(page, exp), f);
    } else {
      GetLarger(s, exp, page);
      GetConserves(s, exp + 1, page, f);
      var (s1, r) := Get(s, exp + 1, page);
      if r.Some? {
        SplitConserves(s1, s.live, r.value, exp, f);
      }
    }
  }

  lemma SplitConserves(s: State, live: seq<Block>, a: nat, exp: nat, f: (nat, nat) -> nat)
    requires |s.free| == BUDDY_LISTS && BUDDY_MIN <= exp < BUDDY_MAX && Additive(f) && Conserved(s, f)
    requires s.live == live + [Block(a, exp + 1)]
    ensures Conserved(Cut(s, live, a, exp), f)
  {
    var k := exp - BUDDY_MIN;
    assert SplitsAt(f, a, exp);
    BlocksAppend(live, Block(a, exp + 1), f);
    BlocksAppend(live, Block(a, exp), f);
    var l := [a + Pow2(exp)] + s.free[k];
    FreeUpdate(s.free, k, l, f);
    assert l[1..] == s.free[k];
  }

  lemma KfreeConserves(s: State, i: nat, f: (nat, nat) -> nat)
    requires |s.free| == BUDDY_LISTS && i < |s.live| && BUDDY_MIN <= s.live[i].exp <= BUDDY_MAX && Conserved(s, f)
    ensures Conserved(Kfree(s, i), f)
  {
    var k := s.live[i].exp - BUDDY_MIN;
    var l := [s.live[i].addr] + s.free[k];
    FreeUpdate(s.free, k, l, f);
    BlocksRemove(s.live, i, f);
    assert l[1..] == s.free[k];
  }

  // ---------- when palloc is called ----------

  /** palloc is called exactly when every list from exp up to BUDDY_MAX - 1 is empty, and then once. */
  lemma {:induction false} PallocExactly(s: State, exp: nat, page: nat)
    requires |s.free| == BUDDY_LISTS && BUDDY_MIN <= exp < BUDDY_MAX
    ensures
      var (s', r) := Get(s, exp, page);
      var big := if exp >= BUDDY_ALLOC then exp else BUDDY_ALLOC;
      if LargeAvail(s.free, exp) then r.Some? && s'.got == s.got
      else if page == 0 then r.None? && s' == s
      else r == Some(page) && s'.got == s.got + [Block(page, big)]
    decreases BUDDY_MAX - exp
  {
    if s.free[exp - BUDDY_MIN] == [] && (exp < BUDDY_ALLOC || LargeAvail(s.free, exp)) {
      assert LargeAvail(s.free, exp) ==> LargeAvail(s.free, exp + 1);
      PallocExactly(s, exp + 1, page);
    }
  }

  // ---------- bytes ----------

  /** The weight that counts bytes, and the weight that counts the blocks a byte lies in. */
  function Size(): (nat, nat) -> nat {
    (a: nat, e: nat) => Pow2(e)
  }

  function At(x: nat): (nat, nat) -> nat {
    (a: nat, e: nat) => if a <= x < a + Pow2(e) then 1 else 0
  }

  lemma SizeAdditive()
    ensures Additive(Size())
  {}

  lemma AtAdditive(x: nat)
    ensures Additive(At(x))
  {
    forall a: nat, e: nat ensures SplitsAt(At(x), a, e) {
      assert Pow2(e + 1) == Pow2(e) + Pow2(e);
    }
  }

  // ---------- runs ----------

  datatype Step = Malloc(sz: nat, page: nat) | Free(i: nat)

  /** The size palloc is asked for when a request of exponent exp finds no free block. */
  function Ask(exp: nat): nat {
    if exp >= BUDDY_ALLOC then exp else BUDDY_ALLOC
  }

  /** palloc hands out regions it has not handed out before. */
  ghost predicate Unused(got: seq<Block>, page: nat, exp: nat) {
    forall x: nat :: page <= x < page + Pow2(exp) ==> BlocksWeight(got, At(x)) == 0
  }

  ghost predicate Enabled(s: State, a: Step) {
    match a
    case Malloc(sz, page) =>
      sz + PREFIX <= LARGEST && (page == 0 || Unused(s.got, page, Ask(BuddyExp(sz + PREFIX))))
    case Free(i) => i < |s.live|
  }

  ghost function Do(s: State, a: Step): State
    requires Shape(s) && Enabled(s, a)
  {
    match a
    case Malloc(sz, page) => Kmalloc(s, sz, page).0
    case Free(i) => assert LiveOk(s.live, i); Kfree(s, i)
  }

  predicate LiveOk(live: seq<Block>, i: nat) {
    i < |live| ==> BUDDY_MIN <= live[i].exp <= EXP_LIMIT
  }

  /** No block is larger than a request can lead to, so the lists beyond that stay empty. */
  ghost predicate Shape(s: State) {
    && |s.free| == BUDDY_LISTS && (forall i: nat :: LiveOk(s.live, i))
    && (forall k: nat :: EXP_LIMIT - BUDDY_MIN < k < BUDDY_LISTS ==> s.free[k] == [])
  }

  ghost predicate Inv(s: State) {
    && Shape(s) && Conserved(s, Size())
    && (forall x: nat :: ByteOk(s, x))
  }

  /** A byte lies in one block if palloc gave it to the allocator, and else in none. */
  ghost predicate ByteOk(s: State, x: nat) {
    Conserved(s, At(x)) && BlocksWeight(s.got, At(x)) <= 1
  }

  ghost predicate Init(s: State) {
    s == State(seq(BUDDY_LISTS, i => []), [], [])
  }

  lemma {:induction false} EmptyWeight(free: seq<seq<nat>>, f: (nat, nat) -> nat)
    requires forall k :: 0 <= k < |free| ==> free[k] == []
    ensures FreeWeight(free, f) == 0
  {
    if free != [] {
      EmptyWeight(free[..|free| - 1], f);
    }
  }

  lemma InitInv(s: State)
    requires Init(s)
    ensures Inv(s)
  {
    EmptyWeight(s.free, Size());
    forall x: nat ensures ByteOk(s, x) {
      EmptyWeight(s.free, At(x));
    }
  }

  lemma {:induction false} GetShape(s: State, exp: nat, page: nat)
    requires Shape(s) && BUDDY_MIN <= exp <= EXP_LIMIT
    ensures Shape(Get(s, exp, page).0.(live := s.live))
    decreases EXP_LIMIT - exp
  {
    if s.free[exp - BUDDY_MIN] == [] && (exp < BUDDY_ALLOC || LargeAvail(s.free, exp)) {
      NoneLarger(s);
      GetShape(s, exp + 1, page);
    }
  }

  lemma NoneLarger(s: State)
    requires Shape(s)
    ensures !LargeAvail(s.free, EXP_LIMIT + 1)
  {
    assert !LargeAvail(s.free, BUDDY_MAX);
  }

  /** What kmalloc hands out is a new live block that holds the prefix and sz bytes. */
  lemma KmallocGives(s: State, sz: nat, page: nat)
    requires Shape(s) && sz + PREFIX <= LARGEST
    ensures Shape(Kmalloc(s, sz, page).0)
    ensures
      var (s', r) := Kmalloc(s, sz, page);
      match r
      case None => s' == s && (sz == 0 || (page == 0 && !LargeAvail(s.free, BuddyExp(sz + PREFIX))))
      case Some(a) =>
        && sz > 0 && a >= PREFIX && |s'.live| == |s.live| + 1 && s'.live[..|s.live|] == s.live
        && var b := s'.live[|s.live|];
           a == b.addr + PREFIX && a + sz <= b.addr + Pow2(b.exp)
  {
    if sz > 0 {
      var e := BuddyExp(sz + PREFIX);
      PallocExactly(s, e, page);
      GetShape(s, e, page);
      var (s', r) := Get(s, e, page);
      forall i: nat ensures LiveOk(s'.live, i) {
        assert LiveOk(s.live, i);
      }
    }
  }

  /** palloc will not be called, fails, or answers with a region that is new. */
  ghost predicate PageOk(s: State, exp: nat, page: nat)
    requires |s.free| == BUDDY_LISTS && BUDDY_MIN <= exp <= BUDDY_MAX
  {
    LargeAvail(s.free, exp) || page == 0 || Unused(s.got, page, Ask(exp))
  }

  /** A region palloc adds is new, so no byte is obtained twice. */
  lemma GotOnce(s: State, exp: nat, page: nat, x: nat)
    requires Shape(s) && BUDDY_MIN <= exp <= EXP_LIMIT && PageOk(s, exp, page) && BlocksWeight(s.got, At(x)) <= 1
    ensures BlocksWeight(Get(s, exp, page).0.got, At(x)) <= 1
  {
    PallocExactly(s, exp, page);
    BlocksAppend(s.got, Block(page, Ask(exp)), At(x));
  }

  lemma GetKeeps(s: State, exp: nat, page: nat)
    requires Inv(s) && BUDDY_MIN <= exp <= EXP_LIMIT && PageOk(s, exp, page)
    ensures Inv(Get(s, exp, page).0)
  {
    var s', r := Get(s, exp, page).0, Get(s, exp, page).1;
    PallocExactly(s, exp, page);
    GetShape(s, exp, page);
    forall i: nat ensures LiveOk(s'.live, i) {
      assert LiveOk(s.live, i);
    }
    SizeAdditive();
    GetConserves(s, exp, page, Size());
    forall x: nat ensures ByteOk(s', x) {
      assert ByteOk(s, x);
      AtAdditive(x);
      GetConserves(s, exp, page, At(x));
      GotOnce(s, exp, page, x);
    }
  }

  lemma KfreeKeeps(s: State, i: nat)
    requires Inv(s) && i < |s.live|
    ensures LiveOk(s.live, i) && Inv(Kfree(s, i))
  {
    assert LiveOk(s.live, i);
    var s' := Kfree(s, i);
    forall j: nat ensures LiveOk(s'.live, j) {
      assert LiveOk(s.live, if j < i then j else j + 1);
    }
    KfreeConserves(s, i, Size());
    forall x: nat ensures ByteOk(s', x) {
      assert ByteOk(s, x);
      KfreeConserves(s, i, At(x));
    }
  }

  /** A larger block is asked for only below the limit, and palloc's answer serves it as well. */
  lemma LargerReady(s: State, exp: nat, page: nat)
    requires Shape(s) && BUDDY_MIN <= exp <= EXP_LIMIT && PageOk(s, exp, page)
    requires s.free[exp - BUDDY_MIN] == [] && (exp < BUDDY_ALLOC || LargeAvail(s.free, exp))
    ensures exp + 1 <= EXP_LIMIT && PageOk(s, exp + 1, page)
  {
    NoneLarger(s);
    GetLarger(s, exp, page);
    if !LargeAvail(s.free, exp) {
      assert Ask(exp + 1) == Ask(exp);
    }
  }

  lemma KmallocKeeps(s: State, sz: nat, page: nat)
    requires Inv(s) && sz + PREFIX <= LARGEST && PageOk(s, BuddyExp(sz + PREFIX), page)
    ensures Inv(Kmalloc(s, sz, page).0)
  {
    if sz > 0 {
      GetKeeps(s, BuddyExp(sz + PREFIX), page);
    }
  }

  lemma StepKeeps(s: State, a: Step)
    requires Inv(s) && Enabled(s, a)
    ensures Inv(Do(s, a))
  {
    match a
    case Malloc(sz, page) => KmallocKeeps(s, sz, page);
    case Free(i) => KfreeKeeps(s, i);
  }

  ghost predicate Next(s: State, a: Step, s': State) {
    Shape(s) && Enabled(s, a) && s' == Do(s, a)
  }

  ghost predicate IsRun(run: seq<State>, steps: seq<Step>) {
    && |run| == |steps| + 1 && Init(run[0])
    && forall i :: 0 <= i < |steps| ==> Next(run[i], steps[i], run[i + 1])
  }

  lemma {:induction false} RunKeeps(run: seq<State>, steps: seq<Step>, k: nat)
    requires IsRun(run, steps) && k < |run|
    ensures Inv(run[k])
  {
    if k == 0 {
      InitInv(run[0]);
    } else {
      RunKeeps(run, steps, k - 1);
      assert Next(run[k - 1], steps[k - 1], run[k]);
      StepKeeps(run[k - 1], steps[k - 1]);
    }
  }

  // ---------- what the invariant says about blocks ----------

  predicate InBlock(b: Block, x: nat) {
    b.addr <= x < b.addr + Pow2(b.exp)
  }

  /** The blocks of all free lists, list after list. */
  function FreeBlocks(free: seq<seq<nat>>): seq<Block> {
    if free == [] then []
    else FreeBlocks(free[..|free| - 1]) + ListBlocks(free[|free| - 1], |free| - 1 + BUDDY_MIN)
  }

  function ListBlocks(l: seq<nat>, e: nat): seq<Block> {
    seq(|l|, i requires 0 <= i < |l| => Block(l[i], e))
  }

  lemma {:induction false} ListSame(l: seq<nat>, e: nat, f: (nat, nat) -> nat)
    ensures BlocksWeight(ListBlocks(l, e), f) == ListWeight(l, e, f)
  {
    if l != [] {
      ListSame(l[1..], e, f);
      assert ListBlocks(l, e) == [Block(l[0], e)] + ListBlocks(l[1..], e);
      BlocksConcat([Block(l[0], e)], ListBlocks(l[1..], e), f);
      assert [Block(l[0], e)][..0] == [];
    }
  }

  lemma {:induction false} BlocksConcat(a: seq<Block>, b: seq<Block>, f: (nat, nat) -> nat)
    ensures BlocksWeight(a + b, f) == BlocksWeight(a, f) + BlocksWeight(b, f)
  {
    if b == [] {
      assert a + b == a;
    } else {
      BlocksConcat(a, b[..|b| - 1], f);
      assert (a + b)[..|a + b| - 1] == a + b[..|b| - 1];
    }
  }

  lemma {:induction false} FreeSame(free: seq<seq<nat>>, f: (nat, nat) -> nat)
    ensures BlocksWeight(FreeBlocks(free), f) == FreeWeight(free, f)
  {
    if free != [] {
      var n := |free| - 1;
      FreeSame(free[..n], f);
      ListSame(free[n], n + BUDDY_MIN, f);
      BlocksConcat(FreeBlocks(free[..n]), ListBlocks(free[n], n + BUDDY_MIN), f);
    }
  }

  lemma {:induction false} TwoCover(bs: seq<Block>, i: nat, j: nat, x: nat)
    requires i < |bs| && j <= i && InBlock(bs[i], x) && InBlock(bs[j], x)
    ensures BlocksWeight(bs, At(x)) >= if i == j then 1 else 2
    decreases |bs|
  {
    var n := |bs| - 1;
    if i < n {
      TwoCover(bs[..n], i, j, x);
    } else if j < n {
      TwoCover(bs[..n], j, j, x);
    }
  }

  ghost function Blocks(s: State): seq<Block> {
    FreeBlocks(s.free) + s.live
  }

  /**
   In every state of every run the free and the live blocks together tile exactly what palloc gave:
   no two overlap, every byte obtained lies in one of them, and their sizes add up.
   */
  lemma BuddySafe(run: seq<State>, steps: seq<Step>, k: nat)
    requires IsRun(run, steps) && k < |run|
    ensures
      var bs := Blocks(run[k]);
      && (forall i, j, x: nat :: 0 <= j < i < |bs| && InBlock(bs[i], x) ==> !InBlock(bs[j], x))
      && BlocksWeight(bs, Size()) == BlocksWeight(run[k].got, Size())
      && (forall x: nat {:trigger At(x)} :: BlocksWeight(bs, At(x)) == BlocksWeight(run[k].got, At(x)))
  {
    RunKeeps(run, steps, k);
    var s, bs := run[k], Blocks(run[k]);
    FreeSame(s.free, Size());
    BlocksConcat(FreeBlocks(s.free), s.live, Size());
    forall x: nat ensures BlocksWeight(bs, At(x)) == BlocksWeight(s.got, At(x)) {
      assert ByteOk(s, x);
      FreeSame(s.free, At(x));
      BlocksConcat(FreeBlocks(s.free), s.live, At(x));
    }
    forall i, j, x: nat | 0 <= j < i < |bs| && InBlock(bs[i], x) ensures !InBlock(bs[j], x) {
      assert ByteOk(s, x);
      if InBlock(bs[j], x) {
        TwoCover(bs, i, j, x);
      }
    }
  }

  // ---------- what single calls do ----------

  lemma {:induction false} FreeBlocksPush(free: seq<seq<nat>>, k: nat, a: nat)
    requires k < |free|
    ensures multiset(FreeBlocks(free[k := [a] + free[k]])) ==
      multiset(FreeBlocks(free)) + multiset{Block(a, k + BUDDY_MIN)}
  {
    var n, free' := |free| - 1, free[k := [a] + free[k]];
    if k == n {
      assert free'[..n] == free[..n];
      assert ListBlocks(free'[n], n + BUDDY_MIN) == [Block(a, n + BUDDY_MIN)] + ListBlocks(free[n], n + BUDDY_MIN);
    } else {
      FreeBlocksPush(free[..n], k, a);
      assert free'[..n] == free[..n][k := [a] + free[..n][k]];
    }
  }

  lemma Without(bs: seq<Block>, i: nat)
    requires i < |bs|
    ensures multiset(bs[..i] + bs[i + 1..]) == multiset(bs) - multiset{bs[i]} && bs[i] in multiset(bs)
  {
    assert bs == bs[..i] + [bs[i]] + bs[i + 1..];
  }

  /** kfree: exactly the block goes from the live to the free ones, as the first of its list. */
  lemma KfreeExact(s: State, i: nat)
    requires Shape(s) && i < |s.live|
    ensures LiveOk(s.live, i)
    ensures
      var b, s' := s.live[i], Kfree(s, i);
      var k := b.exp - BUDDY_MIN;
      && multiset(s'.live) == multiset(s.live) - multiset{b} && b in multiset(s.live)
      && multiset(FreeBlocks(s'.free)) == multiset(FreeBlocks(s.free)) + multiset{b}
      && s'.got == s.got && s'.free == s.free[k := [b.addr] + s.free[k]]
  {
    assert LiveOk(s.live, i);
    FreeBlocksPush(s.free, s.live[i].exp - BUDDY_MIN, s.live[i].addr);
    Without(s.live, i);
  }

  /** The next kmalloc of that size gets the block again and asks palloc for nothing. */
  lemma FreedIsReused(s: State, i: nat, sz: nat, page: nat)
    requires Shape(s) && i < |s.live| && 0 < sz && sz + PREFIX <= LARGEST && BuddyExp(sz + PREFIX) == s.live[i].exp
    ensures LiveOk(s.live, i)
    ensures
      var b, (s', r) := s.live[i], Kmalloc(Kfree(s, i), sz, page);
      && r == Some(b.addr + PREFIX) && s'.free == s.free && s'.got == s.got
      && s'.live == s.live[..i] + s.live[i + 1..] + [b]
  {
    KfreeExact(s, i);
    var b := s.live[i];
    var s1, k := Kfree(s, i), b.exp - BUDDY_MIN;
    GetPop(s1, b.exp, page);
    assert s1.free[k][1..] == s.free[k] && s1.free[k := s.free[k]] == s.free;
  }

  /** List e has lost its first block, and every list from exp below it has gained the half split off there. */
  ghost predicate SplitDown(free: seq<seq<nat>>, free': seq<seq<nat>>, exp: nat, e: nat)
    requires |free| == BUDDY_LISTS && BUDDY_MIN <= exp <= e < BUDDY_MAX && free[e - BUDDY_MIN] != []
  {
    var a := free[e - BUDDY_MIN][0];
    && |free'| == BUDDY_LISTS
    && forall k :: 0 <= k < BUDDY_LISTS ==>
         free'[k] ==
           if k == e - BUDDY_MIN then free[k][1..]
           else if exp - BUDDY_MIN <= k < e - BUDDY_MIN then [a + Pow2(k + BUDDY_MIN)] else free[k]
  }

  lemma CutDown(free: seq<seq<nat>>, s: State, live: seq<Block>, exp: nat, e: nat)
    requires |free| == BUDDY_LISTS && BUDDY_MIN <= exp < e < BUDDY_MAX && free[e - BUDDY_MIN] != []
    requires free[exp - BUDDY_MIN] == [] && SplitDown(free, s.free, exp + 1, e)
    ensures SplitDown(free, Cut(s, live, free[e - BUDDY_MIN][0], exp).free, exp, e)
  {}

  /** The request for exp gets the first block of list e, split down to the size asked for. */
  ghost predicate Splits(s: State, exp: nat, e: nat, page: nat)
    requires |s.free| == BUDDY_LISTS && BUDDY_MIN <= exp <= e < BUDDY_MAX && s.free[e - BUDDY_MIN] != []
  {
    var (s', r), a := Get(s, exp, page), s.free[e - BUDDY_MIN][0];
    r == Some(a) && s'.live == s.live + [Block(a, exp)] && s'.got == s.got && SplitDown(s.free, s'.free, exp, e)
  }

  lemma GetSplitsNone(s: State, exp: nat, page: nat)
    requires |s.free| == BUDDY_LISTS && BUDDY_MIN <= exp < BUDDY_MAX && s.free[exp - BUDDY_MIN] != []
    ensures Splits(s, exp, exp, page)
  {
    GetPop(s, exp, page);
  }

  lemma GetSplitsOnce(s: State, exp: nat, e: nat, page: nat)
    requires |s.free| == BUDDY_LISTS && BUDDY_MIN <= exp < e < BUDDY_MAX && s.free[e - BUDDY_MIN] != []
    requires s.free[exp - BUDDY_MIN] == [] && Splits(s, exp + 1, e, page)
    ensures Splits(s, exp, e, page)
  {
    AvailFrom(s.free, exp, e);
    GetLarger(s, exp, page);
    CutDown(s.free, Get(s, exp + 1, page).0, s.live, exp, e);
  }

  /** It is the smallest non-empty list that is large enough whose first block is split. */
  lemma {:induction false} GetSplitsSmallest(s: State, exp: nat, e: nat, page: nat)
    requires |s.free| == BUDDY_LISTS && BUDDY_MIN <= exp <= e < BUDDY_MAX && s.free[e - BUDDY_MIN] != []
    requires forall k :: exp - BUDDY_MIN <= k < e - BUDDY_MIN ==> s.free[k] == []
    ensures Splits(s, exp, e, page)
    decreases e - exp
  {
    if exp == e {
      GetSplitsNone(s, exp, page);
    } else {
      GetSplitsSmallest(s, exp + 1, e, page);
      GetSplitsOnce(s, exp, e, page);
    }
  }

  lemma {:induction false} AvailFrom(free: seq<seq<nat>>, exp: nat, e: nat)
    requires |free| == BUDDY_LISTS && BUDDY_MIN <= exp <= e < BUDDY_MAX && free[e - BUDDY_MIN] != []
    ensures LargeAvail(free, exp)
    decreases e - exp
  {
    if exp < e {
      AvailFrom(free, exp + 1, e);
    }
  }
}
