/** The list of used address ranges of mm/vma.c. Addresses are 64-bit: sums wrap around. */
module Vma {
  import opened Options

  const VMA_MIN: nat := 0xC0000
  const VMA_MAX: nat := 0xFFFF_FE80_0000_0000
  const WORD: nat := 0x1_0000_0000_0000_0000
  const PAGE_SIZE: nat := 0x1000
  const TOP_BIT: nat := 0x8000_0000_0000_0000
  /** Room above VMA_MAX for a size rounded up to pages. */
  const MODERATE: nat := WORD - VMA_MAX - PAGE_SIZE

  datatype Area = Area(start: nat, end: nat, flags: nat)

  datatype Error = EINVAL | ENOMEM

  function Sum(a: nat, b: nat): (s: nat)
    ensures s < WORD
    ensures a + b < WORD ==> s == a + b
  {
    (a + b) % WORD
  }

  /** PAGE_CEIL: the mask clears the offset in the page and the top bit. */
  function PageCeil(size: nat): (n: nat)
    ensures n < TOP_BIT
  {
    Sum(size, PAGE_SIZE - 1) / PAGE_SIZE * PAGE_SIZE % TOP_BIT
  }

  /** Rounding gives the smallest number of whole pages that hold size, or less than size beyond the last such one. */
  lemma PageCeilExact(size: nat)
    requires size < WORD
    ensures PageCeil(size) % PAGE_SIZE == 0
    ensures size <= PageCeil(size) <==> size <= TOP_BIT - PAGE_SIZE
    ensures size <= TOP_BIT - PAGE_SIZE ==> PageCeil(size) < size + PAGE_SIZE
  {
    var s := Sum(size, PAGE_SIZE - 1);
    var pages := s / PAGE_SIZE * PAGE_SIZE;
    assert pages <= s < pages + PAGE_SIZE;
  }

  /** The address belongs to some area. */
  ghost predicate In(l: seq<Area>, x: nat) {
    exists i :: 0 <= i < |l| && Has(l[i], x)
  }

  predicate Has(v: Area, x: nat) {
    v.start <= x < v.end
  }

  /** Sorted by address and without overlap; an area may be empty, as the first one is at boot. */
  ghost predicate Ordered(l: seq<Area>) {
    && (forall i: nat :: AreaOk(l, i))
    && (forall i: nat, j: nat :: Apart(l, i, j))
  }

  predicate AreaOk(l: seq<Area>, i: nat) {
    i < |l| ==> l[i].start <= l[i].end < WORD
  }

  predicate Apart(l: seq<Area>, i: nat, j: nat) {
    i < j < |l| ==> l[i].end <= l[j].start
  }

  /** The gap before place g. */
  function GapStart(l: seq<Area>, g: nat): nat
    requires g <= |l|
  {
    if g == 0 then VMA_MIN else l[g - 1].end
  }

  function GapEnd(l: seq<Area>, g: nat): nat
    requires g <= |l|
  {
    if g < |l| then l[g].start else VMA_MAX
  }

  // ---------- changing the list ----------

  function Insert(l: seq<Area>, g: nat, v: Area): (r: seq<Area>)
    requires g <= |l|
    ensures |r| == |l| + 1
    ensures forall i :: 0 <= i <= |l| ==> r[i] == if i < g then l[i] else if i == g then v else l[i - 1]
  {
    l[..g] + [v] + l[g..]
  }

  /** A new range in gap g: the area before it grows, or a new area is inserted. */
  function Place(l: seq<Area>, g: nat, v: Area): seq<Area>
    requires g <= |l|
  {
    if g > 0 && l[g - 1].end == v.start && l[g - 1].flags == v.flags then l[g - 1 := l[g - 1].(end := v.end)]
    else Insert(l, g, v)
  }

  /** The range lies between its neighbours. */
  ghost predicate FitsGap(l: seq<Area>, g: nat, start: nat, end: nat) {
    g <= |l| && start <= end < WORD && (g > 0 ==> l[g - 1].end <= start) && (g < |l| ==> end <= l[g].start)
  }

  lemma InsertKeeps(l: seq<Area>, g: nat, v: Area)
    requires Ordered(l) && FitsGap(l, g, v.start, v.end)
    ensures Ordered(Insert(l, g, v))
  {
    var r := Insert(l, g, v);
    forall i: nat ensures AreaOk(r, i) {
      assert AreaOk(l, if i < g then i else if i > g then i - 1 else 0);
    }
    forall i: nat, j: nat ensures Apart(r, i, j) {
      if i < j < |r| {
        if i == g {
          assert AreaOk(l, g) && Apart(l, g, j - 1);
        } else if j == g {
          assert AreaOk(l, g - 1) && Apart(l, i, g - 1);
        } else {
          assert Apart(l, if i < g then i else i - 1, if j < g then j else j - 1);
        }
      }
    }
  }

  /** An area changes its bounds between its neighbours. */
  lemma ResizeKeeps(l: seq<Area>, k: nat, v: Area)
    requires Ordered(l) && k < |l| && v.start <= v.end < WORD
    requires (k > 0 ==> l[k - 1].end <= v.start) && (k + 1 < |l| ==> v.end <= l[k + 1].start)
    ensures Ordered(l[k := v])
  {
    var r := l[k := v];
    forall i: nat ensures AreaOk(r, i) {
      assert AreaOk(l, i);
    }
    forall i: nat, j: nat ensures Apart(r, i, j) {
      assert Apart(l, i, j);
      if i == k {
        assert AreaOk(l, k + 1) && Apart(l, k + 1, j);
      } else if j == k > 0 {
        assert AreaOk(l, k - 1) && Apart(l, i, k - 1);
      }
    }
  }

  lemma RemoveKeeps(l: seq<Area>, k: nat)
    requires Ordered(l) && k < |l|
    ensures Ordered(l[..k] + l[k + 1..])
  {
    var r := l[..k] + l[k + 1..];
    forall i: nat ensures AreaOk(r, i) {
      assert AreaOk(l, if i < k then i else i + 1);
    }
    forall i: nat, j: nat ensures Apart(r, i, j) {
      assert Apart(l, if i < k then i else i + 1, if j < k then j else j + 1);
    }
  }

  lemma PlaceKeeps(l: seq<Area>, g: nat, v: Area)
    requires Ordered(l) && FitsGap(l, g, v.start, v.end)
    ensures Ordered(Place(l, g, v))
  {
    if g > 0 && l[g - 1].end == v.start && l[g - 1].flags == v.flags {
      assert AreaOk(l, g - 1) && (g > 1 ==> Apart(l, g - 2, g - 1));
      ResizeKeeps(l, g - 1, l[g - 1].(end := v.end));
    } else {
      InsertKeeps(l, g, v);
    }
  }

  lemma InsertCovers(l: seq<Area>, g: nat, v: Area, x: nat)
    requires g <= |l|
    ensures In(Insert(l, g, v), x) <==> In(l, x) || Has(v, x)
  {
    var r := Insert(l, g, v);
    assert r[g] == v;
    if In(l, x) {
      var i :| 0 <= i < |l| && Has(l[i], x);
      assert r[if i < g then i else i + 1] == l[i];
    }
    if In(r, x) {
      var i :| 0 <= i < |r| && Has(r[i], x);
      assert i != g ==> r[i] == l[if i < g then i else i - 1];
    }
  }

  lemma UpdateCovers(l: seq<Area>, i: nat, v: Area, x: nat)
    requires i < |l|
    ensures In(l[i := v], x) <==> Has(v, x) || exists j :: 0 <= j < |l| && j != i && Has(l[j], x)
  {
    var r := l[i := v];
    assert r[i] == v;
    if j :| 0 <= j < |l| && j != i && Has(l[j], x) {
      assert r[j] == l[j];
    }
  }

  lemma PlaceCovers(l: seq<Area>, g: nat, v: Area, x: nat)
    requires Ordered(l) && FitsGap(l, g, v.start, v.end)
    ensures In(Place(l, g, v), x) <==> In(l, x) || Has(v, x)
  {
    if g > 0 && l[g - 1].end == v.start && l[g - 1].flags == v.flags {
      var grown := l[g - 1].(end := v.end);
      UpdateCovers(l, g - 1, grown, x);
      UpdateCovers(l, g - 1, l[g - 1], x);
      assert l[g - 1 := l[g - 1]] == l;
      assert AreaOk(l, g - 1);
      assert Has(grown, x) <==> Has(l[g - 1], x) || Has(v, x);
    } else {
      InsertCovers(l, g, v, x);
    }
  }

  /** A gap holds no address of the list. */
  lemma GapFree(l: seq<Area>, g: nat, start: nat, end: nat, x: nat)
    requires Ordered(l) && FitsGap(l, g, start, end) && start <= x < end
    ensures !In(l, x)
  {
    forall i | 0 <= i < |l| ensures !Has(l[i], x) {
      assert AreaOk(l, i);
      if i < g {
        assert AreaOk(l, g - 1) && Apart(l, i, g - 1);
      } else {
        assert AreaOk(l, g) && Apart(l, g, i);
      }
    }
  }

  // ---------- vma_alloc ----------

  /** The test of vma_alloc, in 64-bit arithmetic. */
  predicate AllocTest(l: seq<Area>, g: nat, size: nat)
    requires g <= |l|
  {
    var start, end := GapStart(l, g), GapEnd(l, g);
    Sum(start, size) < end && start >= VMA_MIN && Sum(start, size) < VMA_MAX
  }

  /** What the test is meant to say: the gap starts within the bounds and is larger than size. */
  predicate Fits(l: seq<Area>, g: nat, size: nat)
    requires g <= |l|
  {
    var start, end := GapStart(l, g), GapEnd(l, g);
    VMA_MIN <= start && start + size < end && start + size < VMA_MAX
  }

  /** The first gap from g on that passes the test; |l| + 1 when there is none. */
  function FirstGap(l: seq<Area>, g: nat, size: nat): (f: nat)
    requires g <= |l| + 1
    ensures g <= f <= |l| + 1
    ensures f <= |l| ==> AllocTest(l, f, size)
    ensures forall k: nat :: g <= k < f ==> !AllocTest(l, k, size)
    decreases |l| + 1 - g
  {
    if g > |l| || AllocTest(l, g, size) then g else FirstGap(l, g + 1, size)
  }

  /**
   vma_alloc: the new list and the address, 0 for a failure. node says whether kmalloc gives a node
   when one is needed.
   */
  function Alloc(l: seq<Area>, size: nat, flags: nat, node: bool): (seq<Area>, nat) {
    var n := PageCeil(size);
    var g := FirstGap(l, 0, n);
    if g > |l| then (l, 0)
    else
      var start := GapStart(l, g);
      var grows := g > 0 && l[g - 1].flags == flags;
      if !grows && !node then (l, 0) else (Place(l, g, Area(start, Sum(start, n), flags)), start)
  }

  /** A gap that is too small, but whose start plus n wraps around to an address that passes the test. */
  predicate WrapsAt(l: seq<Area>, k: nat, n: nat)
    requires k <= |l|
  {
    var start, end := GapStart(l, k), GapEnd(l, k);
    VMA_MIN <= start && start + n >= WORD && Sum(start, n) < end && Sum(start, n) < VMA_MAX
  }

  /** A gap that fits lies below every gap that wraps. */
  ghost predicate FitsFirst(l: seq<Area>, n: nat) {
    forall k: nat :: k <= |l| && WrapsAt(l, k, n) ==> exists j: nat :: j < k && Fits(l, j, n)
  }

  /** The lowest gap from g on that fits; |l| + 1 when there is none. */
  function LowestFit(l: seq<Area>, g: nat, n: nat): (f: nat)
    requires g <= |l| + 1
    ensures g <= f <= |l| + 1
    ensures f <= |l| ==> Fits(l, f, n)
    ensures forall k: nat :: g <= k < f ==> !Fits(l, k, n)
    decreases |l| + 1 - g
  {
    if g > |l| || Fits(l, g, n) then g else LowestFit(l, g + 1, n)
  }

  /** What the test accepts is what fits and what wraps. */
  lemma TestIs(l: seq<Area>, k: nat, n: nat)
    requires Ordered(l) && k <= |l| && n < WORD
    ensures AllocTest(l, k, n) <==> Fits(l, k, n) || WrapsAt(l, k, n)
    ensures !(Fits(l, k, n) && WrapsAt(l, k, n))
  {
    assert k > 0 ==> AreaOk(l, k - 1);
  }

  /** The gap accepted fits exactly when a gap that fits lies below every gap that wraps. */
  lemma AcceptedFits(l: seq<Area>, n: nat)
    requires Ordered(l) && n < WORD
    ensures
      var g := FirstGap(l, 0, n);
      FitsFirst(l, n) <==> g > |l| || Fits(l, g, n)
    ensures FitsFirst(l, n) ==> FirstGap(l, 0, n) == LowestFit(l, 0, n)
  {
    var g := FirstGap(l, 0, n);
    forall k: nat | k <= |l| && k <= g ensures k < g ==> !Fits(l, k, n) && !WrapsAt(l, k, n) {
      TestIs(l, k, n);
    }
    if g <= |l| {
      TestIs(l, g, n);
    }
  }

  /** vma_alloc returns the lowest gap that fits exactly when one that fits lies below every gap that wraps. */
  lemma AllocLowest(l: seq<Area>, size: nat, flags: nat)
    requires Ordered(l)
    ensures
      var n := PageCeil(size);
      var f := LowestFit(l, 0, n);
      Alloc(l, size, flags, true).1 == (if f <= |l| then GapStart(l, f) else 0) <==> FitsFirst(l, n)
  {
    var n := PageCeil(size);
    AcceptedFits(l, n);
    var g, f := FirstGap(l, 0, n), LowestFit(l, 0, n);
    if g <= |l| {
      TestIs(l, g, n);
    }
  }

  /**
   From the list at boot two requests of the same large size suffice: the second is granted at the end
   of the first, and the only area then ends below its start.
   */
  lemma AllocWraps(flags: nat)
    ensures
      var boot, size := [Area(VMA_MIN, VMA_MIN, flags)], TOP_BIT - PAGE_SIZE;
      var l := Alloc(boot, size, flags, true).0;
      && Ordered(boot) && l == [Area(VMA_MIN, VMA_MIN + size, flags)]
      && !FitsFirst(l, size)
      && Alloc(l, size, flags, true) == ([Area(VMA_MIN, VMA_MIN - 2 * PAGE_SIZE, flags)], VMA_MIN + size)
  {
    var boot, size := [Area(VMA_MIN, VMA_MIN, flags)], TOP_BIT - PAGE_SIZE;
    assert PageCeil(size) == size;
    assert !AllocTest(boot, 0, size) && AllocTest(boot, 1, size);
    var l := [Area(VMA_MIN, VMA_MIN + size, flags)];
    assert Alloc(boot, size, flags, true).0 == l;
    assert Sum(VMA_MIN + size, size) == VMA_MIN - 2 * PAGE_SIZE;
    assert !AllocTest(l, 0, size) && WrapsAt(l, 1, size) && AllocTest(l, 1, size);
    assert !Fits(l, 0, size);
    assert Alloc(l, size, flags, true).0 == [Area(VMA_MIN, VMA_MIN - 2 * PAGE_SIZE, flags)];
  }

  ghost predicate Bounded(l: seq<Area>) {
    forall i: nat :: EndOk(l, i)
  }

  predicate EndOk(l: seq<Area>, i: nat) {
    i < |l| ==> l[i].end <= VMA_MAX
  }

  /** No request of a moderate size wraps while the areas lie below the upper bound. */
  lemma NeverWraps(l: seq<Area>, size: nat)
    requires Bounded(l) && size <= MODERATE
    ensures FitsFirst(l, PageCeil(size)) && size <= PageCeil(size) < WORD - VMA_MAX
  {
    PageCeilExact(size);
    forall k: nat | k <= |l| ensures !WrapsAt(l, k, PageCeil(size)) {
      assert k > 0 ==> EndOk(l, k - 1);
    }
  }

  /** The n bytes from start were free and within the bounds, and are now used with all that was. */
  ghost predicate Served(l: seq<Area>, l': seq<Area>, start: nat, n: nat) {
    && Ordered(l') && VMA_MIN <= start && start + n < VMA_MAX
    && forall x: nat :: ServedAt(l, l', start, n, x)
  }

  ghost predicate ServedAt(l: seq<Area>, l': seq<Area>, start: nat, n: nat, x: nat) {
    && (In(l', x) <==> In(l, x) || start <= x < start + n)
    && !(In(l, x) && start <= x < start + n)
  }

  /**
   A failing vma_alloc changes nothing; one that succeeds hands out free memory exactly when a gap
   that fits lies below every gap that wraps.
   */
  lemma AllocKeeps(l: seq<Area>, size: nat, flags: nat, node: bool)
    requires Ordered(l)
    ensures
      var (l', start) := Alloc(l, size, flags, node);
      && (start == 0 ==> l' == l)
      && (start != 0 ==> (Served(l, l', start, PageCeil(size)) <==> FitsFirst(l, PageCeil(size))))
  {
    var n := PageCeil(size);
    var g := FirstGap(l, 0, n);
    AcceptedFits(l, n);
    if g <= |l| {
      TestIs(l, g, n);
      if Fits(l, g, n) {
        var start := GapStart(l, g);
        var l' := Place(l, g, Area(start, start + n, flags));
        forall x: nat ensures Ordered(l') && ServedAt(l, l', start, n, x) {
          AllocPlace(l, g, n, flags, x);
        }
        AllocPlace(l, g, n, flags, 0);
      }
    }
  }

  lemma AllocPlace(l: seq<Area>, g: nat, size: nat, flags: nat, x: nat)
    requires Ordered(l) && g <= |l| && Fits(l, g, size)
    ensures
      var start := GapStart(l, g);
      var l' := Place(l, g, Area(start, start + size, flags));
      && Ordered(l') && VMA_MIN <= start && start + size < VMA_MAX
      && (In(l', x) <==> In(l, x) || start <= x < start + size)
      && !(In(l, x) && start <= x < start + size)
  {
    var start := GapStart(l, g);
    assert FitsGap(l, g, start, start + size);
    PlaceKeeps(l, g, Area(start, start + size, flags));
    PlaceCovers(l, g, Area(start, start + size, flags), x);
    if start <= x < start + size {
      GapFree(l, g, start, start + size, x);
    }
  }

  // ---------- vma_free ----------

  predicate Contains(v: Area, start: nat, end: nat) {
    start >= v.start && end <= v.end
  }

  /** The first area from i on that contains the range; |l| when there is none. */
  function FirstContaining(l: seq<Area>, i: nat, start: nat, end: nat): (f: nat)
    requires i <= |l|
    ensures i <= f <= |l|
    ensures f < |l| ==> Contains(l[f], start, end)
    ensures forall k :: i <= k < f ==> !Contains(l[k], start, end)
    decreases |l| - i
  {
    if i == |l| || Contains(l[i], start, end) then i else FirstContaining(l, i + 1, start, end)
  }

  function Cut(l: seq<Area>, i: nat, start: nat, end: nat): seq<Area>
    requires i < |l|
  {
    var v := l[i];
    if start == v.start && end == v.end then l[..i] + l[i + 1..]
    else if start == v.start then l[i := v.(start := end)]
    else if end == v.end then l[i := v.(end := start)]
    else Insert(l[i := v.(end := start)], i + 1, v.(start := end))
  }

  function Free(l: seq<Area>, start: nat, end: nat, node: bool): (seq<Area>, Option<Error>) {
    if start >= end then (l, Some(EINVAL))
    else
      var i := FirstContaining(l, 0, start, end);
      if i == |l| then (l, Some(EINVAL))
      else if start != l[i].start && end != l[i].end && !node then (l, Some(ENOMEM))
      else (Cut(l, i, start, end), None)
  }

  /** vma_free will split an area that has a successor. */
  predicate SplitsInside(l: seq<Area>, start: nat, end: nat, node: bool) {
    start < end && node &&
    var i := FirstContaining(l, 0, start, end);
    i < |l| - 1 && start != l[i].start && end != l[i].end
  }

  lemma RemoveCovers(l: seq<Area>, i: nat, x: nat)
    requires i < |l|
    ensures In(l[..i] + l[i + 1..], x) <==> exists j :: 0 <= j < |l| && j != i && Has(l[j], x)
  {
    var r := l[..i] + l[i + 1..];
    if j :| 0 <= j < |l| && j != i && Has(l[j], x) {
      assert r[if j < i then j else j - 1] == l[j];
    }
    if In(r, x) {
      var j :| 0 <= j < |r| && Has(r[j], x);
      assert r[j] == l[if j < i then j else j + 1];
    }
  }

  lemma OnlyOne(l: seq<Area>, i: nat, x: nat)
    requires Ordered(l) && i < |l| && Has(l[i], x)
    ensures forall j :: 0 <= j < |l| && j != i ==> !Has(l[j], x)
  {
    forall j | 0 <= j < |l| && j != i ensures !Has(l[j], x) {
      assert Apart(l, i, j) && Apart(l, j, i);
    }
  }

  lemma CutKeeps(l: seq<Area>, i: nat, start: nat, end: nat)
    requires Ordered(l) && i < |l| && Contains(l[i], start, end) && start < end
    ensures Ordered(Cut(l, i, start, end))
  {
    var v := l[i];
    assert AreaOk(l, i) && Apart(l, i, i + 1) && (i > 0 ==> Apart(l, i - 1, i));
    if start == v.start && end == v.end {
      RemoveKeeps(l, i);
    } else if start == v.start {
      ResizeKeeps(l, i, v.(start := end));
    } else {
      ResizeKeeps(l, i, v.(end := start));
      if end != v.end {
        InsertKeeps(l[i := v.(end := start)], i + 1, v.(start := end));
      }
    }
  }

  lemma CutCovers(l: seq<Area>, i: nat, start: nat, end: nat, x: nat)
    requires Ordered(l) && i < |l| && Contains(l[i], start, end) && start < end
    ensures In(Cut(l, i, start, end), x) <==> In(l, x) && !(start <= x < end)
  {
    var v := l[i];
    UpdateCovers(l, i, v, x);
    assert l[i := v] == l;
    if Has(v, x) {
      OnlyOne(l, i, x);
    }
    if start == v.start && end == v.end {
      RemoveCovers(l, i, x);
    } else if start == v.start {
      UpdateCovers(l, i, v.(start := end), x);
    } else {
      UpdateCovers(l, i, v.(end := start), x);
      if end != v.end {
        InsertCovers(l[i := v.(end := start)], i + 1, v.(start := end), x);
      }
    }
  }

  /** vma_free succeeds exactly when one area holds the range (and a node is there to split it), and removes just it. */
  lemma FreeKeeps(l: seq<Area>, start: nat, end: nat, node: bool, x: nat)
    requires Ordered(l)
    ensures
      var (l', e) := Free(l, start, end, node);
      && Ordered(l') && (e.Some? ==> l' == l)
      && (e.None? ==> (In(l', x) <==> In(l, x) && !(start <= x < end)))
      && (e == Some(EINVAL) <==> start >= end || forall i :: 0 <= i < |l| ==> !Contains(l[i], start, end))
  {
    if start < end {
      var i := FirstContaining(l, 0, start, end);
      if i < |l| {
        CutKeeps(l, i, start, end);
        CutCovers(l, i, start, end, x);
      }
    }
  }

  // ---------- vma_add ----------

  predicate AddTest(l: seq<Area>, g: nat, start: nat, end: nat)
    requires g <= |l|
  {
    (g == 0 || l[g - 1].end <= start) && (g == |l| || l[g].start >= end)
  }

  /** The first gap from g on that passes the test; |l| + 1 when there is none. */
  function FirstRoom(l: seq<Area>, g: nat, start: nat, end: nat): (f: nat)
    requires g <= |l| + 1
    ensures g <= f <= |l| + 1
    ensures f <= |l| ==> AddTest(l, f, start, end)
    ensures forall k: nat :: g <= k < f ==> !AddTest(l, k, start, end)
    decreases |l| + 1 - g
  {
    if g > |l| || AddTest(l, g, start, end) then g else FirstRoom(l, g + 1, start, end)
  }

  function Add(l: seq<Area>, v: Area, node: bool): (seq<Area>, Option<Error>) {
    if v.start >= v.end then (l, Some(EINVAL))
    else
      var g := FirstRoom(l, 0, v.start, v.end);
      if g > |l| then (l, Some(EINVAL))
      else if !(g > 0 && l[g - 1].end == v.start && l[g - 1].flags == v.flags) && !node then (l, Some(ENOMEM))
      else (Place(l, g, v), None)
  }

  /** The area shares an address with the range, or lies inside it. */
  predicate Overlaps(v: Area, start: nat, end: nat) {
    v.start < end && start < v.end
  }

  /** Without overlap there is a gap that passes: the one behind the last area before the range. */
  lemma {:induction false} RoomExists(l: seq<Area>, start: nat, end: nat, g: nat)
    requires g <= |l| && (forall i :: 0 <= i < |l| ==> !Overlaps(l[i], start, end))
    requires start < end && (g == 0 || l[g - 1].end <= start)
    ensures exists k: nat :: g <= k <= |l| && AddTest(l, k, start, end)
    decreases |l| - g
  {
    if g < |l| && l[g].start < end {
      RoomExists(l, start, end, g + 1);
    } else {
      assert AddTest(l, g, start, end);
    }
  }

  /** vma_add succeeds exactly when no area overlaps the range (and a node is there), and adds just it. */
  lemma AddKeeps(l: seq<Area>, v: Area, node: bool, x: nat)
    requires Ordered(l) && v.end < WORD
    ensures
      var (l', e) := Add(l, v, node);
      && Ordered(l') && (e.Some? ==> l' == l)
      && (e.None? ==> (In(l', x) <==> In(l, x) || Has(v, x)) && !(In(l, x) && Has(v, x)))
      && (e == Some(EINVAL) <==> v.start >= v.end || exists i :: 0 <= i < |l| && Overlaps(l[i], v.start, v.end))
  {
    if v.start < v.end {
      var g := FirstRoom(l, 0, v.start, v.end);
      if g <= |l| {
        PlaceKeeps(l, g, v);
        PlaceCovers(l, g, v, x);
        if Has(v, x) {
          GapFree(l, g, v.start, v.end, x);
        }
        forall i | 0 <= i < |l| ensures !Overlaps(l[i], v.start, v.end) {
          if i < g {
            assert AreaOk(l, g - 1) && Apart(l, i, g - 1);
          } else {
            assert AreaOk(l, g) && Apart(l, g, i);
          }
        }
      } else if forall i :: 0 <= i < |l| ==> !Overlaps(l[i], v.start, v.end) {
        RoomExists(l, v.start, v.end, 0);
      }
    }
  }

  // ---------- runs ----------

  datatype Call =
    | AllocCall(size: nat, flags: nat, node: bool)
    | FreeCall(start: nat, end: nat, node: bool)
    | AddCall(v: Area, node: bool)

  function Do(l: seq<Area>, a: Call): seq<Area> {
    match a
    case AllocCall(size, flags, node) => Alloc(l, size, flags, node).0
    case FreeCall(start, end, node) => Free(l, start, end, node).0
    case AddCall(v, node) => Add(l, v, node).0
  }

  /** Sizes are moderate and areas are added below the upper bound. */
  predicate Within(a: Call) {
    match a
    case AllocCall(size, _, _) => size <= MODERATE
    case FreeCall(_, _, _) => true
    case AddCall(v, _) => v.end <= VMA_MAX
  }

  lemma PlaceBounded(l: seq<Area>, g: nat, v: Area)
    requires Bounded(l) && g <= |l| && v.end <= VMA_MAX
    ensures Bounded(Place(l, g, v))
  {
    forall i: nat ensures EndOk(Place(l, g, v), i) {
      assert EndOk(l, i) && (i > 0 ==> EndOk(l, i - 1));
    }
  }

  lemma CutBounded(l: seq<Area>, k: nat, start: nat, end: nat)
    requires Bounded(l) && k < |l| && Contains(l[k], start, end) && start < end
    ensures Bounded(Cut(l, k, start, end))
  {
    assert EndOk(l, k);
    forall i: nat ensures EndOk(Cut(l, k, start, end), i) {
      assert EndOk(l, i) && EndOk(l, i + 1) && (i > 0 ==> EndOk(l, i - 1));
    }
  }

  /** A call within the bounds keeps the list in order and below the upper bound. */
  lemma DoKeeps(l: seq<Area>, a: Call)
    requires Ordered(l) && Bounded(l) && Within(a)
    ensures Ordered(Do(l, a)) && Bounded(Do(l, a))
  {
    match a
    case AllocCall(size, flags, node) =>
      NeverWraps(l, size);
      AllocKeeps(l, size, flags, node);
      var g := FirstGap(l, 0, PageCeil(size));
      AcceptedFits(l, PageCeil(size));
      if g <= |l| {
        PlaceBounded(l, g, Area(GapStart(l, g), Sum(GapStart(l, g), PageCeil(size)), flags));
      }
    case FreeCall(start, end, node) =>
      FreeKeeps(l, start, end, node, 0);
      if start < end && FirstContaining(l, 0, start, end) < |l| {
        CutBounded(l, FirstContaining(l, 0, start, end), start, end);
      }
    case AddCall(v, node) =>
      AddKeeps(l, v, node, 0);
      if v.start < v.end && FirstRoom(l, 0, v.start, v.end) <= |l| {
        PlaceBounded(l, FirstRoom(l, 0, v.start, v.end), v);
      }
  }

  /** The call grants or adds the address; it gives the address back. */
  ghost predicate Takes(l: seq<Area>, a: Call, x: nat) {
    match a
    case AllocCall(size, flags, node) =>
      var start := Alloc(l, size, flags, node).1;
      start != 0 && start <= x < start + PageCeil(size)
    case FreeCall(_, _, _) => false
    case AddCall(v, node) => Add(l, v, node).1.None? && Has(v, x)
  }

  ghost predicate Gives(l: seq<Area>, a: Call, x: nat) {
    a.FreeCall? && Free(l, a.start, a.end, a.node).1.None? && a.start <= x < a.end
  }

  /** After a call within the bounds the used addresses are those it took and those it did not give back. */
  lemma DoUsed(l: seq<Area>, a: Call, x: nat)
    requires Ordered(l) && Bounded(l) && Within(a)
    ensures In(Do(l, a), x) <==> Takes(l, a, x) || (In(l, x) && !Gives(l, a, x))
    ensures !(Takes(l, a, x) && In(l, x))
  {
    match a
    case AllocCall(size, flags, node) =>
      NeverWraps(l, size);
      AllocKeeps(l, size, flags, node);
      var (l', start) := Alloc(l, size, flags, node);
      assert start != 0 ==> ServedAt(l, l', start, PageCeil(size), x);
    case FreeCall(start, end, node) => FreeKeeps(l, start, end, node, x);
    case AddCall(v, node) => AddKeeps(l, v, node, x);
  }

  /** run[i] is the list calls[i] works on; the first one is the list at boot. */
  ghost predicate IsRun(run: seq<seq<Area>>, calls: seq<Call>, flags: nat) {
    && |run| == |calls| + 1 && run[0] == [Area(VMA_MIN, VMA_MIN, flags)]
    && forall i :: 0 <= i < |calls| ==> run[i + 1] == Do(run[i], calls[i])
  }

  ghost predicate AllWithin(calls: seq<Call>) {
    forall i :: 0 <= i < |calls| ==> Within(calls[i])
  }

  /** The address was granted or added by one of the first k calls and not given back since. */
  ghost predicate Held(run: seq<seq<Area>>, calls: seq<Call>, k: nat, x: nat)
    requires k <= |calls| <= |run|
  {
    k > 0 && (Takes(run[k - 1], calls[k - 1], x) || (Held(run, calls, k - 1, x) && !Gives(run[k - 1], calls[k - 1], x)))
  }

  lemma {:induction false} RunKeeps(run: seq<seq<Area>>, calls: seq<Call>, flags: nat, k: nat)
    requires IsRun(run, calls, flags) && AllWithin(calls) && k < |run|
    ensures Ordered(run[k]) && Bounded(run[k])
  {
    if k > 0 {
      RunKeeps(run, calls, flags, k - 1);
      DoKeeps(run[k - 1], calls[k - 1]);
    }
  }

  /** The list always covers exactly the addresses held. */
  lemma {:induction false} UsedIsHeld(run: seq<seq<Area>>, calls: seq<Call>, flags: nat, k: nat, x: nat)
    requires IsRun(run, calls, flags) && AllWithin(calls) && k < |run|
    ensures In(run[k], x) <==> Held(run, calls, k, x)
  {
    if k > 0 {
      UsedIsHeld(run, calls, flags, k - 1, x);
      RunKeeps(run, calls, flags, k - 1);
      DoUsed(run[k - 1], calls[k - 1], x);
    } else {
      assert !Has(run[0][0], x);
    }
  }

  /**
   In every run of calls within the bounds an allocation takes the lowest gap that fits; its memory, at
   least the size asked for, lies within the bounds and is held by nobody.
   */
  lemma AllocSafe(run: seq<seq<Area>>, calls: seq<Call>, flags: nat, k: nat)
    requires IsRun(run, calls, flags) && AllWithin(calls) && k < |calls| && calls[k].AllocCall?
    ensures Ordered(run[k]) && Ordered(run[k + 1])
    ensures
      var a, l := calls[k], run[k];
      var n, start := PageCeil(a.size), Alloc(l, a.size, a.flags, a.node).1;
      var f := LowestFit(l, 0, n);
      && (start == 0 ==> run[k + 1] == l && (f > |l| || !a.node))
      && (start != 0 ==>
            && f <= |l| && start == GapStart(l, f) && VMA_MIN <= start && a.size <= n && start + n < VMA_MAX
            && forall x: nat :: start <= x < start + n ==> !Held(run, calls, k, x))
  {
    RunKeeps(run, calls, flags, k);
    RunKeeps(run, calls, flags, k + 1);
    var a, l := calls[k], run[k];
    NeverWraps(l, a.size);
    AcceptedFits(l, PageCeil(a.size));
    AllocKeeps(l, a.size, a.flags, a.node);
    var n, start := PageCeil(a.size), Alloc(l, a.size, a.flags, a.node).1;
    forall x: nat | start != 0 && start <= x < start + n ensures !Held(run, calls, k, x) {
      UsedIsHeld(run, calls, flags, k, x);
      DoUsed(l, a, x);
    }
  }
}
