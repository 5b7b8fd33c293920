/** The Bentley-McIlroy quicksort of usr/ircce/RCCE_qsort.c, on an array of elements. */
module Quicksort {

  // ---------- orders, zones and permutations ----------

  ghost predicate TotalPreorder<T(!new)>(cmp: (T, T) -> int) {
    && (forall x, y :: cmp(x, y) < 0 <==> cmp(y, x) > 0)
    && (forall x, y, z :: Transitive(cmp, x, y, z))
  }

  predicate Transitive<T>(cmp: (T, T) -> int, x: T, y: T, z: T) {
    cmp(x, y) <= 0 && cmp(y, z) <= 0 ==> cmp(x, z) <= 0
  }

  ghost predicate Sorted<T>(s: seq<T>, lo: int, hi: int, cmp: (T, T) -> int)
    requires 0 <= lo <= hi <= |s|
  {
    forall i, j {:trigger cmp(s[i], s[j])} :: lo <= i < j < hi ==> cmp(s[i], s[j]) <= 0
  }

  function Sign(r: int): (s: int) {
    if r < 0 then -1 else if r == 0 then 0 else 1
  }

  /** Every element of s[lo..hi] compares to v with the given sign. */
  ghost predicate Zone<T>(s: seq<T>, lo: int, hi: int, cmp: (T, T) -> int, v: T, sign: int) {
    forall k :: lo <= k < hi && 0 <= k < |s| ==> Sign(cmp(s[k], v)) == sign
  }

  /** t is s with the elements of [lo, hi) rearranged. */
  ghost predicate Permuted<T>(s: seq<T>, t: seq<T>, lo: int, hi: int) {
    && |s| == |t| && 0 <= lo <= hi <= |s|
    && (forall k :: 0 <= k < |s| && !(lo <= k < hi) ==> t[k] == s[k])
    && multiset(t[lo..hi]) == multiset(s[lo..hi])
  }

  function Swapped<T>(s: seq<T>, i: nat, j: nat): (t: seq<T>)
    requires i < |s| && j < |s|
    ensures |t| == |s| && t[i] == s[j] && t[j] == s[i]
    ensures forall k :: 0 <= k < |s| && k != i && k != j ==> t[k] == s[k]
  {
    s[i := s[j]][j := s[i]]
  }

  lemma SwapPermutes<T>(s: seq<T>, i: nat, j: nat, lo: nat, hi: nat)
    requires lo <= i < hi <= |s| && lo <= j < hi
    ensures Permuted(s, Swapped(s, i, j), lo, hi)
  {
    var t, u := s[lo..hi], Swapped(s, i, j)[lo..hi];
    assert u == t[i - lo := s[j]][j - lo := s[i]];
  }

  /** A rearrangement of a part is one of any larger part. */
  lemma Widen<T>(s: seq<T>, t: seq<T>, lo: nat, hi: nat, lo': nat, hi': nat)
    requires Permuted(s, t, lo, hi) && lo' <= lo && hi <= hi' <= |s|
    ensures Permuted(s, t, lo', hi')
  {
    assert s[lo'..hi'] == s[lo'..lo] + s[lo..hi] + s[hi..hi'];
    assert t[lo'..hi'] == t[lo'..lo] + t[lo..hi] + t[hi..hi'];
    assert t[lo'..lo] == s[lo'..lo] && t[hi..hi'] == s[hi..hi'];
  }

  lemma ZonePermuted<T>(s: seq<T>, t: seq<T>, lo: nat, hi: nat, cmp: (T, T) -> int, v: T, sign: int)
    requires Permuted(s, t, lo, hi) && Zone(s, lo, hi, cmp, v, sign)
    ensures Zone(t, lo, hi, cmp, v, sign)
  {
    forall k | lo <= k < hi ensures Sign(cmp(t[k], v)) == sign {
      assert t[lo..hi][k - lo] in multiset(t[lo..hi]);
      assert t[k] in multiset(s[lo..hi]);
      assert t[k] in s[lo..hi];
    }
  }

  // ---------- the pieces of RCCE_qsort ----------

  method Swap<T>(a: array<T>, i: nat, j: nat, ghost lo: nat, ghost hi: nat)
    requires lo <= i < hi <= a.Length && lo <= j < hi
    modifies a
    ensures a[..] == Swapped(old(a[..]), i, j) && Permuted(old(a[..]), a[..], lo, hi)
  {
    SwapPermutes(a[..], i, j, lo, hi);
    a[i], a[j] := a[j], a[i];
    assert a[..] == Swapped(old(a[..]), i, j);
  }

  /** One of three places, with another one at or below it and another one at or above it. */
  function Med3<T(!new)>(s: seq<T>, i: nat, j: nat, k: nat, cmp: (T, T) -> int): (m: nat)
    requires i < |s| && j < |s| && k < |s| && TotalPreorder(cmp)
    ensures m == i || m == j || m == k
    ensures
      var below := (if cmp(s[i], s[m]) < 0 then 1 else 0) + (if cmp(s[j], s[m]) < 0 then 1 else 0)
        + (if cmp(s[k], s[m]) < 0 then 1 else 0);
      var above := (if cmp(s[i], s[m]) > 0 then 1 else 0) + (if cmp(s[j], s[m]) > 0 then 1 else 0)
        + (if cmp(s[k], s[m]) > 0 then 1 else 0);
      below <= 1 && above <= 1
  {
    if cmp(s[i], s[j]) < 0 then
      if cmp(s[j], s[k]) < 0 then j else if cmp(s[i], s[k]) < 0 then k else i
    else
      if cmp(s[j], s[k]) > 0 then j else if cmp(s[i], s[k]) > 0 then k else i
  }

  /** The element chosen to partition by: the middle, the median of three, or the pseudomedian of nine. */
  method ChoosePivot<T(!new)>(a: array<T>, lo: nat, n: nat, cmp: (T, T) -> int) returns (pm: nat)
    requires 7 <= n && lo + n <= a.Length && TotalPreorder(cmp)
    ensures lo <= pm < lo + n
  {
    pm := lo + n / 2;
    if n > 7 {
      var pl, pn := lo, lo + (n - 1);
      if n > 40 {
        var s := n / 8;
        pl := Med3(a[..], pl, pl + s, pl + 2 * s, cmp);
        pm := Med3(a[..], pm - s, pm, pm + s, cmp);
        pn := Med3(a[..], pn - 2 * s, pn - s, pn, cmp);
      }
      pm := Med3(a[..], pl, pm, pn, cmp);
    }
  }

  // ---------- insertion sort, below seven elements ----------

  /** [lo, hi) is sorted but for the element at place l, which may still have to move down. */
  ghost predicate Sifting<T>(s: seq<T>, lo: int, l: int, hi: int, cmp: (T, T) -> int)
    requires 0 <= lo <= l < hi <= |s|
  {
    && (forall i, j {:trigger cmp(s[i], s[j])} :: lo <= i < j < hi && i != l && j != l ==> cmp(s[i], s[j]) <= 0)
    && (forall j {:trigger cmp(s[l], s[j])} :: l < j < hi ==> cmp(s[l], s[j]) <= 0)
  }

  lemma SiftDown<T(!new)>(s: seq<T>, t: seq<T>, lo: nat, l: nat, hi: nat, cmp: (T, T) -> int)
    requires TotalPreorder(cmp) && lo < l < hi <= |s| && Sifting(s, lo, l, hi, cmp)
    requires cmp(s[l - 1], s[l]) > 0 && t == Swapped(s, l, l - 1)
    ensures Sifting(t, lo, l - 1, hi, cmp)
  {
    forall i, j | lo <= i < j < hi && i != l - 1 && j != l - 1 ensures cmp(t[i], t[j]) <= 0 {
      if j == l {
        assert t[i] == s[i] && t[j] == s[l - 1];
      } else if i == l {
        assert t[i] == s[l - 1] && t[j] == s[j];
      } else {
        assert t[i] == s[i] && t[j] == s[j];
      }
    }
    forall j | l - 1 < j < hi ensures cmp(t[l - 1], t[j]) <= 0 {
      if j > l {
        assert t[j] == s[j];
      }
    }
  }

  lemma SiftDone<T(!new)>(s: seq<T>, lo: nat, l: nat, hi: nat, cmp: (T, T) -> int)
    requires TotalPreorder(cmp) && lo <= l < hi <= |s| && Sifting(s, lo, l, hi, cmp)
    requires l == lo || cmp(s[l - 1], s[l]) <= 0
    ensures Sorted(s, lo, hi, cmp)
  {
    forall i, j | lo <= i < j < hi ensures cmp(s[i], s[j]) <= 0 {
      if j == l && i < l - 1 {
        assert Transitive(cmp, s[i], s[l - 1], s[l]);
      }
    }
  }

  method InsertionSort<T(!new)>(a: array<T>, lo: nat, n: nat, cmp: (T, T) -> int)
    requires lo + n <= a.Length && TotalPreorder(cmp)
    modifies a
    ensures Sorted(a[..], lo, lo + n, cmp) && Permuted(old(a[..]), a[..], lo, lo + n)
  {
    var pm := lo + 1;
    while pm < lo + n
      invariant n > 0 ==> lo < pm <= lo + n
      invariant n > 0 ==> Sorted(a[..], lo, pm, cmp)
      invariant Permuted(old(a[..]), a[..], lo, lo + n)
    {
      Insert(a, lo, pm, cmp, lo + n);
      pm := pm + 1;
    }
  }

  method Insert<T(!new)>(a: array<T>, lo: nat, pm: nat, cmp: (T, T) -> int, ghost hi: nat)
    requires lo <= pm < hi <= a.Length && TotalPreorder(cmp) && Sorted(a[..], lo, pm, cmp)
    modifies a
    ensures Sorted(a[..], lo, pm + 1, cmp) && Permuted(old(a[..]), a[..], lo, hi)
  {
    var pl := pm;
    while pl > lo && cmp(a[pl - 1], a[pl]) > 0
      invariant lo <= pl <= pm && Sifting(a[..], lo, pl, pm + 1, cmp)
      invariant Permuted(old(a[..]), a[..], lo, hi)
    {
      SiftStep(a, lo, pl, pm + 1, cmp, hi);
      pl := pl - 1;
    }
    SiftDone(a[..], lo, pl, pm + 1, cmp);
  }

  method SiftStep<T(!new)>(a: array<T>, lo: nat, pl: nat, ghost end: nat, cmp: (T, T) -> int, ghost hi: nat)
    requires lo < pl < end <= hi <= a.Length && TotalPreorder(cmp) && Sifting(a[..], lo, pl, end, cmp)
    requires cmp(a[pl - 1], a[pl]) > 0
    modifies a
    ensures Sifting(a[..], lo, pl - 1, end, cmp) && Permuted(old(a[..]), a[..], lo, hi)
  {
    Swap(a, pl, pl - 1, lo, hi);
    SiftDown(old(a[..]), a[..], lo, pl, end, cmp);
  }

  // ---------- partitioning ----------

  /** [lo, pa) equals the pivot, [pa, pb) is below it, (pc, pd] above it and (pd, hi) equals it. */
  ghost predicate Parts<T>(s: seq<T>, lo: int, pa: int, pb: int, pc: int, pd: int, hi: int,
                           cmp: (T, T) -> int, v: T) {
    && 0 <= lo <= pa <= pb <= pc + 1 <= pd + 1 <= hi <= |s|
    && Zone(s, lo, pa, cmp, v, 0) && Zone(s, pa, pb, cmp, v, -1)
    && Zone(s, pc + 1, pd + 1, cmp, v, 1) && Zone(s, pd + 1, hi, cmp, v, 0)
  }

  /** The partition value: a copy of the chosen element, or the element itself at the first place. */
  function Pivot<T>(a: array<T>, lo: nat, copied: bool, v: T): T
    requires lo < a.Length
    reads a
  {
    if copied then v else a[lo]
  }

  /** The first inner loop: from the left up to an element above the pivot. */
  method ScanUp<T>(a: array<T>, lo: nat, pa0: int, pb0: int, pc: int, cmp: (T, T) -> int, v: T, copied: bool,
                   ghost pd: int, ghost hi: nat) returns (pa: int, pb: int)
    requires lo < hi <= a.Length && Parts(a[..], lo, pa0, pb0, pc, pd, hi, cmp, v)
    requires Pivot(a, lo, copied, v) == v && cmp(v, v) == 0
    modifies a
    ensures Parts(a[..], lo, pa, pb, pc, pd, hi, cmp, v) && Permuted(old(a[..]), a[..], lo, hi)
    ensures Pivot(a, lo, copied, v) == v
    ensures pb0 <= pb && (pb <= pc ==> cmp(a[pb], v) > 0)
  {
    pa, pb := pa0, pb0;
    while pb <= pc && cmp(a[pb], Pivot(a, lo, copied, v)) <= 0
      invariant Parts(a[..], lo, pa, pb, pc, pd, hi, cmp, v) && pb0 <= pb
      invariant Pivot(a, lo, copied, v) == v
      invariant Permuted(old(a[..]), a[..], lo, hi)
    {
      if cmp(a[pb], Pivot(a, lo, copied, v)) == 0 {
        Swap(a, pa, pb, lo, hi);
        pa := pa + 1;
      }
      pb := pb + 1;
    }
  }

  /** The second inner loop: from the right down to an element below the pivot. */
  method ScanDown<T>(a: array<T>, lo: nat, pb: int, pc0: int, pd0: int, hi: nat, cmp: (T, T) -> int, v: T,
                     copied: bool, ghost pa: int) returns (pc: int, pd: int)
    requires lo < hi <= a.Length && Parts(a[..], lo, pa, pb, pc0, pd0, hi, cmp, v)
    requires Pivot(a, lo, copied, v) == v && (copied || lo < pb)
    modifies a
    ensures Pivot(a, lo, copied, v) == v
    ensures Parts(a[..], lo, pa, pb, pc, pd, hi, cmp, v) && Permuted(old(a[..]), a[..], lo, hi)
    ensures pc <= pc0 && (pb <= pc ==> cmp(a[pc], v) < 0)
    ensures pb <= pc0 ==> a[pb] == old(a[pb]) || pb > pc
  {
    pc, pd := pc0, pd0;
    while pb <= pc && cmp(a[pc], Pivot(a, lo, copied, v)) >= 0
      invariant Pivot(a, lo, copied, v) == v
      invariant Parts(a[..], lo, pa, pb, pc, pd, hi, cmp, v) && pc <= pc0
      invariant Permuted(old(a[..]), a[..], lo, hi)
      invariant pb <= pc ==> a[pb] == old(a[pb])
      decreases pc
    {
      if cmp(a[pc], Pivot(a, lo, copied, v)) == 0 {
        Swap(a, pc, pd, lo, hi);
        pd := pd - 1;
      }
      pc := pc - 1;
    }
  }

  method Partition<T>(a: array<T>, lo: nat, hi: nat, cmp: (T, T) -> int, v: T, copied: bool)
    returns (pa: int, pb: int, pc: int, pd: int)
    requires lo < hi <= a.Length && Pivot(a, lo, copied, v) == v && cmp(v, v) == 0
    modifies a
    ensures Parts(a[..], lo, pa, pb, pc, pd, hi, cmp, v) && pb == pc + 1
    ensures Permuted(old(a[..]), a[..], lo, hi)
  {
    pa, pb, pc, pd := lo, lo, hi - 1, hi - 1;
    while true
      invariant Parts(a[..], lo, pa, pb, pc, pd, hi, cmp, v) && (lo < pb || lo <= pc)
      invariant Permuted(old(a[..]), a[..], lo, hi) && Pivot(a, lo, copied, v) == v
      decreases pc - pb + 1
    {
      pa, pb := ScanUp(a, lo, pa, pb, pc, cmp, v, copied, pd, hi);
      pc, pd := ScanDown(a, lo, pb, pc, pd, hi, cmp, v, copied, pa);
      if pb > pc {
        break;
      }
      Cross(a, lo, pb, pc, cmp, v, copied, pa, pd, hi);
      pb, pc := pb + 1, pc - 1;
    }
  }

  /** An element above the pivot and one below it change places. */
  method Cross<T>(a: array<T>, lo: nat, pb: int, pc: int, ghost cmp: (T, T) -> int, ghost v: T, ghost copied: bool,
                  ghost pa: int, ghost pd: int, ghost hi: nat)
    requires lo < hi <= a.Length && Parts(a[..], lo, pa, pb, pc, pd, hi, cmp, v) && pb <= pc
    requires cmp(a[pb], v) > 0 && cmp(a[pc], v) < 0 && Pivot(a, lo, copied, v) == v && (copied || lo < pb)
    modifies a
    ensures Parts(a[..], lo, pa, pb + 1, pc - 1, pd, hi, cmp, v) && Permuted(old(a[..]), a[..], lo, hi)
    ensures Pivot(a, lo, copied, v) == v
  {
    Swap(a, pb, pc, lo, hi);
  }

  // ---------- putting the parts in order ----------

  /** t is s with the n elements from x on and those from y on exchanged. */
  ghost predicate Exchanged<T>(s: seq<T>, t: seq<T>, x: int, y: int, n: int) {
    && |s| == |t| && 0 <= x <= x + n <= y <= y + n <= |s|
    && (forall k {:trigger t[k]} :: x <= k < x + n ==> t[k] == s[k + (y - x)])
    && (forall k {:trigger t[k]} :: y <= k < y + n ==> t[k] == s[k - (y - x)])
    && (forall k {:trigger t[k]} :: 0 <= k < |s| && !(x <= k < x + n) && !(y <= k < y + n) ==> t[k] == s[k])
  }

  method VecSwap<T>(a: array<T>, x: nat, y: nat, n: nat, ghost lo: nat, ghost hi: nat)
    requires lo <= x && x + n <= y && y + n <= hi <= a.Length
    modifies a
    ensures Exchanged(old(a[..]), a[..], x, y, n) && Permuted(old(a[..]), a[..], lo, hi)
  {
    var i := 0;
    while i < n
      invariant 0 <= i <= n && Exchanged(old(a[..]), a[..], x, y, i)
      invariant Permuted(old(a[..]), a[..], lo, hi)
    {
      Swap(a, x + i, y + i, lo, hi);
      i := i + 1;
    }
  }

  /** Exchanging the ends of two adjacent zones, as many elements as the shorter has, swaps the zones. */
  lemma ZonesSwap<T>(s: seq<T>, t: seq<T>, x: int, m: int, y: int, n: int, cmp: (T, T) -> int, v: T, p: int, q: int)
    requires 0 <= x <= m <= y <= |s| && n == (if m - x <= y - m then m - x else y - m)
    requires Exchanged(s, t, x, y - n, n) && Zone(s, x, m, cmp, v, p) && Zone(s, m, y, cmp, v, q)
    ensures Zone(t, x, x + (y - m), cmp, v, q) && Zone(t, x + (y - m), y, cmp, v, p)
  {}

  /** The partition value lies in an outer part, so the parts still to sort are smaller than the whole. */
  lemma PivotExcluded<T>(s: seq<T>, t: seq<T>, lo: int, pa: int, pb: int, pd: int, hi: int, cmp: (T, T) -> int, v: T)
    requires Parts(t, lo, pa, pb, pb - 1, pd, hi, cmp, v) && Permuted(s, t, lo, hi)
    requires v in s[lo..hi] && cmp(v, v) == 0
    ensures lo < pa || pd + 1 < hi
  {
    assert v in multiset(s[lo..hi]);
    assert v in multiset(t[lo..hi]) && v in t[lo..hi];
    var k :| 0 <= k < hi - lo && t[lo..hi][k] == v;
    assert t[lo + k] == v;
  }

  lemma JoinSorted<T(!new)>(s: seq<T>, lo: int, p: int, q: int, hi: int, cmp: (T, T) -> int, v: T)
    requires TotalPreorder(cmp) && 0 <= lo <= p <= q <= hi <= |s|
    requires Zone(s, lo, p, cmp, v, -1) && Zone(s, p, q, cmp, v, 0) && Zone(s, q, hi, cmp, v, 1)
    requires Sorted(s, lo, p, cmp) && Sorted(s, q, hi, cmp)
    ensures Sorted(s, lo, hi, cmp)
  {
    forall i, j | lo <= i < j < hi ensures cmp(s[i], s[j]) <= 0 {
      if i < q && p <= j {
        assert Sign(cmp(s[i], v)) <= 0 <= Sign(cmp(s[j], v));
        assert Transitive(cmp, s[i], v, s[j]);
      }
    }
  }

  // ---------- RCCE_qsort ----------

  function Min(x: int, y: int): int {
    if x <= y then x else y
  }

  /** The partition value out of the way and the parts around it: below, equal, above. */
  method SplitAround<T(!new)>(a: array<T>, lo: nat, n: nat, cmp: (T, T) -> int, copied: bool)
    returns (below: nat, above: nat, ghost v: T)
    requires 7 <= n && lo + n <= a.Length && TotalPreorder(cmp)
    modifies a
    ensures below + above < n && Permuted(old(a[..]), a[..], lo, lo + n)
    ensures Zone(a[..], lo, lo + below, cmp, v, -1)
    ensures Zone(a[..], lo + below, lo + n - above, cmp, v, 0)
    ensures Zone(a[..], lo + n - above, lo + n, cmp, v, 1)
  {
    var hi := lo + n;
    var pivot := PlacePivot(a, lo, n, cmp, copied);
    v := pivot;
    ghost var s := a[..];
    var pa, pb, pc, pd := Partition(a, lo, hi, cmp, pivot, copied);
    PivotExcluded(s, a[..], lo, pa, pb, pd, hi, cmp, v);
    below, above := pb - pa, pd - pc;
    Arrange(a, lo, pa, pb, pd, hi, cmp, v);
  }

  /** The partition value is copied, or moved to the first place. */
  method PlacePivot<T(!new)>(a: array<T>, lo: nat, n: nat, cmp: (T, T) -> int, copied: bool) returns (v: T)
    requires 7 <= n && lo + n <= a.Length && TotalPreorder(cmp)
    modifies a
    ensures Permuted(old(a[..]), a[..], lo, lo + n) && v in a[..][lo..lo + n]
    ensures Pivot(a, lo, copied, v) == v
  {
    var pm := ChoosePivot(a, lo, n, cmp);
    v := a[pm];
    if !copied {
      Swap(a, lo, pm, lo, lo + n);
    }
    assert v == a[..][lo..lo + n][if copied then pm - lo else 0];
  }

  /** The two calls of vecswap. */
  method Arrange<T>(a: array<T>, lo: nat, pa: int, pb: int, pd: int, hi: nat, ghost cmp: (T, T) -> int, ghost v: T)
    requires Parts(a[..], lo, pa, pb, pb - 1, pd, hi, cmp, v)
    modifies a
    ensures Permuted(old(a[..]), a[..], lo, hi)
    ensures Zone(a[..], lo, lo + (pb - pa), cmp, v, -1)
    ensures Zone(a[..], lo + (pb - pa), hi - (pd - pb + 1), cmp, v, 0)
    ensures Zone(a[..], hi - (pd - pb + 1), hi, cmp, v, 1)
  {
    ghost var t := a[..];
    Exchange(a, lo, pa, pb, lo, hi, cmp, v, 0, -1);
    ghost var u := a[..];
    ZoneFrame(t, u, pb, pd + 1, cmp, v, 1);
    ZoneFrame(t, u, pd + 1, hi, cmp, v, 0);
    Exchange(a, pb, pd + 1, hi, lo, hi, cmp, v, 1, 0);
    ZoneFrame(u, a[..], lo, lo + (pb - pa), cmp, v, -1);
    ZoneFrame(u, a[..], lo + (pb - pa), pb, cmp, v, 0);
  }

  lemma ZoneFrame<T>(s: seq<T>, t: seq<T>, lo: int, hi: int, cmp: (T, T) -> int, v: T, sign: int)
    requires Zone(s, lo, hi, cmp, v, sign) && |s| == |t|
    requires forall k :: lo <= k < hi && 0 <= k < |s| ==> t[k] == s[k]
    ensures Zone(t, lo, hi, cmp, v, sign)
  {}

  /** One call of vecswap: the zones [x, m) and [m, y) change places. */
  method Exchange<T>(a: array<T>, x: nat, m: int, y: int, ghost lo: nat, ghost hi: nat,
                     ghost cmp: (T, T) -> int, ghost v: T, ghost p: int, ghost q: int)
    requires lo <= x <= m <= y <= hi <= a.Length
    requires Zone(a[..], x, m, cmp, v, p) && Zone(a[..], m, y, cmp, v, q)
    modifies a
    ensures Permuted(old(a[..]), a[..], lo, hi)
    ensures Zone(a[..], x, x + (y - m), cmp, v, q) && Zone(a[..], x + (y - m), y, cmp, v, p)
    ensures forall k :: 0 <= k < a.Length && !(x <= k < y) ==> a[k] == old(a[k])
  {
    var s := Min(m - x, y - m);
    VecSwap(a, x, y - s, s, lo, hi);
    ZonesSwap(old(a[..]), a[..], x, m, y, s, cmp, v, p, q);
  }

  /** The result is sorted and a permutation of the input, for every length and every total preorder. */
  method Sort<T(!new)>(a: array<T>, lo: nat, n: nat, cmp: (T, T) -> int, copied: bool)
    requires lo + n <= a.Length && TotalPreorder(cmp)
    modifies a
    ensures Sorted(a[..], lo, lo + n, cmp) && Permuted(old(a[..]), a[..], lo, lo + n)
    decreases n
  {
    if n < 7 {
      InsertionSort(a, lo, n, cmp);
      return;
    }
    var below, above, v := SplitAround(a, lo, n, cmp, copied);
    SortParts(a, lo, below, above, n, cmp, copied, v);
  }

  /** The two recursive calls. */
  method SortParts<T(!new)>(a: array<T>, lo: nat, below: nat, above: nat, n: nat, cmp: (T, T) -> int, copied: bool,
                            ghost v: T)
    requires below + above < n && lo + n <= a.Length && TotalPreorder(cmp)
    requires Zone(a[..], lo, lo + below, cmp, v, -1) && Zone(a[..], lo + below, lo + n - above, cmp, v, 0)
    requires Zone(a[..], lo + n - above, lo + n, cmp, v, 1)
    modifies a
    ensures Sorted(a[..], lo, lo + n, cmp) && Permuted(old(a[..]), a[..], lo, lo + n)
    decreases n, 1
  {
    var p, q, hi := lo + below, lo + n - above, lo + n;
    SortBelow(a, lo, p, q, hi, n, cmp, copied, v);
    ghost var s := a[..];
    SortAbove(a, lo, p, q, hi, n, cmp, copied, v);
    PermutedTwice(old(a[..]), s, a[..], lo, hi);
  }

  method SortBelow<T(!new)>(a: array<T>, lo: nat, p: nat, ghost q: nat, ghost hi: nat, ghost n: nat,
                            cmp: (T, T) -> int, copied: bool, ghost v: T)
    requires lo <= p <= q <= hi <= a.Length && p - lo < n && TotalPreorder(cmp)
    requires Zone(a[..], lo, p, cmp, v, -1) && Zone(a[..], p, q, cmp, v, 0) && Zone(a[..], q, hi, cmp, v, 1)
    modifies a
    ensures Permuted(old(a[..]), a[..], lo, hi) && Sorted(a[..], lo, p, cmp)
    ensures Zone(a[..], lo, p, cmp, v, -1) && Zone(a[..], p, q, cmp, v, 0) && Zone(a[..], q, hi, cmp, v, 1)
    decreases n, 0, 1
  {
    SortPart(a, lo, p, n, cmp, copied, v, -1);
    FirstSorted(old(a[..]), a[..], lo, p, q, hi, cmp, v);
  }

  method SortAbove<T(!new)>(a: array<T>, ghost lo: nat, ghost p: nat, q: nat, hi: nat, ghost n: nat,
                            cmp: (T, T) -> int, copied: bool, ghost v: T)
    requires lo <= p <= q <= hi <= a.Length && hi - q < n && TotalPreorder(cmp)
    requires Zone(a[..], lo, p, cmp, v, -1) && Zone(a[..], p, q, cmp, v, 0) && Zone(a[..], q, hi, cmp, v, 1)
    requires Sorted(a[..], lo, p, cmp)
    modifies a
    ensures Permuted(old(a[..]), a[..], lo, hi) && Sorted(a[..], lo, hi, cmp)
    decreases n, 0, 1
  {
    SortPart(a, q, hi, n, cmp, copied, v, 1);
    SecondSorted(old(a[..]), a[..], lo, p, q, hi, cmp, v);
  }

  lemma PermutedTwice<T>(s: seq<T>, t: seq<T>, u: seq<T>, lo: nat, hi: nat)
    requires Permuted(s, t, lo, hi) && Permuted(t, u, lo, hi)
    ensures Permuted(s, u, lo, hi)
  {}

  /** Sorting the part below leaves the others as they are. */
  lemma FirstSorted<T>(s: seq<T>, t: seq<T>, lo: nat, p: nat, q: nat, hi: nat, cmp: (T, T) -> int, v: T)
    requires lo <= p <= q <= hi <= |s| && Permuted(s, t, lo, p)
    requires Zone(s, p, q, cmp, v, 0) && Zone(s, q, hi, cmp, v, 1)
    ensures Permuted(s, t, lo, hi) && Zone(t, p, q, cmp, v, 0) && Zone(t, q, hi, cmp, v, 1)
  {
    Widen(s, t, lo, p, lo, hi);
    ZoneFrame(s, t, p, q, cmp, v, 0);
    ZoneFrame(s, t, q, hi, cmp, v, 1);
  }

  /** Sorting the part above completes the order. */
  lemma SecondSorted<T(!new)>(s: seq<T>, t: seq<T>, lo: nat, p: nat, q: nat, hi: nat, cmp: (T, T) -> int, v: T)
    requires TotalPreorder(cmp) && lo <= p <= q <= hi <= |s| && Permuted(s, t, q, hi)
    requires Zone(s, lo, p, cmp, v, -1) && Sorted(s, lo, p, cmp) && Zone(s, p, q, cmp, v, 0)
    requires Zone(t, q, hi, cmp, v, 1) && Sorted(t, q, hi, cmp)
    ensures Permuted(s, t, lo, hi) && Sorted(t, lo, hi, cmp)
  {
    Widen(s, t, q, hi, lo, hi);
    ZoneFrame(s, t, lo, p, cmp, v, -1);
    ZoneFrame(s, t, p, q, cmp, v, 0);
    assert Sorted(t, lo, p, cmp);
    JoinSorted(t, lo, p, q, hi, cmp, v);
  }

  /** A recursive call, on a part of more than one element. */
  method SortPart<T(!new)>(a: array<T>, x: nat, y: nat, ghost n: nat, cmp: (T, T) -> int, copied: bool, ghost v: T,
                           ghost sign: int)
    requires x <= y <= a.Length && y - x < n && TotalPreorder(cmp)
    requires Zone(a[..], x, y, cmp, v, sign)
    modifies a
    ensures Sorted(a[..], x, y, cmp) && Zone(a[..], x, y, cmp, v, sign)
    ensures Permuted(old(a[..]), a[..], x, y)
    decreases n, 0, 0
  {
    if y - x > 1 {
      Sort(a, x, y - x, cmp, copied);
      ZonePermuted(old(a[..]), a[..], x, y, cmp, v, sign);
    }
  }
}
