/** Sequences without repetition, and how long they can be. */
module Distinct {

  ghost predicate NoDup(ids: seq<int>) {
    forall i, j :: 0 <= i < j < |ids| ==> ids[i] != ids[j]
  }

  ghost function Elements(ids: seq<int>): set<int> {
    set x | x in ids
  }

  function Below(n: nat): (all: set<nat>)
    ensures forall x :: x in all <==> 0 <= x < n
    ensures |all| == n
  {
    if n == 0 then {} else Below(n - 1) + {n - 1}
  }

  lemma {:induction false} ElementsSize(ids: seq<int>)
    requires NoDup(ids)
    ensures |Elements(ids)| == |ids|
  {
    if ids != [] {
      var n := |ids| - 1;
      ElementsSize(ids[..n]);
      assert Elements(ids) == Elements(ids[..n]) + {ids[n]};
    }
  }

  lemma {:induction false} SubsetSize<T>(a: set<T>, b: set<T>)
    requires a <= b
    ensures |a| <= |b| && (|a| == |b| ==> a == b)
    decreases a
  {
    if x :| x in a {
      SubsetSize(a - {x}, b - {x});
    }
  }

  /** Distinct numbers below n: at most n of them, and all of them when there are n. */
  lemma Pigeonhole(ids: seq<nat>, n: nat)
    requires NoDup(ids) && forall i :: 0 <= i < |ids| ==> ids[i] < n
    ensures |ids| <= n
    ensures |ids| == n ==> forall x: nat :: x < n ==> x in ids
  {
    ElementsSize(ids);
    SubsetSize(Elements(ids), Below(n));
    forall x: nat | x < n && |ids| == n ensures x in ids {
      assert x in Below(n);
    }
  }

  /** The element at place i; -1 when there is none. */
  ghost function At(ids: seq<nat>, i: int): int {
    if 0 <= i < |ids| then ids[i] else -1
  }

  function InsertAt(ids: seq<nat>, k: nat, t: nat): (r: seq<nat>)
    requires k <= |ids|
    ensures |r| == |ids| + 1
    ensures forall i :: 0 <= i <= |ids| ==> r[i] == if i < k then ids[i] else if i == k then t else ids[i - 1]
  {
    ids[..k] + [t] + ids[k..]
  }

  function RemoveAt(ids: seq<nat>, k: nat): (r: seq<nat>)
    requires k < |ids|
    ensures |r| == |ids| - 1
    ensures forall i :: 0 <= i < |r| ==> r[i] == if i < k then ids[i] else ids[i + 1]
  {
    ids[..k] + ids[k + 1..]
  }

  lemma InsertDistinct(ids: seq<nat>, k: nat, t: nat)
    requires NoDup(ids) && k <= |ids| && t !in ids
    ensures NoDup(InsertAt(ids, k, t))
  {
    var r := InsertAt(ids, k, t);
    forall i, j | 0 <= i < j < |r| ensures r[i] != r[j] {
      if i == k {
        assert r[j] == ids[j - 1];
      } else if j == k {
        assert r[i] == ids[i];
      }
    }
  }

  lemma RemoveDistinct(ids: seq<nat>, k: nat)
    requires NoDup(ids) && k < |ids|
    ensures NoDup(RemoveAt(ids, k))
  {}

  lemma RemoveMembers(ids: seq<nat>, k: nat)
    requires NoDup(ids) && k < |ids|
    ensures forall u :: u in RemoveAt(ids, k) <==> u in ids && u != ids[k]
  {
    var rest := RemoveAt(ids, k);
    forall u | u in ids && u != ids[k] ensures u in rest {
      var j :| 0 <= j < |ids| && ids[j] == u;
      assert rest[if j < k then j else j - 1] == u;
    }
    forall u | u in rest ensures u in ids && u != ids[k] {
      var j :| 0 <= j < |rest| && rest[j] == u;
      assert u == ids[if j < k then j else j + 1];
    }
  }
}
