/** How RCCE_init (usr/ircce/RCCE_admin.c) turns the list of core ids into ranks. */
module Ranks {
  import opened Distinct
  import opened Quicksort

  function IdCompare(x: int, y: int): (r: int)
    ensures r < 0 <==> x < y
    ensures r > 0 <==> x > y
  {
    if x < y then -1 else if x > y then 1 else 0
  }

  lemma IdOrder()
    ensures TotalPreorder(IdCompare)
  {}

  /** What a rank means, whatever the order of the list: the number of smaller ids. */
  ghost function RankOf(ids: seq<int>, id: int): nat {
    |set x | x in ids && x < id|
  }

  /** In the sorted table the place of an id is its rank. */
  lemma PlaceIsRank(table: seq<int>, k: nat)
    requires Sorted(table, 0, |table|, IdCompare) && NoDup(table) && k < |table|
    ensures RankOf(table, table[k]) == k
  {
    ElementsSize(table[..k]);
    var smaller := set x | x in table && x < table[k];
    forall x | x in smaller ensures x in table[..k] {
      var i :| 0 <= i < |table| && table[i] == x;
      assert i > k ==> IdCompare(table[k], table[i]) <= 0;
    }
    forall x | x in table[..k] ensures x in smaller {
      var i :| 0 <= i < k && table[i] == x;
      assert IdCompare(table[i], table[k]) <= 0;
    }
    assert smaller == Elements(table[..k]);
  }

  lemma SameElements(s: seq<int>, t: seq<int>)
    requires multiset(s) == multiset(t)
    ensures |s| == |t| && forall x :: x in s <==> x in t
  {
    assert |s| == |multiset(s)| && |t| == |multiset(t)|;
    forall x ensures x in s <==> x in t {
      assert x in s <==> x in multiset(s);
      assert x in t <==> x in multiset(t);
    }
  }

  lemma {:induction false} RepeatCount(s: seq<int>, i: nat, j: nat)
    requires i < j < |s| && s[i] == s[j]
    ensures multiset(s)[s[i]] >= 2
  {
    assert s == s[..j] + [s[j]] + s[j + 1..];
    assert s[..j][i] in multiset(s[..j]);
  }

  lemma {:induction false} CountOne(s: seq<int>, x: int)
    requires NoDup(s)
    ensures multiset(s)[x] <= 1
  {
    if s != [] {
      var n := |s| - 1;
      CountOne(s[..n], x);
      assert s == s[..n] + [s[n]];
      if x == s[n] {
        assert x !in s[..n];
        assert x !in multiset(s[..n]);
      }
    }
  }

  lemma NoDupPermuted(s: seq<int>, t: seq<int>)
    requires multiset(s) == multiset(t) && NoDup(s)
    ensures NoDup(t)
  {
    forall i, j | 0 <= i < j < |t| ensures t[i] != t[j] {
      CountOne(s, t[i]);
      if t[i] == t[j] {
        RepeatCount(t, i, j);
      }
    }
  }

  /** Whatever order two UEs list the same distinct core ids in, they sort to the same table. */
  lemma SameTable(ids1: seq<int>, ids2: seq<int>, table1: seq<int>, table2: seq<int>)
    requires multiset(ids1) == multiset(ids2) && NoDup(ids1)
    requires multiset(table1) == multiset(ids1) && Sorted(table1, 0, |table1|, IdCompare)
    requires multiset(table2) == multiset(ids2) && Sorted(table2, 0, |table2|, IdCompare)
    ensures table1 == table2
  {
    NoDupPermuted(ids1, table1);
    NoDupPermuted(ids1, table2);
    SameElements(table1, table2);
    forall k | 0 <= k < |table1| ensures table1[k] == table2[k] {
      assert table1[k] in table1;
      var j :| 0 <= j < |table2| && table2[j] == table1[k];
      PlaceIsRank(table1, k);
      PlaceIsRank(table2, j);
      RankSame(table1, table2, table1[k]);
    }
  }

  lemma RankSame(s: seq<int>, t: seq<int>, id: int)
    requires multiset(s) == multiset(t)
    ensures RankOf(s, id) == RankOf(t, id)
  {
    SameElements(s, t);
    assert (set x | x in s && x < id) == (set x | x in t && x < id);
  }

  /** Ranks are distinct numbers below the number of UEs. */
  lemma RanksDistinct(ids: seq<int>, a: int, b: int)
    requires a in ids && b in ids && a < b && NoDup(ids)
    ensures RankOf(ids, a) < RankOf(ids, b) < |ids|
  {
    var sa := set x | x in ids && x < a;
    var sb := set x | x in ids && x < b;
    SubsetSize(sa + {a}, sb);
    SubsetSize(sb + {b}, Elements(ids));
    ElementsSize(ids);
  }

  /**
   The sorting part of RCCE_init. With distinct ids, the caller's rank is the number of smaller ids;
   a caller that is not listed keeps iam.
   */
  method Init(coreId: array<int>, my: int, iam: nat) returns (rank: nat)
    modifies coreId
    ensures Sorted(coreId[..], 0, coreId.Length, IdCompare) && multiset(coreId[..]) == multiset(old(coreId[..]))
    ensures coreId.Length == 1 ==> rank == 0
    ensures coreId.Length != 1 && my !in old(coreId[..]) ==> rank == iam
    ensures my in old(coreId[..]) && NoDup(old(coreId[..])) ==>
      rank < coreId.Length && coreId[rank] == my && rank == RankOf(old(coreId[..]), my)
  {
    IdOrder();
    ghost var ids := coreId[..];
    rank := iam;
    if coreId.Length == 1 {
      rank := 0;
      assert ids == [ids[0]];
    } else {
      Sort(coreId, 0, coreId.Length, IdCompare, false);
      assert coreId[..] == coreId[..][0..coreId.Length] && ids == ids[0..coreId.Length];
      SameElements(ids, coreId[..]);
      var ue := 0;
      while ue < coreId.Length
        invariant 0 <= ue <= coreId.Length
        invariant my !in coreId[..ue] ==> rank == iam
        invariant my in coreId[..ue] ==> rank < ue && coreId[rank] == my
        modifies {}
      {
        if coreId[ue] == my {
          rank := ue;
        }
        ue := ue + 1;
      }
      assert coreId[..ue] == coreId[..];
    }
    if my in ids && NoDup(ids) {
      NoDupPermuted(ids, coreId[..]);
      PlaceIsRank(coreId[..], rank);
      RankSame(ids, coreId[..], my);
    }
  }
}
