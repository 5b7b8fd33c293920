/** scan_page_tables of tools/uhyve-x86_64.c over page directories and page tables. */
module CheckpointScan {
  import opened Checkpoint
  import opened CheckpointRuns

  /** An entry of a page directory, with the page table it points to when its size bit is clear. */
  datatype Pde = Pde(e: bv64, ptes: seq<bv64>)

  function TableLeaves(ptes: seq<bv64>): seq<Leaf> {
    seq(|ptes|, i requires 0 <= i < |ptes| => Leaf(ptes[i], false))
  }

  function PdeLeaves(d: Pde): seq<Leaf> {
    if !Has(d.e, PG_PRESENT) then []
    else if Has(d.e, PG_PSE) then [Leaf(d.e, true)]
    else TableLeaves(d.ptes)
  }

  /** The leaf entries in the order the nested loops meet them. */
  function Leaves(pgd: seq<Pde>): seq<Leaf> {
    if pgd == [] then [] else Leaves(pgd[..|pgd| - 1]) + PdeLeaves(pgd[|pgd| - 1])
  }

  lemma {:induction false} EncodeAppend(a: seq<Record>, b: seq<Record>)
    ensures Encode(a + b) == Encode(a) + Encode(b)
  {
    if a == [] {
      assert a + b == b;
    } else {
      EncodeAppend(a[1..], b);
      assert (a + b)[1..] == a[1..] + b;
      Regroup([a[0].header] + a[0].data, Encode(a[1..]), Encode(b));
    }
  }

  lemma Regroup<T>(x: seq<T>, y: seq<T>, z: seq<T>)
    ensures x + (y + z) == (x + y) + z
  {}

  lemma ScanAppend(a: seq<Leaf>, b: seq<Leaf>, flag: Flag, full: bool)
    ensures ScanAll(a + b, flag, full) == ScanAll(a, flag, full) + ScanAll(b, flag, full)
  {
    assert forall i :: 0 <= i < |a| + |b| ==> (a + b)[i] == if i < |a| then a[i] else b[i - |a|];
  }

  lemma {:induction false} RecordsAppend(a: seq<Leaf>, b: seq<Leaf>, mem: seq<bv64>, flag: Flag, full: bool)
    requires LeavesOk(a, |mem|) && LeavesOk(b, |mem|)
    ensures LeavesOk(a + b, |mem|)
    ensures Records(a + b, mem, flag, full) == Records(a, mem, flag, full) + Records(b, mem, flag, full)
  {
    if b == [] {
      assert a + b == a;
    } else {
      var n, all := |b| - 1, a + b;
      RecordsAppend(a, b[..n], mem, flag, full);
      assert all[..|all| - 1] == a + b[..n] && all[|all| - 1] == b[n];
    }
  }

  /** What the scan writes for some leaves, as a stream. */
  ghost predicate Wrote(file: seq<bv64>, leaves: seq<Leaf>, leaves': seq<Leaf>, mem: seq<bv64>, flag: Flag,
                        full: bool)
  {
    && LeavesOk(leaves, |mem|) && leaves' == ScanAll(leaves, flag, full)
    && file == Encode(Records(leaves, mem, flag, full))
  }

  lemma WroteAppend(f: seq<bv64>, a: seq<Leaf>, a': seq<Leaf>, g: seq<bv64>, b: seq<Leaf>, b': seq<Leaf>,
                    mem: seq<bv64>, flag: Flag, full: bool)
    requires Wrote(f, a, a', mem, flag, full) && Wrote(g, b, b', mem, flag, full)
    ensures Wrote(f + g, a + b, a' + b', mem, flag, full)
  {
    RecordsAppend(a, b, mem, flag, full);
    ScanAppend(a, b, flag, full);
    EncodeAppend(Records(a, mem, flag, full), Records(b, mem, flag, full));
  }

  lemma OneRecord(x: Leaf, mem: seq<bv64>, flag: Flag, full: bool)
    requires LeafOk(x, |mem|)
    ensures ScanAll([x], flag, full) == [Scanned(x, flag, full)]
    ensures !Hit(x, flag) ==> Encode(Records([x], mem, flag, full)) == []
    ensures Hit(x, flag) ==>
      var y := Scanned(x, flag, full);
      && Place(Frame(y)) + Words(y.large) <= |mem|
      && Encode(Records([x], mem, flag, full)) == Written(mem, y)
  {
    assert [x][..0] == [];
    if Hit(x, flag) {
      ScannedKeeps(x, flag, full, |mem|);
      var r := SavePage(mem, Scanned(x, flag, full));
      assert Records([x], mem, flag, full) == [r] && [r][1..] == [];
    }
  }

  /** write_mem_page_to_chk_file for a leaf that is saved, or nothing for one that is not. */
  method SaveLeaf(x: Leaf, mem: seq<bv64>, flag: Flag, full: bool) returns (y: Leaf, file: seq<bv64>)
    requires LeafOk(x, |mem|)
    ensures y.large == x.large && Wrote(file, [x], [y], mem, flag, full)
  {
    y, file := x, [];
    ScannedKeeps(x, flag, full, |mem|);
    if Hit(x, flag) {
      if !full {
        y := Cleared(x);
      }
      file := Written(mem, y);
    }
    OneWrote(x, y, file, mem, flag, full);
  }

  /** An entry and the page it points to. */
  function Written(mem: seq<bv64>, y: Leaf): seq<bv64>
    requires Place(Frame(y)) + Words(y.large) <= |mem|
  {
    [Header(y)] + mem[Place(Frame(y))..Place(Frame(y)) + Words(y.large)]
  }

  lemma OneWrote(x: Leaf, y: Leaf, file: seq<bv64>, mem: seq<bv64>, flag: Flag, full: bool)
    requires LeafOk(x, |mem|) && y == Scanned(x, flag, full)
    requires if Hit(x, flag) then Place(Frame(y)) + Words(y.large) <= |mem| && file == Written(mem, y) else file == []
    ensures Wrote(file, [x], [y], mem, flag, full)
  {
    OneRecord(x, mem, flag, full);
  }

  /** The innermost loop, over one page table. */
  method ScanTable(ptes: seq<bv64>, mem: seq<bv64>, flag: Flag, full: bool) returns (ptes': seq<bv64>, file: seq<bv64>)
    requires LeavesOk(TableLeaves(ptes), |mem|)
    ensures Wrote(file, TableLeaves(ptes), TableLeaves(ptes'), mem, flag, full)
  {
    ptes', file := [], [];
    for l := 0 to |ptes|
      invariant Wrote(file, TableLeaves(ptes[..l]), TableLeaves(ptes'), mem, flag, full)
    {
      ghost var x := TableLeaves(ptes)[l];
      var y, f := SaveLeaf(Leaf(ptes[l], false), mem, flag, full);
      WroteAppend(file, TableLeaves(ptes[..l]), TableLeaves(ptes'), f, [Leaf(ptes[l], false)], [y], mem, flag, full);
      assert TableLeaves(ptes[..l + 1]) == TableLeaves(ptes[..l]) + [x];
      assert TableLeaves(ptes' + [y.e]) == TableLeaves(ptes') + [y];
      ptes', file := ptes' + [y.e], file + f;
    }
    assert ptes[..|ptes|] == ptes;
  }

  method ScanPde(d: Pde, mem: seq<bv64>, flag: Flag, full: bool) returns (d': Pde, file: seq<bv64>)
    requires LeavesOk(PdeLeaves(d), |mem|)
    ensures Wrote(file, PdeLeaves(d), PdeLeaves(d'), mem, flag, full)
  {
    d', file := d, [];
    if Has(d.e, PG_PRESENT) {
      if !Has(d.e, PG_PSE) {
        var ptes, f := ScanTable(d.ptes, mem, flag, full);
        d', file := d.(ptes := ptes), f;
      } else {
        assert LeafOk(PdeLeaves(d)[0], |mem|);
        var y, f := SaveLeaf(Leaf(d.e, true), mem, flag, full);
        d', file := d.(e := y.e), f;
        assert y == ScanAll([Leaf(d.e, true)], flag, full)[0] == Scanned(Leaf(d.e, true), flag, full);
        ClearedIs(Leaf(d.e, true));
        assert Has(y.e, PG_PRESENT) && Has(y.e, PG_PSE);
      }
    }
  }

  lemma {:induction false} LeavesFrom(pgd: seq<Pde>, k: nat, size: nat)
    requires LeavesOk(Leaves(pgd), size) && k < |pgd|
    ensures LeavesOk(PdeLeaves(pgd[k]), size)
  {
    var n := |pgd| - 1;
    var front, last := Leaves(pgd[..n]), PdeLeaves(pgd[n]);
    if k == n {
      forall i | 0 <= i < |last| ensures LeafOk(last[i], size) {
        assert (front + last)[|front| + i] == last[i];
      }
    } else {
      forall i | 0 <= i < |front| ensures LeafOk(front[i], size) {
        assert (front + last)[i] == front[i];
      }
      LeavesFrom(pgd[..n], k, size);
    }
  }

  /** The checkpoint file of a scan holds the pages whose bit is set; their bits are cleared unless full. */
  method ScanPageTables(pgd: array<Pde>, mem: seq<bv64>, flag: Flag, full: bool) returns (file: seq<bv64>)
    requires LeavesOk(Leaves(pgd[..]), |mem|)
    modifies pgd
    ensures Wrote(file, Leaves(old(pgd[..])), Leaves(pgd[..]), mem, flag, full)
  {
    file := [];
    ghost var was := pgd[..];
    assert Leaves(pgd[..0]) == [];
    for k := 0 to pgd.Length
      invariant Wrote(file, Leaves(was[..k]), Leaves(pgd[..k]), mem, flag, full)
      invariant forall i :: k <= i < pgd.Length ==> pgd[i] == was[i]
    {
      LeavesFrom(was, k, |mem|);
      var d, f := ScanPde(pgd[k], mem, flag, full);
      WroteAppend(file, Leaves(was[..k]), Leaves(pgd[..k]), f, PdeLeaves(was[k]), PdeLeaves(d), mem, flag, full);
      ghost var done := pgd[..k];
      pgd[k] := d;
      LeavesSnoc(was, k);
      LeavesSnoc(pgd[..], k);
      assert pgd[..][..k] == done && pgd[..][..k + 1] == pgd[..k + 1];
      file := file + f;
    }
    assert was[..pgd.Length] == was && pgd[..pgd.Length] == pgd[..];
  }

  lemma LeavesSnoc(pgd: seq<Pde>, k: nat)
    requires k < |pgd|
    ensures Leaves(pgd[..k + 1]) == Leaves(pgd[..k]) + PdeLeaves(pgd[k])
  {
    assert pgd[..k + 1][..k] == pgd[..k];
  }

  lemma {:induction false} EncodeFits(rs: seq<Record>, mem: seq<bv64>)
    requires forall i :: 0 <= i < |rs| ==> Snapshot(mem, rs[i])
    ensures RecordsOk(rs) && Fits(Encode(rs), |mem|)
  {
    if rs != [] {
      EncodeFits(rs[1..], mem);
      var r, f, n := rs[0], Encode(rs), 1 + |rs[0].data|;
      assert Snapshot(mem, r) && Touches(r, Place(DetermineDestOffset(r.header)) + |r.data| - 1);
      assert f[0] == r.header && f[n..] == Encode(rs[1..]);
    }
  }

  /** The file a scan writes is read back as the records it saved, and stays inside the memory. */
  lemma ScanLoads(leaves: seq<Leaf>, mem: seq<bv64>, flag: Flag, full: bool)
    requires LeavesOk(leaves, |mem|)
    ensures
      var rs := Records(leaves, mem, flag, full);
      Parse(Encode(rs)) == Good(rs) && Fits(Encode(rs), |mem|)
  {
    var rs := Records(leaves, mem, flag, full);
    RecordsExact(leaves, mem, flag, full, 0);
    EncodeFits(rs, mem);
    ParseEncode(rs);
  }
}
