/**
 Incremental checkpoints of tools/uhyve-x86_64.c. Memory and files are sequences of 64-bit words; an
 address of the source is eight times a word position.
 */
module Checkpoint {

  const PG_PRESENT: bv64 := 0x1
  const PG_ACCESSED: bv64 := 0x20
  const PG_DIRTY: bv64 := 0x40
  const PG_PSE: bv64 := 0x80
  const PAGE_MASK: bv64 := 0x7FFF_FFFF_FFFF_F000
  const PAGE_2M_MASK: bv64 := 0x7FFF_FFFF_FFE0_0000

  // ---------- page-table entries ----------

  /** A leaf of the page tables: an entry of a page table, or of a page directory with the size bit set. */
  datatype Leaf = Leaf(e: bv64, large: bool)

  predicate Has(e: bv64, flag: bv64) {
    e & flag == flag
  }

  function DetermineDestOffset(src: bv64): bv64 {
    if src & PG_PSE != 0 then src & PAGE_2M_MASK else src & PAGE_MASK
  }

  /** Where the page of a leaf starts. */
  function Frame(x: Leaf): bv64 {
    x.e & if x.large then PAGE_2M_MASK else PAGE_MASK
  }

  function Place(offset: bv64): nat {
    offset as nat / 8
  }

  function Words(large: bool): nat {
    if large then 0x40000 else 0x200
  }

  /** The word written in front of a page: of a 4 KB entry the PAT bit, which is the size bit, is cleared. */
  function Header(x: Leaf): bv64 {
    if x.large then x.e else x.e & !PG_PSE
  }

  /** A directory entry is a leaf only when its size bit is set; a page-table entry may have any bits. */
  predicate SizeOk(x: Leaf) {
    x.large ==> Has(x.e, PG_PSE)
  }

  /** The header tells the page size and where the page belongs. */
  lemma HeaderTells(x: Leaf)
    requires SizeOk(x)
    ensures (Header(x) & PG_PSE != 0) == x.large
    ensures DetermineDestOffset(Header(x)) == Frame(x)
  {}

  /** The bit a scan looks for. */
  datatype Flag = Accessed | Dirty

  /** The leaf is present and the bit is set. */
  predicate Hit(x: Leaf, flag: Flag) {
    Has(x.e, PG_PRESENT) && Has(x.e, if flag.Dirty? then PG_DIRTY else PG_ACCESSED)
  }

  function Cleared(x: Leaf): Leaf {
    x.(e := x.e & !(PG_DIRTY | PG_ACCESSED))
  }

  /** What the processor does to the entry on an access. */
  function Used(x: Leaf, written: bool): Leaf {
    x.(e := x.e | if written then PG_DIRTY | PG_ACCESSED else PG_ACCESSED)
  }

  lemma ClearedIs(x: Leaf)
    ensures
      var y := Cleared(x);
      && Frame(y) == Frame(x) && Has(y.e, PG_PRESENT) == Has(x.e, PG_PRESENT)
      && !Hit(y, Accessed) && !Hit(y, Dirty) && (SizeOk(x) ==> SizeOk(y))
  {}

  lemma UsedIs(x: Leaf, written: bool)
    requires Has(x.e, PG_PRESENT)
    ensures
      var y := Used(x, written);
      && Frame(y) == Frame(x) && Has(y.e, PG_PRESENT) && Hit(y, Accessed)
      && Hit(y, Dirty) == (Hit(x, Dirty) || written) && (SizeOk(x) ==> SizeOk(y))
  {}

  // ---------- the record stream ----------

  /** What write_mem_page_to_chk_file appends for one page. */
  datatype Record = Record(header: bv64, data: seq<bv64>)

  predicate RecordOk(r: Record) {
    |r.data| == Words(r.header & PG_PSE != 0)
  }

  ghost predicate RecordsOk(rs: seq<Record>) {
    forall i :: 0 <= i < |rs| ==> RecordOk(rs[i])
  }

  function Encode(rs: seq<Record>): seq<bv64> {
    if rs == [] then [] else [rs[0].header] + rs[0].data + Encode(rs[1..])
  }

  datatype Parsed = Bad | Good(records: seq<Record>)

  /** The reading side: a header, then as many words as its size bit says, until the file ends. */
  function Parse(f: seq<bv64>): Parsed {
    if f == [] then Good([])
    else
      var n := 1 + Words(f[0] & PG_PSE != 0);
      if |f| < n then Bad
      else
        match Parse(f[n..])
        case Bad => Bad
        case Good(rs) => Good([Record(f[0], f[1..n])] + rs)
  }

  /** The stream parses back into the records it was written from. */
  lemma {:induction false} ParseEncode(rs: seq<Record>)
    requires RecordsOk(rs)
    ensures Parse(Encode(rs)) == Good(rs)
  {
    if rs != [] {
      var r, rest := rs[0], Encode(rs[1..]);
      var f, n := Encode(rs), 1 + Words(r.header & PG_PSE != 0);
      ParseEncode(rs[1..]);
      assert RecordOk(r);
      assert f[0] == r.header && f[1..n] == r.data && f[n..] == rest;
      assert rs == [Record(f[0], f[1..n])] + rs[1..];
    }
  }

  lemma EncodeCons(r: Record, rs: seq<Record>)
    ensures Encode([r] + rs) == [r.header] + r.data + Encode(rs)
  {
    assert ([r] + rs)[1..] == rs;
  }

  /** No two files of records are the same stream, and every stream that parses is such a file. */
  lemma {:induction false} EncodeParse(f: seq<bv64>)
    requires Parse(f).Good?
    ensures RecordsOk(Parse(f).records) && Encode(Parse(f).records) == f
    decreases |f|
  {
    if f != [] {
      var r, rest := ParseCons(f);
      EncodeParse(rest);
      EncodeCons(r, Parse(rest).records);
    }
  }

  lemma ParseCons(f: seq<bv64>) returns (r: Record, rest: seq<bv64>)
    requires f != [] && Parse(f).Good?
    ensures RecordOk(r) && |rest| < |f| && f == [r.header] + r.data + rest
    ensures Parse(rest).Good? && Parse(f).records == [r] + Parse(rest).records
  {
    var n := 1 + Words(f[0] & PG_PSE != 0);
    r, rest := Record(f[0], f[1..n]), f[n..];
  }

  // ---------- replay ----------

  function Overwrite(mem: seq<bv64>, at: nat, data: seq<bv64>): (m: seq<bv64>)
    ensures |m| == |mem|
    ensures forall w :: 0 <= w < |mem| ==>
      m[w] == if at + |data| <= |mem| && at <= w < at + |data| then data[w - at] else mem[w]
  {
    if at + |data| <= |mem| then mem[..at] + data + mem[at + |data|..] else mem
  }

  function Apply(mem: seq<bv64>, r: Record): seq<bv64> {
    Overwrite(mem, Place(DetermineDestOffset(r.header)), r.data)
  }

  function Replay(mem: seq<bv64>, rs: seq<Record>): (m: seq<bv64>)
    ensures |m| == |mem|
  {
    if rs == [] then mem else Apply(Replay(mem, rs[..|rs| - 1]), rs[|rs| - 1])
  }

  function ReplayAll(mem: seq<bv64>, files: seq<seq<Record>>): (m: seq<bv64>)
    ensures |m| == |mem|
  {
    if files == [] then mem else Replay(ReplayAll(mem, files[..|files| - 1]), files[|files| - 1])
  }

  lemma {:induction false} ReplayStep(mem: seq<bv64>, r: Record, rs: seq<Record>)
    ensures Replay(mem, [r] + rs) == Replay(Apply(mem, r), rs)
  {
    var all := [r] + rs;
    if rs == [] {
      assert all[..0] == [];
    } else {
      assert all[..|all| - 1] == [r] + rs[..|rs| - 1];
      ReplayStep(mem, r, rs[..|rs| - 1]);
    }
  }

  /** Every complete record of the stream lies inside a memory of the given size. */
  predicate Fits(f: seq<bv64>, size: nat) {
    f == [] ||
    var n := 1 + Words(f[0] & PG_PSE != 0);
    |f| < n || (Place(DetermineDestOffset(f[0])) + (n - 1) <= size && Fits(f[n..], size))
  }

  /** What is left to do when the reader stands at rest and memory is now. */
  ghost predicate Remaining(f: seq<bv64>, mem: seq<bv64>, rest: seq<bv64>, now: seq<bv64>) {
    && (Parse(rest).Good? <==> Parse(f).Good?) && Fits(rest, |now|) && |now| == |mem|
    && (Parse(f).Good? ==> Replay(now, Parse(rest).records) == Replay(mem, Parse(f).records))
  }

  lemma RemainingStep(f: seq<bv64>, mem: seq<bv64>, rest: seq<bv64>, now: seq<bv64>, n: nat)
    requires Remaining(f, mem, rest, now) && rest != [] && n == Words(rest[0] & PG_PSE != 0) && 1 + n <= |rest|
    ensures Place(DetermineDestOffset(rest[0])) + n <= |now|
    ensures Remaining(f, mem, rest[1 + n..], Overwrite(now, Place(DetermineDestOffset(rest[0])), rest[1..1 + n]))
  {
    if Parse(f).Good? {
      ReplayStep(now, Record(rest[0], rest[1..1 + n]), Parse(rest[1 + n..]).records);
    }
  }

  /** The loop of load_checkpoint over one file: a stream that parses is replayed record by record. */
  method LoadFile(mem: array<bv64>, f: seq<bv64>) returns (ok: bool)
    requires Fits(f, mem.Length)
    modifies mem
    ensures ok <==> Parse(f).Good?
    ensures ok ==> mem[..] == Replay(old(mem[..]), Parse(f).records)
  {
    var pos := 0;
    assert f[0..] == f;
    while pos < |f|
      invariant 0 <= pos <= |f| && Remaining(f, old(mem[..]), f[pos..], mem[..])
    {
      var location := f[pos];
      var n := Words(location & PG_PSE != 0);
      if |f| < pos + 1 + n {
        return false;
      }
      LoadRecord(mem, f, pos, n, old(mem[..]));
      pos := pos + 1 + n;
    }
    ok := true;
  }

  method LoadRecord(mem: array<bv64>, f: seq<bv64>, pos: nat, n: nat, ghost was: seq<bv64>)
    requires pos < |f| && n == Words(f[pos] & PG_PSE != 0) && pos + 1 + n <= |f|
    requires Remaining(f, was, f[pos..], mem[..])
    modifies mem
    ensures Remaining(f, was, f[pos + 1 + n..], mem[..])
  {
    RemainingStep(f, was, f[pos..], mem[..], n);
    SliceOfRest(f, pos, n);
    ReadWords(mem, Place(DetermineDestOffset(f[pos])), f[pos + 1..pos + 1 + n]);
  }

  lemma SliceOfRest(f: seq<bv64>, pos: nat, n: nat)
    requires pos + 1 + n <= |f|
    ensures f[pos..][1..1 + n] == f[pos + 1..pos + 1 + n] && f[pos..][1 + n..] == f[pos + 1 + n..]
  {}

  method ReadWords(mem: array<bv64>, at: nat, data: seq<bv64>)
    requires at + |data| <= mem.Length
    modifies mem
    ensures mem[..] == Overwrite(old(mem[..]), at, data)
  {
    forall i | 0 <= i < |data| {
      mem[at + i] := data[i];
    }
  }
}
