/** Guest runs with checkpoints, and what replaying the files gives back. */
module CheckpointRuns {
  import opened Checkpoint

  // ---------- scan_page_tables ----------

  predicate Covers(x: Leaf, w: nat) {
    Place(Frame(x)) <= w < Place(Frame(x)) + Words(x.large)
  }

  /** A present leaf maps memory of the guest; the processor sets the accessed bit with the dirty bit. */
  predicate LeafOk(x: Leaf, size: nat) {
    Has(x.e, PG_PRESENT) ==>
      SizeOk(x) && Place(Frame(x)) + Words(x.large) <= size && (Hit(x, Dirty) ==> Hit(x, Accessed))
  }

  function Scanned(x: Leaf, flag: Flag, full: bool): Leaf {
    if Hit(x, flag) && !full then Cleared(x) else x
  }

  function SavePage(mem: seq<bv64>, x: Leaf): Record
    requires Place(Frame(x)) + Words(x.large) <= |mem|
  {
    Record(Header(x), mem[Place(Frame(x))..Place(Frame(x)) + Words(x.large)])
  }

  ghost predicate LeavesOk(leaves: seq<Leaf>, size: nat) {
    forall i :: 0 <= i < |leaves| ==> LeafOk(leaves[i], size)
  }

  lemma ScannedKeeps(x: Leaf, flag: Flag, full: bool, size: nat)
    requires LeafOk(x, size)
    ensures LeafOk(Scanned(x, flag, full), size) && Frame(Scanned(x, flag, full)) == Frame(x)
    ensures Scanned(x, flag, full).large == x.large
    ensures Hit(x, flag) && !full ==>
      !Hit(Scanned(x, flag, full), Dirty) && !Hit(Scanned(x, flag, full), Accessed)
  {
    ClearedIs(x);
  }

  /** The records written by a scan of the leaves, in table order. */
  function Records(leaves: seq<Leaf>, mem: seq<bv64>, flag: Flag, full: bool): seq<Record>
    requires LeavesOk(leaves, |mem|)
  {
    if leaves == [] then []
    else
      var n := |leaves| - 1;
      var before := Records(leaves[..n], mem, flag, full);
      ScannedKeeps(leaves[n], flag, full, |mem|);
      if Hit(leaves[n], flag) then before + [SavePage(mem, Scanned(leaves[n], flag, full))] else before
  }

  function ScanAll(leaves: seq<Leaf>, flag: Flag, full: bool): seq<Leaf> {
    seq(|leaves|, i requires 0 <= i < |leaves| => Scanned(leaves[i], flag, full))
  }

  // ---------- what a file covers ----------

  predicate Touches(r: Record, w: nat) {
    var at := Place(DetermineDestOffset(r.header));
    at <= w < at + |r.data|
  }

  ghost predicate Covered(rs: seq<Record>, w: nat) {
    exists i :: 0 <= i < |rs| && Touches(rs[i], w)
  }

  ghost predicate Marked(leaves: seq<Leaf>, flag: Flag, w: nat) {
    exists i :: 0 <= i < |leaves| && Hit(leaves[i], flag) && Covers(leaves[i], w)
  }

  /** The record holds the words memory has where the record belongs. */
  ghost predicate Snapshot(mem: seq<bv64>, r: Record) {
    RecordOk(r) && forall w: nat :: Touches(r, w) ==>
      w < |mem| && r.data[w - Place(DetermineDestOffset(r.header))] == mem[w]
  }

  lemma SavePageIs(mem: seq<bv64>, x: Leaf, flag: Flag, full: bool)
    requires LeafOk(x, |mem|) && Hit(x, flag)
    ensures Place(Frame(x)) + Words(x.large) <= |mem|
    ensures
      var y := Scanned(x, flag, full);
      && Frame(y) == Frame(x) && y.large == x.large && Snapshot(mem, SavePage(mem, y))
      && forall w: nat :: Touches(SavePage(mem, y), w) <==> Covers(x, w)
  {
    ScannedKeeps(x, flag, full, |mem|);
    var y := Scanned(x, flag, full);
    ClearedIs(x);
    HeaderTells(y);
  }

  /** A scan saves exactly the pages whose bit is set, with their current contents. */
  lemma {:induction false} RecordsExact(leaves: seq<Leaf>, mem: seq<bv64>, flag: Flag, full: bool, w: nat)
    requires LeavesOk(leaves, |mem|)
    ensures forall i :: 0 <= i < |Records(leaves, mem, flag, full)| ==>
      Snapshot(mem, Records(leaves, mem, flag, full)[i])
    ensures Covered(Records(leaves, mem, flag, full), w) <==> Marked(leaves, flag, w)
  {
    if leaves != [] {
      var n, rs := |leaves| - 1, Records(leaves, mem, flag, full);
      var before, front := Records(leaves[..n], mem, flag, full), leaves[..n];
      RecordsExact(front, mem, flag, full, w);
      if Hit(leaves[n], flag) {
        SavePageIs(mem, leaves[n], flag, full);
        CoveredAppend(before, rs[|before|], w);
      }
      MarkedAppend(front, leaves[n], flag, w);
      assert front + [leaves[n]] == leaves;
    }
  }

  lemma CoveredAppend(rs: seq<Record>, r: Record, w: nat)
    ensures Covered(rs + [r], w) <==> Covered(rs, w) || Touches(r, w)
  {
    var all := rs + [r];
    assert all[|rs|] == r;
    assert forall i :: 0 <= i < |rs| ==> all[i] == rs[i];
  }

  lemma MarkedAppend(leaves: seq<Leaf>, x: Leaf, flag: Flag, w: nat)
    ensures Marked(leaves + [x], flag, w) <==> Marked(leaves, flag, w) || (Hit(x, flag) && Covers(x, w))
  {
    var all := leaves + [x];
    assert all[|leaves|] == x;
    assert forall i :: 0 <= i < |leaves| ==> all[i] == leaves[i];
  }

  /** Replaying snapshots of a memory sets the covered words to its contents and leaves the others. */
  lemma {:induction false} ReplaySnapshots(image: seq<bv64>, mem: seq<bv64>, rs: seq<Record>, w: nat)
    requires |image| == |mem| && w < |mem| && forall i :: 0 <= i < |rs| ==> Snapshot(mem, rs[i])
    ensures Replay(image, rs)[w] == if Covered(rs, w) then mem[w] else image[w]
  {
    if rs != [] {
      var front, r := rs[..|rs| - 1], rs[|rs| - 1];
      assert forall i :: 0 <= i < |front| ==> front[i] == rs[i];
      ReplaySnapshots(image, mem, front, w);
      assert front + [r] == rs;
      CoveredAppend(front, r, w);
      ApplySnapshot(Replay(image, front), mem, r, w);
      assert Replay(image, rs) == Apply(Replay(image, front), r);
    }
  }

  lemma ApplySnapshot(image: seq<bv64>, mem: seq<bv64>, r: Record, w: nat)
    requires |image| == |mem| && w < |mem| && Snapshot(mem, r)
    ensures Apply(image, r)[w] == if Touches(r, w) then mem[w] else image[w]
  {
    var at := Place(DetermineDestOffset(r.header));
    assert Touches(r, at + |r.data| - 1);
  }

  // ---------- the guest ----------

  /** files holds the records of the checkpoints taken so far. */
  datatype Guest = Guest(full: bool, mem: seq<bv64>, leaves: seq<Leaf>, files: seq<seq<Record>>)

  /**
   The guest reads and writes through a mapping, adds one, and replaces or removes one; uhyve writes
   guest memory on its own when it serves a read, and takes checkpoints.
   */
  datatype Step =
    | Read(i: nat)
    | Write(i: nat, w: nat, v: bv64)
    | Map(x: Leaf)
    | Remap(i: nat, x: Leaf)
    | HostWrite(w: nat, v: bv64)
    | TakeCheckpoint

  function Wanted(g: Guest): Flag {
    if !g.full && |g.files| > 0 then Dirty else Accessed
  }

  function ZeroMemory(n: nat): seq<bv64> {
    seq(n, i => 0)
  }

  /** What load_checkpoint rebuilds: all files in order, or the last one alone for full checkpoints. */
  function Image(g: Guest): (image: seq<bv64>)
    ensures |image| == |g.mem|
  {
    if g.full && g.files != [] then Replay(ZeroMemory(|g.mem|), g.files[|g.files| - 1])
    else ReplayAll(ZeroMemory(|g.mem|), g.files)
  }

  predicate Enabled(g: Guest, a: Step) {
    match a
    case Read(i) => i < |g.leaves| && Has(g.leaves[i].e, PG_PRESENT)
    case Write(i, w, v) =>
      i < |g.leaves| && Has(g.leaves[i].e, PG_PRESENT) && Covers(g.leaves[i], w) && w < |g.mem|
    case Map(x) => LeafOk(x, |g.mem|)
    case Remap(i, x) => i < |g.leaves| && LeafOk(x, |g.mem|)
    case HostWrite(w, v) => w < |g.mem|
    case TakeCheckpoint => true
  }

  function Mark(leaves: seq<Leaf>, i: nat, written: bool): seq<Leaf>
    requires i < |leaves|
  {
    leaves[i := Used(leaves[i], written)]
  }

  function Do(g: Guest, a: Step): Guest
    requires Enabled(g, a) && LeavesOk(g.leaves, |g.mem|)
  {
    match a
    case Read(i) => g.(leaves := Mark(g.leaves, i, false))
    case Write(i, w, v) => g.(leaves := Mark(g.leaves, i, true), mem := g.mem[w := v])
    case Map(x) => g.(leaves := g.leaves + [x])
    case Remap(i, x) => g.(leaves := g.leaves[i := x])
    case HostWrite(w, v) => g.(mem := g.mem[w := v])
    case TakeCheckpoint =>
      g.(leaves := ScanAll(g.leaves, Wanted(g), g.full),
         files := g.files + [Records(g.leaves, g.mem, Wanted(g), g.full)])
  }

  ghost predicate Init(g: Guest) {
    g.files == [] && LeavesOk(g.leaves, |g.mem|)
  }

  lemma ScanAllOk(leaves: seq<Leaf>, flag: Flag, full: bool, size: nat)
    requires LeavesOk(leaves, size)
    ensures LeavesOk(ScanAll(leaves, flag, full), size)
  {
    forall i | 0 <= i < |leaves| ensures LeafOk(ScanAll(leaves, flag, full)[i], size) {
      ScannedKeeps(leaves[i], flag, full, size);
    }
  }

  lemma StepOk(g: Guest, a: Step)
    requires LeavesOk(g.leaves, |g.mem|) && Enabled(g, a)
    ensures LeavesOk(Do(g, a).leaves, |g.mem|) && |Do(g, a).mem| == |g.mem| && Do(g, a).full == g.full
  {
    match a
    case Read(i) => UsedIs(g.leaves[i], false);
    case Write(i, _, _) => UsedIs(g.leaves[i], true);
    case TakeCheckpoint => ScanAllOk(g.leaves, Wanted(g), g.full, |g.mem|);
    case _ =>
  }

  // ---------- runs ----------

  ghost predicate Performs(g: Guest, a: Step, g': Guest) {
    Enabled(g, a) && LeavesOk(g.leaves, |g.mem|) && g' == Do(g, a)
  }

  /** The same; the quantifier, over one value, keeps Do folded in proofs until Performs is mentioned. */
  ghost predicate Next(g: Guest, a: Step, g': Guest) {
    forall b :: b == a ==> Performs(g, b, g')
  }

  /** A step keeps the sizes, and only a checkpoint adds a file. */
  lemma NextOk(g: Guest, a: Step, g': Guest)
    requires Next(g, a, g')
    ensures LeavesOk(g.leaves, |g.mem|) && LeavesOk(g'.leaves, |g'.mem|) && |g'.mem| == |g.mem| && g'.full == g.full
    ensures g'.files == [] <==> g.files == [] && !a.TakeCheckpoint?
  {
    assert Performs(g, a, g');
    StepOk(g, a);
  }

  /** run[i] is the state before steps[i]. */
  ghost predicate IsRun(run: seq<Guest>, steps: seq<Step>) {
    && |run| == |steps| + 1 && Init(run[0])
    && forall i :: 0 <= i < |steps| ==> Next(run[i], steps[i], run[i + 1])
  }

  lemma {:induction false} RunKeeps(run: seq<Guest>, steps: seq<Step>, k: nat)
    requires IsRun(run, steps) && k < |run|
    ensures LeavesOk(run[k].leaves, |run[k].mem|) && |run[k].mem| == |run[0].mem| && run[k].full == run[0].full
    ensures run[k].files == [] <==> Since(steps, k) == 0
  {
    if k > 0 {
      RunKeeps(run, steps, k - 1);
      NextOk(run[k - 1], steps[k - 1], run[k - 1 + 1]);
    }
  }

  /** The place behind the last checkpoint before place k. */
  function Since(steps: seq<Step>, k: nat): (from: nat)
    requires k <= |steps|
    ensures from <= k && (from > 0 ==> steps[from - 1].TakeCheckpoint?)
  {
    if k == 0 then 0 else if steps[k - 1].TakeCheckpoint? then k else Since(steps, k - 1)
  }

  // ---------- which pages a checkpoint saves ----------

  /** The step leaves the mapping at place i marked. */
  ghost predicate MarksLeaf(g: Guest, a: Step, i: nat, flag: Flag) {
    match a
    case Read(n) => n == i && flag == Accessed
    case Write(n, _, _) => n == i
    case Map(x) => i == |g.leaves| && Hit(x, flag)
    case Remap(n, x) => n == i && Hit(x, flag)
    case _ => false
  }

  ghost predicate Replaces(a: Step, i: nat) {
    a.Remap? && a.i == i
  }

  /** No step from place from up to k replaces the mapping at place i. */
  ghost predicate Untouched(steps: seq<Step>, from: nat, k: nat, i: nat)
    requires k <= |steps|
  {
    forall s :: from <= s < k ==> !Replaces(steps[s], i)
  }

  /** Marks before this place no longer count: an incremental checkpoint has cleared them. */
  function From(full: bool, steps: seq<Step>, k: nat): (from: nat)
    requires k <= |steps|
    ensures from <= k
  {
    if full then 0 else Since(steps, k)
  }

  /** The mapping was marked at the start or by a step that counts, and has not been replaced since. */
  ghost predicate LeafDue(run: seq<Guest>, steps: seq<Step>, k: nat, i: nat, flag: Flag)
    requires k <= |steps| < |run|
  {
    var from := From(run[0].full, steps, k);
    || (from == 0 && HitAt(run[0], i, flag) && Untouched(steps, 0, k, i))
    || exists t :: from <= t < k && MarksLeaf(run[t], steps[t], i, flag) && Untouched(steps, t + 1, k, i)
  }

  ghost predicate HitAt(g: Guest, i: nat, flag: Flag) {
    i < |g.leaves| && Hit(g.leaves[i], flag)
  }

  /** A checkpoint at place k saves the word. */
  ghost predicate Due(run: seq<Guest>, steps: seq<Step>, k: nat, w: nat)
    requires k <= |steps| < |run|
  {
    exists i :: 0 <= i < |run[k].leaves| && Covers(run[k].leaves[i], w) && LeafDue(run, steps, k, i, Wanted(run[k]))
  }

  lemma LeafDueStep(run: seq<Guest>, steps: seq<Step>, k: nat, i: nat, flag: Flag)
    requires 0 < k <= |steps| < |run| && From(run[0].full, steps, k) == From(run[0].full, steps, k - 1)
    ensures LeafDue(run, steps, k, i, flag) <==>
      || MarksLeaf(run[k - 1], steps[k - 1], i, flag)
      || (LeafDue(run, steps, k - 1, i, flag) && !Replaces(steps[k - 1], i))
  {
    var from, a := From(run[0].full, steps, k), steps[k - 1];
    if MarksLeaf(run[k - 1], a, i, flag) {
      assert Untouched(steps, k - 1 + 1, k, i);
    }
    if t :| from <= t < k - 1 && MarksLeaf(run[t], steps[t], i, flag) && Untouched(steps, t + 1, k - 1, i) {
      assert !Replaces(a, i) ==> Untouched(steps, t + 1, k, i);
    }
    if t :| from <= t < k && MarksLeaf(run[t], steps[t], i, flag) && Untouched(steps, t + 1, k, i) {
      assert t < k - 1 ==> Untouched(steps, t + 1, k - 1, i) && !Replaces(a, i);
    }
  }

  lemma HitStep(g: Guest, a: Step, i: nat, flag: Flag)
    requires LeavesOk(g.leaves, |g.mem|) && Enabled(g, a) && (a.TakeCheckpoint? ==> g.full)
    ensures HitAt(Do(g, a), i, flag) <==> MarksLeaf(g, a, i, flag) || (HitAt(g, i, flag) && !Replaces(a, i))
  {
    match a
    case Read(n) => HitUsed(g.leaves, n, false, i, flag);
    case Write(n, _, _) => HitUsed(g.leaves, n, true, i, flag);
    case TakeCheckpoint => assert Do(g, a).leaves == g.leaves;
    case _ =>
  }

  lemma HitUsed(leaves: seq<Leaf>, n: nat, written: bool, i: nat, flag: Flag)
    requires n < |leaves| && Has(leaves[n].e, PG_PRESENT)
    ensures i < |leaves| ==>
      (Hit(Mark(leaves, n, written)[i], flag) <==> Hit(leaves[i], flag) || (n == i && (flag == Accessed || written)))
  {
    UsedIs(leaves[n], written);
  }

  /** After an incremental scan no page is marked dirty. */
  lemma NoneDirty(leaves: seq<Leaf>, flag: Flag, size: nat)
    requires LeavesOk(leaves, size)
    ensures forall i :: 0 <= i < |leaves| ==> !Hit(ScanAll(leaves, flag, false)[i], Dirty)
  {
    forall i | 0 <= i < |leaves| ensures !Hit(ScanAll(leaves, flag, false)[i], Dirty) {
      assert LeafOk(leaves[i], size);
      ScannedKeeps(leaves[i], flag, false, size);
    }
  }

  /** The bit the next scan looks for is set exactly in the mappings that are due. */
  lemma {:induction false} LeafDueExact(run: seq<Guest>, steps: seq<Step>, k: nat, i: nat, flag: Flag)
    requires IsRun(run, steps) && k < |run| && (flag == Dirty || run[k].full || run[k].files == [])
    ensures HitAt(run[k], i, flag) <==> LeafDue(run, steps, k, i, flag)
  {
    if k > 0 {
      RunKeeps(run, steps, k - 1);
      RunKeeps(run, steps, k);
      if steps[k - 1].TakeCheckpoint? && !run[0].full {
        ClearedNext(run[k - 1], run[k - 1 + 1], i);
      } else {
        NextOk(run[k - 1], steps[k - 1], run[k - 1 + 1]);
        LeafDueExact(run, steps, k - 1, i, flag);
        HitNext(run[k - 1], steps[k - 1], run[k - 1 + 1], i, flag);
        LeafDueStep(run, steps, k, i, flag);
      }
    }
  }

  lemma ClearedNext(g: Guest, g': Guest, i: nat)
    requires Next(g, TakeCheckpoint, g') && !g.full
    ensures !HitAt(g', i, Dirty) && g'.files != []
  {
    assert Performs(g, TakeCheckpoint, g');
    NoneDirty(g.leaves, Wanted(g), |g.mem|);
  }

  lemma HitNext(g: Guest, a: Step, g': Guest, i: nat, flag: Flag)
    requires Next(g, a, g') && (a.TakeCheckpoint? ==> g.full)
    ensures HitAt(g', i, flag) <==> MarksLeaf(g, a, i, flag) || (HitAt(g, i, flag) && !Replaces(a, i))
  {
    assert Performs(g, a, g');
    HitStep(g, a, i, flag);
  }

  /** A scan at place k finds the word's page marked exactly when the steps before make it due. */
  lemma DueExact(run: seq<Guest>, steps: seq<Step>, k: nat, w: nat)
    requires IsRun(run, steps) && k < |run|
    ensures Due(run, steps, k, w) <==> Marked(run[k].leaves, Wanted(run[k]), w)
  {
    forall i | 0 <= i < |run[k].leaves|
      ensures HitAt(run[k], i, Wanted(run[k])) <==> LeafDue(run, steps, k, i, Wanted(run[k]))
    {
      LeafDueExact(run, steps, k, i, Wanted(run[k]));
    }
  }

  // ---------- what the files hold ----------

  /** The last checkpoint before place k that saved the word to a file that will be loaded; -1 for none. */
  ghost function LastSave(run: seq<Guest>, steps: seq<Step>, k: nat, w: nat): (j: int)
    requires k <= |steps| < |run|
    ensures -1 <= j < k && (j >= 0 ==> steps[j].TakeCheckpoint?)
  {
    if k == 0 then -1
    else if !steps[k - 1].TakeCheckpoint? then LastSave(run, steps, k - 1, w)
    else if Due(run, steps, k - 1, w) then k - 1
    else if run[0].full then -1
    else LastSave(run, steps, k - 1, w)
  }

  /** The word as it was saved, or zero. */
  ghost function Loaded(run: seq<Guest>, steps: seq<Step>, k: nat, w: nat): bv64
    requires k <= |steps| < |run| && forall j :: 0 <= j < k ==> w < |run[j].mem|
  {
    var j := LastSave(run, steps, k, w);
    if j >= 0 then run[j].mem[w] else 0
  }

  lemma SizesSame(run: seq<Guest>, steps: seq<Step>, k: nat)
    requires IsRun(run, steps) && k < |run|
    ensures forall j :: 0 <= j <= k ==> |run[j].mem| == |run[0].mem|
  {
    forall j | 0 <= j <= k ensures |run[j].mem| == |run[0].mem| {
      RunKeeps(run, steps, j);
    }
  }

  lemma ImageStep(g: Guest, w: nat)
    requires LeavesOk(g.leaves, |g.mem|) && w < |g.mem|
    ensures Image(Do(g, TakeCheckpoint))[w] ==
      if Marked(g.leaves, Wanted(g), w) then g.mem[w] else if g.full then 0 else Image(g)[w]
  {
    var g' := Do(g, TakeCheckpoint);
    var rs, zeros := g'.files[|g.files|], ZeroMemory(|g.mem|);
    RecordsExact(g.leaves, g.mem, Wanted(g), g.full, w);
    if g.full {
      ReplaySnapshots(zeros, g.mem, rs, w);
    } else {
      assert g'.files[..|g.files|] == g.files;
      ReplaySnapshots(ReplayAll(zeros, g.files), g.mem, rs, w);
    }
  }

  lemma ImageNext(g: Guest, a: Step, g': Guest, w: nat)
    requires Next(g, a, g') && w < |g.mem|
    ensures |g'.mem| == |g.mem|
    ensures Image(g')[w] ==
      if !a.TakeCheckpoint? then Image(g)[w]
      else if Marked(g.leaves, Wanted(g), w) then g.mem[w] else if g.full then 0 else Image(g)[w]
  {
    assert Performs(g, a, g');
    if a.TakeCheckpoint? {
      ImageStep(g, w);
    }
  }

  lemma LoadedStep(run: seq<Guest>, steps: seq<Step>, k: nat, w: nat)
    requires 0 < k <= |steps| < |run| && forall j :: 0 <= j < k ==> w < |run[j].mem|
    ensures Loaded(run, steps, k, w) ==
      if !steps[k - 1].TakeCheckpoint? then Loaded(run, steps, k - 1, w)
      else if Due(run, steps, k - 1, w) then run[k - 1].mem[w]
      else if run[0].full then 0 else Loaded(run, steps, k - 1, w)
  {}

  /** Loading the files gives every word as its last save left it. */
  lemma {:induction false} ImageIsLoaded(run: seq<Guest>, steps: seq<Step>, k: nat, w: nat)
    requires IsRun(run, steps) && k < |run| && w < |run[0].mem|
    ensures |run[k].mem| == |run[0].mem| && (forall j :: 0 <= j < k ==> w < |run[j].mem|)
    ensures Image(run[k])[w] == Loaded(run, steps, k, w)
  {
    SizesSame(run, steps, k);
    if k > 0 {
      ImageIsLoaded(run, steps, k - 1, w);
      SaveStep(run, steps, k - 1, w);
      LoadedStep(run, steps, k, w);
    }
  }

  /** A checkpoint puts the word into the image exactly when it is due. */
  lemma SaveStep(run: seq<Guest>, steps: seq<Step>, k: nat, w: nat)
    requires IsRun(run, steps) && k < |steps| && w < |run[k].mem|
    ensures |run[k + 1].mem| == |run[k].mem|
    ensures Image(run[k + 1])[w] ==
      if !steps[k].TakeCheckpoint? then Image(run[k])[w]
      else if Due(run, steps, k, w) then run[k].mem[w] else if run[0].full then 0 else Image(run[k])[w]
  {
    RunKeeps(run, steps, k);
    DueExact(run, steps, k, w);
    ImageNext(run[k], steps[k], run[k + 1], w);
  }

  // ---------- what memory holds ----------

  ghost predicate Writes(a: Step, w: nat) {
    (a.Write? || a.HostWrite?) && a.w == w
  }

  /** The last write to the word, by the guest or the host, from place from up to k; -1 for none. */
  ghost function LastWrite(steps: seq<Step>, from: nat, k: nat, w: nat): (h: int)
    requires k <= |steps|
    ensures h == -1 || (from <= h < k && Writes(steps[h], w))
    ensures forall s :: from <= s < k && s > h ==> !Writes(steps[s], w)
  {
    if k <= from then -1 else if Writes(steps[k - 1], w) then k - 1 else LastWrite(steps, from, k - 1, w)
  }

  lemma {:induction false} ValueIs(run: seq<Guest>, steps: seq<Step>, from: nat, k: nat, w: nat)
    requires IsRun(run, steps) && from <= k < |run| && w < |run[0].mem|
    ensures |run[k].mem| == |run[from].mem| == |run[0].mem|
    ensures
      var h := LastWrite(steps, from, k, w);
      run[k].mem[w] == if h >= 0 then steps[h].v else run[from].mem[w]
  {
    SizesSame(run, steps, k);
    if k > from {
      ValueIs(run, steps, from, k - 1, w);
      ValueNext(run[k - 1], steps[k - 1], run[k - 1 + 1], w);
    }
  }

  lemma ValueNext(g: Guest, a: Step, g': Guest, w: nat)
    requires Next(g, a, g') && w < |g.mem|
    ensures |g'.mem| == |g.mem| && g'.mem[w] == if Writes(a, w) then a.v else g.mem[w]
  {
    assert Performs(g, a, g');
  }

  /**
   Right after any checkpoint of any run, loading the files onto zeroed memory gives a word its current
   contents exactly when nothing has written it since it was saved, or since the start if it never
   was and was zero then, or the last write stored what had been saved, or zero.
   */
  lemma RestoreExact(run: seq<Guest>, steps: seq<Step>, k: nat, w: nat)
    requires IsRun(run, steps) && k < |steps| && steps[k].TakeCheckpoint? && w < |run[k + 1].mem|
    ensures forall j :: 0 <= j <= k + 1 ==> w < |run[j].mem|
    ensures
      var j := LastSave(run, steps, k + 1, w);
      var h, saved := LastWrite(steps, if j >= 0 then j else 0, k, w), if j >= 0 then run[j].mem[w] else 0;
      Image(run[k + 1])[w] == run[k + 1].mem[w] <==>
        if h >= 0 then steps[h].v == saved else j >= 0 || run[0].mem[w] == 0
  {
    SizesSame(run, steps, k + 1);
    ImageIsLoaded(run, steps, k + 1, w);
    ValueNext(run[k], steps[k], run[k + 1], w);
    var j := LastSave(run, steps, k + 1, w);
    ValueIs(run, steps, if j >= 0 then j else 0, k, w);
  }

  // ---------- guest writes are saved ----------

  /** While its mapping is not replaced, it maps the same words. */
  lemma {:induction false} CoversStays(run: seq<Guest>, steps: seq<Step>, h: nat, k: nat, i: nat, w: nat)
    requires IsRun(run, steps) && h <= k < |run| && Untouched(steps, h, k, i)
    requires i < |run[h].leaves| && Covers(run[h].leaves[i], w)
    ensures i < |run[k].leaves| && Covers(run[k].leaves[i], w)
  {
    if h < k {
      CoversStays(run, steps, h, k - 1, i, w);
      CoversNext(run[k - 1], steps[k - 1], run[k - 1 + 1], i, w);
    }
  }

  lemma CoversNext(g: Guest, a: Step, g': Guest, i: nat, w: nat)
    requires Next(g, a, g') && i < |g.leaves| && Covers(g.leaves[i], w) && !Replaces(a, i)
    ensures i < |g'.leaves| && Covers(g'.leaves[i], w)
  {
    assert Performs(g, a, g');
    match a
    case Read(n) => LeafUsed(g.leaves, n, false, i, Dirty, w);
    case Write(n, _, _) => LeafUsed(g.leaves, n, true, i, Dirty, w);
    case TakeCheckpoint => CoversScanned(g.leaves[i], Wanted(g), g.full, |g.mem|, w);
    case _ =>
  }

  lemma CoversScanned(x: Leaf, flag: Flag, full: bool, size: nat, w: nat)
    requires LeafOk(x, size)
    ensures Covers(Scanned(x, flag, full), w) <==> Covers(x, w)
  {
    ScannedKeeps(x, flag, full, size);
  }

  lemma {:induction false} SaveStays(run: seq<Guest>, steps: seq<Step>, c: nat, k: nat, w: nat)
    requires c <= k <= |steps| < |run| && !run[0].full
    ensures LastSave(run, steps, c, w) <= LastSave(run, steps, k, w)
  {
    if c < k {
      SaveStays(run, steps, c, k - 1, w);
    }
  }

  /** A guest write is saved by a later checkpoint unless its mapping is replaced before. */
  lemma {:induction false} GuestWriteSaved(run: seq<Guest>, steps: seq<Step>, h: nat, k: nat)
    requires IsRun(run, steps) && h < k < |steps| && steps[k].TakeCheckpoint? && steps[h].Write?
    requires Untouched(steps, h + 1, k, steps[h].i)
    ensures LastSave(run, steps, k + 1, steps[h].w) > h
    decreases k
  {
    var i, w, c := steps[h].i, steps[h].w, Since(steps, k);
    RunKeeps(run, steps, k);
    if run[0].full || c <= h + 1 {
      GuestWriteDue(run, steps, h, k);
    } else {
      GuestWriteSaved(run, steps, h, c - 1);
      SaveStays(run, steps, c, k + 1, w);
    }
  }

  lemma GuestWriteDue(run: seq<Guest>, steps: seq<Step>, h: nat, k: nat)
    requires IsRun(run, steps) && h < k < |run| && steps[h].Write? && From(run[0].full, steps, k) <= h
    requires Untouched(steps, h + 1, k, steps[h].i)
    ensures Due(run, steps, k, steps[h].w)
  {
    var i, w, flag := steps[h].i, steps[h].w, Wanted(run[k]);
    WriteCovers(run[h], steps[h], run[h + 1]);
    CoversStays(run, steps, h, k, i, w);
    assert MarksLeaf(run[h], steps[h], i, flag);
    assert LeafDue(run, steps, k, i, flag);
  }

  lemma WriteCovers(g: Guest, a: Step, g': Guest)
    requires Next(g, a, g') && a.Write?
    ensures a.i < |g.leaves| && Covers(g.leaves[a.i], a.w)
  {
    assert Performs(g, a, g');
  }

  /** What a checkpoint misses was written by the host, or through a mapping that has been replaced since. */
  lemma MissedWrites(run: seq<Guest>, steps: seq<Step>, k: nat, w: nat)
    requires IsRun(run, steps) && k < |steps| && steps[k].TakeCheckpoint?
    ensures
      var j := LastSave(run, steps, k + 1, w);
      var h := LastWrite(steps, if j >= 0 then j else 0, k, w);
      h >= 0 && !steps[h].HostWrite? ==> !Untouched(steps, h + 1, k, steps[h].i)
  {
    var j := LastSave(run, steps, k + 1, w);
    var h := LastWrite(steps, if j >= 0 then j else 0, k, w);
    if h >= 0 && steps[h].Write? && Untouched(steps, h + 1, k, steps[h].i) {
      GuestWriteSaved(run, steps, h, k);
    }
  }

  // ---------- runs without host writes and replaced mappings ----------

  /** A step through a mapping of the word. */
  ghost predicate Accesses(g: Guest, a: Step, w: nat) {
    (a.Read? || a.Write?) && a.i < |g.leaves| && Covers(g.leaves[a.i], w)
  }

  /**
   A step that makes the next checkpoint save the word: an access, after the first incremental
   checkpoint only a write, or a new mapping that is marked accordingly.
   */
  ghost predicate Counts(g: Guest, a: Step, w: nat) {
    || (Accesses(g, a, w) && (Wanted(g) == Accessed || a.Write?))
    || (a.Map? && Hit(a.x, Wanted(g)) && Covers(a.x, w))
  }

  /** The page of the word was marked at the start, or a step before place k made it to be saved. */
  ghost predicate Reached(run: seq<Guest>, steps: seq<Step>, k: nat, w: nat)
    requires k <= |steps| < |run|
  {
    Marked(run[0].leaves, Accessed, w) || exists j :: 0 <= j < k && Counts(run[j], steps[j], w)
  }

  /** The word is in a file that will be loaded, or the next checkpoint puts it into one. */
  ghost predicate Tracked(run: seq<Guest>, steps: seq<Step>, k: nat, w: nat)
    requires k <= |steps| < |run|
  {
    Marked(run[k].leaves, Wanted(run[k]), w) || (!run[0].full && LastSave(run, steps, k, w) >= 0)
  }

  lemma MarkedUsed(leaves: seq<Leaf>, i: nat, written: bool, flag: Flag, w: nat)
    requires i < |leaves| && Has(leaves[i].e, PG_PRESENT)
    ensures Marked(Mark(leaves, i, written), flag, w) <==>
      Marked(leaves, flag, w) || (Covers(leaves[i], w) && (flag == Accessed || written))
  {
    var used := Mark(leaves, i, written);
    if n :| 0 <= n < |leaves| && Hit(leaves[n], flag) && Covers(leaves[n], w) {
      LeafUsed(leaves, i, written, n, flag, w);
      assert Hit(used[n], flag) && Covers(used[n], w);
    }
    LeafUsed(leaves, i, written, i, flag, w);
    if n :| 0 <= n < |used| && Hit(used[n], flag) && Covers(used[n], w) {
      LeafUsed(leaves, i, written, n, flag, w);
    }
  }

  lemma LeafUsed(leaves: seq<Leaf>, i: nat, written: bool, n: nat, flag: Flag, w: nat)
    requires i < |leaves| && Has(leaves[i].e, PG_PRESENT) && n < |leaves|
    ensures
      var y := Mark(leaves, i, written)[n];
      && (Hit(y, flag) <==> Hit(leaves[n], flag) || (n == i && (flag == Accessed || written)))
      && (Covers(y, w) <==> Covers(leaves[n], w))
  {
    UsedIs(leaves[i], written);
  }

  lemma MarkedNext(g: Guest, a: Step, g': Guest, w: nat)
    requires Next(g, a, g') && !a.TakeCheckpoint? && !a.Remap?
    ensures Wanted(g') == Wanted(g)
    ensures Marked(g'.leaves, Wanted(g), w) <==> Marked(g.leaves, Wanted(g), w) || Counts(g, a, w)
  {
    assert Performs(g, a, g');
    match a
    case Read(i) => MarkedUsed(g.leaves, i, false, Wanted(g), w);
    case Write(i, _, _) => MarkedUsed(g.leaves, i, true, Wanted(g), w);
    case Map(x) => MarkedAppend(g.leaves, x, Wanted(g), w);
    case HostWrite(_, _) =>
  }

  lemma MarkedCheckpoint(g: Guest, g': Guest, w: nat)
    requires Next(g, TakeCheckpoint, g')
    ensures Marked(g'.leaves, Wanted(g'), w) <==> g.full && Marked(g.leaves, Wanted(g), w)
  {
    assert Performs(g, TakeCheckpoint, g');
    if g.full {
      assert g'.leaves == g.leaves;
    } else {
      NoneDirty(g.leaves, Wanted(g), |g.mem|);
    }
  }

  lemma TrackedNext(run: seq<Guest>, steps: seq<Step>, k: nat, w: nat)
    requires IsRun(run, steps) && k < |steps| && !steps[k].Remap? && run[k].full == run[0].full
    ensures Tracked(run, steps, k + 1, w) <==> Tracked(run, steps, k, w) || Counts(run[k], steps[k], w)
  {
    if steps[k].TakeCheckpoint? {
      MarkedCheckpoint(run[k], run[k + 1], w);
      DueExact(run, steps, k, w);
    } else {
      MarkedNext(run[k], steps[k], run[k + 1], w);
    }
  }

  lemma {:induction false} TrackedIsReached(run: seq<Guest>, steps: seq<Step>, k: nat, w: nat)
    requires IsRun(run, steps) && k < |run| && forall s :: 0 <= s < k ==> !steps[s].Remap?
    ensures Tracked(run, steps, k, w) <==> Reached(run, steps, k, w)
  {
    if k > 0 {
      RunKeeps(run, steps, k - 1);
      TrackedIsReached(run, steps, k - 1, w);
      TrackedNext(run, steps, k - 1, w);
      assert Counts(run[k - 1], steps[k - 1], w) ==> Reached(run, steps, k, w);
    }
  }

  /**
   As long as the host does not write the word and no mapping is replaced, a checkpoint restores it
   exactly when it was zero at the start, its page was marked then, or a step made it to be saved.
   */
  lemma RestoreReached(run: seq<Guest>, steps: seq<Step>, k: nat, w: nat)
    requires IsRun(run, steps) && k < |steps| && steps[k].TakeCheckpoint? && w < |run[k + 1].mem|
    requires forall s :: 0 <= s < k ==> !steps[s].Remap? && !(steps[s].HostWrite? && steps[s].w == w)
    ensures |run[0].mem| == |run[k + 1].mem|
    ensures Image(run[k + 1])[w] == run[k + 1].mem[w] <==> Reached(run, steps, k, w) || run[0].mem[w] == 0
  {
    RestoreExact(run, steps, k, w);
    SizesSame(run, steps, k + 1);
    NoneMissed(run, steps, k, w);
    TrackedIsReached(run, steps, k, w);
    TrackedSaved(run, steps, k, w);
  }

  lemma NoneMissed(run: seq<Guest>, steps: seq<Step>, k: nat, w: nat)
    requires IsRun(run, steps) && k < |steps| && steps[k].TakeCheckpoint?
    requires forall s :: 0 <= s < k ==> !steps[s].Remap? && !(steps[s].HostWrite? && steps[s].w == w)
    ensures
      var j := LastSave(run, steps, k + 1, w);
      LastWrite(steps, if j >= 0 then j else 0, k, w) == -1
  {
    MissedWrites(run, steps, k, w);
  }

  lemma TrackedSaved(run: seq<Guest>, steps: seq<Step>, k: nat, w: nat)
    requires IsRun(run, steps) && k < |steps| && steps[k].TakeCheckpoint?
    ensures LastSave(run, steps, k + 1, w) >= 0 <==> Tracked(run, steps, k, w)
  {
    DueExact(run, steps, k, w);
  }

  /** So every word whose page was accessed before the first checkpoint, or that was zero at the start, is restored. */
  lemma CheckpointRestores(run: seq<Guest>, steps: seq<Step>, k: nat, w: nat)
    requires IsRun(run, steps) && k < |steps| && steps[k].TakeCheckpoint? && w < |run[k + 1].mem|
    requires forall s :: 0 <= s < k ==> !steps[s].Remap? && !(steps[s].HostWrite? && steps[s].w == w)
    requires |run[0].mem| == |run[k + 1].mem|
    requires run[0].mem[w] == 0 || exists j :: 0 <= j < k && run[j].files == [] && Accesses(run[j], steps[j], w)
    ensures Image(run[k + 1])[w] == run[k + 1].mem[w]
  {
    RestoreReached(run, steps, k, w);
    if run[0].mem[w] != 0 {
      var j :| 0 <= j < k && run[j].files == [] && Accesses(run[j], steps[j], w);
      assert Counts(run[j], steps[j], w);
    }
  }

  /** A word saved by the first incremental checkpoint and then changed by the host is lost by the second. */
  lemma HostWriteLost(g: Guest, w: nat, v: bv64)
    requires Init(g) && !g.full && w < |g.mem| && Marked(g.leaves, Accessed, w) && v != g.mem[w]
    ensures
      var g1 := Do(g, TakeCheckpoint);
      && LeavesOk(g1.leaves, |g1.mem|) && |g1.mem| == |g.mem|
      && var g2 := Do(g1, HostWrite(w, v));
         var g3 := Do(g2, TakeCheckpoint);
         && IsRun([g, g1, g2, g3], [TakeCheckpoint, HostWrite(w, v), TakeCheckpoint])
         && g3.mem[w] == v && Image(g3)[w] == g.mem[w]
  {
    var g1 := Do(g, TakeCheckpoint);
    StepOk(g, TakeCheckpoint);
    var g2 := Do(g1, HostWrite(w, v));
    var run, steps := [g, g1, g2, Do(g2, TakeCheckpoint)], [TakeCheckpoint, HostWrite(w, v), TakeCheckpoint];
    assert Next(run[0], steps[0], run[1]) && Next(run[1], steps[1], run[2]) && Next(run[2], steps[2], run[3]);
    ImageStep(g, w);
    ImageStep(g2, w);
    NoneDirty(g.leaves, Wanted(g), |g.mem|);
    assert Image(g2)[w] == Image(g1)[w];
  }
}
