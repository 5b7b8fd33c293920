/** RCCE_recv_general and the resumable RCCE_push_recv_request of usr/ircce/RCCE_recv.c. */
module ReceiveRequest {
  import opened Rcce
  import opened Receive

  /** The bytes in whole chunks, and of the rest those in whole lines. */
  function Whole(size: nat, chunk: nat): nat
    requires chunk > 0
  {
    size / chunk * chunk
  }

  function Lines(rest: nat): nat {
    rest - rest % LINE_SIZE
  }

  ghost predicate Multiple(wsize: nat, chunk: nat, i: nat) {
    wsize == i * chunk
  }

  /** The loop condition over whole chunks, and what it leaves over. */
  lemma LoopTest(size: nat, chunk: nat, wsize: nat, i: nat)
    requires chunk > 0 && Multiple(wsize, chunk, i) && wsize <= size
    ensures wsize < size / chunk * chunk <==> wsize + chunk <= size
    ensures wsize + chunk > size ==> size / chunk * chunk == wsize && size % chunk == size - wsize
    ensures Multiple(wsize + chunk, chunk, i + 1)
  {
    var q, r := size / chunk, size % chunk;
    assert q * chunk + r == size && 0 <= r < chunk;
    assert (i + 1) * chunk == i * chunk + chunk;
    if i < q {
      MulStep(i, q, chunk);
    } else if q < i {
      MulStep(q, i, chunk);
    }
  }

  lemma MulStep(a: nat, b: nat, c: nat)
    requires a < b
    ensures a * c + c <= b * c
  {
    assert (b - a - 1) * c >= 0;
    assert b * c == a * c + c + (b - a - 1) * c;
  }

  /** RCCE_get into private memory. */
  method GetBytes(privbuf: array<int>, at: nat, n: nat, comm: Bytes)
    requires at + n <= privbuf.Length && n <= |comm|
    modifies privbuf
    ensures privbuf[..] == privbuf[..at] + comm[..n] + privbuf[at + n..]
    ensures privbuf[..at] == old(privbuf[..at]) && privbuf[at + n..] == old(privbuf[at + n..])
  {
    forall i | 0 <= i < n {
      privbuf[at + i] := comm[i];
    }
  }

  /** Clear the flag, move the data, tell the source. */
  method TakePiece(privbuf: array<int>, p: Piece, comm: Bytes, log: seq<Action>) returns (log': seq<Action>)
    requires p.at + p.n <= privbuf.Length && p.n <= |comm| && (p.padded ==> p.n <= LINE_SIZE <= |comm|)
    modifies privbuf
    ensures privbuf[..] == Copied(old(privbuf[..]), p, comm) && log' == log + Actions(p)
  {
    log' := log + [ClearSent];
    if p.padded && p.n > 0 {
      var padline := comm[..LINE_SIZE];
      GetBytes(privbuf, p.at, p.n, padline);
      log' := log' + [GetLine(p.at, p.n)];
    } else if p.n > 0 {
      GetBytes(privbuf, p.at, p.n, comm);
      log' := log' + [Get(p.at, p.n)];
    }
    log' := log' + [SetReady];
    assert p.n == 0 ==> privbuf[..] == Copied(old(privbuf[..]), p, comm);
  }

  /** Progress of a receive: k pieces of the plan are in. */
  ghost predicate Done(size: nat, chunk: nat, k: nat, was: Bytes, buf: Bytes, log: seq<Action>, comm: seq<Bytes>)
    requires chunk > 0
  {
    && k <= |Plan(size, chunk)| && k == |comm| && |was| == size
    && log == Trace(Plan(size, chunk)[..k]) && buf == Filled(was, Plan(size, chunk)[..k], comm)
  }

  lemma DoneStep(size: nat, chunk: nat, k: nat, was: Bytes, buf: Bytes, log: seq<Action>, comm: seq<Bytes>, c: Bytes)
    requires chunk > 0 && Done(size, chunk, k, was, buf, log, comm) && k < |Plan(size, chunk)|
    ensures
      var p := Plan(size, chunk)[k];
      Done(size, chunk, k + 1, was, Copied(buf, p, c), log + Actions(p), comm + [c])
  {
    var ps := Plan(size, chunk);
    assert ps[..k + 1][..k] == ps[..k] && (comm + [c])[..k] == comm;
  }

  /** What the flag test finds: nothing yet, or the next piece in the communication buffer. */
  datatype Poll = Unset | Set(comm: Bytes)

  ghost predicate CommOk(c: Bytes, chunk: nat) {
    |c| >= chunk && |c| >= LINE_SIZE
  }

  /** The rest of the plan at a place of the code, for a message of size > 0. */
  ghost predicate Rest(size: nat, chunk: nat, k: nat, rest: seq<Piece>)
    requires chunk > 0
  {
    size > 0 && k <= |Plan(size, chunk)| && Plan(size, chunk)[k..] == rest
  }

  lemma RestStep(size: nat, chunk: nat, k: nat, rest: seq<Piece>)
    requires chunk > 0 && Rest(size, chunk, k, rest) && rest != []
    ensures k < |Plan(size, chunk)| && Plan(size, chunk)[k] == rest[0] && Rest(size, chunk, k + 1, rest[1..])
  {
    assert Plan(size, chunk)[k] == Plan(size, chunk)[k..][0];
    assert Plan(size, chunk)[k + 1..] == Plan(size, chunk)[k..][1..];
  }

  // ---------- the blocking receive ----------

  /** What RCCE_recv_general does: for a message without bytes it leaves the sent flag alone. */
  function BlockingLog(size: nat, chunk: nat): seq<Action>
    requires chunk > 0
  {
    if size == 0 then [SetReady] else Trace(Plan(size, chunk))
  }

  /** One iteration of the waiting code: the flag is set and c is in the communication buffer. */
  method Blocked(privbuf: array<int>, p: Piece, c: Bytes, log: seq<Action>, ghost chunk: nat, ghost k: nat,
                 ghost was: Bytes, ghost comm: seq<Bytes>, ghost rest: seq<Piece>) returns (log': seq<Action>)
    requires chunk > 0 && Done(privbuf.Length, chunk, k, was, privbuf[..], log, comm)
    requires Rest(privbuf.Length, chunk, k, [p] + rest) && p.at + p.n <= privbuf.Length && CommOk(c, chunk)
    requires p.n <= |c| && (p.padded ==> p.n <= LINE_SIZE)
    modifies privbuf
    ensures Done(privbuf.Length, chunk, k + 1, was, privbuf[..], log', comm + [c])
    ensures Rest(privbuf.Length, chunk, k + 1, rest)
  {
    RestStep(privbuf.Length, chunk, k, [p] + rest);
    DoneStep(privbuf.Length, chunk, k, was, privbuf[..], log, comm, c);
    log' := TakePiece(privbuf, p, c, log);
    assert ([p] + rest)[1..] == rest;
  }

  /** RCCE_recv_general: the k-th wait for the flag ends with comm[k] in the communication buffer. */
  method RecvGeneral(privbuf: array<int>, chunk: nat, comm: seq<Bytes>) returns (log: seq<Action>)
    requires chunk > 0 && |comm| == |Plan(privbuf.Length, chunk)|
    requires forall i :: 0 <= i < |comm| ==> CommOk(comm[i], chunk)
    modifies privbuf
    ensures log == BlockingLog(privbuf.Length, chunk)
    ensures privbuf[..] == Filled(old(privbuf[..]), Plan(privbuf.Length, chunk), comm)
  {
    if privbuf.Length == 0 {
      assert Plan(0, chunk)[..0] == [] && comm[..0] == [];
      log := [SetReady];
    } else {
      log := RecvChunks(privbuf, chunk, comm);
    }
  }

  /** The data in units of the available chunk size, and then the rest. */
  method RecvChunks(privbuf: array<int>, chunk: nat, comm: seq<Bytes>) returns (log: seq<Action>)
    requires chunk > 0 && privbuf.Length > 0 && |comm| == |Plan(privbuf.Length, chunk)|
    requires forall i :: 0 <= i < |comm| ==> CommOk(comm[i], chunk)
    modifies privbuf
    ensures log == Trace(Plan(privbuf.Length, chunk))
    ensures privbuf[..] == Filled(old(privbuf[..]), Plan(privbuf.Length, chunk), comm)
  {
    var size := privbuf.Length;
    log := [];
    ghost var was := privbuf[..];
    var wsize, k: nat := 0, 0;
    ghost var i: nat := 0;
    assert Plan(size, chunk)[0..] == Plan(size, chunk);
    assert Multiple(0, chunk, 0);
    LoopTest(size, chunk, 0, 0);
    while wsize < size / chunk * chunk
      invariant Multiple(wsize, chunk, i) && wsize <= size && k <= |comm|
      invariant Done(size, chunk, k, was, privbuf[..], log, comm[..k])
      invariant Rest(size, chunk, k, Pieces(wsize, size, chunk))
      decreases size - wsize
    {
      LoopTest(size, chunk, wsize, i);
      log := RecvChunk(privbuf, chunk, comm, log, wsize, k, was);
      wsize, k, i := wsize + chunk, k + 1, i + 1;
    }
    LoopTest(size, chunk, wsize, i);
    log := RecvRest(privbuf, chunk, comm, log, k, wsize, was);
  }

  /** The k-th wait, for the next piece of the plan. */
  method TakeNext(privbuf: array<int>, p: Piece, chunk: nat, comm: seq<Bytes>, log0: seq<Action>, k: nat,
                  ghost was: Bytes, ghost rest: seq<Piece>) returns (log: seq<Action>)
    requires chunk > 0 && |comm| == |Plan(privbuf.Length, chunk)| && k <= |comm|
    requires forall i :: 0 <= i < |comm| ==> CommOk(comm[i], chunk)
    requires Done(privbuf.Length, chunk, k, was, privbuf[..], log0, comm[..k])
    requires Rest(privbuf.Length, chunk, k, [p] + rest) && p.at + p.n <= privbuf.Length
    requires if p.padded then p.n <= LINE_SIZE else p.n <= chunk
    modifies privbuf
    ensures k < |comm| && Done(privbuf.Length, chunk, k + 1, was, privbuf[..], log, comm[..k + 1])
    ensures Rest(privbuf.Length, chunk, k + 1, rest)
  {
    log := Blocked(privbuf, p, comm[k], log0, chunk, k, was, comm[..k], rest);
    assert comm[..k + 1] == comm[..k] + [comm[k]];
  }

  method RecvChunk(privbuf: array<int>, chunk: nat, comm: seq<Bytes>, log0: seq<Action>, wsize: nat, k: nat,
                   ghost was: Bytes) returns (log: seq<Action>)
    requires chunk > 0 && |comm| == |Plan(privbuf.Length, chunk)| && k <= |comm| && wsize + chunk <= privbuf.Length
    requires forall i :: 0 <= i < |comm| ==> CommOk(comm[i], chunk)
    requires Done(privbuf.Length, chunk, k, was, privbuf[..], log0, comm[..k])
    requires Rest(privbuf.Length, chunk, k, Pieces(wsize, privbuf.Length, chunk))
    modifies privbuf
    ensures k < |comm| && Done(privbuf.Length, chunk, k + 1, was, privbuf[..], log, comm[..k + 1])
    ensures Rest(privbuf.Length, chunk, k + 1, Pieces(wsize + chunk, privbuf.Length, chunk))
  {
    log := TakeNext(privbuf, Piece(wsize, chunk, false), chunk, comm, log0, k, was,
                    Pieces(wsize + chunk, privbuf.Length, chunk));
  }

  lemma AllDone(size: nat, chunk: nat, k: nat, was: Bytes, buf: Bytes, log: seq<Action>, comm: seq<Bytes>)
    requires chunk > 0 && |comm| == |Plan(size, chunk)| && k <= |comm|
    requires Done(size, chunk, k, was, buf, log, comm[..k]) && Rest(size, chunk, k, [])
    ensures log == Trace(Plan(size, chunk)) && buf == Filled(was, Plan(size, chunk), comm)
  {
    assert k == |comm| && Plan(size, chunk)[..k] == Plan(size, chunk) && comm[..k] == comm;
  }

  /** The code after the loop: whole cache lines. */
  method RecvRest(privbuf: array<int>, chunk: nat, comm: seq<Bytes>, log0: seq<Action>, k: nat, ghost from: nat,
                  ghost was: Bytes) returns (log: seq<Action>)
    requires chunk > 0 && |comm| == |Plan(privbuf.Length, chunk)| && k <= |comm|
    requires forall i :: 0 <= i < |comm| ==> CommOk(comm[i], chunk)
    requires from == privbuf.Length / chunk * chunk && privbuf.Length % chunk == privbuf.Length - from
    requires Done(privbuf.Length, chunk, k, was, privbuf[..], log0, comm[..k])
    requires Rest(privbuf.Length, chunk, k, Tail(from, privbuf.Length - from))
    modifies privbuf
    ensures log == Trace(Plan(privbuf.Length, chunk))
    ensures privbuf[..] == Filled(was, Plan(privbuf.Length, chunk), comm)
  {
    var remainder := privbuf.Length % chunk;
    var bufptr := privbuf.Length / chunk * chunk;
    log := RecvLines(privbuf, chunk, comm, log0, k, bufptr, remainder, was);
  }

  method RecvLines(privbuf: array<int>, chunk: nat, comm: seq<Bytes>, log0: seq<Action>, k: nat, from: nat,
                   remainder: nat, ghost was: Bytes) returns (log: seq<Action>)
    requires chunk > 0 && |comm| == |Plan(privbuf.Length, chunk)| && k <= |comm| && remainder < chunk
    requires forall i :: 0 <= i < |comm| ==> CommOk(comm[i], chunk)
    requires Done(privbuf.Length, chunk, k, was, privbuf[..], log0, comm[..k])
    requires Rest(privbuf.Length, chunk, k, Tail(from, remainder)) && from + remainder == privbuf.Length
    modifies privbuf
    ensures log == Trace(Plan(privbuf.Length, chunk))
    ensures privbuf[..] == Filled(was, Plan(privbuf.Length, chunk), comm)
  {
    var nbytes := remainder - remainder % LINE_SIZE;
    if nbytes > 0 {
      log := TakeNext(privbuf, Piece(from, nbytes, false), chunk, comm, log0, k, was, Padding(from, remainder));
      log := RecvPadding(privbuf, chunk, comm, log, k + 1, from, remainder, was);
    } else {
      assert Tail(from, remainder) == Padding(from, remainder);
      log := RecvPadding(privbuf, chunk, comm, log0, k, from, remainder, was);
    }
  }

  /** The last bytes, less than a line. */
  method RecvPadding(privbuf: array<int>, chunk: nat, comm: seq<Bytes>, log0: seq<Action>, k: nat, from: nat,
                     remainder: nat, ghost was: Bytes) returns (log: seq<Action>)
    requires chunk > 0 && |comm| == |Plan(privbuf.Length, chunk)| && k <= |comm|
    requires forall i :: 0 <= i < |comm| ==> CommOk(comm[i], chunk)
    requires Done(privbuf.Length, chunk, k, was, privbuf[..], log0, comm[..k])
    requires Rest(privbuf.Length, chunk, k, Padding(from, remainder)) && from + remainder == privbuf.Length
    modifies privbuf
    ensures log == Trace(Plan(privbuf.Length, chunk))
    ensures privbuf[..] == Filled(was, Plan(privbuf.Length, chunk), comm)
  {
    var rest := remainder % LINE_SIZE;
    log := log0;
    if rest > 0 {
      var p := Piece(from + (remainder - rest), rest, true);
      log := TakeNext(privbuf, p, chunk, comm, log, k, was, []);
    }
    AllDone(privbuf.Length, chunk, if rest > 0 then k + 1 else k, was, privbuf[..], log, comm);
  }

  // ---------- the resumable receive ----------

  /**
   The places of RCCE_push_recv_request: its beginning, the head of the loop, the code behind the whole
   lines, the four tests of the flag (labels 1 to 4) and the end.
   */
  datatype Pc = Start | Chunks | AfterLines | Label1 | Label2 | Label3 | Label4 | End

  function PcOf(label_: nat): Pc {
    if label_ == 1 then Label1 else if label_ == 2 then Label2 else if label_ == 3 then Label3
    else if label_ == 4 then Label4 else Start
  }

  predicate Tests(pc: Pc) {
    pc == Label1 || pc == Label2 || pc == Label3 || pc == Label4
  }

  function LabelOf(pc: Pc): nat {
    match pc
    case Label1 => 1
    case Label2 => 2
    case Label3 => 3
    case Label4 => 4
    case _ => 0
  }

  /** The contents taken by a call that finds the flag as polls says when left pieces are missing. */
  function Taken(polls: seq<Poll>, left: nat): (cs: seq<Bytes>)
    ensures |cs| <= left
  {
    if left == 0 || polls == [] || polls[0].Unset? then [] else [polls[0].comm] + Taken(polls[1..], left - 1)
  }

  /** cs has been taken and polls from used on is still to come; goal is the final result. */
  ghost predicate Owes(cs: seq<Bytes>, polls: seq<Poll>, used: nat, left: int, goal: seq<Bytes>) {
    used <= |polls| && 0 <= left && cs + Taken(polls[used..], left) == goal
  }

  lemma OwesStep(cs: seq<Bytes>, polls: seq<Poll>, used: nat, left: int, goal: seq<Bytes>)
    requires Owes(cs, polls, used, left, goal)
    ensures used == |polls| || polls[used].Unset? || left == 0 ==> cs == goal
    ensures used < |polls| && polls[used].Set? && left > 0 ==>
      Owes(cs + [polls[used].comm], polls, used + 1, left - 1, goal)
  {
    if used < |polls| {
      assert polls[used..][1..] == polls[used + 1..];
      if polls[used].Set? && left > 0 {
        var c, later := polls[used].comm, Taken(polls[used + 1..], left - 1);
        assert cs + ([c] + later) == (cs + [c]) + later;
      }
    }
  }

  class Request {
    const chunk: nat
    const privbuf: array<int>
    var wsize: nat
    var remainder: nat
    var nbytes: nat
    var bufptr: nat
    var label_: nat
    var finished: bool
    var log: seq<Action>
    /**
     The buffer at the start, the bytes in whole chunks and behind them, what the pieces taken so far
     held, and how many of those were full chunks.
     */
    ghost const was: Bytes
    ghost const whole: nat
    ghost const rest: nat
    ghost var comm: seq<Bytes>
    ghost var full: nat

    function Size(): nat
    {
      privbuf.Length
    }

    /** What the fields say when control is at pc. */
    ghost predicate At(pc: Pc)
      requires chunk > 0
      reads this`wsize, this`full, this`bufptr, this`nbytes, this`remainder, this`comm
    {
      var k := |comm|;
      match pc
         case Start => k == 0 && wsize == 0 && full == 0
         case Label1 => k == 0 && Size() == 0
         case Chunks =>
           && Multiple(wsize, chunk, full) && wsize <= Size()
           && Rest(Size(), chunk, k, Pieces(wsize, Size(), chunk))
         case Label2 =>
           && Multiple(wsize, chunk, full) && wsize + chunk <= Size() && bufptr == wsize && nbytes == chunk
           && Rest(Size(), chunk, k, Pieces(wsize, Size(), chunk))
         case Label3 => Rest(Size(), chunk, k, Tail(whole, rest)) && bufptr == whole && nbytes == Lines(rest) > 0
         case AfterLines => Rest(Size(), chunk, k, Padding(whole, rest)) && nbytes == Lines(rest)
         case Label4 =>
           && Rest(Size(), chunk, k, Padding(whole, rest))
           && remainder == rest % LINE_SIZE > 0 && bufptr == whole + Lines(rest) && nbytes == LINE_SIZE
         case End => k == |Plan(Size(), chunk)|
    }

    /** The two ghost lengths are what the code computes. */
    ghost predicate Parts()
      requires chunk > 0
    {
      whole == Whole(Size(), chunk) && rest == Size() % chunk && whole + rest == Size()
    }

    ghost predicate Progress()
      reads this`log, this`comm, privbuf
    {
      chunk > 0 && Done(Size(), chunk, |comm|, was, privbuf[..], log, comm)
    }

    ghost predicate Valid()
      reads this, privbuf
    {
      chunk > 0 && Stands(Place())
    }

    /** Where the next call goes on. */
    function Place(): Pc
      reads this`finished, this`label_
    {
      if finished then End else PcOf(label_)
    }

    /** The number of pieces still missing. */
    ghost function Lacks(): (n: nat)
      reads this`comm
    {
      if chunk > 0 && |comm| <= |Plan(Size(), chunk)| then |Plan(Size(), chunk)| - |comm| else 0
    }

    /** RCCE_init_recv_request. */
    constructor (privbuf: array<int>, chunk: nat)
      requires chunk > 0
      ensures Valid() && !finished && this.privbuf == privbuf && this.chunk == chunk
      ensures comm == [] && was == privbuf[..] && log == []
    {
      this.privbuf, this.chunk := privbuf, chunk;
      wsize, remainder, nbytes, bufptr, label_, finished, log := 0, 0, 0, 0, 0, false, [];
      was, comm, full := privbuf[..], [], 0;
      whole, rest := Whole(privbuf.Length, chunk), privbuf.Length % chunk;
      new;
      assert Here(Start);
    }

    /** From a place without a test on to the next test, or to the end. */
    method Settle(pc: Pc) returns (next: Pc)
      requires chunk > 0 && Stands(pc) && (pc == Start || pc == Chunks || pc == AfterLines)
      modifies this`bufptr, this`nbytes, this`remainder
      ensures Stands(next) && (Tests(next) || next == End)
    {
      assert Here(pc);
      var size, place := privbuf.Length, pc;
      if place == Start {
        if size == 0 {
          assert Here(Label1);
          return Label1;
        }
        assert Plan(size, chunk)[0..] == Plan(size, chunk);
        place := Chunks;
      }
      if place == Chunks {
        next := SettleChunks();
        if next != AfterLines {
          assert Here(next);
          return;
        }
      }
      next := SettleLines();
      assert Here(next);
    }

    method SettleChunks() returns (next: Pc)
      requires chunk > 0 && Parts() && At(Chunks)
      modifies this`bufptr, this`nbytes, this`remainder
      ensures At(next) && (next == Label2 || next == Label3 || next == AfterLines || next == End)
    {
      var size := privbuf.Length;
      LoopTest(size, chunk, wsize, full);
      if wsize < size / chunk * chunk {
        bufptr, nbytes := wsize, chunk;
        return Label2;
      }
      remainder := size % chunk;
      if remainder == 0 {
        return End;
      }
      bufptr := size / chunk * chunk;
      nbytes := remainder - remainder % LINE_SIZE;
      if nbytes > 0 {
        return Label3;
      }
      assert Tail(bufptr, remainder) == Padding(bufptr, remainder);
      return AfterLines;
    }

    method SettleLines() returns (next: Pc)
      requires chunk > 0 && Parts() && At(AfterLines)
      modifies this`bufptr, this`nbytes, this`remainder
      ensures At(next) && (next == Label4 || next == End)
    {
      var size := privbuf.Length;
      remainder := size % chunk;
      remainder := remainder % LINE_SIZE;
      if remainder == 0 {
        return End;
      }
      bufptr := size / chunk * chunk + nbytes;
      nbytes := LINE_SIZE;
      return Label4;
    }

    /** The flag was found set: the piece is taken, and control goes on behind the test. */
    method Take(pc: Pc, c: Bytes) returns (next: Pc)
      requires chunk > 0 && Stands(pc) && Tests(pc) && CommOk(c, chunk)
      modifies this, privbuf
      ensures Stands(next) && comm == old(comm) + [c] && finished == old(finished)
      ensures next == Chunks || next == AfterLines || next == End
    {
      assert Here(pc);
      match pc
      case Label1 => next := TakeZero(c);
      case Label2 => next := TakeChunk(c);
      case Label3 => next := TakeLines(c);
      case Label4 => next := TakeLast(c);
      assert Here(next);
    }

    method TakeZero(c: Bytes) returns (next: Pc)
      requires Progress() && At(Label1)
      modifies this`log, this`comm, privbuf
      ensures Progress() && comm == old(comm) + [c] && next == End && At(next)
    {
      DoneStep(0, chunk, 0, was, privbuf[..], log, comm, c);
      log := TakePiece(privbuf, Piece(0, 0, false), c, log);
      comm := comm + [c];
      return End;
    }

    method TakeChunk(c: Bytes) returns (next: Pc)
      requires Progress() && At(Label2) && CommOk(c, chunk)
      modifies this`log, this`comm, this`wsize, this`full, privbuf
      ensures Progress() && comm == old(comm) + [c] && next == Chunks && At(next)
    {
      log := Blocked(privbuf, Piece(bufptr, nbytes, false), c, log, chunk, |comm|, was, comm,
                     Pieces(wsize + chunk, Size(), chunk));
      comm := comm + [c];
      LoopTest(Size(), chunk, wsize, full);
      wsize, full := wsize + chunk, full + 1;
      return Chunks;
    }

    method TakeLines(c: Bytes) returns (next: Pc)
      requires Progress() && Parts() && At(Label3) && CommOk(c, chunk)
      modifies this`log, this`comm, privbuf
      ensures Progress() && comm == old(comm) + [c] && next == AfterLines && At(next)
    {
      log := Blocked(privbuf, Piece(bufptr, nbytes, false), c, log, chunk, |comm|, was, comm, Padding(whole, rest));
      comm := comm + [c];
      return AfterLines;
    }

    method TakeLast(c: Bytes) returns (next: Pc)
      requires Progress() && Parts() && At(Label4) && CommOk(c, chunk)
      modifies this`log, this`comm, privbuf
      ensures Progress() && comm == old(comm) + [c] && next == End && At(next)
    {
      log := Blocked(privbuf, Piece(bufptr, remainder, true), c, log, chunk, |comm|, was, comm, []);
      comm := comm + [c];
      return End;
    }

    /**
     RCCE_push_recv_request against what the tests of the flag find: it takes pieces as long as the
     flag is found set and the message is not complete, and remembers where it stopped.
     */
    method Push(polls: seq<Poll>)
      requires Valid() && forall i :: 0 <= i < |polls| && polls[i].Set? ==> CommOk(polls[i].comm, chunk)
      modifies this, privbuf
      ensures Valid() && comm == old(comm) + Taken(polls, old(Lacks()))
      ensures finished <==> |comm| == |Plan(Size(), chunk)|
    {
      FinishedExactly();
      if finished {
        return;
      }
      var pc := PcOf(label_);
      if pc == Start {
        pc := Settle(pc);
      }
      assert polls[0..] == polls;
      Resume(pc, polls, comm + Taken(polls, Lacks()));
    }

    method Resume(from: Pc, polls: seq<Poll>, ghost goal: seq<Bytes>)
      requires chunk > 0 && Stands(from) && (Tests(from) || from == End) && !finished
      requires forall i :: 0 <= i < |polls| && polls[i].Set? ==> CommOk(polls[i].comm, chunk)
      requires Owes(comm, polls, 0, |Plan(Size(), chunk)| - |comm|, goal)
      modifies this, privbuf
      ensures Valid() && comm == goal && (finished <==> |comm| == |Plan(Size(), chunk)|)
    {
      var pc, used := from, 0;
      while pc != End
        invariant Stands(pc) && (Tests(pc) || pc == End) && !finished
        invariant 0 <= used && Owes(comm, polls, used, |Plan(Size(), chunk)| - |comm|, goal)
        decreases |polls| - used
      {
        Missing(pc);
        OwesStep(comm, polls, used, |Plan(Size(), chunk)| - |comm|, goal);
        if used == |polls| || polls[used].Unset? {
          Suspend(pc);
          return;
        }
        pc := Take(pc, polls[used].comm);
        used := used + 1;
        if pc != End {
          pc := Settle(pc);
        }
      }
      Missing(pc);
      OwesStep(comm, polls, used, 0, goal);
      Finish();
    }

    /** Control is at pc. */
    ghost predicate Here(pc: Pc)
      requires chunk > 0
      reads this`wsize, this`full, this`bufptr, this`nbytes, this`remainder, this`comm, this`log, privbuf
    {
      Progress() && Parts() && At(pc)
    }

    /**
     The same. The quantifier, over one value, keeps Here folded in proofs until a proof mentions it: the
     verifier does not expand all eight cases where only Stands is passed on.
     */
    ghost predicate Stands(pc: Pc)
      requires chunk > 0
      reads this`wsize, this`full, this`bufptr, this`nbytes, this`remainder, this`comm, this`log, privbuf
    {
      forall q :: q == pc ==> Here(q)
    }

    /** At a test a piece is still missing. */
    lemma Missing(pc: Pc)
      requires chunk > 0 && Stands(pc) && (Tests(pc) || pc == End)
      ensures (pc == End <==> |comm| == |Plan(Size(), chunk)|) && |comm| <= |Plan(Size(), chunk)|
    {
      assert Here(pc);
    }

    /** A request is finished exactly when all its pieces are in. */
    lemma FinishedExactly()
      requires Valid()
      ensures |comm| <= |Plan(Size(), chunk)| && (finished <==> |comm| == |Plan(Size(), chunk)|)
    {
      if Place() == Start {
        assert Here(Start);
        PlanNotEmpty(Size(), chunk);
      } else {
        Missing(Place());
      }
    }

    /**
     A finished request has performed the actions of the blocking receive exactly when the message has
     bytes, and its buffer holds what the blocking receive would have put there.
     */
    lemma LikeBlocking()
      requires Valid() && finished
      ensures log == BlockingLog(Size(), chunk) <==> Size() > 0
      ensures |comm| == |Plan(Size(), chunk)| && privbuf[..] == Filled(was, Plan(Size(), chunk), comm)
    {
      assert Here(End);
      var ps := Plan(Size(), chunk);
      assert ps[..|ps|] == ps;
      if Size() == 0 {
        assert ps[..0] == [];
        assert |Trace(ps)| == 2;
      }
    }

    method Suspend(pc: Pc)
      requires chunk > 0 && Stands(pc) && Tests(pc) && !finished
      modifies this`label_
      ensures Valid()
    {
      label_ := LabelOf(pc);
      assert Place() == pc;
    }

    method Finish()
      requires chunk > 0 && Stands(End)
      modifies this`finished
      ensures Valid() && finished
    {
      finished := true;
    }
  }

  /**
   The blocking receive of the same message into another buffer: it ends with the same bytes, and with
   the same actions exactly when there are bytes.
   */
  method ReceiveAgain(r: Request, privbuf: array<int>, comm: seq<Bytes>) returns (log: seq<Action>)
    requires r.Valid() && r.finished && comm == r.comm && privbuf != r.privbuf && privbuf[..] == r.was
    requires forall i :: 0 <= i < |comm| ==> CommOk(comm[i], r.chunk)
    modifies privbuf
    ensures r.Valid() && privbuf[..] == r.privbuf[..] && (log == r.log <==> r.Size() > 0)
  {
    r.LikeBlocking();
    assert |privbuf[..]| == |r.was|;
    log := RecvGeneral(privbuf, r.chunk, comm);
    r.LikeBlocking();
  }
}
