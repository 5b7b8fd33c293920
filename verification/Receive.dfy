/**
 Receiving a message through the message-passing buffer, usr/ircce/RCCE_recv.c: the pieces it comes in,
 and what the receiver does for each.
 */
module Receive {
  import opened Rcce

  /** n bytes for the offset at; a padded piece is fetched as a whole line and then cut. */
  datatype Piece = Piece(at: nat, n: nat, padded: bool)

  datatype Action =
    | ClearSent
    | Get(at: nat, n: nat)
    | GetLine(at: nat, n: nat)
    | SetReady

  type Bytes = seq<int>

  // ---------- the pieces of a message ----------

  /** What is left after the full chunks: whole cache lines, then less than a line. */
  function Tail(from: nat, rest: nat): seq<Piece> {
    var lines := rest - rest % LINE_SIZE;
    (if lines > 0 then [Piece(from, lines, false)] else []) + Padding(from, rest)
  }

  function Padding(from: nat, rest: nat): seq<Piece> {
    var lines := rest - rest % LINE_SIZE;
    if rest % LINE_SIZE > 0 then [Piece(from + lines, rest % LINE_SIZE, true)] else []
  }

  function Pieces(from: nat, size: nat, chunk: nat): seq<Piece>
    requires chunk > 0 && from <= size
    decreases size - from
  {
    if from + chunk <= size then [Piece(from, chunk, false)] + Pieces(from + chunk, size, chunk)
    else Tail(from, size - from)
  }

  /** A message of no bytes is one piece without data. */
  function Plan(size: nat, chunk: nat): seq<Piece>
    requires chunk > 0
  {
    if size == 0 then [Piece(0, 0, false)] else Pieces(0, size, chunk)
  }

  /** The pieces lie one behind the other and cover [from, to). */
  predicate Tiles(ps: seq<Piece>, from: nat, to: nat) {
    if ps == [] then from == to
    else ps[0].at == from && ps[0].n > 0 && Tiles(ps[1..], from + ps[0].n, to)
  }

  lemma TailTiles(from: nat, rest: nat)
    ensures Tiles(Tail(from, rest), from, from + rest)
  {
    var lines := rest - rest % LINE_SIZE;
    var pad := Padding(from, rest);
    if pad != [] {
      assert pad[1..] == [] && Tiles(pad[1..], from + rest, from + rest);
    }
    assert Tiles(pad, from + lines, from + rest);
    if lines > 0 {
      assert Tail(from, rest)[1..] == pad;
    } else {
      assert Tail(from, rest) == pad;
    }
  }

  lemma TilesCons(p: Piece, ps: seq<Piece>, from: nat, to: nat)
    requires p.at == from && p.n > 0 && Tiles(ps, from + p.n, to)
    ensures Tiles([p] + ps, from, to)
  {
    assert ([p] + ps)[1..] == ps;
  }

  lemma {:induction false} PiecesTile(from: nat, size: nat, chunk: nat)
    requires chunk > 0 && from <= size
    ensures Tiles(Pieces(from, size, chunk), from, size)
    decreases size - from
  {
    if from + chunk <= size {
      PiecesTile(from + chunk, size, chunk);
      TilesCons(Piece(from, chunk, false), Pieces(from + chunk, size, chunk), from, size);
    } else {
      TailTiles(from, size - from);
    }
  }

  /** Every message, even an empty one, has a piece. */
  lemma PlanNotEmpty(size: nat, chunk: nat)
    requires chunk > 0
    ensures Plan(size, chunk) != []
  {
    if size > 0 {
      PiecesTile(0, size, chunk);
    }
  }

  // ---------- what is done for a piece ----------

  function Actions(p: Piece): seq<Action> {
    if p.n == 0 then [ClearSent, SetReady]
    else [ClearSent, if p.padded then GetLine(p.at, p.n) else Get(p.at, p.n), SetReady]
  }

  function Trace(ps: seq<Piece>): seq<Action> {
    if ps == [] then [] else Trace(ps[..|ps| - 1]) + Actions(ps[|ps| - 1])
  }

  /** The bytes of the communication buffer go to their place. */
  function Copied(buf: Bytes, p: Piece, comm: Bytes): (b: Bytes)
    ensures |b| == |buf|
  {
    if p.at + p.n <= |buf| && p.n <= |comm| then buf[..p.at] + comm[..p.n] + buf[p.at + p.n..] else buf
  }

  /** The buffer after the pieces ps came with the contents comm, one each. */
  function Filled(buf: Bytes, ps: seq<Piece>, comm: seq<Bytes>): (b: Bytes)
    requires |ps| == |comm|
    ensures |b| == |buf|
  {
    if ps == [] then buf
    else Copied(Filled(buf, ps[..|ps| - 1], comm[..|ps| - 1]), ps[|ps| - 1], comm[|ps| - 1])
  }

  /** The sender presents the message msg piece by piece. */
  ghost predicate Presents(comm: seq<Bytes>, ps: seq<Piece>, msg: Bytes) {
    |comm| == |ps| && forall i :: 0 <= i < |ps| ==> PieceOf(comm[i], ps[i], msg)
  }

  predicate PieceOf(c: Bytes, p: Piece, msg: Bytes) {
    p.n <= |c| && p.at + p.n <= |msg| && c[..p.n] == msg[p.at..p.at + p.n]
  }

  lemma {:induction false} TilesSnoc(ps: seq<Piece>, from: nat, to: nat)
    requires Tiles(ps, from, to) && ps != []
    ensures
      var p := ps[|ps| - 1];
      from <= p.at && p.n > 0 && p.at + p.n == to && Tiles(ps[..|ps| - 1], from, p.at)
  {
    if |ps| > 1 {
      TilesSnoc(ps[1..], from + ps[0].n, to);
      assert ps[1..][..|ps| - 2] == ps[..|ps| - 1][1..];
    }
  }

  lemma CopiedNext(buf: Bytes, p: Piece, c: Bytes, msg: Bytes)
    requires |buf| == |msg| && PieceOf(c, p, msg)
    ensures Copied(msg[..p.at] + buf[p.at..], p, c) == msg[..p.at + p.n] + buf[p.at + p.n..]
  {
    var b := msg[..p.at] + buf[p.at..];
    assert b[..p.at] == msg[..p.at] && b[p.at + p.n..] == buf[p.at + p.n..];
    assert msg[..p.at + p.n] == msg[..p.at] + msg[p.at..p.at + p.n];
  }

  /** Receiving pieces that tile the start of the buffer puts that much of the message there. */
  lemma {:induction false} FilledIsMessage(buf: Bytes, ps: seq<Piece>, comm: seq<Bytes>, msg: Bytes, to: nat)
    requires Tiles(ps, 0, to) && to <= |buf| == |msg| && Presents(comm, ps, msg)
    ensures Filled(buf, ps, comm) == msg[..to] + buf[to..]
  {
    if ps != [] {
      var n := |ps| - 1;
      TilesSnoc(ps, 0, to);
      FilledIsMessage(buf, ps[..n], comm[..n], msg, ps[n].at);
      assert PieceOf(comm[n], ps[n], msg);
      CopiedNext(buf, ps[n], comm[n], msg);
    } else {
      assert msg[..0] + buf[0..] == buf;
    }
  }

  // ---------- the actions against a sender ----------

  /** The sender's side: piece number next lies in the communication buffer, announced by the sent flag. */
  datatype Line = Line(next: nat, sent: bool, buf: Bytes) | Stuck

  /**
   An action of the receiver. It clears the flag only after seeing it set, and ready makes the sender
   present the next piece and set the flag again.
   */
  function Meets(l: Line, a: Action, comm: seq<Bytes>): Line {
    if l.Stuck? || l.next >= |comm| then Stuck
    else
      match a
      case ClearSent => if l.sent then l.(sent := false) else Stuck
      case Get(at, n) => l.(buf := Copied(l.buf, Piece(at, n, false), comm[l.next]))
      case GetLine(at, n) => l.(buf := Copied(l.buf, Piece(at, n, true), comm[l.next]))
      case SetReady => l.(next := l.next + 1, sent := l.next + 1 < |comm|)
  }

  function Exec(log: seq<Action>, comm: seq<Bytes>, buf: Bytes): Line {
    if log == [] then Line(0, comm != [], buf) else Meets(Exec(log[..|log| - 1], comm, buf), log[|log| - 1], comm)
  }

  lemma ExecSnoc(log: seq<Action>, a: Action, comm: seq<Bytes>, buf: Bytes)
    ensures Exec(log + [a], comm, buf) == Meets(Exec(log, comm, buf), a, comm)
  {
    assert (log + [a])[..|log|] == log;
  }

  lemma ExecTwo(log: seq<Action>, a: Action, b: Action, comm: seq<Bytes>, buf: Bytes)
    ensures Exec(log + [a, b], comm, buf) == Meets(Meets(Exec(log, comm, buf), a, comm), b, comm)
  {
    ExecSnoc(log, a, comm, buf);
    ExecSnoc(log + [a], b, comm, buf);
    assert log + [a, b] == log + [a] + [b];
  }

  lemma ExecPiece(log: seq<Action>, p: Piece, comm: seq<Bytes>, buf: Bytes)
    requires
      var l := Exec(log, comm, buf);
      l.Line? && l.next < |comm| && l.sent
    ensures
      var l := Exec(log, comm, buf);
      Exec(log + Actions(p), comm, buf) ==
        Line(l.next + 1, l.next + 1 < |comm|, if p.n == 0 then l.buf else Copied(l.buf, p, comm[l.next]))
  {
    if p.n == 0 {
      ExecTwo(log, ClearSent, SetReady, comm, buf);
    } else {
      var get := if p.padded then GetLine(p.at, p.n) else Get(p.at, p.n);
      ExecTwo(log, ClearSent, get, comm, buf);
      ExecSnoc(log + [ClearSent, get], SetReady, comm, buf);
      assert log + Actions(p) == log + [ClearSent, get] + [SetReady];
    }
  }

  /** Against such a sender the actions for the pieces never get stuck and fill the buffer with what was presented. */
  lemma {:induction false} TraceFills(ps: seq<Piece>, comm: seq<Bytes>, buf: Bytes, k: nat)
    requires k <= |ps| == |comm|
    ensures Exec(Trace(ps[..k]), comm, buf) == Line(k, k < |comm|, Filled(buf, ps[..k], comm[..k]))
  {
    if k > 0 {
      TraceFills(ps, comm, buf, k - 1);
      assert ps[..k][..k - 1] == ps[..k - 1] && comm[..k][..k - 1] == comm[..k - 1];
      ExecPiece(Trace(ps[..k - 1]), ps[k - 1], comm, buf);
      CopiedNothing(Filled(buf, ps[..k - 1], comm[..k - 1]), ps[k - 1], comm[k - 1]);
    }
  }

  lemma CopiedNothing(buf: Bytes, p: Piece, c: Bytes)
    ensures p.n == 0 ==> Copied(buf, p, c) == buf
    ensures Copied(buf, p, c) == Copied(buf, p.(padded := !p.padded), c)
  {}
}
