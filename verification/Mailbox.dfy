/**
 The bounded mailbox of include/hermit/mailbox.h: a ring buffer, two counting semaphores and two
 locks, used by any number of producers and consumers. Every access to shared data is one step.
 */
module Mailbox {
  import opened Circular
  import opened Counting

  /** Where an agent stands in mailbox_post/trypost (P) or mailbox_fetch/tryfetch (C). */
  datatype Agent<T> =
    | Idle
    | PGotBox(mail: T)    // sem_wait(&boxes) succeeded
    | PLocked(mail: T)    // holds wlock
    | PWritten            // buffer[wpos] = mail done
    | PMoved              // wpos advanced
    | PUnlocked           // wlock released, sem_post(&mails) to come
    | CGotMail            // sem_wait(&mails) succeeded
    | CLocked             // holds rlock
    | CRead(mail: T)      // *mail = buffer[rpos] done
    | CMoved(mail: T)     // rpos advanced
    | CUnlocked(mail: T)  // rlock released, sem_post(&boxes) to come

  /**
   boxes and mails are the values of the two semaphores. posted and fetched are history: the mails
   in the order in which they were written and read.
   */
  datatype Box<T> = Box(
    buffer: seq<T>, wpos: nat, rpos: nat, boxes: nat, mails: nat, wlocked: bool, rlocked: bool,
    agents: seq<Agent<T>>, posted: seq<T>, fetched: seq<T>)

  datatype Step<T> =
    | WaitBox(a: nat, mail: T)
    | LockW(a: nat) | WriteSlot(a: nat) | MoveW(a: nat) | UnlockW(a: nat) | PostMail(a: nat)
    | WaitMail(a: nat)
    | LockR(a: nat) | ReadSlot(a: nat) | MoveR(a: nat) | UnlockR(a: nat) | PostBox(a: nat)

  ghost predicate Shape<T>(b: Box<T>) {
    0 < |b.buffer| && b.wpos < |b.buffer| && b.rpos < |b.buffer|
  }

  ghost predicate Enabled<T>(b: Box<T>, s: Step<T>) {
    && s.a < |b.agents|
    && var x := b.agents[s.a];
       match s
       case WaitBox(_, _) => x.Idle? && b.boxes > 0
       case LockW(_) => x.PGotBox? && !b.wlocked
       case WriteSlot(_) => x.PLocked?
       case MoveW(_) => x.PWritten?
       case UnlockW(_) => x.PMoved?
       case PostMail(_) => x.PUnlocked?
       case WaitMail(_) => x.Idle? && b.mails > 0
       case LockR(_) => x.CGotMail? && !b.rlocked
       case ReadSlot(_) => x.CLocked?
       case MoveR(_) => x.CRead?
       case UnlockR(_) => x.CMoved?
       case PostBox(_) => x.CUnlocked?
  }

  ghost function Apply<T>(b: Box<T>, s: Step<T>): Box<T>
    requires Shape(b) && Enabled(b, s)
  {
    var x := b.agents[s.a];
    match s
    case WaitBox(a, mail) => b.(boxes := b.boxes - 1, agents := b.agents[a := PGotBox(mail)])
    case LockW(a) => b.(wlocked := true, agents := b.agents[a := PLocked(x.mail)])
    case WriteSlot(a) =>
      b.(buffer := b.buffer[b.wpos := x.mail], posted := b.posted + [x.mail], agents := b.agents[a := PWritten])
    case MoveW(a) => b.(wpos := Advance(b.wpos, 1, |b.buffer|), agents := b.agents[a := PMoved])
    case UnlockW(a) => b.(wlocked := false, agents := b.agents[a := PUnlocked])
    case PostMail(a) => b.(mails := b.mails + 1, agents := b.agents[a := Idle])
    case WaitMail(a) => b.(mails := b.mails - 1, agents := b.agents[a := CGotMail])
    case LockR(a) => b.(rlocked := true, agents := b.agents[a := CLocked])
    case ReadSlot(a) =>
      var mail := b.buffer[b.rpos];
      b.(fetched := b.fetched + [mail], agents := b.agents[a := CRead(mail)])
    case MoveR(a) => b.(rpos := Advance(b.rpos, 1, |b.buffer|), agents := b.agents[a := CMoved(x.mail)])
    case UnlockR(a) => b.(rlocked := false, agents := b.agents[a := CUnlocked(x.mail)])
    case PostBox(a) => b.(boxes := b.boxes + 1, agents := b.agents[a := Idle])
  }

  /** mailbox_init with MAILBOX_SIZE = |zeros|. */
  ghost predicate Init<T>(b: Box<T>) {
    && 0 < |b.buffer| && b.wpos == 0 && b.rpos == 0 && b.boxes == |b.buffer| && b.mails == 0
    && !b.wlocked && !b.rlocked && b.posted == [] && b.fetched == []
    && forall a :: 0 <= a < |b.agents| ==> b.agents[a].Idle?
  }

  // ---------- the invariant ----------

  function Filling<T>(): Agent<T> -> bool { (x: Agent<T>) => x.PGotBox? || x.PLocked? }
  function Announcing<T>(): Agent<T> -> bool { (x: Agent<T>) => x.PWritten? || x.PMoved? || x.PUnlocked? }
  function Emptying<T>(): Agent<T> -> bool { (x: Agent<T>) => x.CGotMail? || x.CLocked? }
  function Returning<T>(): Agent<T> -> bool { (x: Agent<T>) => x.CRead? || x.CMoved? || x.CUnlocked? }
  function InW<T>(): Agent<T> -> bool { (x: Agent<T>) => x.PLocked? || x.PWritten? || x.PMoved? }
  function InR<T>(): Agent<T> -> bool { (x: Agent<T>) => x.CLocked? || x.CRead? || x.CMoved? }
  function AtWritten<T>(): Agent<T> -> bool { (x: Agent<T>) => x.PWritten? }
  function AtRead<T>(): Agent<T> -> bool { (x: Agent<T>) => x.CRead? }

  /** Every slot is free, promised to a producer, unread, or read but not yet given back. */
  ghost predicate Conserved<T>(b: Box<T>) {
    && b.mails + Count(b.agents, Emptying()) + Count(b.agents, Announcing()) + |b.fetched| == |b.posted|
    && b.boxes + Count(b.agents, Filling()) + Count(b.agents, Returning()) + |b.posted| == |b.buffer| + |b.fetched|
    && Count(b.agents, InW()) == One(b.wlocked) && Count(b.agents, InR()) == One(b.rlocked)
  }

  /** wpos and rpos have been advanced once for every mail written and read, but for the one in hand. */
  ghost predicate Positions<T>(b: Box<T>) {
    && Shape(b)
    && Count(b.agents, AtWritten()) <= |b.posted| && Count(b.agents, AtRead()) <= |b.fetched|
    && b.wpos == Advance(0, |b.posted| - Count(b.agents, AtWritten()), |b.buffer|)
    && b.rpos == Advance(0, |b.fetched| - Count(b.agents, AtRead()), |b.buffer|)
  }

  /** The unread mails are in the buffer, and the fetched ones were the first posted. */
  ghost predicate Contents<T>(b: Box<T>) {
    && Shape(b) && b.fetched <= b.posted && |b.posted| - |b.fetched| <= |b.buffer|
    && forall i: nat {:trigger b.posted[i]} :: |b.fetched| <= i < |b.posted| ==>
         b.buffer[Advance(0, i, |b.buffer|)] == b.posted[i]
  }

  ghost predicate Inv<T>(b: Box<T>) {
    Conserved(b) && Positions(b) && Contents(b)
  }

  /** The holder of a lock is alone in its section, so no other agent has a half-done move. */
  lemma HolderAlone<T(!new)>(b: Box<T>, a: nat)
    requires Conserved(b) && a < |b.agents|
    ensures b.agents[a].PLocked? || b.agents[a].PMoved? ==> Count(b.agents, AtWritten()) == 0
    ensures b.agents[a].CLocked? || b.agents[a].CMoved? ==> Count(b.agents, AtRead()) == 0
  {
    CountWeaker(b.agents, AtWritten(), InW(), a);
    CountWeaker(b.agents, AtRead(), InR(), a);
  }

  function One(c: bool): nat {
    if c then 1 else 0
  }

  /** A step changes the number of agents in a group by what its own agent does. */
  lemma Shift<T(!new)>(b: Box<T>, s: Step<T>, p: Agent<T> -> bool)
    requires Shape(b) && Enabled(b, s)
    ensures |Apply(b, s).agents| == |b.agents|
    ensures Count(Apply(b, s).agents, p) + One(p(b.agents[s.a])) == Count(b.agents, p) + One(p(Apply(b, s).agents[s.a]))
  {
    var agents := Apply(b, s).agents;
    assert agents == b.agents[s.a := agents[s.a]];
    CountUpdate(b.agents, s.a, agents[s.a], p);
  }

  lemma StepMails<T(!new)>(b: Box<T>, s: Step<T>)
    requires Shape(b) && Conserved(b) && Enabled(b, s)
    ensures
      var b' := Apply(b, s);
      b'.mails + Count(b'.agents, Emptying()) + Count(b'.agents, Announcing()) + |b'.fetched| == |b'.posted|
  {
    Shift(b, s, Emptying());
    Shift(b, s, Announcing());
  }

  lemma StepBoxes<T(!new)>(b: Box<T>, s: Step<T>)
    requires Shape(b) && Conserved(b) && Enabled(b, s)
    ensures
      var b' := Apply(b, s);
      b'.boxes + Count(b'.agents, Filling()) + Count(b'.agents, Returning()) + |b'.posted| == |b'.buffer| + |b'.fetched|
  {
    Shift(b, s, Filling());
    Shift(b, s, Returning());
  }

  lemma StepWlock<T(!new)>(b: Box<T>, s: Step<T>)
    requires Shape(b) && Conserved(b) && Enabled(b, s)
    ensures Count(Apply(b, s).agents, InW()) == One(Apply(b, s).wlocked)
  {
    Shift(b, s, InW());
    if InW<T>()(b.agents[s.a]) {
      CountSome(b.agents, s.a, InW());
    }
  }

  lemma StepRlock<T(!new)>(b: Box<T>, s: Step<T>)
    requires Shape(b) && Conserved(b) && Enabled(b, s)
    ensures Count(Apply(b, s).agents, InR()) == One(Apply(b, s).rlocked)
  {
    Shift(b, s, InR());
    if InR<T>()(b.agents[s.a]) {
      CountSome(b.agents, s.a, InR());
    }
  }

  lemma StepConserved<T(!new)>(b: Box<T>, s: Step<T>)
    requires Shape(b) && Conserved(b) && Enabled(b, s)
    ensures Conserved(Apply(b, s))
  {
    StepMails(b, s);
    StepBoxes(b, s);
    StepWlock(b, s);
    StepRlock(b, s);
  }

  lemma StepWpos<T(!new)>(b: Box<T>, s: Step<T>)
    requires Conserved(b) && Positions(b) && Enabled(b, s)
    ensures var b' := Apply(b, s);
      && b'.wpos < |b'.buffer| && Count(b'.agents, AtWritten()) <= |b'.posted|
      && b'.wpos == Advance(0, |b'.posted| - Count(b'.agents, AtWritten()), |b'.buffer|)
  {
    Shift(b, s, AtWritten());
    if s.WriteSlot? {
      HolderAlone(b, s.a);
    } else if s.MoveW? {
      MoveWpos(b, s);
    }
  }

  lemma MoveWpos<T(!new)>(b: Box<T>, s: Step<T>)
    requires Conserved(b) && Positions(b) && Enabled(b, s) && s.MoveW?
    ensures Count(b.agents, AtWritten()) > 0
    ensures Apply(b, s).wpos == Advance(0, |b.posted| - Count(b.agents, AtWritten()) + 1, |b.buffer|) < |b.buffer|
  {
    CountSome(b.agents, s.a, AtWritten());
    AdvanceAdd(0, |b.posted| - Count(b.agents, AtWritten()), 1, |b.buffer|);
  }

  lemma StepRpos<T(!new)>(b: Box<T>, s: Step<T>)
    requires Conserved(b) && Positions(b) && Enabled(b, s)
    ensures var b' := Apply(b, s);
      && b'.rpos < |b'.buffer| && Count(b'.agents, AtRead()) <= |b'.fetched|
      && b'.rpos == Advance(0, |b'.fetched| - Count(b'.agents, AtRead()), |b'.buffer|)
  {
    Shift(b, s, AtRead());
    if s.ReadSlot? {
      HolderAlone(b, s.a);
    } else if s.MoveR? {
      MoveRpos(b, s);
    }
  }

  lemma MoveRpos<T(!new)>(b: Box<T>, s: Step<T>)
    requires Conserved(b) && Positions(b) && Enabled(b, s) && s.MoveR?
    ensures Count(b.agents, AtRead()) > 0
    ensures Apply(b, s).rpos == Advance(0, |b.fetched| - Count(b.agents, AtRead()) + 1, |b.buffer|) < |b.buffer|
  {
    CountSome(b.agents, s.a, AtRead());
    AdvanceAdd(0, |b.fetched| - Count(b.agents, AtRead()), 1, |b.buffer|);
  }

  /** A producer about to write finds a slot that holds no unread mail. */
  lemma WritesFreeSlot<T(!new)>(b: Box<T>, a: nat, i: nat)
    requires Inv(b) && Enabled(b, WriteSlot(a))
    ensures b.wpos == Advance(0, |b.posted|, |b.buffer|) && |b.posted| - |b.fetched| < |b.buffer|
    ensures |b.fetched| <= i < |b.posted| ==> Advance(0, i, |b.buffer|) != b.wpos
  {
    HolderAlone(b, a);
    CountSome(b.agents, a, Filling());
    if |b.fetched| <= i < |b.posted| && Advance(0, i, |b.buffer|) == b.wpos {
      AdvanceAdd(0, i, |b.posted| - i, |b.buffer|);
      AdvanceInjective(Advance(0, i, |b.buffer|), 0, |b.posted| - i, |b.buffer|);
    }
  }

  /** A consumer about to read finds the oldest unread mail. */
  lemma ReadsOldest<T(!new)>(b: Box<T>, a: nat)
    requires Inv(b) && Enabled(b, ReadSlot(a))
    ensures |b.fetched| < |b.posted| && b.buffer[b.rpos] == b.posted[|b.fetched|]
  {
    HolderAlone(b, a);
    CountSome(b.agents, a, Emptying());
  }

  lemma StepContents<T(!new)>(b: Box<T>, s: Step<T>)
    requires Inv(b) && Enabled(b, s)
    ensures Shape(Apply(b, s)) && Contents(Apply(b, s))
  {
    var b' := Apply(b, s);
    match s
    case WriteSlot(a) =>
      WritesFreeSlot(b, a, 0);
      forall i: nat {:trigger b'.posted[i]} | |b'.fetched| <= i < |b'.posted|
        ensures b'.buffer[Advance(0, i, |b'.buffer|)] == b'.posted[i]
      {
        if i < |b.posted| {
          WritesFreeSlot(b, a, i);
          assert b'.posted[i] == b.posted[i];
        }
      }
    case ReadSlot(a) =>
      ReadsOldest(b, a);
      assert b'.fetched == b.posted[..|b.fetched| + 1];
    case _ =>
  }

  lemma StepKeeps<T(!new)>(b: Box<T>, s: Step<T>)
    requires Inv(b) && Enabled(b, s)
    ensures Inv(Apply(b, s))
  {
    StepConserved(b, s);
    StepWpos(b, s);
    StepRpos(b, s);
    StepContents(b, s);
  }

  // ---------- runs ----------

  ghost predicate Next<T(!new)>(b: Box<T>, s: Step<T>, b': Box<T>) {
    Shape(b) && Enabled(b, s) && b' == Apply(b, s)
  }

  lemma NextKeeps<T(!new)>(b: Box<T>, s: Step<T>, b': Box<T>)
    requires Inv(b) && Next(b, s, b')
    ensures Inv(b')
  {
    StepKeeps(b, s);
  }

  /** run[i] is the state before steps[i]. */
  ghost predicate IsRun<T(!new)>(run: seq<Box<T>>, steps: seq<Step<T>>) {
    && |run| == |steps| + 1 && Init(run[0])
    && forall i :: 0 <= i < |steps| ==> Next(run[i], steps[i], run[i + 1])
  }

  lemma InitInv<T(!new)>(b: Box<T>)
    requires Init(b)
    ensures Inv(b)
  {
    CountNone(b.agents, Filling());
    CountNone(b.agents, Announcing());
    CountNone(b.agents, Emptying());
    CountNone(b.agents, Returning());
    CountNone(b.agents, InW());
    CountNone(b.agents, InR());
    CountNone(b.agents, AtWritten());
    CountNone(b.agents, AtRead());
  }

  lemma {:induction false} RunKeeps<T(!new)>(run: seq<Box<T>>, steps: seq<Step<T>>, i: nat)
    requires IsRun(run, steps) && i < |run|
    ensures Inv(run[i])
  {
    if i == 0 {
      InitInv(run[0]);
    } else {
      RunKeeps(run, steps, i - 1);
      NextKeeps(run[i - 1], steps[i - 1], run[i - 1 + 1]);
    }
  }

  /**
   In every run of any number of producers and consumers the fetched mails are, in order, the first
   posted ones; at most MAILBOX_SIZE mails are unread, and all of them are in the buffer; a write
   hits no unread mail and a read returns the oldest one.
   */
  lemma MailboxFifo<T(!new)>(run: seq<Box<T>>, steps: seq<Step<T>>, n: nat)
    requires IsRun(run, steps) && n < |run|
    ensures
      var b := run[n];
      && Shape(b) && b.fetched <= b.posted && |b.posted| - |b.fetched| <= |b.buffer|
      && (forall i: nat {:trigger b.posted[i]} :: |b.fetched| <= i < |b.posted| ==>
            b.buffer[Advance(0, i, |b.buffer|)] == b.posted[i])
      && (n < |steps| && steps[n].WriteSlot? ==>
            forall i: nat :: |b.fetched| <= i < |b.posted| ==> Advance(0, i, |b.buffer|) != b.wpos)
      && (n < |steps| && steps[n].ReadSlot? ==>
            |b.fetched| < |b.posted| && run[n + 1].fetched == b.fetched + [b.posted[|b.fetched|]])
  {
    var b := run[n];
    RunKeeps(run, steps, n);
    if n < |steps| {
      assert Next(run[n], steps[n], run[n + 1]);
      if steps[n].WriteSlot? {
        forall i: nat | |b.fetched| <= i < |b.posted| ensures Advance(0, i, |b.buffer|) != b.wpos {
          WritesFreeSlot(b, steps[n].a, i);
        }
      }
      if steps[n].ReadSlot? {
        ReadsOldest(b, steps[n].a);
      }
    }
  }
}
