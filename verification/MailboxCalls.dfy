/** The mails that callers give and get, read off the steps of a run. */
module MailboxCalls {
  import opened Counting
  import opened Circular
  import opened Mailbox

  datatype Given<T> = Nothing | Mail(value: T)

  /** The mail of the last call of mailbox_post by agent a before place n. */
  function LastGiven<T>(steps: seq<Step<T>>, n: nat, a: nat): Given<T>
    requires n <= |steps|
  {
    if n == 0 then Nothing
    else if steps[n - 1].WaitBox? && steps[n - 1].a == a then Mail(steps[n - 1].mail)
    else LastGiven(steps, n - 1, a)
  }

  /** The mails written before place n: each was given by the agent that writes it. */
  function GivenInOrder<T>(steps: seq<Step<T>>, n: nat): seq<Given<T>>
    requires n <= |steps|
  {
    if n == 0 then []
    else
      GivenInOrder(steps, n - 1) +
      if steps[n - 1].WriteSlot? then [LastGiven(steps, n - 1, steps[n - 1].a)] else []
  }

  /** The number of reads before place n, and the number of the last read of agent a among them. */
  function Reads<T>(steps: seq<Step<T>>, n: nat): nat
    requires n <= |steps|
  {
    if n == 0 then 0 else Reads(steps, n - 1) + if steps[n - 1].ReadSlot? then 1 else 0
  }

  function LastRead<T>(steps: seq<Step<T>>, n: nat, a: nat): int
    requires n <= |steps|
  {
    if n == 0 then -1
    else if steps[n - 1].ReadSlot? && steps[n - 1].a == a then Reads(steps, n - 1)
    else LastRead(steps, n - 1, a)
  }

  /** A producer still has the mail it was given. */
  ghost predicate Keeps<T>(b: Box<T>, steps: seq<Step<T>>, n: nat, a: nat)
    requires n <= |steps| && a < |b.agents|
  {
    b.agents[a].PGotBox? || b.agents[a].PLocked? ==> LastGiven(steps, n, a) == Mail(b.agents[a].mail)
  }

  /** A consumer has the mail that its own read appended to fetched. */
  ghost predicate Has<T>(b: Box<T>, steps: seq<Step<T>>, n: nat, a: nat)
    requires n <= |steps| && a < |b.agents|
  {
    b.agents[a].CRead? || b.agents[a].CMoved? || b.agents[a].CUnlocked? ==>
      0 <= LastRead(steps, n, a) < |b.fetched| && b.agents[a].mail == b.fetched[LastRead(steps, n, a)]
  }

  ghost predicate Wrapped<T>(posted: seq<T>, given: seq<Given<T>>) {
    |posted| == |given| && forall i :: 0 <= i < |posted| ==> given[i] == Mail(posted[i])
  }

  ghost predicate HistoryOk<T>(b: Box<T>, steps: seq<Step<T>>, n: nat)
    requires n <= |steps|
  {
    && Wrapped(b.posted, GivenInOrder(steps, n)) && |b.fetched| == Reads(steps, n)
    && (forall a: nat :: a < |b.agents| ==> Keeps(b, steps, n, a))
    && (forall a: nat :: a < |b.agents| ==> Has(b, steps, n, a))
  }

  lemma KeepsStep<T(!new)>(b: Box<T>, b': Box<T>, steps: seq<Step<T>>, n: nat, a: nat)
    requires n < |steps| && Next(b, steps[n], b') && a < |b'.agents| == |b.agents| && Keeps(b, steps, n, a)
    ensures Keeps(b', steps, n + 1, a)
  {}

  lemma HasStep<T(!new)>(b: Box<T>, b': Box<T>, steps: seq<Step<T>>, n: nat, a: nat)
    requires n < |steps| && Next(b, steps[n], b') && a < |b'.agents| == |b.agents| && Has(b, steps, n, a)
    requires |b.fetched| == Reads(steps, n)
    ensures Has(b', steps, n + 1, a)
  {
    if steps[n].a == a && steps[n].ReadSlot? {
      assert LastRead(steps, n + 1, a) == |b.fetched|;
    } else {
      assert LastRead(steps, n + 1, a) == LastRead(steps, n, a);
    }
  }

  lemma HistoryStep<T(!new)>(b: Box<T>, b': Box<T>, steps: seq<Step<T>>, n: nat, m: nat)
    requires n < |steps| && m == n + 1 && Next(b, steps[n], b') && HistoryOk(b, steps, n)
    ensures HistoryOk(b', steps, m)
  {
    assert Keeps(b, steps, n, steps[n].a);
    forall a: nat | a < |b'.agents| ensures Keeps(b', steps, m, a) {
      KeepsStep(b, b', steps, n, a);
    }
    forall a: nat | a < |b'.agents| ensures Has(b', steps, m, a) {
      HasStep(b, b', steps, n, a);
    }
  }

  lemma {:induction false} RunHistory<T(!new)>(run: seq<Box<T>>, steps: seq<Step<T>>, n: nat)
    requires IsRun(run, steps) && n < |run|
    ensures HistoryOk(run[n], steps, n)
  {
    if n > 0 {
      var k := n - 1;
      RunHistory(run, steps, k);
      assert Next(run[k], steps[k], run[k + 1]);
      HistoryStep(run[k], run[n], steps, k, n);
    }
  }

  /**
   In every run the k-th mail written is the one the writing agent was given by its caller, and a
   consumer that has read hands its caller the mail of the same number.
   */
  lemma CallersMails<T(!new)>(run: seq<Box<T>>, steps: seq<Step<T>>, n: nat, a: nat)
    requires IsRun(run, steps) && n < |run| && a < |run[n].agents|
    ensures
      var b := run[n];
      && Wrapped(b.posted, GivenInOrder(steps, n)) && |b.fetched| == Reads(steps, n)
      && (b.agents[a].CRead? || b.agents[a].CMoved? || b.agents[a].CUnlocked? ==>
            var k := LastRead(steps, n, a);
            0 <= k < |GivenInOrder(steps, n)| && GivenInOrder(steps, n)[k] == Mail(b.agents[a].mail))
  {
    RunHistory(run, steps, n);
    RunKeeps(run, steps, n);
    assert Has(run[n], steps, n, a);
  }

  // ---------- a call alone ----------

  /** b' follows from b by the steps, each enabled in its turn. */
  ghost predicate Leads<T(!new)>(b: Box<T>, steps: seq<Step<T>>, b': Box<T>)
    decreases |steps|
  {
    if steps == [] then b' == b
    else Shape(b) && Enabled(b, steps[0]) && Leads(Apply(b, steps[0]), steps[1..], b')
  }

  lemma Front<T(!new)>(b: Box<T>, s: Step<T>, rest: seq<Step<T>>, all: seq<Step<T>>, b': Box<T>)
    requires Shape(b) && Enabled(b, s) && Leads(Apply(b, s), rest, b') && all == [s] + rest
    ensures Leads(b, all, b')
  {
    assert all[1..] == rest;
  }

  lemma Three<T(!new)>(b: Box<T>, s: Step<T>, t: Step<T>, u: Step<T>)
    requires Shape(b) && Enabled(b, s) && Shape(Apply(b, s)) && Enabled(Apply(b, s), t)
    requires Shape(Apply(Apply(b, s), t)) && Enabled(Apply(Apply(b, s), t), u)
    ensures Leads(b, [s, t, u], Apply(Apply(Apply(b, s), t), u))
  {
    var b3 := Apply(Apply(Apply(b, s), t), u);
    Front(Apply(Apply(b, s), t), u, [], [u], b3);
    Front(Apply(b, s), t, [u], [t, u], b3);
    Front(b, s, [t, u], [s, t, u], b3);
  }

  lemma {:induction false} Join<T(!new)>(b: Box<T>, s: seq<Step<T>>, c: Box<T>, t: seq<Step<T>>, d: Box<T>)
    requires Leads(b, s, c) && Leads(c, t, d)
    ensures Leads(b, s + t, d)
    decreases |s|
  {
    if s == [] {
      assert s + t == t;
    } else {
      Join(Apply(b, s[0]), s[1..], c, t, d);
      Front(b, s[0], s[1..] + t, s + t, d);
    }
  }

  /** mailbox_post by one agent while nobody else moves: the mail is in the next slot and announced. */
  lemma PostAlone<T(!new)>(b: Box<T>, a: nat, mail: T)
    requires Shape(b) && a < |b.agents| && b.agents[a].Idle? && b.boxes > 0 && !b.wlocked
    ensures Leads(b, [WaitBox(a, mail), LockW(a), WriteSlot(a)] + [MoveW(a), UnlockW(a), PostMail(a)],
      b.(buffer := b.buffer[b.wpos := mail], wpos := Advance(b.wpos, 1, |b.buffer|), boxes := b.boxes - 1,
         mails := b.mails + 1, posted := b.posted + [mail]))
  {
    Three(b, WaitBox(a, mail), LockW(a), WriteSlot(a));
    var b3 := Apply(Apply(Apply(b, WaitBox(a, mail)), LockW(a)), WriteSlot(a));
    AdvanceExact(b.wpos, 1, |b.buffer|);
    Three(b3, MoveW(a), UnlockW(a), PostMail(a));
    var b6 := Apply(Apply(Apply(b3, MoveW(a)), UnlockW(a)), PostMail(a));
    assert b6.agents == b.agents;
    Join(b, [WaitBox(a, mail), LockW(a), WriteSlot(a)], b3, [MoveW(a), UnlockW(a), PostMail(a)], b6);
  }

  lemma OldestMail<T(!new)>(b: Box<T>, a: nat)
    requires Inv(b) && a < |b.agents| && b.agents[a].Idle? && b.mails > 0 && !b.rlocked
    ensures |b.fetched| < |b.posted| && b.buffer[b.rpos] == b.posted[|b.fetched|]
  {
    StepKeeps(b, WaitMail(a));
    StepKeeps(Apply(b, WaitMail(a)), LockR(a));
    ReadsOldest(Apply(Apply(b, WaitMail(a)), LockR(a)), a);
  }

  lemma FetchReads<T(!new)>(b: Box<T>, a: nat)
    requires Shape(b) && a < |b.agents| && b.agents[a].Idle? && b.mails > 0 && !b.rlocked
    ensures
      var mail := b.buffer[b.rpos];
      Leads(b, [WaitMail(a), LockR(a), ReadSlot(a)],
        b.(mails := b.mails - 1, rlocked := true, fetched := b.fetched + [mail], agents := b.agents[a := CRead(mail)]))
  {
    Three(b, WaitMail(a), LockR(a), ReadSlot(a));
    assert Apply(Apply(Apply(b, WaitMail(a)), LockR(a)), ReadSlot(a)).agents == b.agents[a := CRead(b.buffer[b.rpos])];
  }

  lemma FetchReturns<T(!new)>(b: Box<T>, a: nat)
    requires Shape(b) && a < |b.agents| && b.agents[a].CRead?
    ensures
      var mail := b.agents[a].mail;
      var b2 := b.(rpos := Advance(b.rpos, 1, |b.buffer|), rlocked := false, agents := b.agents[a := CUnlocked(mail)]);
      && Leads(b, [MoveR(a), UnlockR(a)], b2) && Shape(b2) && Enabled(b2, PostBox(a))
      && Apply(b2, PostBox(a)) == b2.(boxes := b.boxes + 1, agents := b.agents[a := Idle])
  {
    var b1 := Apply(b, MoveR(a));
    var b2 := Apply(b1, UnlockR(a));
    Front(b1, UnlockR(a), [], [UnlockR(a)], b2);
    Front(b, MoveR(a), [UnlockR(a)], [MoveR(a), UnlockR(a)], b2);
    assert b2.agents == b.agents[a := CUnlocked(b.agents[a].mail)];
    assert Apply(b2, PostBox(a)).agents == b.agents[a := Idle];
  }

  /** mailbox_fetch by one agent while nobody else moves: the oldest mail is handed over and its slot given back. */
  lemma FetchAlone<T(!new)>(b: Box<T>, a: nat)
    requires Inv(b) && a < |b.agents| && b.agents[a].Idle? && b.mails > 0 && !b.rlocked
    ensures |b.fetched| < |b.posted|
    ensures
      var mail := b.posted[|b.fetched|];
      var b5 := b.(rpos := Advance(b.rpos, 1, |b.buffer|), mails := b.mails - 1, fetched := b.fetched + [mail],
                   agents := b.agents[a := CUnlocked(mail)]);
      && Leads(b, [WaitMail(a), LockR(a), ReadSlot(a)] + [MoveR(a), UnlockR(a)], b5)
      && Shape(b5) && Enabled(b5, PostBox(a)) && Apply(b5, PostBox(a)) == b5.(boxes := b.boxes + 1, agents := b.agents)
  {
    OldestMail(b, a);
    FetchReads(b, a);
    var mail := b.posted[|b.fetched|];
    var b3 := b.(mails := b.mails - 1, rlocked := true,
                 fetched := b.fetched + [mail], agents := b.agents[a := CRead(mail)]);
    FetchReturns(b3, a);
    var b5 := b3.(rpos := Advance(b.rpos, 1, |b.buffer|), rlocked := false, agents := b3.agents[a := CUnlocked(mail)]);
    Join(b, [WaitMail(a), LockR(a), ReadSlot(a)], b3, [MoveR(a), UnlockR(a)], b5);
    assert b5.agents == b.agents[a := CUnlocked(mail)] && b3.agents[a := Idle] == b.agents;
  }
}
