/** Positions of a circular buffer of n slots, without division. */
module Circular {

  /** The position i places after p. */
  function Advance(p: nat, i: nat, n: nat): (q: nat)
    requires p < n
    ensures q < n
    decreases i
  {
    if i == 0 then p
    else
      var q := Advance(p, i - 1, n);
      if q + 1 == n then 0 else q + 1
  }

  /** The increment written as (p + 1) % n in the sources. */
  lemma NextIsAdvance(p: nat, n: nat)
    requires p < n
    ensures (p + 1) % n == Advance(p, 1, n)
  {
    if p + 1 == n {
      assert (p + 1) % n == 0;
    } else {
      assert (p + 1) % n == p + 1;
    }
    assert Advance(p, 0, n) == p;
  }

  method Increment(p: nat, n: nat) returns (q: nat)
    requires p < n
    ensures q == Advance(p, 1, n)
  {
    NextIsAdvance(p, n);
    q := (p + 1) % n;
  }

  lemma {:induction false} AdvanceExact(p: nat, i: nat, n: nat)
    requires p < n && i <= n
    ensures Advance(p, i, n) == if p + i < n then p + i else p + i - n
  {
    if i > 0 {
      AdvanceExact(p, i - 1, n);
    }
  }

  lemma {:induction false} AdvanceAdd(p: nat, i: nat, j: nat, n: nat)
    requires p < n
    ensures Advance(Advance(p, i, n), j, n) == Advance(p, i + j, n)
    decreases j
  {
    if j > 0 {
      AdvanceAdd(p, i, j - 1, n);
    }
  }

  /** Distinct offsets below n name distinct positions. */
  lemma AdvanceInjective(p: nat, i: nat, j: nat, n: nat)
    requires p < n && i < n && j < n && Advance(p, i, n) == Advance(p, j, n)
    ensures i == j
  {
    AdvanceExact(p, i, n);
    AdvanceExact(p, j, n);
  }

  /** Every position is reached within n steps. */
  lemma AdvanceReaches(p: nat, q: nat, n: nat) returns (i: nat)
    requires p < n && q < n
    ensures i < n && Advance(p, i, n) == q
  {
    i := if q >= p then q - p else q + n - p;
    AdvanceExact(p, i, n);
  }
}
