/** Numbers as digits, shared by the printing and the parsing side of libkern. */
module Numerals {
  import opened Powers

  const ULONG_MAX: nat := 0xFFFF_FFFF_FFFF_FFFF
  const LONG_MAX: nat := 0x7FFF_FFFF_FFFF_FFFF
  const LONG_MIN: int := -0x8000_0000_0000_0000
  const MAXNBUF: nat := 65

  predicate DigitsOk(ds: seq<nat>, base: nat) {
    forall i :: 0 <= i < |ds| ==> ds[i] < base
  }

  function Value(ds: seq<nat>, base: nat): nat {
    if ds == [] then 0 else Value(ds[..|ds| - 1], base) * base + ds[|ds| - 1]
  }

  /** The digits of a number, most significant first; 0 has one digit. */
  function DigitsOf(n: nat, base: nat): (ds: seq<nat>)
    requires base >= 2
    ensures ds != [] && DigitsOk(ds, base)
  {
    if n < base then [n] else HalfAtMost(n, base); DigitsOf(n / base, base) + [n % base]
  }

  lemma DivMod(n: nat, base: nat)
    requires base > 0
    ensures n / base * base + n % base == n
  {}

  lemma ValueSnoc(ds: seq<nat>, d: nat, base: nat)
    ensures Value(ds + [d], base) == Value(ds, base) * base + d
  {
    assert (ds + [d])[..|ds|] == ds;
  }

  lemma {:induction false} ValueOfDigits(n: nat, base: nat)
    requires base >= 2
    ensures Value(DigitsOf(n, base), base) == n
    decreases n
  {
    if n < base {
      assert [n][..0] == [];
    } else {
      var q, d := n / base, n % base;
      HalfAtMost(n, base);
      ValueOfDigits(q, base);
      ValueSnoc(DigitsOf(q, base), d, base);
      DivMod(n, base);
    }
  }

  /** A number of k bits has at most k digits, in any base. */
  lemma {:induction false} DigitsLength(n: nat, base: nat, k: nat)
    requires base >= 2 && k > 0 && n < Pow2(k)
    ensures |DigitsOf(n, base)| <= k
    decreases k
  {
    if n >= base {
      assert k > 1;
      HalfAtMost(n, base);
      DigitsLength(n / base, base, k - 1);
    }
  }

  lemma HalfAtMost(n: nat, base: nat)
    requires base >= 2
    ensures n / base <= n / 2
  {
    var q := n / base;
    assert q * base <= n;
    assert q * 2 <= q * base;
  }

  lemma WordBits(k: nat)
    requires k == 64
    ensures Pow2(k) == ULONG_MAX + 1
  {
    SixteenBits(k - 16);
    SixteenBits(k - 32);
    SixteenBits(k - 48);
    SixteenBits(k - 64);
  }

  lemma {:induction false} ValueConcat(a: seq<nat>, b: seq<nat>, base: nat)
    requires Value(a, base) == 0
    ensures Value(a + b, base) == Value(b, base)
  {
    if b == [] {
      assert a + b == a;
    } else {
      ValueConcat(a, b[..|b| - 1], base);
      assert (a + b)[..|a + b| - 1] == a + b[..|b| - 1];
    }
  }

  lemma {:induction false} ZerosValue(n: nat, base: nat)
    ensures Value(seq(n, i => 0), base) == 0
  {
    if n > 0 {
      var zeros: seq<nat> := seq(n, i => 0);
      ZerosValue(n - 1, base);
      assert zeros[..n - 1] == seq(n - 1, i => 0);
    }
  }

  // ---------- characters ----------

  function DigitChar(d: nat, upper: bool): char
    requires d < 36
  {
    if d < 10 then '0' + d as char else if upper then 'A' + (d - 10) as char else 'a' + (d - 10) as char
  }

  /** The value of an ASCII digit or letter; -1 for every other character. */
  function DigitOf(c: char): int {
    if '0' <= c <= '9' then c as int - '0' as int
    else if 'A' <= c <= 'Z' then c as int - 'A' as int + 10
    else if 'a' <= c <= 'z' then c as int - 'a' as int + 10
    else -1
  }

  lemma DigitRoundTrip(d: nat, upper: bool)
    requires d < 36
    ensures DigitOf(DigitChar(d, upper)) == d
    ensures DigitChar(d, upper) != '\0'
  {}

  /** Digits above nine are letters of the case asked for. */
  lemma LetterCase(d: nat, upper: bool)
    requires d < 36
    ensures d < 10 <==> '0' <= DigitChar(d, upper) <= '9'
    ensures d >= 10 && upper <==> 'A' <= DigitChar(d, upper) <= 'Z'
    ensures d >= 10 && !upper <==> 'a' <= DigitChar(d, upper) <= 'z'
  {}

  function Text(ds: seq<nat>, upper: bool): string
    requires DigitsOk(ds, 36)
  {
    seq(|ds|, i requires 0 <= i < |ds| => DigitChar(ds[i], upper))
  }
}
