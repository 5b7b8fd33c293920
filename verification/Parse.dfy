/** _strtoul and _strtol of libkern. A string is followed by a NUL character. */
module Parse {
  import opened Numerals

  function At(s: string, i: nat): char {
    if i < |s| then s[i] else '\0'
  }

  predicate IsSpace(c: char) {
    c == ' ' || '\t' <= c <= '\r'
  }

  // ---------- what the parsers read ----------

  function SkipSpace(s: string, i: nat): (j: nat)
    ensures i <= j
    decreases |s| - i
  {
    if i < |s| && IsSpace(s[i]) then SkipSpace(s, i + 1) else i
  }

  predicate IsSign(c: char) {
    c == '-' || c == '+'
  }

  datatype Scan = Scan(neg: bool, base: nat, start: nat)

  /** White space, a sign, and a prefix that may choose the base; start is where the digits begin. */
  function ScanPrefix(s: string, base: nat): Scan {
    var i := SkipSpace(s, 0);
    var neg := At(s, i) == '-';
    var j := if IsSign(At(s, i)) then i + 1 else i;
    if HexPrefix(s, j, base) then Scan(neg, 16, j + 2)
    else Scan(neg, if base != 0 then base else if At(s, j) == '0' then 8 else 10, j)
  }

  predicate HexPrefix(s: string, j: nat, base: nat) {
    (base == 0 || base == 16) && At(s, j) == '0' && (At(s, j + 1) == 'x' || At(s, j + 1) == 'X')
  }

  predicate IsDigit(s: string, i: nat, base: nat) {
    i < |s| && 0 <= DigitOf(s[i]) < base
  }

  /** The longest run of digits of the base from place i on. */
  function Digits(s: string, i: nat, base: nat): (ds: seq<nat>)
    ensures DigitsOk(ds, base) && i + |ds| <= if i <= |s| then |s| else i
    decreases |s| - i
  {
    if IsDigit(s, i, base) then [DigitOf(s[i]) as nat] + Digits(s, i + 1, base) else []
  }

  /** The end of the number; 0, the start of the string, when there is no digit. */
  function End(s: string, base: nat): nat {
    var p := ScanPrefix(s, base);
    var ds := Digits(s, p.start, p.base);
    if ds == [] then 0 else p.start + |ds|
  }

  /** The exact value, the largest one when it is too large; a minus sign negates modulo 2^64. */
  function Strtoul(s: string, base: nat): nat {
    var p := ScanPrefix(s, base);
    var v := Value(Digits(s, p.start, p.base), p.base);
    if v > ULONG_MAX then ULONG_MAX else if p.neg && v > 0 then ULONG_MAX + 1 - v else v
  }

  /** The exact value, or the bound it exceeds. */
  function Strtol(s: string, base: nat): int {
    var p := ScanPrefix(s, base);
    Clamp(p.neg, Value(Digits(s, p.start, p.base), p.base))
  }

  function Clamp(neg: bool, v: nat): (x: int)
    ensures LONG_MIN <= x <= LONG_MAX
  {
    var x: int := if neg then -(v as int) else v;
    if x > LONG_MAX then LONG_MAX else if x < LONG_MIN then LONG_MIN else x
  }

  // ---------- the loops ----------

  /** The test before a digit is taken in says whether the limit would be passed. */
  lemma CutoffExact(limit: nat, base: nat, acc: nat, c: nat)
    requires base >= 1 && c < base
    ensures acc > limit / base || (acc == limit / base && c > limit % base) <==> acc * base + c > limit
  {
    var q, r := limit / base, limit % base;
    DivMod(limit, base);
    if acc > q {
      assert acc * base >= (q + 1) * base == q * base + base;
    } else if acc < q {
      assert (acc + 1) * base <= q * base && (acc + 1) * base == acc * base + base;
    }
  }

  /** The state of the digit loop after k digits: acc is exact as long as the limit has not been passed. */
  ghost predicate Reading(ds: seq<nat>, k: nat, base: nat, limit: nat, acc: nat, any: int) {
    && k <= |ds|
    && if Value(ds[..k], base) <= limit then acc == Value(ds[..k], base) && any == (if k == 0 then 0 else 1)
       else any == -1 && acc <= limit
  }

  lemma ReadingStep(ds: seq<nat>, k: nat, base: nat, limit: nat, acc: nat, any: int)
    requires Reading(ds, k, base, limit, acc, any) && k < |ds| && base >= 1 && ds[k] < base
    ensures
      var over := any < 0 || acc > limit / base || (acc == limit / base && ds[k] > limit % base);
      if over then Reading(ds, k + 1, base, limit, acc, -1)
      else acc * base + ds[k] <= limit && Reading(ds, k + 1, base, limit, acc * base + ds[k], 1)
  {
    var v, v' := Value(ds[..k], base), Value(ds[..k + 1], base);
    assert v' == v * base + ds[k] by {
      ValueSnoc(ds[..k], ds[k], base);
      assert ds[..k + 1] == ds[..k] + [ds[k]];
    }
    if v > limit {
      assert v' > limit by {
        assert v * base >= v;
      }
    } else {
      CutoffExact(limit, base, acc, ds[k]);
    }
  }

  /** The digit loop both parsers share; the accumulator never exceeds the limit, so it never wraps. */
  method ReadDigits(s: string, start: nat, base: nat, limit: nat) returns (acc: nat, any: int, i: nat)
    requires base >= 1 && start <= |s|
    ensures
      var ds := Digits(s, start, base);
      var v := Value(ds, base);
      && i == start + |ds| && acc <= limit
      && (any < 0 <==> v > limit) && (any >= 0 ==> acc == v) && (any == 0 <==> ds == [])
  {
    var cutlim, cutoff := limit % base, limit / base;
    acc, any, i := 0, 0, start;
    ghost var ds, k: nat := Digits(s, start, base), 0;
    while true
      invariant k <= |ds| && i == start + k && ds[k..] == Digits(s, i, base)
      invariant Reading(ds, k, base, limit, acc, any) && acc <= limit
      decreases |ds| - k
    {
      var c := At(s, i);
      var d := DigitOf(c);
      if d < 0 || d >= base {
        break;
      }
      assert i < |s| && ds[k] == ds[k..][0] == d && ds[k + 1..] == ds[k..][1..];
      ReadingStep(ds, k, base, limit, acc, any);
      if any < 0 || acc > cutoff || (acc == cutoff && d > cutlim) {
        any := -1;
      } else {
        any, acc := 1, acc * base + d;
      }
      i, k := i + 1, k + 1;
    }
    assert ds[k..] == [] && ds[..k] == ds;
    assert ds == [] ==> Value(ds, base) == 0;
  }

  method ReadPrefix(s: string, base0: nat) returns (neg: bool, base: nat, start: nat)
    ensures Scan(neg, base, start) == ScanPrefix(s, base0)
    ensures start <= |s|
  {
    var i := 0;
    while IsSpace(At(s, i))
      invariant 0 <= i <= |s| && SkipSpace(s, i) == SkipSpace(s, 0)
      decreases |s| - i
    {
      i := i + 1;
    }
    neg, base, start := false, base0, i;
    var c := At(s, start);
    if c == '-' {
      neg, start := true, start + 1;
    } else if c == '+' {
      start := start + 1;
    }
    c := At(s, start);
    if (base == 0 || base == 16) && c == '0' && (At(s, start + 1) == 'x' || At(s, start + 1) == 'X') {
      c := At(s, start + 2);
      start, base := start + 2, 16;
    }
    if base == 0 {
      base := if c == '0' then 8 else 10;
    }
  }

  /** _strtoul. */
  method StrToUl(s: string, base0: nat) returns (value: nat, end: nat)
    ensures value == Strtoul(s, base0) && end == End(s, base0)
  {
    var neg, base, start := ReadPrefix(s, base0);
    var acc, any, i := ReadDigits(s, start, base, ULONG_MAX);
    if any < 0 {
      acc := ULONG_MAX;
    } else if neg {
      acc := (ULONG_MAX + 1 - acc) % (ULONG_MAX + 1);
    }
    value, end := acc, if any != 0 then i else 0;
  }

  /** _strtol. */
  method StrToL(s: string, base0: nat) returns (value: int, end: nat)
    ensures value == Strtol(s, base0) && end == End(s, base0)
  {
    var neg, base, start := ReadPrefix(s, base0);
    var limit := if neg then LONG_MAX + 1 else LONG_MAX;
    var acc, any, i := ReadDigits(s, start, base, limit);
    ghost var v := Value(Digits(s, start, base), base);
    if any < 0 {
      value := if neg then LONG_MIN else LONG_MAX;
    } else {
      value := acc;
      if neg {
        value := -value;
      }
    }
    assert value == Clamp(neg, v);
    end := if any != 0 then i else 0;
  }
}
