/** ksprintn and the integer conversion of kvprintf, libkern/printf.c. */
module Print {
  import opened Numerals

  // ---------- ksprintn ----------

  /** What ksprintn leaves in the buffer: the digits in reverse order behind a NUL character. */
  ghost predicate Holds(buf: seq<char>, p: nat, ds: seq<nat>, upper: bool) {
    && p <= |ds| && p < |buf| && DigitsOk(ds, 36) && buf[0] == '\0'
    && forall i :: 1 <= i <= p ==> buf[i] == DigitChar(ds[|ds| - i], upper)
  }

  lemma LastDigit(n: nat, base: nat)
    requires base >= 2
    ensures
      var ds := DigitsOf(n, base);
      && ds[|ds| - 1] == n % base && (n / base == 0 <==> |ds| == 1)
      && (n / base > 0 ==> DigitsOf(n / base, base) == ds[..|ds| - 1])
  {
    if n >= base {
      DivMod(n, base);
      assert n / base * base > 0;
    }
  }

  /** Every 64-bit number in every base from 2 to 36 fits into MAXNBUF characters. */
  method Ksprintn(nbuf: array<char>, num: nat, base: nat, upper: bool) returns (p: nat)
    requires nbuf.Length >= MAXNBUF && num <= ULONG_MAX && 2 <= base <= 36
    modifies nbuf
    ensures p == |DigitsOf(num, base)| && Holds(nbuf[..], p, DigitsOf(num, base), upper)
  {
    ghost var ds := DigitsOf(num, base);
    assert |ds| < MAXNBUF by {
      WordBits(64);
      DigitsLength(num, base, 64);
    }
    p := 0;
    nbuf[0] := '\0';
    var n: nat := num;
    assert ds[..|ds|] == ds;
    while true
      invariant p < |ds| && Holds(nbuf[..], p, ds, upper) && DigitsOf(n, base) == ds[..|ds| - p]
      decreases |ds| - p
    {
      LastDigit(n, base);
      p := p + 1;
      nbuf[p] := DigitChar(n % base, upper);
      n := n / base;
      if n == 0 {
        break;
      }
    }
  }

  // ---------- the number path of kvprintf ----------

  /** base, field width, pad with zeros, left adjust, alternate form, upper case. */
  datatype Format = Format(base: nat, width: nat, zero: bool, ladjust: bool, sharp: bool, upper: bool)

  function Repeat(c: char, n: nat): (s: string)
    ensures |s| == n
  {
    seq(n, i => c)
  }

  function Sign(neg: bool): string {
    if neg then "-" else ""
  }

  /** The prefix of the alternate form; zero has none. */
  function Prefix(f: Format, num: nat): string {
    if !f.sharp || num == 0 then "" else if f.base == 8 then "0" else if f.base == 16 then "0x" else ""
  }

  function PadChar(f: Format): char {
    if f.zero then '0' else ' '
  }

  /** Blanks go before the sign, zeros behind the prefix, and padding on the right behind the digits. */
  function Layout(f: Format, neg: bool, num: nat): string
    requires 2 <= f.base <= 36
  {
    var head, digits := Sign(neg) + Prefix(f, num), Text(DigitsOf(num, f.base), f.upper);
    var len := |head| + |digits|;
    var pad := Repeat(PadChar(f), if f.width > len then f.width - len else 0);
    if f.ladjust then head + digits + pad
    else if f.zero then head + pad + digits
    else pad + head + digits
  }

  method PadOut(out: string, width: int, padc: char) returns (out': string, w: int)
    requires width >= 0
    ensures out' == out + Repeat(padc, width) && w == -1
  {
    out', w := out, width;
    ghost var n := 0;
    while w != 0
      invariant 0 <= w <= width && n == width - w && out' == out + Repeat(padc, n)
      decreases w
    {
      w := w - 1;
      out' := out' + [padc];
      n := n + 1;
    }
    w := w - 1;
  }

  /** The digits are put out from the end of the buffer down to the NUL character. */
  method PutDigits(out: string, nbuf: array<char>, p0: nat, ghost ds: seq<nat>, ghost upper: bool)
    returns (out': string)
    requires p0 == |ds| && Holds(nbuf[..], p0, ds, upper)
    ensures out' == out + Text(ds, upper)
  {
    out' := out;
    var p: nat := p0;
    assert nbuf[..][0] == nbuf[0];
    while nbuf[p] != '\0'
      invariant p <= p0 && out' == out + Text(ds, upper)[..p0 - p]
      decreases p
    {
      assert nbuf[..][p] == DigitChar(ds[p0 - p], upper);
      out' := out' + [nbuf[p]];
      p := p - 1;
    }
    if p > 0 {
      assert nbuf[..][p] == DigitChar(ds[p0 - p], upper);
      DigitRoundTrip(ds[p0 - p], upper);
    }
    assert Text(ds, upper)[..p0] == Text(ds, upper);
  }

  /** The number path of kvprintf, from a 64-bit value. */
  method PutNumber(v: int, signed: bool, f: Format) returns (out: string)
    requires LONG_MIN <= v <= ULONG_MAX && (signed ==> v <= LONG_MAX) && (!signed ==> v >= 0)
    requires 2 <= f.base <= 36
    ensures out == Layout(f, v < 0, Magnitude(v))
  {
    var nbuf := new char[MAXNBUF];
    var neg, num := false, v;
    if signed && num < 0 {
      neg, num := true, -num;
    }
    assert num == Magnitude(v) && neg == (v < 0);
    var p := Ksprintn(nbuf, num, f.base, f.upper);
    var tmp := p;
    ghost var ds := DigitsOf(num, f.base);
    if f.sharp && num != 0 {
      if f.base == 8 {
        tmp := tmp + 1;
      } else if f.base == 16 {
        tmp := tmp + 2;
      }
    }
    if neg {
      tmp := tmp + 1;
    }
    out := PutField(neg, num, tmp, nbuf, f, p, ds);
  }

  /** The characters a padding statement puts out when width and tmp are these. */
  function PadLen(cond: bool, width: int, tmp: nat): nat {
    if cond && width != 0 && width - tmp > 0 then width - tmp else 0
  }

  /** A padding statement: when its condition holds it uses width up. */
  method Pad(out: string, cond: bool, width: int, tmp: nat, padc: char) returns (out': string, w: int)
    ensures out' == out + Repeat(padc, PadLen(cond, width, tmp))
    ensures if cond then w <= 0 || width <= 0 else w == width
    ensures width <= 0 ==> w <= 0
  {
    out', w := out, width;
    if cond && w != 0 {
      w := w - tmp;
      if w > 0 {
        out', w := PadOut(out', w, padc);
      }
    }
  }

  /** Padding, sign, prefix and digits in the order of the source; width is used up where it is padded. */
  method PutField(neg: bool, num: nat, tmp: nat, nbuf: array<char>, f: Format, p: nat, ghost ds: seq<nat>)
    returns (out: string)
    requires 2 <= f.base <= 36 && ds == DigitsOf(num, f.base) && p == |ds| && Holds(nbuf[..], p, ds, f.upper)
    requires tmp == |Sign(neg)| + |Prefix(f, num)| + p
    ensures out == Layout(f, neg, num)
  {
    var width: int;
    out, width := Pad("", !f.ladjust && !f.zero, f.width, tmp, PadChar(f));
    ghost var left := out;
    out := PutHead(out, neg, num, f);
    ghost var mid := PadLen(!f.ladjust, width, tmp);
    out, width := Pad(out, !f.ladjust, width, tmp, PadChar(f));
    out := PutDigits(out, nbuf, p, ds, f.upper);
    ghost var right := PadLen(f.ladjust, width, tmp);
    out, width := Pad(out, f.ladjust, width, tmp, PadChar(f));
    LayoutIs(f, neg, num, PadLen(!f.ladjust && !f.zero, f.width, tmp), mid, right, left, out);
  }

  method PutHead(out: string, neg: bool, num: nat, f: Format) returns (out': string)
    ensures out' == out + (Sign(neg) + Prefix(f, num))
  {
    out' := out;
    if neg {
      out' := out' + "-";
    }
    if f.sharp && num != 0 {
      if f.base == 8 {
        out' := out' + "0";
      } else if f.base == 16 {
        out' := out' + "0";
        out' := out' + "x";
      }
    }
  }

  lemma LayoutIs(f: Format, neg: bool, num: nat, l: nat, m: nat, r: nat, left: string, out: string)
    requires 2 <= f.base <= 36
    requires
      var head, digits := Sign(neg) + Prefix(f, num), Text(DigitsOf(num, f.base), f.upper);
      var len := |head| + |digits|;
      var pad := if f.width > len then f.width - len else 0;
      && l == (if !f.ladjust && !f.zero then pad else 0) && m == (if !f.ladjust && f.zero then pad else 0)
      && r == (if f.ladjust then pad else 0) && left == "" + Repeat(PadChar(f), l)
      && out == left + head + Repeat(PadChar(f), m) + digits + Repeat(PadChar(f), r)
    ensures out == Layout(f, neg, num)
  {
    var head, digits := Sign(neg) + Prefix(f, num), Text(DigitsOf(num, f.base), f.upper);
    assert Repeat(PadChar(f), 0) == "";
    Parts(head, digits, Repeat(PadChar(f), l + m + r));
  }

  lemma Parts(h: string, d: string, p: string)
    ensures "" + "" + h + "" + d + p == h + d + p
    ensures "" + "" + h + p + d + "" == h + p + d
    ensures "" + p + h + "" + d + "" == p + h + d
  {}

  function Magnitude(v: int): nat {
    if v < 0 then -v else v
  }

  lemma ThreeParts(a: string, b: string, c: string)
    ensures
      var s := a + b + c;
      |s| == |a| + |b| + |c| && s[..|a|] == a && s[|a|..|a| + |b|] == b && s[|a| + |b|..] == c
  {}

  /**
   The output is as long as the width asks for. Blanks come before the sign, zeros between prefix and
   digits, the padding of a left adjusted number last; the alternate form has 0x in front of hexadecimal
   and 0 in front of octal numbers that are not zero.
   */
  lemma LayoutShape(f: Format, neg: bool, num: nat)
    requires 2 <= f.base <= 36
    ensures
      var out, digits := Layout(f, neg, num), Text(DigitsOf(num, f.base), f.upper);
      var alternate :=
        if !f.sharp || num == 0 then "" else if f.base == 16 then "0x" else if f.base == 8 then "0" else "";
      var head := (if neg then "-" else "") + alternate;
      var h, d := |head|, |digits|;
      var pad := if f.width > h + d then f.width - (h + d) else 0;
      var fill := Repeat(if f.zero then '0' else ' ', pad);
      && |out| == h + d + pad
      && (f.ladjust ==> out[..h] == head && out[h..h + d] == digits && out[h + d..] == fill)
      && (!f.ladjust && f.zero ==> out[..h] == head && out[h..h + pad] == fill && out[h + pad..] == digits)
      && (!f.ladjust && !f.zero ==> out[..pad] == fill && out[pad..pad + h] == head && out[pad + h..] == digits)
  {
    var head, digits := Sign(neg) + Prefix(f, num), Text(DigitsOf(num, f.base), f.upper);
    var len := |head| + |digits|;
    var fill := Repeat(PadChar(f), if f.width > len then f.width - len else 0);
    ThreeParts(head, digits, fill);
    ThreeParts(head, fill, digits);
    ThreeParts(fill, head, digits);
  }
}
