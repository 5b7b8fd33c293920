/** What kvprintf prints, _strtol and _strtoul read back. */
module PrintParse {
  import opened Numerals
  import opened Parse
  import opened Print

  /** The text of a number: blanks, sign, hexadecimal prefix, digits, blanks. */
  function Numeral(k: nat, neg: bool, hex: bool, ds: seq<nat>, upper: bool, t: nat): string
    requires DigitsOk(ds, 36)
  {
    Repeat(' ', k) + Sign(neg) + (if hex then "0x" else "") + Text(ds, upper) + Repeat(' ', t)
  }

  function Start(k: nat, neg: bool, hex: bool): nat {
    k + (if neg then 1 else 0) + (if hex then 2 else 0)
  }

  /** Where the parts of a numeral are. */
  lemma NumeralParts(k: nat, neg: bool, hex: bool, ds: seq<nat>, upper: bool, t: nat)
    requires DigitsOk(ds, 36)
    ensures
      var s, d := Numeral(k, neg, hex, ds, upper, t), Start(k, neg, hex);
      && |s| == d + |ds| + t && s[..k] == Repeat(' ', k) && s[d..d + |ds|] == Text(ds, upper)
      && (neg ==> s[k] == '-') && (t > 0 ==> s[d + |ds|] == ' ')
      && (hex ==> s[d - 2] == '0' && s[d - 1] == 'x')
  {}

  lemma {:induction false} SkipBlanks(s: string, i: nat, k: nat)
    requires i <= k <= |s| && (forall j :: i <= j < k ==> s[j] == ' ') && !IsSpace(At(s, k))
    ensures SkipSpace(s, i) == k
    decreases k - i
  {
    if i < k {
      SkipBlanks(s, i + 1, k);
    }
  }

  lemma {:induction false} ReadBack(s: string, i: nat, ds: seq<nat>, upper: bool, base: nat)
    requires i + |ds| <= |s| && DigitsOk(ds, base) && base <= 36
    requires forall j :: 0 <= j < |ds| ==> s[i + j] == DigitChar(ds[j], upper)
    requires !IsDigit(s, i + |ds|, base)
    ensures Digits(s, i, base) == ds
    decreases ds
  {
    if ds != [] {
      DigitRoundTrip(ds[0], upper);
      assert s[i + 0] == DigitChar(ds[0], upper);
      ReadBack(s, i + 1, ds[1..], upper, base);
    }
  }

  lemma NotSpecial(d: nat, upper: bool, base: nat)
    requires d < base <= 36
    ensures !IsSpace(DigitChar(d, upper)) && !IsSign(DigitChar(d, upper))
    ensures base <= 16 ==> DigitChar(d, upper) != 'x' && DigitChar(d, upper) != 'X'
  {}

  /** Blanks, a sign, a prefix, digits and then a blank or the end are at these places of a string. */
  ghost predicate Places(s: string, k: nat, neg: bool, hex: bool, ds: seq<nat>, upper: bool)
    requires DigitsOk(ds, 36)
  {
    var d := Start(k, neg, hex);
    && d + |ds| <= |s| && (forall j :: 0 <= j < k ==> s[j] == ' ')
    && (neg ==> s[k] == '-') && (hex ==> s[d - 2] == '0' && s[d - 1] == 'x')
    && (forall j :: 0 <= j < |ds| ==> s[d + j] == DigitChar(ds[j], upper))
    && (|s| == d + |ds| || s[d + |ds|] == ' ')
  }

  lemma NumeralPlaces(k: nat, neg: bool, hex: bool, ds: seq<nat>, upper: bool, t: nat)
    requires DigitsOk(ds, 36)
    ensures Places(Numeral(k, neg, hex, ds, upper, t), k, neg, hex, ds, upper)
  {
    var s, d := Numeral(k, neg, hex, ds, upper, t), Start(k, neg, hex);
    NumeralParts(k, neg, hex, ds, upper, t);
    forall j | 0 <= j < k ensures s[j] == ' ' {
      assert s[..k][j] == ' ';
    }
    forall j | 0 <= j < |ds| ensures s[d + j] == DigitChar(ds[j], upper) {
      assert s[d..d + |ds|][j] == Text(ds, upper)[j];
    }
  }

  /** What is at its place is found there. */
  lemma PrefixFound(s: string, k: nat, neg: bool, hex: bool, ds: seq<nat>, upper: bool, base: nat)
    requires 2 <= base <= 36 && ds != [] && DigitsOk(ds, base) && (hex ==> base == 16)
    requires DigitsOk(ds, 36) && Places(s, k, neg, hex, ds, upper)
    ensures ScanPrefix(s, base) == Scan(neg, base, Start(k, neg, hex))
  {
    var d := Start(k, neg, hex);
    NotSpecial(ds[0], upper, base);
    assert s[d + 0] == DigitChar(ds[0], upper);
    SkipBlanks(s, 0, k);
    if !hex && base == 16 && |ds| > 1 {
      NotSpecial(ds[1], upper, base);
      assert s[d + 1] == DigitChar(ds[1], upper);
    }
  }

  lemma DigitsFound(s: string, k: nat, neg: bool, hex: bool, ds: seq<nat>, upper: bool, base: nat)
    requires 2 <= base <= 36 && DigitsOk(ds, base) && DigitsOk(ds, 36) && Places(s, k, neg, hex, ds, upper)
    ensures Digits(s, Start(k, neg, hex), base) == ds
  {
    ReadBack(s, Start(k, neg, hex), ds, upper, base);
  }

  /** A parser given the base it was printed in finds the sign and the digits. */
  lemma NumeralScanned(k: nat, neg: bool, hex: bool, ds: seq<nat>, upper: bool, t: nat, base: nat)
    requires 2 <= base <= 36 && ds != [] && DigitsOk(ds, base) && DigitsOk(ds, 36) && (hex ==> base == 16)
    ensures
      var s := Numeral(k, neg, hex, ds, upper, t);
      && ScanPrefix(s, base) == Scan(neg, base, Start(k, neg, hex))
      && Digits(s, Start(k, neg, hex), base) == ds
  {
    var s := Numeral(k, neg, hex, ds, upper, t);
    NumeralPlaces(k, neg, hex, ds, upper, t);
    PrefixFound(s, k, neg, hex, ds, upper, base);
    DigitsFound(s, k, neg, hex, ds, upper, base);
  }

  // ---------- the printed forms ----------

  function Zeros(n: nat): seq<nat> {
    seq(n, i => 0)
  }

  /** The padding a format puts around a number. */
  function Padding(f: Format, neg: bool, num: nat): nat
    requires 2 <= f.base <= 36
  {
    var len := |Sign(neg)| + |Prefix(f, num)| + |DigitsOf(num, f.base)|;
    if f.width > len then f.width - len else 0
  }

  /** Zeros behind the number: left adjusted and padded with zeros. */
  predicate ZerosBehind(f: Format, neg: bool, num: nat)
    requires 2 <= f.base <= 36
  {
    f.ladjust && f.zero && Padding(f, neg, num) > 0
  }

  /** The digits as printed, with the zeros of the padding and of the octal prefix. */
  function Printed(f: Format, neg: bool, num: nat): (ds: seq<nat>)
    requires 2 <= f.base <= 36
    ensures ds != [] && DigitsOk(ds, f.base)
  {
    var octal := if f.sharp && num != 0 && f.base == 8 then 1 else 0;
    var pad := if f.zero then Padding(f, neg, num) else 0;
    if f.ladjust then Zeros(octal) + DigitsOf(num, f.base) + Zeros(pad)
    else Zeros(octal) + Zeros(pad) + DigitsOf(num, f.base)
  }

  lemma ZerosText(n: nat, upper: bool)
    ensures Text(Zeros(n), upper) == Repeat('0', n)
  {}

  lemma TextConcat(a: seq<nat>, b: seq<nat>, upper: bool)
    requires DigitsOk(a, 36) && DigitsOk(b, 36)
    ensures DigitsOk(a + b, 36) && Text(a + b, upper) == Text(a, upper) + Text(b, upper)
  {}

  /** Regrouping of the pieces: sign, hexadecimal and octal prefix, digits, zeros, blanks. */
  lemma Regroup(s: string, h: string, o: string, d: string, z: string, b: string)
    ensures s + (h + o) + d + (z + b) == "" + s + h + (o + d + z) + b
    ensures s + (h + o) + z + d == "" + s + h + (o + z + d) + ""
    ensures b + (s + (h + o)) + d == b + s + h + (o + "" + d) + ""
  {
    assert s + (h + o) + d + (z + b) == "" + s + h + (o + d + z) + b;
    assert s + (h + o) + z + d == "" + s + h + (o + z + d) + "";
    assert b + (s + (h + o)) + d == b + s + h + (o + "" + d) + "";
  }

  lemma PrintedText(f: Format, neg: bool, num: nat)
    requires 2 <= f.base <= 36
    ensures DigitsOk(Printed(f, neg, num), 36)
    ensures
      var o := Repeat('0', if f.sharp && num != 0 && f.base == 8 then 1 else 0);
      var z := Repeat('0', if f.zero then Padding(f, neg, num) else 0);
      var d := Text(DigitsOf(num, f.base), f.upper);
      Text(Printed(f, neg, num), f.upper) == if f.ladjust then o + d + z else o + z + d
  {
    var ds := DigitsOf(num, f.base);
    var octal := if f.sharp && num != 0 && f.base == 8 then 1 else 0;
    var zeros := if f.zero then Padding(f, neg, num) else 0;
    ZerosText(octal, f.upper);
    ZerosText(zeros, f.upper);
    if f.ladjust {
      TextConcat(Zeros(octal), ds, f.upper);
      TextConcat(Zeros(octal) + ds, Zeros(zeros), f.upper);
    } else {
      TextConcat(Zeros(octal), Zeros(zeros), f.upper);
      TextConcat(Zeros(octal) + Zeros(zeros), ds, f.upper);
    }
  }

  function Hex(f: Format, num: nat): bool {
    f.sharp && num != 0 && f.base == 16
  }

  lemma PrefixSplits(f: Format, num: nat)
    ensures Prefix(f, num) ==
      (if Hex(f, num) then "0x" else "") + Repeat('0', if f.sharp && num != 0 && f.base == 8 then 1 else 0)
  {
    assert Repeat('0', 1) == "0";
  }

  lemma LayoutParts(f: Format, neg: bool, num: nat, s: string, p: string, d: string, z: string, b: string)
    requires 2 <= f.base <= 36 && s == Sign(neg) && p == Prefix(f, num) && d == Text(DigitsOf(num, f.base), f.upper)
    requires Repeat(PadChar(f), Padding(f, neg, num)) == z + b && (if f.zero then b == "" else z == "")
    ensures Layout(f, neg, num) ==
      if f.ladjust then s + p + d + (z + b) else if f.zero then s + p + z + d else b + (s + p) + d
  {
    assert if f.zero then z + b == z else z + b == b;
  }

  /** Every printed number is a numeral. */
  lemma LayoutNumeral(f: Format, neg: bool, num: nat)
    requires 2 <= f.base <= 36
    ensures DigitsOk(Printed(f, neg, num), 36)
    ensures
      var blanks := if f.zero then 0 else Padding(f, neg, num);
      Layout(f, neg, num) == Numeral(if f.ladjust then 0 else blanks, neg, Hex(f, num), Printed(f, neg, num), f.upper,
                                     if f.ladjust then blanks else 0)
  {
    var pad, d := Padding(f, neg, num), Text(DigitsOf(num, f.base), f.upper);
    var s, h := Sign(neg), if Hex(f, num) then "0x" else "";
    var o := Repeat('0', if f.sharp && num != 0 && f.base == 8 then 1 else 0);
    var z, b := Repeat('0', if f.zero then pad else 0), Repeat(' ', if f.zero then 0 else pad);
    PrefixSplits(f, num);
    assert Repeat(PadChar(f), pad) == z + b;
    assert z == (if f.zero then Repeat('0', pad) else "") && b == (if f.zero then "" else Repeat(' ', pad));
    LayoutParts(f, neg, num, s, h + o, d, z, b);
    Regroup(s, h, o, d, z, b);
    NumeralOf(f, neg, num, s, h, o, d, z, b);
  }

  lemma NumeralOf(f: Format, neg: bool, num: nat, s: string, h: string, o: string, d: string, z: string, b: string)
    requires 2 <= f.base <= 36 && s == Sign(neg) && h == (if Hex(f, num) then "0x" else "")
    requires o == Repeat('0', if f.sharp && num != 0 && f.base == 8 then 1 else 0)
    requires d == Text(DigitsOf(num, f.base), f.upper) && z == Repeat('0', if f.zero then Padding(f, neg, num) else 0)
    requires b == Repeat(' ', if f.zero then 0 else Padding(f, neg, num))
    ensures DigitsOk(Printed(f, neg, num), 36)
    ensures
      var blanks := if f.zero then 0 else Padding(f, neg, num);
      Numeral(if f.ladjust then 0 else blanks, neg, Hex(f, num), Printed(f, neg, num), f.upper,
              if f.ladjust then blanks else 0)
      == if f.ladjust then "" + s + h + (o + d + z) + b else b + s + h + (o + z + d) + ""
  {
    PrintedText(f, neg, num);
    assert Repeat(' ', 0) == "";
  }

  // ---------- round trips ----------

  /** Zeros in front do not change the value; zeros behind at least double it. */
  lemma PrintedValue(f: Format, neg: bool, num: nat)
    requires 2 <= f.base <= 36
    ensures
      var v := Value(Printed(f, neg, num), f.base);
      if ZerosBehind(f, neg, num) then v >= 2 * num && (num == 0 ==> v == 0) else v == num
  {
    var ds, base := DigitsOf(num, f.base), f.base;
    var octal := if f.sharp && num != 0 && base == 8 then 1 else 0;
    var pad := if f.zero then Padding(f, neg, num) else 0;
    ValueOfDigits(num, base);
    ZerosValue(octal, base);
    if f.ladjust {
      ValueConcat(Zeros(octal), ds, base);
      if pad == 0 {
        assert Printed(f, neg, num) == Zeros(octal) + ds;
      } else {
        ZerosAppended(Zeros(octal) + ds, pad, base);
      }
    } else {
      ZerosValue(octal + pad, base);
      assert Zeros(octal) + Zeros(pad) == Zeros(octal + pad);
      ValueConcat(Zeros(octal + pad), ds, base);
    }
  }

  lemma {:induction false} ZerosAppended(ds: seq<nat>, n: nat, base: nat)
    requires n > 0 && base >= 2
    ensures Value(ds + Zeros(n), base) >= 2 * Value(ds, base)
    ensures Value(ds, base) == 0 ==> Value(ds + Zeros(n), base) == 0
    decreases n
  {
    var front := ds + Zeros(n - 1);
    assert front + [0] == ds + Zeros(n);
    ValueSnoc(front, 0, base);
    if n == 1 {
      assert front == ds;
    } else {
      ZerosAppended(ds, n - 1, base);
    }
    Doubles(Value(front, base), base);
  }

  lemma Doubles(w: nat, base: nat)
    requires base >= 2
    ensures w * base >= 2 * w && (w == 0 ==> w * base == 0)
  {
    assert w * base == w * 2 + w * (base - 2);
  }

  /**
   A signed number printed with any width, padding, alternate form and case is read back by _strtol,
   except that zeros behind it change every value but 0 and the two limits.
   */
  lemma SignedRoundTrip(v: int, f: Format)
    requires LONG_MIN <= v <= LONG_MAX && 2 <= f.base <= 36
    ensures Strtol(Layout(f, v < 0, Magnitude(v)), f.base) == v <==>
      !ZerosBehind(f, v < 0, Magnitude(v)) || v == 0 || v == LONG_MAX || v == LONG_MIN
  {
    var neg, num := v < 0, Magnitude(v);
    var value := PrintedRead(f, neg, num);
    PrintedValue(f, neg, num);
  }

  /** The same for unsigned numbers and _strtoul. */
  lemma UnsignedRoundTrip(num: nat, f: Format)
    requires num <= ULONG_MAX && 2 <= f.base <= 36
    ensures Strtoul(Layout(f, false, num), f.base) == num <==>
      !ZerosBehind(f, false, num) || num == 0 || num == ULONG_MAX
  {
    var value := PrintedRead(f, false, num);
    PrintedValue(f, false, num);
  }

  /** What the parsers make of a printed number. */
  lemma PrintedRead(f: Format, neg: bool, num: nat) returns (v: nat)
    requires 2 <= f.base <= 36
    ensures v == Value(Printed(f, neg, num), f.base)
    ensures Strtol(Layout(f, neg, num), f.base) == Clamp(neg, v)
    ensures !neg ==> Strtoul(Layout(f, neg, num), f.base) == if v > ULONG_MAX then ULONG_MAX else v
  {
    v := Value(Printed(f, neg, num), f.base);
    var blanks := if f.zero then 0 else Padding(f, neg, num);
    LayoutNumeral(f, neg, num);
    NumeralScanned(if f.ladjust then 0 else blanks, neg, Hex(f, num), Printed(f, neg, num), f.upper,
                   if f.ladjust then blanks else 0, f.base);
  }

  /** One in two places, left adjusted and padded with zeros, looks like ten. */
  lemma OneLooksLikeTen(f: Format)
    requires f.base == 10 && f.width == 2 && f.ladjust && f.zero && !f.sharp
    ensures Layout(f, false, 1) == "10"
  {
    assert DigitsOf(1, 10) == [1];
    assert Text([1], f.upper) == "1";
    assert Repeat('0', 1) == "0";
  }

  /** And it is read as ten by both parsers. */
  lemma OneReadAsTen(f: Format)
    requires f.base == 10 && f.width == 2 && f.ladjust && f.zero && !f.sharp
    ensures Strtol(Layout(f, false, 1), 10) == 10 == Strtoul(Layout(f, false, 1), 10)
  {
    var v := PrintedRead(f, false, 1);
    assert Printed(f, false, 1) == [1] + [0];
    ValueSnoc([1], 0, 10);
    ValueSnoc([], 1, 10);
    assert [] + [1] == [1];
  }
}
