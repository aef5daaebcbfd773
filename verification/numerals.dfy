/** Decimal and hexadecimal numerals as the address library prints them (snprintf with
    %d, %u, %hu and %x) and reads them back (an int32_t accumulator without a digit limit). */
module Numerals {

  const INT32_SPAN := 0x1_0000_0000

  /** The two radices in use; Scale, Shrink and Last keep their arithmetic linear. */
  type Radix = b: nat | b == 10 || b == 16 witness 10

  function Scale(x: int, base: Radix): int { if base == 10 then 10 * x else 16 * x }

  function Shrink(n: nat, base: Radix): nat { if base == 10 then n / 10 else n / 16 }

  function Last(n: nat, base: Radix): nat { if base == 10 then n % 10 else n % 16 }

  /** The value an int32_t holds after a two's-complement wrap. */
  function Wrap32(x: int): int {
    (x + 0x8000_0000) % INT32_SPAN - 0x8000_0000
  }

  predicate IsDigit(c: char) { '0' <= c <= '9' }

  predicate IsHexLetter(c: char) { ('a' <= c <= 'f') || ('A' <= c <= 'F') }

  predicate IsHex(c: char) { IsDigit(c) || IsHexLetter(c) }

  predicate AllDigits(s: string) { forall i :: 0 <= i < |s| ==> IsDigit(s[i]) }

  predicate AllHex(s: string) { forall i :: 0 <= i < |s| ==> IsHex(s[i]) }

  /** The characters a token of the given radix may hold. */
  predicate InRadix(s: string, base: Radix) { if base == 10 then AllDigits(s) else AllHex(s) }

  function DigitValue(c: char): nat
    requires IsHex(c)
  {
    if IsDigit(c) then c as int - '0' as int
    else if 'a' <= c <= 'f' then 10 + (c as int - 'a' as int)
    else 10 + (c as int - 'A' as int)
  }

  /** The accumulator after reading s: each digit scales, adds and wraps. */
  function Accumulate(s: string, base: Radix): int
    requires AllHex(s)
  {
    if s == [] then 0
    else Wrap32(Scale(Accumulate(s[..|s| - 1], base), base) + DigitValue(s[|s| - 1]))
  }

  /** The number s denotes in positional notation. */
  function Positional(s: string, base: Radix): nat
    requires AllHex(s)
  {
    if s == [] then 0
    else Scale(Positional(s[..|s| - 1], base), base) + DigitValue(s[|s| - 1])
  }

  function DigitChar(d: nat): (c: char)
    requires d < 16
    ensures IsHex(c) && DigitValue(c) == d
    ensures d < 10 ==> IsDigit(c)
  {
    if d < 10 then ('0' as int + d) as char else ('a' as int + (d - 10)) as char
  }

  /** The shortest numeral of n, lower-case, without leading zeros ("0" for zero). */
  function Numeral(n: nat, base: Radix): (s: string)
    ensures |s| > 0 && AllHex(s) && InRadix(s, base)
  {
    if n < base then [DigitChar(n)]
    else Numeral(Shrink(n, base), base) + [DigitChar(Last(n, base))]
  }

  function Dec(n: nat): (s: string)
    ensures s != [] && AllDigits(s) && AllHex(s)
  {
    Numeral(n, 10)
  }

  function Hex(n: nat): (s: string)
    ensures s != [] && AllHex(s)
  {
    Numeral(n, 16)
  }

  /** base to the power k. */
  function Pow(base: Radix, k: nat): nat {
    if k == 0 then 1 else Scale(Pow(base, k - 1), base)
  }

  lemma {:induction false} NumeralDenotes(n: nat, base: Radix)
    ensures Positional(Numeral(n, base), base) == n
  {
    var s := Numeral(n, base);
    if n >= base {
      NumeralDenotes(Shrink(n, base), base);
      assert s[..|s| - 1] == Numeral(Shrink(n, base), base);
    } else {
      assert s[..|s| - 1] == [];
    }
  }

  /** Wrapping at every step or once at the end comes to the same. */
  lemma WrapStep(x: int, base: Radix, d: int)
    ensures Wrap32(Scale(Wrap32(x), base) + d) == Wrap32(Scale(x, base) + d)
  {
    var q := (x + 0x8000_0000) / INT32_SPAN;
    assert Wrap32(x) == x - q * INT32_SPAN;
    WrapShift(Scale(x, base) + d, Scale(q, base));
  }

  lemma WrapShift(x: int, q: int)
    ensures Wrap32(x - q * INT32_SPAN) == Wrap32(x)
  {
    var u := x + 0x8000_0000;
    assert u - q * INT32_SPAN == (u / INT32_SPAN - q) * INT32_SPAN + u % INT32_SPAN;
  }

  /** The wrapping accumulator is the positional value modulo 2^32, whatever the length. */
  lemma {:induction false} AccumulateWraps(s: string, base: Radix)
    requires AllHex(s)
    ensures Accumulate(s, base) == Wrap32(Positional(s, base))
  {
    if s != [] {
      AccumulateWraps(s[..|s| - 1], base);
      WrapStep(Positional(s[..|s| - 1], base), base, DigitValue(s[|s| - 1]));
    }
  }

  /** A token is read as the number it denotes exactly below 2^31, and otherwise as one that
      agrees with it modulo 2^32. */
  lemma AccumulateExactly(s: string, base: Radix)
    requires AllHex(s)
    ensures Accumulate(s, base) == Positional(s, base) <==> Positional(s, base) < 0x8000_0000
    ensures var v, p := Accumulate(s, base), Positional(s, base);
      v == (if p % INT32_SPAN < 0x8000_0000 then p % INT32_SPAN else p % INT32_SPAN - INT32_SPAN) && v % 0x1_0000 == p % 0x1_0000
  {
    AccumulateWraps(s, base);
    hide *;
    var p := Positional(s, base);
    WrapIs(p);
    WrapKeepsLowBits(p);
  }

  lemma WrapIs(p: nat)
    ensures Wrap32(p) == if p % INT32_SPAN < 0x8000_0000 then p % INT32_SPAN else p % INT32_SPAN - INT32_SPAN
    ensures Wrap32(p) == p <==> p < 0x8000_0000
  {
    var q, r := p / INT32_SPAN, p % INT32_SPAN;
    WrapShift(p, q);
    assert p - q * INT32_SPAN == r;
  }

  lemma WrapKeepsLowBits(p: nat)
    ensures Wrap32(p) % 0x1_0000 == p % 0x1_0000
  {
    var q := (p + 0x8000_0000) / INT32_SPAN;
    assert Wrap32(p) == p - (q * 0x1_0000) * 0x1_0000;
    LowBits(p, q * 0x1_0000);
  }

  lemma LowBits(p: int, m: int)
    ensures (p - m * 0x1_0000) % 0x1_0000 == p % 0x1_0000
  {
    assert p - m * 0x1_0000 == (p / 0x1_0000 - m) * 0x1_0000 + p % 0x1_0000;
  }

  lemma {:induction false} PositionalBound(s: string, base: Radix)
    requires AllHex(s) && InRadix(s, base)
    ensures Positional(s, base) < Pow(base, |s|)
  {
    if s != [] {
      PositionalBound(s[..|s| - 1], base);
    }
  }

  lemma {:induction false} PowMonotone(base: Radix, j: nat, k: nat)
    requires j <= k
    ensures 1 <= Pow(base, j) <= Pow(base, k)
  {
    if j < k {
      PowMonotone(base, j, k - 1);
    } else if k > 0 {
      PowMonotone(base, k - 1, k - 1);
    }
  }

  /** Tokens of at most nine decimal or seven hexadecimal digits are read without overflow. */
  lemma ShortTokensAreExact(s: string, base: Radix)
    requires AllHex(s) && InRadix(s, base)
    requires |s| <= if base == 10 then 9 else 7
    ensures Accumulate(s, base) == Positional(s, base)
  {
    AccumulateWraps(s, base);
    PositionalBound(s, base);
    PowMonotone(base, |s|, if base == 10 then 9 else 7);
    assert Pow(10, 9) == 1000000000 by { assert Pow(10, 5) == 100000; }
    assert Pow(16, 7) == 0x1000_0000 by { assert Pow(16, 4) == 0x1_0000; }
  }

  /** No leading zero and no upper-case letter. */
  lemma {:induction false} NumeralIsShortest(n: nat, base: Radix)
    ensures n > 0 ==> Numeral(n, base)[0] != '0'
    ensures n == 0 ==> |Numeral(n, base)| == 1
    ensures forall i :: 0 <= i < |Numeral(n, base)| ==> !('A' <= Numeral(n, base)[i] <= 'F')
  {
    if n >= base {
      NumeralIsShortest(Shrink(n, base), base);
    }
  }

  lemma {:induction false} NumeralLength(n: nat, base: Radix, k: nat)
    requires k > 0 && n < Pow(base, k)
    ensures |Numeral(n, base)| <= k
  {
    if n >= base {
      assert k > 1 by { assert Pow(base, 1) == Scale(Pow(base, 0), base); }
      NumeralLength(Shrink(n, base), base, k - 1);
    }
  }

  /** Reading back what was printed: exact below 2^31, negative from there up to 2^32. */
  lemma NumeralReadsBack(n: nat, base: Radix)
    requires n < INT32_SPAN
    ensures Accumulate(Numeral(n, base), base) == if n < 0x8000_0000 then n else n - INT32_SPAN
  {
    NumeralDenotes(n, base);
    AccumulateWraps(Numeral(n, base), base);
    WrapOnce(n);
    hide *;
  }

  lemma DecReadsBack(n: nat)
    requires n < 0x8000_0000
    ensures Accumulate(Dec(n), 10) == n
  {
    NumeralReadsBack(n, 10);
  }

  lemma WrapOnce(n: nat)
    requires n < INT32_SPAN
    ensures Wrap32(n) == if n < 0x8000_0000 then n else n - INT32_SPAN
  {
  }

  /** A numeral other than "0", cut short, denotes a smaller number. */
  lemma {:induction false} CutNumeralDiffers(n: nat, base: Radix, k: nat)
    requires n > 0 && k < |Numeral(n, base)|
    ensures Positional(Numeral(n, base)[..k], base) < n
  {
    var s := Numeral(n, base);
    if n < base {
      assert s[..k] == [];
    } else {
      var t := Numeral(Shrink(n, base), base);
      assert s[..k] == t[..k];
      if k == |t| {
        assert t[..k] == t;
        NumeralDenotes(Shrink(n, base), base);
      } else {
        CutNumeralDiffers(Shrink(n, base), base, k);
      }
    }
  }
}
