/** The address value exchanged by the parser and the printer, its flag word, and the
    comparison (contrib/ipv6-parse/ipv6.h, ipv6_compare). */
module Ipv6Address {
  import opened Numerals

  type u16 = x: int | 0 <= x < 0x1_0000
  type u32 = x: int | 0 <= x < INT32_SPAN

  /** sizeof the longest address text of the header, terminator included. */
  const IPV6_STRING_SIZE := 66

  /** IPV6_NUM_COMPONENTS; specifications write the number out. */
  const NUM_COMPONENTS := 8

  type Components = c: seq<u16> | |c| == 8 witness [0, 0, 0, 0, 0, 0, 0, 0]

  const ZERO_COMPONENTS: Components := [0, 0, 0, 0, 0, 0, 0, 0]

  /** A 32-bit flag word, held by its bits: bit 0 says the address has a port, bit 1 says it
      has a mask (and, being the same bit, that it embeds an IPv4 address), bit 2 marks an
      IPv4-compatible address; the remaining 29 bits have no meaning. */
  datatype Flags = Flags(port: bool, mask: bool, compat: bool, rest: u29) {
    function Word(): u32 {
      (if port then 1 else 0) + (if mask then 2 else 0) + (if compat then 4 else 0) + 8 * rest
    }
  }

  type u29 = x: int | 0 <= x < 0x2000_0000

  const NO_FLAGS := Flags(false, false, false, 0)

  datatype Address = Address(components: Components, port: u16, mask: u32, flags: Flags)

  const ZERO_ADDRESS := Address(ZERO_COMPONENTS, 0, 0, NO_FLAGS)

  /** Unsigned subtraction of two 32-bit fields, stored in an int32_t. */
  function Difference(x: u32, y: u32): int { Wrap32(x - y) }

  function FirstDifference(a: Components, b: Components, i: nat): int
    requires i <= 8
    decreases 8 - i
  {
    if i == 8 then 0
    else if a[i] != b[i] then a[i] - b[i]
    else FirstDifference(a, b, i + 1)
  }

  function Compare(a: Address, b: Address): int {
    var c := FirstDifference(a.components, b.components, 0);
    if c != 0 then c
    else if a.flags != b.flags then Difference(a.flags.Word(), b.flags.Word())
    else if a.flags.port && a.port != b.port then a.port - b.port
    else if a.flags.mask then Difference(a.mask, b.mask)
    else 0
  }

  /** Equality as far as the flags make the port and the mask count. */
  predicate Same(a: Address, b: Address) {
    && a.components == b.components
    && a.flags == b.flags
    && (a.flags.port ==> a.port == b.port)
    && (a.flags.mask ==> a.mask == b.mask)
  }

  lemma {:induction false} FirstDifferenceZero(a: Components, b: Components, i: nat)
    requires i <= 8
    ensures FirstDifference(a, b, i) == 0 <==> a[i..] == b[i..]
    decreases 8 - i
  {
    if i < 8 {
      FirstDifferenceZero(a, b, i + 1);
      assert a[i..] == [a[i]] + a[i + 1..];
      assert b[i..] == [b[i]] + b[i + 1..];
    }
  }

  /** The comparison answers zero exactly for addresses that are the same. */
  lemma CompareZeroIffSame(a: Address, b: Address)
    ensures Compare(a, b) == 0 <==> Same(a, b)
  {
    FirstDifferenceZero(a.components, b.components, 0);
    assert a.components[0..] == a.components && b.components[0..] == b.components;
    assert a.flags != b.flags ==> Difference(a.flags.Word(), b.flags.Word()) != 0;
    assert a.mask != b.mask <==> Difference(a.mask, b.mask) != 0;
  }

  // ---- The sign of the comparison ----

  /** The difference of the first fields that differ, as a number: components from the left,
      flag word, port and mask, the last two if the flags name them. */
  function Exact(a: Address, b: Address): int {
    var c := FirstDifference(a.components, b.components, 0);
    if c != 0 then c
    else if a.flags != b.flags then a.flags.Word() - b.flags.Word()
    else if a.flags.port && a.port != b.port then a.port - b.port
    else if a.flags.mask then a.mask - b.mask
    else 0
  }

  ghost predicate AgreeTo(a: Components, b: Components, i: nat) { i <= 8 && forall j :: 0 <= j < i ==> a[j] == b[j] }

  ghost predicate FirstLess(a: Components, b: Components, i: nat) { i < 8 && AgreeTo(a, b, i) && a[i] < b[i] }

  /** The lexicographic order of addresses. */
  ghost predicate Lesser(a: Address, b: Address) {
    || (exists i :: FirstLess(a.components, b.components, i))
    || (a.components == b.components && a.flags.Word() < b.flags.Word())
    || (a.components == b.components && a.flags == b.flags && a.flags.port && a.port < b.port)
    || (&& a.components == b.components && a.flags == b.flags && (a.flags.port ==> a.port == b.port)
        && a.flags.mask && a.mask < b.mask)
  }

  /** The first place at which the components differ, or 8. */
  lemma {:induction false} FirstDifferenceAt(a: Components, b: Components, i: nat) returns (k: nat)
    requires AgreeTo(a, b, i)
    ensures AgreeTo(a, b, k) && (k < 8 ==> a[k] != b[k])
    ensures k < 8 ==> var x: int, y: int := a[k], b[k]; FirstDifference(a, b, i) == x - y
    ensures k == 8 ==> a == b && FirstDifference(a, b, i) == 0
    decreases 8 - i
  {
    if i == 8 || a[i] != b[i] {
      k := i;
    } else {
      k := FirstDifferenceAt(a, b, i + 1);
    }
  }

  lemma WordsDiffer(f: Flags, g: Flags)
    ensures f.Word() == g.Word() <==> f == g
  {
  }

  /** The exact difference is negative for a lesser address, and for no other. */
  lemma ExactIsOrder(a: Address, b: Address)
    ensures Exact(a, b) < 0 <==> Lesser(a, b)
    ensures Exact(a, b) > 0 <==> Lesser(b, a)
  {
    WordsDiffer(a.flags, b.flags);
    var k := FirstDifferenceAt(a.components, b.components, 0);
    hide FirstDifference;
    if k < 8 {
      assert a.components[k] < b.components[k] ==> FirstLess(a.components, b.components, k);
      assert b.components[k] < a.components[k] ==> FirstLess(b.components, a.components, k);
    }
  }

  lemma CompareWraps(a: Address, b: Address)
    ensures Compare(a, b) == Wrap32(Exact(a, b)) && -INT32_SPAN < Exact(a, b) < INT32_SPAN
  {
    var k := FirstDifferenceAt(a.components, b.components, 0);
    WordsDiffer(a.flags, b.flags);
    hide FirstDifference;
  }

  /** The comparison has the sign of the order exactly when the difference fits an int32_t. */
  lemma SignExactly(a: Address, b: Address)
    ensures (Compare(a, b) < 0 <==> Lesser(a, b)) && (Compare(a, b) > 0 <==> Lesser(b, a)) <==>
      -0x8000_0000 <= Exact(a, b) < 0x8000_0000
  {
    ExactIsOrder(a, b);
    CompareWraps(a, b);
    hide Exact, Compare, Lesser;
  }

  /** What the header says of the answer. */
  ghost predicate AsDocumented(a: Address, b: Address) {
    Compare(a, b) == if Lesser(a, b) then -1 else if Lesser(b, a) then 1 else 0
  }

  /** The answer is the documented one exactly when the difference is at most one. It is one of
      -1, 0 and 1 besides that only for the two greatest differences, with the wrong sign. */
  lemma DocumentedExactly(a: Address, b: Address)
    ensures AsDocumented(a, b) <==> -1 <= Exact(a, b) <= 1
    ensures -1 <= Compare(a, b) <= 1 <==> -1 <= Exact(a, b) <= 1 || Exact(a, b) == 0xffff_ffff || Exact(a, b) == -0xffff_ffff
  {
    ExactIsOrder(a, b);
    CompareWraps(a, b);
    hide Exact, Compare, Lesser;
  }

  /** A lesser address that compares greater: one mask is 0, the other above 2^31. */
  lemma LesserComparesGreater()
    ensures var flags := Flags(false, true, false, 0);
      var a, b := Address(ZERO_COMPONENTS, 0, 0, flags), Address(ZERO_COMPONENTS, 0, 0x8000_0001, flags);
      Lesser(a, b) && Compare(a, b) > 0
  {
    var flags := Flags(false, true, false, 0);
    var a, b := Address(ZERO_COMPONENTS, 0, 0, flags), Address(ZERO_COMPONENTS, 0, 0x8000_0001, flags);
    FirstDifferenceZero(a.components, b.components, 0);
    assert Exact(a, b) == -0x8000_0001;
    CompareWraps(a, b);
    assert Lesser(a, b);
  }

  /** Bitwise or of two natural numbers. */
  function BitOr(a: nat, b: nat): nat
    decreases a + b
  {
    if a == 0 then b
    else if b == 0 then a
    else 2 * BitOr(a / 2, b / 2) + (if a % 2 == 1 || b % 2 == 1 then 1 else 0)
  }

  /** The k-th bit of a number. */
  predicate Bit(n: nat, k: nat) { if k == 0 then n % 2 == 1 else Bit(n / 2, k - 1) }

  /** A bit of the or is set exactly if it is set in one of the two. */
  lemma {:induction false} BitOrBits(a: nat, b: nat, k: nat)
    ensures Bit(BitOr(a, b), k) <==> Bit(a, k) || Bit(b, k)
    decreases k
  {
    BitOrHalves(a, b);
    hide BitOr;
    if a == 0 || b == 0 {
      NoBit(k);
    } else if k > 0 {
      BitOrBits(a / 2, b / 2, k - 1);
      assert Bit(BitOr(a, b), k) == Bit(BitOr(a, b) / 2, k - 1);
    }
  }

  lemma BitOrHalves(a: nat, b: nat)
    ensures a == 0 ==> BitOr(a, b) == b
    ensures b == 0 ==> BitOr(a, b) == a
    ensures a > 0 && b > 0 ==> BitOr(a, b) / 2 == BitOr(a / 2, b / 2) && (BitOr(a, b) % 2 == 1 <==> a % 2 == 1 || b % 2 == 1)
  {
  }

  lemma {:induction false} NoBit(k: nat)
    ensures !Bit(0, k)
  {
    if k > 0 { NoBit(k - 1); }
  }

  function TwoTo(k: nat): nat { if k == 0 then 1 else 2 * TwoTo(k - 1) }

  /** Or-ing onto clear low bits is addition. */
  lemma {:induction false} BitOrIsSum(h: nat, b: nat, k: nat)
    requires b < TwoTo(k)
    ensures BitOr(h * TwoTo(k), b) == h * TwoTo(k) + b
  {
    if k > 0 && h > 0 && b > 0 {
      var a := h * TwoTo(k - 1);
      assert h * TwoTo(k) == 2 * a;
      BitOrIsSum(h, b / 2, k - 1);
    }
  }
}
