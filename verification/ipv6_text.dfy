/** The text of an address, as a value: the leftmost longest run of zeros abbreviated
    (sections 4.1 to 4.3 of RFC 5952), the dotted tail, the mask and the port. */
module Ipv6Text {
  import opened Wrappers
  import opened Numerals
  import opened Ipv6Address

  // ---- The leftmost longest run of zeros ----

  datatype Span = Span(start: nat, len: nat)

  ghost predicate IsZeroRun(c: Components, s: nat, n: nat) {
    s + n <= 8 && forall i :: s <= i < s + n ==> c[i] == 0
  }

  /** w is the leftmost longest run of zeros that ends at or before p; (0, 0) if there is none. */
  ghost predicate LeftmostLongest(c: Components, p: nat, w: Span) {
    && w.start + w.len <= p && IsZeroRun(c, w.start, w.len)
    && (w.len == 0 ==> w.start == 0)
    && forall s: nat, n: nat :: IsZeroRun(c, s, n) && s + n <= p && n > 0 ==>
         n < w.len || (n == w.len && w.start <= s)
  }

  function ZerosFrom(c: Components, i: nat): (n: nat)
    requires i <= 8
    ensures IsZeroRun(c, i, n) && (i + n < 8 ==> c[i + n] != 0)
    decreases 8 - i
  {
    if i < 8 && c[i] == 0 then 1 + ZerosFrom(c, i + 1) else 0
  }

  function LongestFrom(c: Components, i: nat): (w: Span)
    requires i <= 8
    ensures IsZeroRun(c, w.start, w.len)
    ensures if w.len == 0 then w.start == 0 else i <= w.start
    decreases 8 - i
  {
    if i == 8 then Span(0, 0)
    else
      var rest := LongestFrom(c, i + 1);
      var n := ZerosFrom(c, i);
      if n > 0 && n >= rest.len then Span(i, n) else rest
  }

  function Longest(c: Components): Span { LongestFrom(c, 0) }

  lemma {:induction false} LongestFromBounds(c: Components, i: nat, s: nat, n: nat)
    requires i <= s && 0 < n && IsZeroRun(c, s, n)
    ensures n < LongestFrom(c, i).len || (n == LongestFrom(c, i).len && LongestFrom(c, i).start <= s)
    decreases s - i
  {
    if i < s {
      LongestFromBounds(c, i + 1, s, n);
    } else {
      assert n <= ZerosFrom(c, i);
    }
  }

  lemma LongestIsLeftmostLongest(c: Components)
    ensures LeftmostLongest(c, 8, Longest(c))
  {
    forall s: nat, n: nat | IsZeroRun(c, s, n) && n > 0
      ensures n < Longest(c).len || (n == Longest(c).len && Longest(c).start <= s)
    {
      LongestFromBounds(c, 0, s, n);
    }
  }

  lemma LeftmostLongestIsUnique(c: Components, w: Span)
    requires LeftmostLongest(c, 8, w)
    ensures w == Longest(c)
  {
    LongestIsLeftmostLongest(c);
    var v := Longest(c);
    assert IsZeroRun(c, v.start, v.len) && IsZeroRun(c, w.start, w.len);
  }

  // ---- The text ----

  /** The capacity of the token buffer, terminator excluded. */
  const TOKEN_CHARS := 15

  function Cut(s: string, n: nat): string { if |s| <= n then s else s[..n] }

  function Quad(high: u16, low: u16): string {
    Dec(high / 0x100) + "." + Dec(high % 0x100) + "." + Dec(low / 0x100) + "." + Dec(low % 0x100)
  }

  /** "::" (or its second half, after a separator) stands at component i. */
  predicate Abbreviates(c: Components, embed: bool, i: nat) {
    i == Longest(c).start && Longest(c).len > 1 && !(embed && i == 6)
  }

  /** The components from i on; embed asks for a dotted tail in place of the last two. */
  function Emit(c: Components, embed: bool, i: nat): string
    requires i <= 8
    decreases 8 - i
  {
    if i == 8 then ""
    else if Abbreviates(c, embed, i) then
      (if i > 0 then ":" else "::") + Emit(c, embed, i + Longest(c).len)
    else if embed && i == 6 then Quad(c[6], c[7])
    else Hex(c[i]) + (if i < 7 then ":" else "") + Emit(c, embed, i + 1)
  }

  function ComponentsText(c: Components, embed: bool): string { Emit(c, embed, 0) }

  function Head(a: Address): string {
    (if a.flags.port then "[" else "") + ComponentsText(a.components, a.flags.mask)
  }

  function MaskText(a: Address): string { if a.flags.mask then "/" + Dec(a.mask) else "" }

  function PortText(a: Address): string { if a.flags.port then "]:" + Dec(a.port) else "" }

  /** What goes to the token buffer for an IPv4-compatible address. */
  function CompatText(a: Address): string {
    Quad(a.components[0], a.components[1]) + if a.flags.port then ":" + Dec(a.port) else ""
  }

  function Text(a: Address): string {
    if a.flags.compat then Cut(CompatText(a), TOKEN_CHARS)
    else Head(a) + MaskText(a) + PortText(a)
  }

  /** An abbreviation at the very end wants one character more than it writes. */
  predicate EndsAbbreviated(a: Address) {
    var w := Longest(a.components);
    w.start > 0 && w.start + w.len == 8 && Abbreviates(a.components, a.flags.mask, w.start)
  }

  /** ipv6_to_str into a buffer of size characters: None when it answers null, else the
      string in the buffer. Only the components must fit; mask and port may be cut. */
  function Print(a: Address, size: nat): Option<string> {
    if size < 4 then None
    else if !a.flags.compat && |Head(a)| + (if EndsAbbreviated(a) then 1 else 0) >= size - 1 then None
    else Some(Cut(Text(a), size - 1))
  }

  // ---- Lengths ----

  lemma OctetLength(n: nat)
    requires n < 0x100
    ensures 1 <= |Dec(n)| <= 3
  {
    assert Pow(10, 3) == 1000;
    NumeralLength(n, 10, 3);
  }

  lemma QuadLength(high: u16, low: u16)
    ensures 7 <= |Quad(high, low)| <= 15
  {
    OctetLength(high / 0x100);
    OctetLength(high % 0x100);
    OctetLength(low / 0x100);
    OctetLength(low % 0x100);
  }

  lemma HexLength(n: u16)
    ensures 1 <= |Hex(n)| <= 4
  {
    assert Pow(16, 4) == 0x1_0000;
    NumeralLength(n, 16, 4);
  }

  lemma PortLength(n: u16)
    ensures 1 <= |Dec(n)| <= 5
  {
    assert Pow(10, 5) == 100000;
    NumeralLength(n, 10, 5);
  }

  lemma MaskLength(n: u32)
    ensures 1 <= |Dec(n)| <= 10
  {
    assert Pow(10, 10) == 10000000000 by { assert Pow(10, 5) == 100000; }
    NumeralLength(n, 10, 10);
  }

  lemma {:induction false} EmitLength(c: Components, embed: bool, i: nat)
    requires i <= 8
    ensures |Emit(c, embed, i)| <= if i <= 6 then 5 * (6 - i) + 15 else 5 * (8 - i)
    decreases 8 - i
  {
    if i < 8 {
      HexLength(c[i]);
      QuadLength(c[6], c[7]);
      if Abbreviates(c, embed, i) {
        EmitLength(c, embed, i + Longest(c).len);
      } else if !(embed && i == 6) {
        EmitLength(c, embed, i + 1);
      }
    }
  }

  lemma ComponentsLength(c: Components, embed: bool, first: nat)
    requires first == 0
    ensures |ComponentsText(c, embed)| <= 45
  {
    hide Emit;
    EmitLength(c, embed, first);
  }

  /** The text never needs more than 64 characters, so a buffer of the published size holds it. */
  lemma TextFits(a: Address)
    ensures |Text(a)| <= 64
    ensures forall size: nat :: size >= IPV6_STRING_SIZE ==> Print(a, size) == Some(Text(a))
  {
    hide Emit, Quad, Numerals.Dec, Longest, Abbreviates, ComponentsText;
    ComponentsLength(a.components, a.flags.mask, 0);
    MaskLength(a.mask);
    PortLength(a.port);
  }
}
