/** Two strings that are accepted as other addresses than they denote. */
module Ipv6Misread {
  import opened Wrappers
  import opened Numerals
  import opened Ipv6Address
  import opened Ipv6Reader
  import opened Ipv6Invariant
  import opened Ipv6Walk
  import opened Ipv6Plain
  import opened Ipv6Notation

  lemma Single(s: string, d: nat)
    requires 1 <= d <= 9 && s == [DigitChar(d)]
    ensures Octet(s) && Positional(s, 10) == d
  {
    assert s[..0] == "";
  }

  lemma OneToFour(quad: seq<string>)
    requires |quad| == 4 && quad[0] == "1" && quad[1] == "2" && quad[2] == "3" && quad[3] == "4"
    ensures Dots(quad) && OctetValues(quad)[0] == 1 && OctetValues(quad)[1] == 2
    ensures OctetValues(quad)[2] == 3 && OctetValues(quad)[3] == 4
  {
    Single(quad[0], 1);
    Single(quad[1], 2);
    Single(quad[2], 3);
    Single(quad[3], 4);
    hide Positional, Octet;
  }

  lemma PairIs(quad: seq<string>)
    requires quad != [] && Dots(quad) && OctetValues(quad)[0] == 1 && OctetValues(quad)[1] == 2
    requires OctetValues(quad)[2] == 3 && OctetValues(quad)[3] == 4
    ensures QuadValues(quad) == [0x102, 0x304]
  {
    hide Dots, OctetValues;
  }

  /** The text of "::" and a quad alone. */
  lemma LoneQuadText(n: Notation)
    requires n.abbreviated && n.before == [] && n.after == [] && |n.quad| == 4
    ensures Text(n) == "::" + (n.quad[0] + "." + (n.quad[1] + "." + (n.quad[2] + "." + n.quad[3])))
  {
    var q := n.quad;
    assert DottedText(q, 0) == q[0] + "." + DottedText(q, 1) && DottedText(q, 1) == q[1] + "." + DottedText(q, 2);
    assert DottedText(q, 2) == q[2] + "." + DottedText(q, 3);
  }

  lemma LoneQuadDenotes(n: Notation)
    requires n.abbreviated && n.before == [] && n.after == [] && n.quad != [] && Dots(n.quad)
    ensures WellFormed(n) && Denoted(n) == ZERO_COMPONENTS[..6] + QuadValues(n.quad)
    ensures Taken(n) == Address(Pad(QuadValues(n.quad)), 0, 0, Flags(false, true, true, 0))
  {
    hide Positional, Pad, Octet, QuadValues;
  }

  /** "::1.2.3.4" is read as an IPv4-compatible address, with the quad in front. */
  lemma LoneQuadIsMisread(n: Notation)
    requires n.abbreviated && n.before == [] && n.after == [] && |n.quad| == 4
    requires n.quad[0] == "1" && n.quad[1] == "2" && n.quad[2] == "3" && n.quad[3] == "4"
    ensures WellFormed(n) && Text(n) == "::1.2.3.4"
    ensures Denoted(n) == ZERO_COMPONENTS[..6] + [0x102, 0x304]
    ensures FromStr(Some(Text(n)), 9)
      == Result(true, Some(Address([0x102, 0x304] + ZERO_COMPONENTS[2..], 0, 0, Flags(false, true, true, 0))), [])
  {
    hide *;
    LoneQuadText(n);
    OneToFour(n.quad);
    PairIs(n.quad);
    LoneQuadDenotes(n);
    NotationIsAccepted(n);
    assert |Text(n)| == 9;
    assert Pad(QuadValues(n.quad)) == [0x102, 0x304] + ZERO_COMPONENTS[2..] by { PadOfTwo(); }
  }

  lemma PadOfTwo()
    ensures Pad([0x102, 0x304]) == [0x102, 0x304] + ZERO_COMPONENTS[2..]
  {
  }

  // ---- A component out of range ----

  /** One component before "::", whatever the number of its digits. */
  lemma OneComponentIsRead(t: string, token: string, v: u16)
    requires t == token + "::" && Names(token, 16, v)
    ensures EndsIn(Start(t, |t|), |t|, Scan(t, StNone, |t|, 0, [v], Some(1)))
  {
    var m := |token| + 1;
    assert |t| == m + 1 && Ahead(t, 0, token + ":") && Ahead(t, m, ":") by { Pieces(t, token); }
    hide *;
    NoBracketRead(t);
    WalkComponent(t, StNone, 0, 0, [], None, token, v);
    assert [] + [v] == [v];
    WalkAbbreviation(t, m, 0, [v], false);
    NothingEnds(t, StV6Separator, m + 1, [v], Some(1));
    var zeros, flushed := Scan(t, StV6Separator, m + 1, 0, [v], Some(1)), Scan(t, StNone, m + 1, 0, [v], Some(1));
    EndsAfter(Scan(t, StV6Separator, m, 0, [v], None), 1, zeros, 0, flushed);
    EndsAfter(Start(t, |t|), m, Scan(t, StV6Separator, m, 0, [v], None), 1, flushed);
  }

  lemma Pieces(t: string, token: string)
    requires t == token + "::"
    ensures |t| == |token| + 2 && Ahead(t, 0, token + ":") && Ahead(t, |token| + 1, ":")
  {
    assert t[0..|token| + 1] == token + ":" && t[|token| + 1..] == ":";
  }

  lemma OneConcludes(t: string, token: string, v: u16)
    requires t == token + "::" && AllHex(token)
    ensures VisibleLength(t, |t|) == |t|
    ensures var l := Scan(t, StNone, |t|, 0, [v], Some(1));
      Conclude(l).0 && Conclude(l).1.diags == [] && Conclude(l).1.out == Address(Pad([v]), 0, 0, NO_FLAGS)
  {
    assert VisibleLength(t, |t|) == |t| by { assert NoNul(t); NoNulIsVisible(t); }
    OneExpands(v);
    hide *;
    OneEnds(t, v);
    var l := Scan(t, StNone, |t|, 0, [v], Some(1));
    ConcludesAs(l, Pad([v]), false, false, Pad([v]));
  }

  lemma OneExpands(v: u16)
    ensures Expand(Pad([v]), 1, 1) == Pad([v])
  {
  }

  lemma OneEnds(t: string, v: u16)
    ensures var l := Scan(t, StNone, |t|, 0, [v], Some(1));
      && !l.embedding && !l.compat && l.hasZerorun && l.zerorun == 1 == l.components && l.diags == []
      && l.out == Address(Pad([v]), 0, 0, NO_FLAGS)
  {
    hide Pad;
  }

  /** One component before "::" is accepted as soon as the accumulator holds a u16. */
  lemma OneComponentIsAccepted(token: string, v: u16)
    requires |token| < 62 && Names(token, 16, v)
    ensures FromStr(Some(token + "::"), |token| + 2) == Result(true, Some(Address(Pad([v]), 0, 0, NO_FLAGS)), [])
  {
    var t := token + "::";
    OneComponentIsRead(t, token, v);
    OneConcludes(t, token, v);
    hide Names, Ipv6Reader.Run, Ipv6Reader.Step, Conclude, VisibleLength, Pad, Scan;
  }

  /** Multiplying by 16 puts another digit behind. */
  lemma OneMoreDigit(n: nat, d: nat, s: string)
    requires n > 0 && d < 16 && s == Hex(n) + [DigitChar(d)]
    ensures Hex(16 * n + d) == s
  {
    assert Shrink(16 * n + d, 16) == n && Last(16 * n + d, 16) == d;
  }

  /** Nine digits, of 2^32 + 1. */
  lemma NineDigits()
    ensures Hex(0x1_0000_0001) == "100000001"
  {
    assert Hex(1) == "1" && DigitChar(0) == '0' && DigitChar(1) == '1';
    hide *;
    OneMoreDigit(0x1, 0, "10");
    OneMoreDigit(0x10, 0, "100");
    OneMoreDigit(0x100, 0, "1000");
    OneMoreDigit(0x1000, 0, "10000");
    OneMoreDigit(0x1_0000, 0, "100000");
    OneMoreDigit(0x10_0000, 0, "1000000");
    OneMoreDigit(0x100_0000, 0, "10000000");
    OneMoreDigit(0x1000_0000, 1, "100000001");
  }

  lemma HugeNames(token: string)
    requires token == Hex(0x1_0000_0001)
    ensures Names(token, 16, 1) && Positional(token, 16) == 0x1_0000_0001
  {
    HugeComponentReadsAsOne();
    hide Numeral, Positional, Accumulate;
  }

  /** "100000001::", whose first component is far out of range, is accepted as "1::". */
  lemma HugeComponentIsAccepted(token: string)
    requires token == "100000001"
    ensures AllHex(token) && Positional(token, 16) == 0x1_0000_0001
    ensures FromStr(Some(token + "::"), 11) == Result(true, Some(Address([1] + ZERO_COMPONENTS[1..], 0, 0, NO_FLAGS)), [])
  {
    hide *;
    NineDigits();
    HugeNames(token);
    assert AllHex(token) && |token| == 9 by { NamesFacts(token, 16, 1); }
    OneComponentIsAccepted(token, 1);
    assert Pad([1]) == [1] + ZERO_COMPONENTS[1..] by { PadOfOne(); }
  }

  lemma PadOfOne()
    ensures Pad([1]) == [1] + ZERO_COMPONENTS[1..]
  {
  }
}
