/** Reading back the text of an IPv4-compatible address, which is cut to the token buffer. */
module Ipv6Compat {
  import opened Wrappers
  import opened Numerals
  import opened Ipv6Address
  import opened Ipv6Reader
  import opened Ipv6Text
  import opened Ipv6Walk
  import opened Ipv6Plain

  /** The dotted quad of the address. */
  function Dots(a: Address): string { Quad(a.components[0], a.components[1]) }

  /** The colon of the port survives the cut. */
  predicate HasColon(a: Address) { a.flags.port && |Dots(a)| < TOKEN_CHARS }

  /** The digits of the port that survive the cut. */
  function PortDigits(a: Address): string
    requires HasColon(a)
  {
    Cut(Dec(a.port), TOKEN_CHARS - 1 - |Dots(a)|)
  }

  lemma CompatTextIs(a: Address)
    requires a.flags.compat
    ensures 7 <= |Dots(a)| <= TOKEN_CHARS
    ensures Text(a) == if HasColon(a) then Dots(a) + ":" + PortDigits(a) else Dots(a)
  {
    QuadLength(a.components[0], a.components[1]);
    hide Ipv6Text.Quad, Numerals.Dec;
  }

  /** The value of the digits that are left; it is the port exactly if none is missing, or if
      the port is zero and so is what is read for no digits. */
  lemma PortDigitsValue(a: Address)
    requires HasColon(a)
    ensures AllDigits(PortDigits(a)) && AllHex(PortDigits(a))
    ensures Accumulate(PortDigits(a), 10) == Positional(PortDigits(a), 10) <= a.port
    ensures Positional(PortDigits(a), 10) == a.port <==> a.port == 0 || PortDigits(a) == Dec(a.port)
  {
    var token := PortDigits(a);
    PortLength(a.port);
    ShortTokensAreExact(token, 10);
    NumeralDenotes(a.port, 10);
    if token != Dec(a.port) {
      if a.port > 0 {
        CutNumeralDiffers(a.port, 10, |token|);
      } else {
        assert token == [];
      }
    }
  }

  /** The quad at the very beginning of the input. */
  lemma LeadingQuad(input: string, high: u16, low: u16) returns (p: Reader)
    requires Ahead(input, 0, Quad(high, low))
    ensures |Quad(high, low)| <= |input|
    ensures Run(Start(input, |input|), |Quad(high, low)|) == p
    ensures p.current.StAddrComponent? && !p.failed && p.input == input && p.position == |Quad(high, low)| && p.compat
    ensures ParseComponent(p) == Octets(input, StAddrComponent, p.position, 0, [], None, QuadOctets(high, low))
  {
    hide *;
    QuadIsDotted(high, low);
    NoBracketRead(input);
    p := QuadPends(input, StNone, 0, 0, [], None, QuadTokens(high, low), QuadOctets(high, low));
  }

  /** The reader once the last octet is stored. */
  function Stored(input: string, a: Address): Reader {
    Octets(input, StAddrComponent, |Dots(a)|, 0, [], None, QuadOctets(a.components[0], a.components[1]))
  }

  lemma StoredFacts(input: string, a: Address)
    ensures var l := Stored(input, a);
      && l.input == input && l.inputBytes == |input| && l.position == |Dots(a)| && l.components == 2 && l.diags == []
      && l.embedding && l.v4Octets == 4 && l.compat && !l.failed && l.current.StAddrComponent?
      && l.out == Address([a.components[0], a.components[1], 0, 0, 0, 0, 0, 0], 0, 0, NO_FLAGS)
  {
    hide Ipv6Text.Quad;
    assert [] + Pair(QuadOctets(a.components[0], a.components[1])) == [a.components[0], a.components[1]];
    assert Pad([a.components[0], a.components[1]]) == [a.components[0], a.components[1], 0, 0, 0, 0, 0, 0];
  }

  lemma ColonAfterQuad(p: Reader)
    requires p.current.StAddrComponent? && !p.failed && p.compat && p.position < |p.input| && p.input[p.position] == ':'
    requires !ParseComponent(p).failed && ParseComponent(p).inputBytes == |p.input|
    ensures var t := BeginToken(Goto(ParseComponent(p), StPort), 1).(position := p.position + 1);
      Run(p, 1) == t && AtToken(t, StPort)
  {
    hide Ipv6Reader.ParseComponent, Ipv6Reader.Run;
    RunOne(p);
  }

  /** What the parser makes of the text of a compatible address. */
  function CompatRead(a: Address): Address {
    Address([a.components[0], a.components[1], 0, 0, 0, 0, 0, 0],
            if HasColon(a) then PortValueRead(a) else 0, 0, Flags(HasColon(a), true, true, 0))
  }

  function PortValueRead(a: Address): u16
    requires HasColon(a)
  {
    PortDigitsValue(a);
    Positional(PortDigits(a), 10)
  }

  lemma ConcludesCompat(r: Reader, l: Reader, port: u16, flags: Flags)
    requires Continues(r, l, port, 0, flags) && l.embedding && l.v4Octets == 4 && l.compat && l.components == 2
    ensures Conclude(r) == (true, r.(out := Address(l.out.components, port, 0, flags.(mask := true, compat := true))))
  {
  }

  lemma FinishQuad(p: Reader)
    requires p.current.StAddrComponent? && p.components <= 8
    ensures Finish(p) == Conclude(Goto(ParseComponent(p), StNone))
  {
    hide Ipv6Reader.ParseComponent, Ipv6Reader.Conclude;
  }

  /** Without a port: the input ends with the last octet. */
  lemma QuadAloneRead(a: Address, input: string)
    requires input == Dots(a) && !HasColon(a)
    ensures var q := Run(Start(input, |input|), |input|);
      && !q.failed && q.components <= 8 && Finish(q).0 && Finish(q).1.out == CompatRead(a) && Finish(q).1.diags == []
  {
    WholeAhead(input, Dots(a), "");
    var p := LeadingQuad(input, a.components[0], a.components[1]);
    StoredFacts(input, a);
    RunKeepsCount(Start(input, |input|), |input|);
    hide Ipv6Reader.Run, Ipv6Reader.ParseComponent, Ipv6Reader.Conclude, Stored, Octets, Ipv6Text.Quad, QuadOctets, Ipv6Reader.Finish;
    var l := Stored(input, a);
    FinishQuad(p);
    ConcludesCompat(Goto(l, StNone), l, 0, NO_FLAGS);
  }

  /** The reader that holds what is left of the port. */
  ghost predicate HoldsPort(q: Reader, l: Reader, a: Address)
    requires HasColon(a)
  {
    && !q.failed && q.components <= 8 && Continues(Step(q, EcWhitespace), l, PortValueRead(a), 0, NO_FLAGS.(port := true))
  }

  lemma PortHeld(p: Reader, l: Reader, a: Address)
    requires HasColon(a) && p.current.StAddrComponent? && !p.failed && p.compat && p.position < |p.input|
    requires p.input[p.position] == ':' && Ahead(p.input, p.position + 1, PortDigits(a))
    requires ParseComponent(p) == l && !l.failed && l.diags == [] && l.inputBytes == |p.input| && l.components <= 8
    requires l.input == p.input && l.position == p.position && l.out == Address(l.out.components, 0, 0, NO_FLAGS)
    ensures p.position + 1 + |PortDigits(a)| <= |p.input|
    ensures HoldsPort(Run(p, 1 + |PortDigits(a)|), l, a)
  {
    var token := PortDigits(a);
    PortDigitsValue(a);
    hide Ipv6Reader.Run, Ipv6Reader.ParseComponent, Ipv6Reader.ReadToken, Ipv6Reader.ParsePort, Ipv6Reader.Step, Ahead,
         PortDigits, Numerals.Accumulate, Numerals.Positional, Numerals.AllDigits, Numerals.AllHex;
    ColonAfterQuad(p);
    var t := BeginToken(Goto(l, StPort), 1).(position := p.position + 1);
    RunDecimal(t, token);
    Chain(p, 1, t, |token|, Moved(t, |token|));
    PortRead(Moved(t, |token|), PortValueRead(a), token);
    StepPortEnd(Moved(t, |token|));
  }

  lemma ColonAhead(a: Address, input: string)
    requires HasColon(a) && input == Dots(a) + ":" + PortDigits(a)
    ensures Ahead(input, 0, Dots(a)) && |Dots(a)| < |input| && input[|Dots(a)|] == ':'
    ensures Ahead(input, |Dots(a)| + 1, PortDigits(a)) && |input| == |Dots(a)| + 1 + |PortDigits(a)|
  {
    hide PortDigits, Dots;
    assert input == Dots(a) + (":" + PortDigits(a));
    WholeAhead(input, Dots(a), ":" + PortDigits(a));
    AheadSplit(input, |Dots(a)|, ":", PortDigits(a));
    AheadAt(input, |Dots(a)|, ":", 0);
  }

  lemma FinishPort(q: Reader, l: Reader, a: Address)
    requires HasColon(a) && HoldsPort(q, l, a)
    requires l.embedding && l.v4Octets == 4 && l.compat && l.components == 2
    ensures Finish(q).0 && Finish(q).1.diags == []
    ensures Finish(q).1.out == Address(l.out.components, PortValueRead(a), 0, Flags(true, true, true, 0))
  {
    hide Ipv6Reader.Step, Ipv6Reader.Conclude, PortValueRead;
    ConcludesCompat(Step(q, EcWhitespace), l, PortValueRead(a), NO_FLAGS.(port := true));
  }

  lemma LeadingDots(a: Address, input: string) returns (p: Reader)
    requires Ahead(input, 0, Dots(a))
    ensures |Dots(a)| <= |input| && Run(Start(input, |input|), |Dots(a)|) == p
    ensures p.current.StAddrComponent? && !p.failed && p.input == input && p.position == |Dots(a)| && p.compat
    ensures ParseComponent(p) == Stored(input, a)
  {
    hide Ipv6Reader.Run, Ipv6Reader.ParseComponent, Ipv6Text.Quad, Octets, QuadOctets, Ahead, Ipv6Reader.Start;
    p := LeadingQuad(input, a.components[0], a.components[1]);
  }

  /** With a port, or what is left of it. */
  lemma QuadAndPortRead(a: Address, input: string)
    requires HasColon(a) && Ahead(input, 0, Dots(a)) && |Dots(a)| < |input| && input[|Dots(a)|] == ':'
    requires Ahead(input, |Dots(a)| + 1, PortDigits(a)) && |input| == |Dots(a)| + 1 + |PortDigits(a)|
    ensures var q := Run(Start(input, |input|), |input|);
      && !q.failed && q.components <= 8 && Finish(q).0 && Finish(q).1.diags == []
      && Finish(q).1.out == Address(Stored(input, a).out.components, PortValueRead(a), 0, Flags(true, true, true, 0))
  {
    hide *;
    StoredFacts(input, a);
    var p := LeadingDots(a, input);
    StartFacts(input);
    PortHeld(p, Stored(input, a), a);
    HeldFacts(Run(p, 1 + |PortDigits(a)|), Stored(input, a), a);
    RunSplit(Start(input, |input|), |Dots(a)|, 1 + |PortDigits(a)|);
    FinishPort(Run(p, 1 + |PortDigits(a)|), Stored(input, a), a);
  }

  lemma CompatReadIs(a: Address, input: string)
    ensures HasColon(a) ==>
      CompatRead(a) == Address(Stored(input, a).out.components, PortValueRead(a), 0, Flags(true, true, true, 0))
  {
    StoredFacts(input, a);
    hide Stored, HasColon, PortValueRead, Dots;
  }

  lemma HeldFacts(q: Reader, l: Reader, a: Address)
    requires HasColon(a) && HoldsPort(q, l, a)
    ensures !q.failed && q.components <= 8
  {
  }

  /** The text of a compatible address is always accepted, as a compatible address. */
  lemma CompatReadsBack(a: Address)
    requires a.flags.compat
    ensures var res := FromStr(Some(Text(a)), |Text(a)|); res.ok && res.out == Some(CompatRead(a))
  {
    CompatTextIs(a);
    CompatReadIs(a, Text(a));
    hide Ipv6Text.Text, Dots, PortDigits, HasColon, CompatRead, Ipv6Reader.Run, Ipv6Reader.Finish, Ipv6Reader.FromStr, Stored, PortValueRead, Ahead;
    FromStrOfText(a);
    if HasColon(a) {
      ColonAhead(a, Text(a));
      QuadAndPortRead(a, Text(a));
    } else {
      QuadAloneRead(a, Text(a));
    }
  }
}
