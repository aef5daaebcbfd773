/** The two-way promise of the library: address -> string -> address, for all addresses, and
    string -> address -> string -> address, for all strings. */
module Ipv6RoundTrip {
  import opened Wrappers
  import opened Numerals
  import opened Ipv6Address
  import opened Ipv6Reader
  import opened Ipv6Invariant
  import opened Ipv6Text
  import opened Ipv6Plain
  import opened Ipv6Compat

  /** What the parser makes of the text that is printed for a. */
  function Reread(a: Address): Result { FromStr(Some(Text(a)), |Text(a)|) }

  /** Quad, colon and port fit the token buffer; port zero may lose its only digit, since no
      digits are read as zero. */
  predicate PortFits(a: Address) {
    |Dots(a)| + 1 + |Dec(a.port)| <= TOKEN_CHARS || (a.port == 0 && |Dots(a)| + 1 == TOKEN_CHARS)
  }

  /** The addresses that survive printing and parsing. */
  predicate RoundTrips(a: Address) {
    && a.flags.rest == 0
    && if a.flags.compat then
         a.flags.mask && a.mask == 0 && (forall i :: 2 <= i < 8 ==> a.components[i] == 0)
         && (a.flags.port ==> PortFits(a))
       else
         a.flags.mask ==> a.mask <= 128 && !LooksCompat(a.components, true)
  }

  /** Printed text is accepted unless it shows a mask of more than 128 bits. */
  lemma PrintedTextIsAccepted(a: Address)
    ensures Reread(a).ok <==> (!a.flags.compat && a.flags.mask ==> a.mask <= 128)
  {
    hide Ipv6Text.Text, Ipv6Reader.FromStr, CompatRead, Normal;
    if a.flags.compat { CompatReadsBack(a); } else { PlainReadsBack(a); }
  }

  lemma PortFitsExactly(a: Address)
    requires a.flags.compat && a.flags.port
    ensures (HasColon(a) && PortValueRead(a) == a.port) <==> PortFits(a)
  {
    CompatTextIs(a);
    if HasColon(a) { PortDigitsValue(a); }
    PortLength(a.port);
    hide Dots, Numerals.Positional, Numerals.Accumulate, Ipv6Text.Text;
    if HasColon(a) && a.port == 0 { assert Dec(a.port) == "0"; }
    hide Numerals.Dec;
  }

  lemma CompatRoundTrip(a: Address)
    requires a.flags.compat
    ensures Same(a, CompatRead(a)) <==> RoundTrips(a)
  {
    if a.flags.port { PortFitsExactly(a); }
    hide PortFits, HasColon, PortValueRead;
    var d := CompatRead(a).components;
    assert a.components == d <==> forall i :: 2 <= i < 8 ==> a.components[i] == 0 by {
      assert a.components[0] == d[0] && a.components[1] == d[1];
      assert forall i :: 2 <= i < 8 ==> d[i] == 0;
    }
    HasColonNeedsPort(a);
  }

  lemma HasColonNeedsPort(a: Address)
    ensures HasColon(a) ==> a.flags.port
  {
  }

  /** Printing an address and parsing the text gives back the same address exactly for the
      addresses of RoundTrips: among all components, ports, masks and flag words, no others. */
  lemma RoundTrip(a: Address)
    ensures (Reread(a).ok && Same(a, Reread(a).out.value)) <==> RoundTrips(a)
  {
    hide Ipv6Text.Text, Ipv6Reader.FromStr, CompatRead;
    if a.flags.compat {
      CompatReadsBack(a);
      CompatRoundTrip(a);
    } else {
      PlainReadsBack(a);
    }
  }

  /** On those addresses printing is idempotent. */
  lemma PrintingIsIdempotent(a: Address)
    requires RoundTrips(a)
    ensures Reread(a).out.Some? && Text(Reread(a).out.value) == Text(a)
  {
    RoundTrip(a);
    hide Ipv6Reader.FromStr, Ipv6Text.Emit, Ipv6Text.Quad, Numerals.Dec, RoundTrips;
    if Reread(a).out.None? { RereadAnswers(a); }
  }

  lemma RereadAnswers(a: Address)
    ensures Reread(a).ok ==> Reread(a).out.Some?
  {
    hide Ipv6Text.Text, Ipv6Reader.Run, Ipv6Reader.Finish;
  }

  /** An address that does not survive: with the mask flag set, six zero components and a
      nonzero seventh are printed as a quad after "::", which is read as IPv4-compatible. */
  lemma MaskedLowAddressIsMisread()
    ensures var a := Address([0, 0, 0, 0, 0, 0, 0x102, 0x304], 0, 96, Flags(false, true, false, 0));
      Reread(a).ok && !Same(a, Reread(a).out.value)
  {
    var a := Address([0, 0, 0, 0, 0, 0, 0x102, 0x304], 0, 96, Flags(false, true, false, 0));
    assert LooksCompat(a.components, true);
    PrintedTextIsAccepted(a);
    RoundTrip(a);
  }

  // ---- string -> address -> string -> address ----

  /** What every parsed address satisfies. */
  ghost predicate Parsed(b: Address) {
    && b.flags.rest == 0 && (b.flags.mask ==> b.mask <= 128)
    && (b.flags.compat ==> b.flags.mask && forall i :: 2 <= i < 8 ==> b.components[i] == 0)
  }

  lemma ConcludeIsParsed(r: Reader)
    requires Shape(r) && r.out.mask <= 128 && !r.failed && Conclude(r).0
    ensures Parsed(Conclude(r).1.out)
  {
    if r.compat {
      assert forall i :: 2 <= i < 8 ==> r.out.components[i] == 0;
    }
  }

  lemma ParsedAddress(input: Option<string>, inputBytes: nat)
    requires FromStr(input, inputBytes).ok
    ensures FromStr(input, inputBytes).out.Some? && Parsed(FromStr(input, inputBytes).out.value)
  {
    var n := VisibleLength(input.value, inputBytes);
    var start := Start(input.value, inputBytes);
    StartIsSound(input.value, inputBytes);
    RunIsSound(start, n);
    var q := Run(start, n);
    StepKeepsShape(q, EcWhitespace);
    hide Ipv6Reader.Run, Ipv6Reader.Step, Shape, Parsed, Ipv6Reader.Conclude;
    ConcludesUnfailed(Step(q, EcWhitespace));
    ConcludeIsParsed(Step(q, EcWhitespace));
  }

  /** A string that is accepted survives printing and parsing, unless it was IPv4-compatible with
      a mask, which is not printed, or with a port that is cut off, or it had its last 32 bits
      taken for a whole IPv4 address. */
  lemma ParsedStringRoundTrip(input: Option<string>, inputBytes: nat)
    requires FromStr(input, inputBytes).ok
    ensures FromStr(input, inputBytes).out.Some?
    ensures var b := FromStr(input, inputBytes).out.value;
      Reread(b).ok
      && (Same(b, Reread(b).out.value) <==>
            if b.flags.compat then b.mask == 0 && (b.flags.port ==> PortFits(b))
            else !LooksCompat(b.components, b.flags.mask))
  {
    ParsedAddress(input, inputBytes);
    var b := FromStr(input, inputBytes).out.value;
    hide Ipv6Reader.FromStr, PortFits, Reread;
    PrintedTextIsAccepted(b);
    RereadAnswers(b);
    RoundTrip(b);
  }
}
