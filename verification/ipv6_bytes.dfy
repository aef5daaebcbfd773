/** The byte count that the parser is given: any count from the length of the string up to
    IPV6_STRING_SIZE leads to the same answer. */
module Ipv6Bytes {
  import opened Wrappers
  import opened Numerals
  import opened Ipv6Address
  import opened Ipv6Reader
  import opened Ipv6Invariant
  import Ipv6Notation
  import Ipv6RoundTrip
  import Ipv6Text

  function Given(r: Reader, m: nat): Reader { r.(inputBytes := m) }

  /** The token lies within both counts. */
  predicate TokenWithin(r: Reader, m: nat) {
    r.tokenPosition + r.tokenLen <= r.inputBytes && r.tokenPosition + r.tokenLen <= m
  }

  lemma ReadIgnoresBytes(r: Reader, base: Radix, m: nat)
    requires TokenWithin(r, m)
    ensures ReadToken(Given(r, m), base) == (Given(ReadToken(r, base).0, m), ReadToken(r, base).1)
  {
  }

  lemma V6IgnoresBytes(r: Reader, m: nat)
    requires TokenWithin(r, m)
    ensures ParseV6Component(Given(r, m)) == Given(ParseV6Component(r), m)
  {
    hide Ipv6Reader.ReadToken;
    ReadIgnoresBytes(r, 16, m);
  }

  lemma V4IgnoresBytes(r: Reader, m: nat)
    requires TokenWithin(r, m)
    ensures ParseV4Component(Given(r, m)) == Given(ParseV4Component(r), m)
  {
    hide Ipv6Reader.ReadToken, OrOctet;
    ReadIgnoresBytes(r, 10, m);
  }

  lemma ComponentIgnoresBytes(r: Reader, m: nat)
    requires TokenWithin(r, m)
    ensures ParseComponent(Given(r, m)) == Given(ParseComponent(r), m)
  {
    V6IgnoresBytes(r, m);
    V4IgnoresBytes(r, m);
    hide ParseV6Component, ParseV4Component;
  }

  lemma BeginningIgnoresBytes(r: Reader, m: nat)
    requires TokenWithin(r, m)
    ensures BeginEmbedding(Given(r, m)) == Given(BeginEmbedding(r), m)
    ensures r.components < 7 ==> ParseComponent(BeginEmbedding(Given(r, m))) == Given(ParseComponent(BeginEmbedding(r)), m)
  {
    if r.components < 7 { ComponentIgnoresBytes(BeginEmbedding(r), m); }
    hide ParseComponent;
  }

  lemma DotIgnoresBytes(r: Reader, m: nat)
    requires TokenWithin(r, m)
    ensures StepAddrComponent(Given(r, m), EcV4Separator) == Given(StepAddrComponent(r, EcV4Separator), m)
  {
    ComponentIgnoresBytes(r, m);
    BeginningIgnoresBytes(r, m);
    hide ParseComponent, BeginEmbedding;
  }

  lemma AddrIgnoresBytes(r: Reader, ec: EventClass, m: nat)
    requires TokenWithin(r, m)
    ensures StepAddrComponent(Given(r, m), ec) == Given(StepAddrComponent(r, ec), m)
  {
    hide ParseComponent, BeginEmbedding;
    if ec.EcV4Separator? {
      DotIgnoresBytes(r, m);
    } else {
      ComponentIgnoresBytes(r, m);
    }
  }

  lemma MaskIgnoresBytes(r: Reader, m: nat)
    requires TokenWithin(r, m)
    ensures ParseCidr(Given(r, m)) == Given(ParseCidr(r), m)
    ensures ParsePort(Given(r, m)) == Given(ParsePort(r), m)
  {
    hide Ipv6Reader.ReadToken;
    ReadIgnoresBytes(r, 10, m);
  }

  lemma CidrIgnoresBytes(r: Reader, ec: EventClass, m: nat)
    requires TokenWithin(r, m)
    ensures StepCidr(Given(r, m), ec) == Given(StepCidr(r, ec), m)
  {
    hide ParseCidr;
    MaskIgnoresBytes(r, m);
  }

  lemma PortIgnoresBytes(r: Reader, ec: EventClass, m: nat)
    requires TokenWithin(r, m)
    ensures StepPort(Given(r, m), ec) == Given(StepPort(r, ec), m)
  {
    hide ParsePort;
    MaskIgnoresBytes(r, m);
  }

  lemma OthersIgnoreBytes(r: Reader, ec: EventClass, m: nat)
    ensures StepNone(Given(r, m), ec) == Given(StepNone(r, ec), m)
    ensures StepIface(Given(r, m), ec) == Given(StepIface(r, ec), m)
    ensures StepPostAddr(Given(r, m), ec) == Given(StepPostAddr(r, ec), m)
  {
  }

  lemma SeparatorIgnoresBytes(r: Reader, ec: EventClass, m: nat)
    ensures StepV6Separator(Given(r, m), ec) == Given(StepV6Separator(r, ec), m)
  {
  }

  lemma StepByState(r: Reader, ec: EventClass, m: nat)
    ensures Given(r, m).current == r.current
    ensures r.current.StAddrComponent? ==> Step(r, ec) == StepAddrComponent(r, ec)
    ensures r.current.StCidr? ==> Step(r, ec) == StepCidr(r, ec)
    ensures r.current.StPort? ==> Step(r, ec) == StepPort(r, ec)
    ensures r.current.StV6Separator? ==> Step(r, ec) == StepV6Separator(r, ec)
    ensures r.current.StNone? ==> Step(r, ec) == StepNone(r, ec)
    ensures r.current.StIface? ==> Step(r, ec) == StepIface(r, ec)
    ensures r.current.StPostAddr? ==> Step(r, ec) == StepPostAddr(r, ec)
    ensures r.current.StZeroRun? || r.current.StError? ==> Step(r, ec) == r
  {
    hide StepNone, StepAddrComponent, StepV6Separator, StepIface, StepCidr, StepPostAddr, StepPort;
  }

  /** A step reads a token only in the states in which a sound reader has one. */
  lemma StepIgnoresBytes(r: Reader, ec: EventClass, m: nat)
    requires r.current in {StAddrComponent, StCidr, StPort} ==> TokenWithin(r, m)
    ensures Step(Given(r, m), ec) == Given(Step(r, ec), m)
  {
    hide *;
    StepByState(r, ec, m);
    StepByState(Given(r, m), ec, m);
    match r.current
    case StAddrComponent => AddrIgnoresBytes(r, ec, m);
    case StCidr => CidrIgnoresBytes(r, ec, m);
    case StPort => PortIgnoresBytes(r, ec, m);
    case StV6Separator => SeparatorIgnoresBytes(r, ec, m);
    case StNone | StIface | StPostAddr => OthersIgnoreBytes(r, ec, m);
    case StZeroRun | StError =>
  }

  lemma SoundTokenWithin(r: Reader, m: nat)
    requires Sound(r) && r.position <= m
    ensures !r.failed && (r.current in {StAddrComponent, StCidr, StPort} ==> TokenWithin(r, m))
  {
  }

  lemma AdvanceIgnoresBytes(r: Reader, m: nat)
    requires Sound(r) && r.position < |r.input| && r.position <= m
    ensures Advance(Given(r, m)) == Given(Advance(r), m)
  {
    hide Ipv6Reader.Step, Sound, Classify;
    SoundTokenWithin(r, m);
    var c := r.input[r.position];
    if Classify(c).Some? {
      StepIgnoresBytes(if c == '[' then r.(brackets := r.brackets + 1) else r, Classify(c).value, m);
    }
  }

  lemma {:induction false} RunIgnoresBytes(r: Reader, n: nat, m: nat)
    requires Sound(r) && r.position + n <= |r.input| && r.position + n <= r.inputBytes && r.position + n <= m
    ensures Run(Given(r, m), n) == Given(Run(r, n), m)
    decreases n
  {
    hide Sound, Ipv6Reader.Advance;
    if n > 0 {
      SoundTokenWithin(r, m);
      RunUnfolds(r, n);
      RunUnfolds(Given(r, m), n);
      AdvanceIgnoresBytes(r, m);
      AdvanceIsSound(r);
      if !Advance(r).failed { RunIgnoresBytes(Advance(r), n - 1, m); }
    }
  }

  lemma {:induction false} VisibleIgnoresBytes(s: string, m: nat)
    requires |s| <= m
    ensures VisibleLength(s, m) == VisibleLength(s, |s|)
    decreases |s|
  {
    if s != [] { VisibleIgnoresBytes(s[1..], m - 1); }
  }

  lemma ConcludeIgnoresBytes(r: Reader, m: nat)
    requires r.components <= 8
    ensures Conclude(Given(r, m)) == (Conclude(r).0, Given(Conclude(r).1, m))
  {
    hide Expand;
  }

  /** For every string and every count from its length to the greatest that is taken, the parser
      answers, reports and writes the same. */
  lemma AnyByteCount(s: string, m: nat)
    requires |s| <= m <= IPV6_STRING_SIZE
    ensures FromStr(Some(s), m) == FromStr(Some(s), |s|)
  {
    var n := VisibleLength(s, |s|);
    var start := Start(s, |s|);
    assert Start(s, m) == Given(start, m);
    VisibleIgnoresBytes(s, m);
    StartIsSound(s, |s|);
    RunIgnoresBytes(start, n, m);
    RunIsSound(start, n);
    var q := Run(start, n);
    if !q.failed {
      SoundTokenWithin(q, m);
      StepIgnoresBytes(q, EcWhitespace, m);
      ConcludeIgnoresBytes(Step(q, EcWhitespace), m);
    }
    hide Ipv6Reader.Run, Ipv6Reader.Step, Ipv6Reader.Conclude, Sound, VisibleLength;
  }

  /** The round trip with any count that holds the text. */
  lemma RoundTripAnyBytes(a: Address, m: nat)
    requires |Ipv6Text.Text(a)| <= m <= IPV6_STRING_SIZE
    ensures var reread := FromStr(Some(Ipv6Text.Text(a)), m);
      (reread.ok && reread.out.Some? && Same(a, reread.out.value)) <==> Ipv6RoundTrip.RoundTrips(a)
  {
    AnyByteCount(Ipv6Text.Text(a), m);
    Ipv6RoundTrip.RoundTrip(a);
    Ipv6RoundTrip.RereadAnswers(a);
    hide Ipv6Reader.FromStr, Ipv6Text.Text, Ipv6RoundTrip.RoundTrips;
  }

  /** The texts of section 2.2 of RFC 4291 with any count that holds them. */
  lemma NotationAnyBytes(n: Ipv6Notation.Notation, m: nat)
    requires Ipv6Notation.WellFormed(n)
    requires (n.quad == [] || |n.quad| == 4) && |Ipv6Notation.Text(n)| <= m <= IPV6_STRING_SIZE
    ensures FromStr(Some(Ipv6Notation.Text(n)), m) == Result(true, Some(Ipv6Notation.Taken(n)), [])
  {
    hide *;
    AnyByteCount(Ipv6Notation.Text(n), m);
    Ipv6Notation.NotationIsAccepted(n);
  }
}
