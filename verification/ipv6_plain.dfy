/** Reading back the text of an address that is not IPv4-compatible: the components, then the
    mask and the port, then the checks of the whole address. */
module Ipv6Plain {
  import opened Wrappers
  import opened Numerals
  import opened Ipv6Address
  import opened Ipv6Reader
  import opened Ipv6Text
  import opened Ipv6Walk

  // ---- What ends the components ----

  lemma EndsWith(p: Reader)
    requires p.current in {StAddrComponent, StV6Separator}
    ensures Step(p, EcWhitespace) == Goto(Flush(p), StNone)
    ensures Step(p, EcCloseBracket) == Goto(Flush(p), StPostAddr)
    ensures Step(p, EcCidrMask) == BeginToken(Goto(Flush(p), StCidr), 1)
  {
    hide Ipv6Reader.ParseComponent;
  }

  lemma Regoto(r: Reader, x: State, y: State)
    ensures Goto(Goto(r, x), y) == Goto(r, y)
  {
  }

  /** The three characters that may follow the components, and the reader after them. */
  lemma AfterComponents(p: Reader, input: string, pos: nat, brackets: nat, c: Components, embed: bool)
    requires AtEnd(p, input, pos, brackets, c, embed)
    ensures var l := Landed(input, pos, brackets, c, embed);
      && Step(p, EcWhitespace) == l
      && Step(p, EcCloseBracket) == Goto(l, StPostAddr)
      && Step(p, EcCidrMask) == BeginToken(Goto(l, StCidr), 1)
  {
    EndsWith(p);
    hide Flush, Landed, Ipv6Reader.Step;
    Regoto(Flush(p), StNone, StPostAddr);
    Regoto(Flush(p), StNone, StCidr);
  }

  lemma FeedClassified(r: Reader, c: char, ec: EventClass)
    requires r.position < |r.input| && r.input[r.position] == c && !r.failed
    requires Classify(c) == Some(ec) && c != '[' && !Step(r, ec).failed
    ensures Run(r, 1) == Step(r, ec).(position := r.position + 1)
  {
    hide Ipv6Reader.Step;
    RunOne(r);
  }

  // ---- Mask and port ----

  /** A reader that is to hold a decimal token: at its beginning. */
  predicate AtToken(r: Reader, state: State) {
    !r.failed && r.current == state && r.tokenPosition == r.position && r.tokenLen == 0 && r.inputBytes == |r.input|
  }

  function Moved(r: Reader, n: nat): Reader { r.(position := r.position + n, tokenLen := r.tokenLen + n) }

  lemma RunDecimal(r: Reader, token: string)
    requires AtToken(r, StCidr) || AtToken(r, StPort)
    requires AllDigits(token) && AllHex(token) && Ahead(r.input, r.position, token)
    ensures r.position + |token| <= |r.input| && Run(r, |token|) == Moved(r, |token|)
    ensures ReadToken(Moved(r, |token|), 10) == (Moved(r, |token|), Accumulate(token, 10))
  {
    hide Ipv6Reader.Run;
    RunDigits(r, token);
    TokenAhead(Moved(r, |token|), token, 10);
  }

  function WithMask(r: Reader, mask: u32): Reader {
    r.(out := r.out.(mask := mask, flags := r.out.flags.(mask := true)))
  }

  function WithPort(r: Reader, port: u16): Reader {
    r.(out := r.out.(port := port, flags := r.out.flags.(port := true)))
  }

  lemma MaskRead(q: Reader, mask: u32)
    requires ReadToken(q, 10) == (q, Accumulate(Dec(mask), 10))
    ensures ParseCidr(q) == if mask <= 128 then WithMask(q, mask) else Fail(q, InvalidCidrMask)
  {
    NumeralReadsBack(mask, 10);
    hide Ipv6Reader.ReadToken, Numerals.Accumulate, Numerals.Dec;
  }

  lemma PortRead(q: Reader, value: u16, token: string)
    requires AllHex(token) && ReadToken(q, 10) == (q, Accumulate(token, 10)) && Accumulate(token, 10) == value
    ensures ParsePort(q) == WithPort(q, value)
  {
    hide Ipv6Reader.ReadToken, Numerals.Accumulate;
  }

  // ---- The components come back ----

  /** The components that are written, in order. */
  function Written(c: Components, embed: bool): (s: seq<u16>)
    ensures |s| <= 8
  {
    var w := Longest(c);
    if Abbreviated(c, embed) then c[..w.start] + c[w.start + w.len..] else c
  }

  lemma SpliceExpands(c: Components, s: nat, n: nat)
    requires IsZeroRun(c, s, n)
    ensures var k := c[..s] + c[s + n..]; |k| == 8 - n && Expand(Pad(k), s, 8 - n) == c
  {
    var k := c[..s] + c[s + n..];
    var e := Expand(Pad(k), s, 8 - n);
    assert |e| == |c|;
    forall i | 0 <= i < 8 ensures e[i] == c[i] {
      if i < s {
        assert e[i] == Pad(k)[i] == k[i];
      } else if i < s + n {
        assert e[i] == ZERO_COMPONENTS[i - s];
      } else {
        assert e[i] == Pad(k)[i - n] == k[i - n];
      }
    }
  }

  lemma WrittenExpands(c: Components, embed: bool)
    requires Abbreviated(c, embed)
    ensures |Written(c, embed)| == 8 - Longest(c).len && Longest(c).start <= |Written(c, embed)|
    ensures Expand(Pad(Written(c, embed)), Longest(c).start, |Written(c, embed)|) == c
  {
    SpliceExpands(c, Longest(c).start, Longest(c).len);
  }

  /** An embedded address is taken for a compatible one when nothing is written before it. */
  predicate LooksCompat(c: Components, embed: bool) {
    embed && (forall i :: 0 <= i < 6 ==> c[i] == 0) && c[6] != 0
  }

  lemma SpliceThenPair(c: Components, s: nat, t: nat)
    requires s <= t <= 6
    ensures c[..6] + [c[6], c[7]] == c
    ensures c[..s] + c[t..6] + [c[6], c[7]] == c[..s] + c[t..]
  {
    assert c[t..6] + [c[6], c[7]] == c[t..];
  }

  lemma QuadFollows(c: Components)
    requires Dotted(c, true)
    ensures Visited(c, true, 6) && |Kept(c, true, 6)| <= 6
    ensures Kept(c, true, 6) + [c[6], c[7]] == Written(c, true)
    ensures Zerorun(c, true, 6) == if Abbreviated(c, true) then Some(Longest(c).start) else None
  {
    var w := Longest(c);
    assert IsZeroRun(c, w.start, w.len);
    hide Ipv6Text.Longest;
    SpliceThenPair(c, 0, 0);
    if Abbreviated(c, true) {
      SpliceThenPair(c, w.start, w.start + w.len);
    }
  }

  lemma SevenZeros(c: Components)
    ensures IsZeroRun(c, 0, 6) && c[6] == 0 ==> IsZeroRun(c, 0, 7)
  {
  }

  lemma NothingBeforeQuad(c: Components)
    requires Dotted(c, true)
    ensures Visited(c, true, 6) && (Kept(c, true, 6) == [] <==> LooksCompat(c, true))
  {
    var w := Longest(c);
    LongestIsLeftmostLongest(c);
    hide Ipv6Text.Longest;
    SevenZeros(c);
    if LooksCompat(c, true) {
      assert IsZeroRun(c, 0, 6);
      assert w.start == 0 && w.len == 6;
    }
  }

  /** r has gone on from l without touching what the components left behind. */
  ghost predicate Continues(r: Reader, l: Reader, port: u16, mask: u32, flags: Flags) {
    && !r.failed && r.diags == []
    && r.components == l.components && r.zerorun == l.zerorun && r.hasZerorun == l.hasZerorun
    && r.embedding == l.embedding && r.v4Octets == l.v4Octets && r.compat == l.compat
    && r.out == Address(l.out.components, port, mask, flags)
  }

  /** The whole address, from a reader that has seen all of it. */
  lemma ConcludesPlain(r: Reader, input: string, pos: nat, brackets: nat, c: Components, embed: bool, port: u16, mask: u32, flags: Flags)
    requires Continues(r, Landed(input, pos, brackets, c, embed), port, mask, flags) && !Dotted(c, embed)
    ensures r.components <= 8 && Conclude(r).0
    ensures Conclude(r).1.out == Address(c, port, mask, flags) && Conclude(r).1.diags == []
  {
    if Abbreviated(c, embed) { WrittenExpands(c, embed); }
    assert Longest(c).start + Longest(c).len <= 8;
    hide Ipv6Text.Longest, Expand, Ipv6Walk.Pad;
    assert Visited(c, embed, 8) && Kept(c, embed, 8) == Written(c, embed);
    LandedOnLast(input, pos, brackets, c, embed);
    PadWhole(c);
  }

  lemma PadWhole(c: Components)
    ensures Pad(c) == c && c[..8] == c
  {
  }

  lemma LandedDotted(input: string, pos: nat, brackets: nat, c: Components)
    requires Dotted(c, true)
    ensures var l := Landed(input, pos, brackets, c, true);
      && l.embedding && l.v4Octets == 4 && (l.compat <==> LooksCompat(c, true))
      && l.components == |Written(c, true)| && l.out.components == Pad(Written(c, true))
      && (l.hasZerorun <==> Abbreviated(c, true))
      && (Abbreviated(c, true) ==> l.zerorun == Longest(c).start)
  {
    QuadFollows(c);
    NothingBeforeQuad(c);
    LandedOnQuad(input, pos, brackets, c);
    hide Ipv6Text.Longest, Ipv6Walk.Pad, Kept, Zerorun, Visited, Dotted, LooksCompat, Landed, Written, Ipv6Walk.Pair, QuadOctets;
  }

  lemma ConcludesDotted(r: Reader, input: string, pos: nat, brackets: nat, c: Components, port: u16, mask: u32, flags: Flags)
    requires Continues(r, Landed(input, pos, brackets, c, true), port, mask, flags) && Dotted(c, true) && flags.mask && !flags.compat
    ensures r.components <= 8 && Conclude(r).0 && Conclude(r).1.diags == []
    ensures var out := Conclude(r).1.out;
      if LooksCompat(c, true) then out.flags.compat else out == Address(c, port, mask, flags)
  {
    if Abbreviated(c, true) { WrittenExpands(c, true); }
    LandedDotted(input, pos, brackets, c);
    WrittenPlain(c);
    hide Ipv6Text.Longest, Expand, Ipv6Walk.Pad, Dotted, LooksCompat, Landed, Written;
  }

  lemma WrittenPlain(c: Components)
    ensures !Abbreviated(c, true) ==> Written(c, true) == c && Pad(c) == c
  {
  }

  // ---- The stretches after the components ----

  lemma StepPostColon(r: Reader)
    requires r.current.StPostAddr? && !r.failed && r.position < |r.input| && r.input[r.position] == ':'
    requires r.inputBytes == |r.input|
    ensures var t := BeginToken(Goto(r, StPort), 1).(position := r.position + 1);
      Run(r, 1) == t && AtToken(t, StPort)
  {
    FeedClassified(r, ':', EcV6Separator);
  }

  lemma StepPortEnd(q: Reader)
    requires q.current.StPort?
    ensures Step(q, EcWhitespace) == Goto(ParsePort(q), StNone)
  {
    hide Ipv6Reader.ParsePort;
  }

  lemma StepCidrEnd(q: Reader)
    requires q.current.StCidr?
    ensures Step(q, EcWhitespace) == Goto(ParseCidr(q), StNone)
    ensures Step(q, EcCloseBracket) == Goto(ParseCidr(q), StPostAddr)
  {
    hide Ipv6Reader.ParseCidr;
  }

  /** ":port" up to the end of the input, the number being given by its digits. */
  lemma PortTail(r: Reader, token: string, value: u16)
    requires r.current.StPostAddr? && !r.failed && r.diags == [] && r.inputBytes == |r.input|
    requires AllDigits(token) && AllHex(token) && Accumulate(token, 10) == value
    requires Ahead(r.input, r.position, ":" + token)
    ensures var n := 1 + |token|;
      && r.position + n <= |r.input|
      && !Run(r, n).failed && Run(r, n).components == r.components
      && Continues(Step(Run(r, n), EcWhitespace), r, value, r.out.mask, r.out.flags.(port := true))
  {
    AheadSplit(r.input, r.position, ":", token);
    AheadAt(r.input, r.position, ":", 0);
    StepPostColon(r);
    var t := BeginToken(Goto(r, StPort), 1).(position := r.position + 1);
    RunDecimal(t, token);
    Chain(r, 1, t, |token|, Moved(t, |token|));
    PortRead(Moved(t, |token|), value, token);
    hide Ipv6Reader.Run, Ahead, Ipv6Reader.ReadToken, Numerals.AllDigits, Numerals.AllHex, Numerals.Accumulate, Ipv6Reader.ParsePort, Ipv6Reader.Step;
    StepPortEnd(Moved(t, |token|));
  }

  /** The slash after the components and the digits of the mask. */
  lemma MaskDigits(p: Reader, input: string, pos: nat, brackets: nat, c: Components, embed: bool, mask: u32)
    requires AtEnd(p, input, pos, brackets, c, embed) && Ahead(input, pos, "/" + Dec(mask))
    requires Landed(input, pos, brackets, c, embed).inputBytes == |input|
    ensures pos + 1 + |Dec(mask)| <= |input|
    ensures var l := Landed(input, pos, brackets, c, embed);
      var q := Moved(BeginToken(Goto(l, StCidr), 1).(position := pos + 1), |Dec(mask)|);
      && Run(p, 1 + |Dec(mask)|) == q
      && ParseCidr(q) == if mask <= 128 then WithMask(q, mask) else Fail(q, InvalidCidrMask)
  {
    hide Ipv6Reader.Run, Landed, Numerals.Dec, Ipv6Reader.Step, AtEnd;
    AheadSplit(input, pos, "/", Dec(mask));
    AheadAt(input, pos, "/", 0);
    AfterComponents(p, input, pos, brackets, c, embed);
    AtEndFacts(p, input, pos, brackets, c, embed);
    FeedClassified(p, '/', EcCidrMask);
    var t := BeginToken(Goto(Landed(input, pos, brackets, c, embed), StCidr), 1).(position := pos + 1);
    RunDecimal(t, Dec(mask));
    Chain(p, 1, t, |Dec(mask)|, Moved(t, |Dec(mask)|));
    MaskRead(Moved(t, |Dec(mask)|), mask);
  }

  lemma AtEndFacts(p: Reader, input: string, pos: nat, brackets: nat, c: Components, embed: bool)
    requires AtEnd(p, input, pos, brackets, c, embed)
    ensures !p.failed && p.input == input && p.position == pos
  {
  }

  lemma LandedFacts(input: string, pos: nat, brackets: nat, c: Components, embed: bool)
    ensures var l := Landed(input, pos, brackets, c, embed);
      && l.inputBytes == |input| && l.diags == [] && l.components <= 8
      && l.out == Address(l.out.components, 0, 0, NO_FLAGS)
  {
    if Dotted(c, embed) { QuadFollows(c); }
    hide Ipv6Walk.Pad, Kept, Zerorun, Dotted, Visited, Ipv6Walk.Pair, QuadOctets;
  }

  // ---- Non-compatible addresses ----

  lemma OpenBracketRead(input: string)
    requires Ahead(input, 0, "[")
    ensures 1 <= |input| && Run(Start(input, |input|), 1) == Scan(input, StNone, 1, 1, [], None)
  {
    AheadAt(input, 0, "[", 0);
    RunOne(Start(input, |input|));
  }

  lemma NoBracketRead(input: string)
    ensures Start(input, |input|) == Scan(input, StNone, 0, 0, [], None)
  {
  }

  function Brackets(a: Address): nat { if a.flags.port then 1 else 0 }

  lemma FromTheFirst(input: string, pos: nat, brackets: nat, c: Components, embed: bool, first: nat)
    requires first == 0
    ensures Visited(c, embed, first)
    ensures Before(input, pos, brackets, c, embed, first) == Scan(input, StNone, pos, brackets, [], None)
  {
    hide Ipv6Text.Emit, Ipv6Text.Longest;
    assert c[..first] == [];
  }

  lemma ComponentsRead(input: string, pos: nat, brackets: nat, c: Components, embed: bool, first: nat)
    requires first == 0 && Ahead(input, pos, ComponentsText(c, embed))
    ensures pos + |ComponentsText(c, embed)| <= |input|
    ensures AtEnd(Run(Scan(input, StNone, pos, brackets, [], None), |ComponentsText(c, embed)|),
                  input, pos + |ComponentsText(c, embed)|, brackets, c, embed)
  {
    hide Ipv6Text.Emit, Ipv6Reader.Run, AtEnd, Scan, Before, Visited, Ahead, Ipv6Text.Longest;
    FromTheFirst(input, pos, brackets, c, embed, first);
    WalkEmit(input, pos, brackets, c, embed, first);
  }

  /** The opening bracket, if any, and the components. */
  lemma HeadRead(a: Address, input: string)
    requires Ahead(input, 0, Head(a))
    ensures |Head(a)| <= |input|
    ensures AtEnd(Run(Start(input, |input|), |Head(a)|), input, |Head(a)|, Brackets(a), a.components, a.flags.mask)
  {
    hide ComponentsText, Ipv6Reader.Run, Ipv6Reader.Start, AtEnd, Scan;
    var c, embed := a.components, a.flags.mask;
    var text := ComponentsText(c, embed);
    if a.flags.port {
      assert Head(a) == "[" + text;
      AheadSplit(input, 0, "[", text);
      OpenBracketRead(input);
      ComponentsRead(input, 1, 1, c, embed, 0);
      StartFacts(input);
      RunChain(Start(input, |input|), 1, Scan(input, StNone, 1, 1, [], None), |text|, input, |Head(a)|, 1, c, embed);
    } else {
      assert Head(a) == text;
      NoBracketRead(input);
      ComponentsRead(input, 0, 0, c, embed, 0);
    }
  }

  lemma StartFacts(input: string)
    ensures var r := Start(input, |input|); !r.failed && r.position == 0 && r.input == input
  {
  }

  /** What the reader has after the whole text, in the four combinations of mask and port. */
  ghost predicate Outcome(q: Reader, l: Reader, a: Address) {
    if a.flags.mask && a.mask > 128 then q.failed || Step(q, EcWhitespace).failed
    else !q.failed && Continues(Step(q, EcWhitespace), l, if a.flags.port then a.port else 0, if a.flags.mask then a.mask else 0,
                                Flags(a.flags.port, a.flags.mask, false, 0))
  }

  /** The closing bracket, from the components or from the mask, and the port. */
  lemma BracketThenPort(p: Reader, l: Reader, port: u16)
    requires !p.failed && p.position < |p.input| && p.input[p.position] == ']'
    requires Step(p, EcCloseBracket) == Goto(l, StPostAddr)
    requires !l.failed && l.diags == [] && l.input == p.input && l.position == p.position && l.inputBytes == |l.input|
    requires Ahead(p.input, p.position + 1, ":" + Dec(port))
    ensures var n := 2 + |Dec(port)|;
      && p.position + n <= |p.input| && !Run(p, n).failed
      && Continues(Step(Run(p, n), EcWhitespace), l, port, l.out.mask, l.out.flags.(port := true))
  {
    hide Ipv6Reader.Run, Numerals.Dec, Ipv6Reader.Step, Ahead;
    FeedClassified(p, ']', EcCloseBracket);
    var r := Goto(l, StPostAddr).(position := p.position + 1);
    DecReadsBack(port);
    PortTail(r, Dec(port), port);
    Chain(p, 1, r, 1 + |Dec(port)|, Run(r, 1 + |Dec(port)|));
  }

  lemma BracketAhead(input: string, pos: nat, port: u16)
    requires Ahead(input, pos, "]:" + Dec(port))
    ensures pos < |input| && input[pos] == ']' && Ahead(input, pos + 1, ":" + Dec(port))
  {
    hide Numerals.Dec;
    assert "]:" + Dec(port) == "]" + (":" + Dec(port));
    AheadSplit(input, pos, "]", ":" + Dec(port));
    AheadAt(input, pos, "]", 0);
  }

  lemma OutcomeWithoutMask(q: Reader, l: Reader, a: Address)
    requires !a.flags.mask && !q.failed && l.out.mask == 0 && l.out.port == 0 && l.out.flags == NO_FLAGS
    requires a.flags.port ==> Continues(Step(q, EcWhitespace), l, a.port, l.out.mask, l.out.flags.(port := true))
    requires !a.flags.port ==> Step(q, EcWhitespace) == l && !l.failed && l.diags == []
    ensures Outcome(q, l, a)
  {
    hide Ipv6Reader.Step;
  }

  lemma TailPort(a: Address, p: Reader, input: string, pos: nat)
    requires a.flags.port && !a.flags.mask
    requires AtEnd(p, input, pos, 1, a.components, false) && Ahead(input, pos, "]:" + Dec(a.port))
    ensures p.position + 2 + |Dec(a.port)| <= |p.input|
    ensures Outcome(Run(p, 2 + |Dec(a.port)|), Landed(input, pos, 1, a.components, false), a)
  {
    hide *;
    LandedFacts(input, pos, 1, a.components, false);
    BracketAhead(input, pos, a.port);
    AfterComponents(p, input, pos, 1, a.components, false);
    AtEndFacts(p, input, pos, 1, a.components, false);
    BracketThenPort(p, Landed(input, pos, 1, a.components, false), a.port);
    OutcomeWithoutMask(Run(p, 2 + |Dec(a.port)|), Landed(input, pos, 1, a.components, false), a);
  }

  lemma TailNothing(a: Address, p: Reader, input: string, pos: nat)
    requires !a.flags.port && !a.flags.mask && AtEnd(p, input, pos, 0, a.components, false)
    ensures Outcome(p, Landed(input, pos, 0, a.components, false), a)
  {
    hide *;
    LandedFacts(input, pos, 0, a.components, false);
    AfterComponents(p, input, pos, 0, a.components, false);
    AtEndFacts(p, input, pos, 0, a.components, false);
    OutcomeWithoutMask(p, Landed(input, pos, 0, a.components, false), a);
  }

  /** The reader whose token is the mask. */
  ghost predicate HoldsMask(q: Reader, l: Reader, mask: u32) {
    && !q.failed && q.current.StCidr? && q.input == l.input && q.diags == []
    && q.inputBytes == l.inputBytes && q.components == l.components && q.zerorun == l.zerorun && q.hasZerorun == l.hasZerorun
    && q.embedding == l.embedding && q.v4Octets == l.v4Octets && q.compat == l.compat && q.out == l.out
    && ParseCidr(q) == if mask <= 128 then WithMask(q, mask) else Fail(q, InvalidCidrMask)
  }

  lemma MaskHeld(p: Reader, input: string, pos: nat, brackets: nat, c: Components, mask: u32)
    requires AtEnd(p, input, pos, brackets, c, true) && Ahead(input, pos, "/" + Dec(mask))
    ensures p.input == input && p.position == pos && pos + 1 + |Dec(mask)| <= |input|
    ensures HoldsMask(Run(p, 1 + |Dec(mask)|), Landed(input, pos, brackets, c, true), mask)
    ensures Run(p, 1 + |Dec(mask)|).position == pos + 1 + |Dec(mask)|
  {
    hide Ipv6Reader.Run, Landed, Numerals.Dec, AtEnd, Ipv6Reader.ParseCidr, Ahead;
    LandedFacts(input, pos, brackets, c, true);
    AtEndFacts(p, input, pos, brackets, c, true);
    MaskDigits(p, input, pos, brackets, c, true, mask);
  }

  lemma OutcomeWithMask(q: Reader, l: Reader, a: Address)
    requires a.flags.mask && !a.flags.port && HoldsMask(q, l, a.mask)
    requires l.out == Address(l.out.components, 0, 0, NO_FLAGS)
    ensures Outcome(q, l, a)
  {
    StepCidrEnd(q);
    hide Ipv6Reader.Step, Ipv6Reader.ParseCidr;
  }

  lemma TailMask(a: Address, p: Reader, input: string, pos: nat)
    requires a.flags.mask && !a.flags.port
    requires AtEnd(p, input, pos, 0, a.components, true) && Ahead(input, pos, "/" + Dec(a.mask))
    ensures p.position + 1 + |Dec(a.mask)| <= |p.input|
    ensures Outcome(Run(p, 1 + |Dec(a.mask)|), Landed(input, pos, 0, a.components, true), a)
  {
    hide *;
    LandedFacts(input, pos, 0, a.components, true);
    MaskHeld(p, input, pos, 0, a.components, a.mask);
    OutcomeWithMask(Run(p, 1 + |Dec(a.mask)|), Landed(input, pos, 0, a.components, true), a);
  }

  /** Closing the bracket on a mask: accepted or failed for good. */
  lemma MaskThenBracket(q: Reader, l: Reader, mask: u32)
    requires HoldsMask(q, l, mask)
    ensures Step(q, EcCloseBracket) == Goto(ParseCidr(q), StPostAddr)
    ensures mask > 128 ==> Step(q, EcCloseBracket).failed
  {
    StepCidrEnd(q);
    hide Ipv6Reader.Step, Ipv6Reader.ParseCidr;
  }

  lemma FailureStays(q: Reader, n: nat)
    requires 0 < n && q.position + n <= |q.input| && !q.failed && q.input[q.position] == ']'
    requires Step(q, EcCloseBracket).failed
    ensures Run(q, n).failed
  {
    hide Ipv6Reader.Step;
  }

  lemma MaskAndPortRead(q: Reader, l: Reader, a: Address)
    requires a.flags.mask && a.flags.port && a.mask <= 128 && HoldsMask(q, l, a.mask)
    requires l.out == Address(l.out.components, 0, 0, NO_FLAGS) && l.inputBytes == |l.input|
    requires q.position < |q.input| && q.input[q.position] == ']' && Ahead(q.input, q.position + 1, ":" + Dec(a.port))
    ensures q.position + 2 + |Dec(a.port)| <= |q.input|
    ensures Outcome(Run(q, 2 + |Dec(a.port)|), l, a)
  {
    MaskThenBracket(q, l, a.mask);
    hide Ipv6Reader.Step, Ipv6Reader.ParseCidr, Ipv6Reader.Run, Numerals.Dec, Ahead;
    BracketThenPort(q, ParseCidr(q), a.port);
  }

  lemma BracketAfterMask(q: Reader, l: Reader, a: Address)
    requires a.flags.mask && a.flags.port && HoldsMask(q, l, a.mask)
    requires l.out == Address(l.out.components, 0, 0, NO_FLAGS) && l.inputBytes == |l.input|
    requires Ahead(q.input, q.position, "]:" + Dec(a.port))
    ensures q.position + 2 + |Dec(a.port)| <= |q.input| && !q.failed
    ensures Outcome(Run(q, 2 + |Dec(a.port)|), l, a)
  {
    AheadLength(q.input, q.position, a.port);
    BracketAhead(q.input, q.position, a.port);
    hide Ipv6Reader.Step, Ipv6Reader.ParseCidr, Ipv6Reader.Run, Numerals.Dec, Ahead;
    if a.mask <= 128 {
      MaskAndPortRead(q, l, a);
    } else {
      MaskThenBracket(q, l, a.mask);
      FailureStays(q, 2 + |Dec(a.port)|);
    }
  }

  lemma TailMaskPort(a: Address, p: Reader, input: string, pos: nat)
    requires a.flags.mask && a.flags.port
    requires AtEnd(p, input, pos, 1, a.components, true) && Ahead(input, pos, "/" + Dec(a.mask))
    requires Ahead(input, pos + 1 + |Dec(a.mask)|, "]:" + Dec(a.port))
    ensures p.position + 1 + |Dec(a.mask)| + 2 + |Dec(a.port)| <= |p.input|
    ensures Outcome(Run(p, 1 + |Dec(a.mask)| + 2 + |Dec(a.port)|), Landed(input, pos, 1, a.components, true), a)
  {
    hide *;
    var n, m := 1 + |Dec(a.mask)|, 2 + |Dec(a.port)|;
    LandedFacts(input, pos, 1, a.components, true);
    AtEndFacts(p, input, pos, 1, a.components, true);
    MaskHeld(p, input, pos, 1, a.components, a.mask);
    AheadLength(input, pos + n, a.port);
    MaskReader(p, n, Landed(input, pos, 1, a.components, true), a.mask);
    BracketAfterMask(Run(p, n), Landed(input, pos, 1, a.components, true), a);
    RunSplit(p, n, m);
  }

  lemma MaskReader(p: Reader, n: nat, l: Reader, mask: u32)
    requires p.position + n <= |p.input| && HoldsMask(Run(p, n), l, mask)
    ensures Run(p, n).input == l.input && !Run(p, n).failed
  {
    hide Ipv6Reader.Run, Ipv6Reader.ParseCidr;
  }

  lemma AheadLength(input: string, pos: nat, port: u16)
    requires Ahead(input, pos, "]:" + Dec(port))
    ensures pos + 2 + |Dec(port)| <= |input|
  {
  }

  lemma WholeAhead(input: string, s: string, t: string)
    requires input == s + t
    ensures Ahead(input, 0, s) && Ahead(input, |s|, t) && |input| == |s| + |t|
  {
    assert input[0..|s|] == s && input[|s|..|s| + |t|] == t;
  }

  function TailText(a: Address): string { MaskText(a) + PortText(a) }

  lemma TailAhead(a: Address, input: string, pos: nat)
    requires Ahead(input, pos, TailText(a))
    ensures Brackets(a) == if a.flags.port then 1 else 0
    ensures a.flags.mask ==> Ahead(input, pos, "/" + Dec(a.mask))
    ensures a.flags.port ==> Ahead(input, pos + (if a.flags.mask then 1 + |Dec(a.mask)| else 0), "]:" + Dec(a.port))
    ensures |TailText(a)| == (if a.flags.mask then 1 + |Dec(a.mask)| else 0) + (if a.flags.port then 2 + |Dec(a.port)| else 0)
  {
    hide Numerals.Dec;
    AheadSplit(input, pos, MaskText(a), PortText(a));
  }

  lemma RunNothing(r: Reader)
    requires r.position <= |r.input|
    ensures Run(r, 0) == r
  {
  }

  lemma AheadFits(input: string, pos: nat, s: string)
    requires Ahead(input, pos, s)
    ensures pos + |s| <= |input|
  {
  }

  /** What follows the components, whichever it is. */
  lemma TailRead(a: Address, p: Reader, input: string, pos: nat)
    requires AtEnd(p, input, pos, Brackets(a), a.components, a.flags.mask)
    requires Ahead(input, pos, TailText(a))
    ensures p.input == input && p.position == pos && !p.failed && pos + |TailText(a)| <= |input|
    ensures Outcome(Run(p, |TailText(a)|), Landed(input, pos, Brackets(a), a.components, a.flags.mask), a)
  {
    hide *;
    AheadFits(input, pos, TailText(a));
    AtEndFacts(p, input, pos, Brackets(a), a.components, a.flags.mask);
    TailAhead(a, input, pos);
    if a.flags.mask && a.flags.port {
      TailMaskPort(a, p, input, pos);
    } else if a.flags.mask {
      TailMask(a, p, input, pos);
    } else if a.flags.port {
      TailPort(a, p, input, pos);
    } else {
      RunNothing(p);
      TailNothing(a, p, input, pos);
    }
  }

  lemma TextAhead(a: Address)
    requires !a.flags.compat
    ensures var input := Text(a);
      Ahead(input, 0, Head(a)) && Ahead(input, |Head(a)|, TailText(a)) && |input| == |Head(a)| + |TailText(a)|
  {
    hide Head, Ipv6Text.MaskText, Ipv6Text.PortText;
    assert Text(a) == Head(a) + TailText(a);
    WholeAhead(Text(a), Head(a), TailText(a));
  }

  /** The whole text of a non-compatible address. */
  lemma TextRead(a: Address)
    requires !a.flags.compat
    ensures Outcome(Run(Start(Text(a), |Text(a)|), |Text(a)|),
                    Landed(Text(a), |Head(a)|, Brackets(a), a.components, a.flags.mask), a)
  {
    hide *;
    var input := Text(a);
    TextAhead(a);
    HeadRead(a, input);
    StartFacts(input);
    TailRead(a, Run(Start(input, |input|), |Head(a)|), input, |Head(a)|);
    RunSplit(Start(input, |input|), |Head(a)|, |TailText(a)|);
  }

  // ---- No terminator inside the text ----

  ghost predicate NoNul(s: string) { forall i :: 0 <= i < |s| ==> s[i] != '\0' }

  lemma NoNulIsVisible(s: string)
    requires NoNul(s)
    ensures VisibleLength(s, |s|) == |s|
  {
  }

  lemma QuadNoNul(high: u16, low: u16)
    ensures NoNul(Quad(high, low))
  {
  }

  lemma {:induction false} EmitNoNul(c: Components, embed: bool, i: nat)
    requires i <= 8
    ensures NoNul(Emit(c, embed, i))
    decreases 8 - i
  {
    hide Ipv6Text.Longest, Ipv6Text.Quad;
    QuadNoNul(c[6], c[7]);
    if i < 8 {
      if Abbreviates(c, embed, i) {
        LongestFits(c);
        EmitNoNul(c, embed, i + Longest(c).len);
      } else if !(embed && i == 6) {
        EmitNoNul(c, embed, i + 1);
      }
    }
  }

  lemma LongestFits(c: Components)
    ensures Longest(c).start + Longest(c).len <= 8
  {
  }

  lemma TextNoNul(a: Address)
    ensures NoNul(Text(a))
  {
    hide Ipv6Text.Emit, Ipv6Text.Quad, Numerals.Dec;
    EmitNoNul(a.components, a.flags.mask, 0);
    QuadNoNul(a.components[0], a.components[1]);
  }

  // ---- What the parser answers: non-compatible addresses ----

  /** What the flags make of the port and the mask. */
  function Normal(a: Address): Address {
    Address(a.components, if a.flags.port then a.port else 0, if a.flags.mask then a.mask else 0,
            Flags(a.flags.port, a.flags.mask, a.flags.compat, 0))
  }

  lemma FromStrOfText(a: Address)
    ensures Text(a) != "" && |Text(a)| <= 64
    ensures var r := Run(Start(Text(a), |Text(a)|), |Text(a)|);
      FromStr(Some(Text(a)), |Text(a)|) ==
        if r.failed then Result(false, Some(r.out), r.diags)
        else Result(Finish(r).0, Some(Finish(r).1.out), Finish(r).1.diags)
  {
    TextNoNul(a);
    NoNulIsVisible(Text(a));
    TextFits(a);
    TextNonempty(a);
    hide Ipv6Text.Text, Ipv6Reader.Run, Ipv6Reader.Finish, Ipv6Reader.VisibleLength;
  }

  lemma TextNonempty(a: Address)
    ensures Text(a) != ""
  {
    hide Ipv6Text.Emit, Ipv6Text.Quad, Numerals.Dec;
    QuadLength(a.components[0], a.components[1]);
    EmitStarts(a.components, a.flags.mask, 0);
  }

  lemma EmitStarts(c: Components, embed: bool, i: nat)
    requires i == 0
    ensures |Emit(c, embed, i)| > 0
  {
  }

  lemma OutcomeConcludes(q: Reader, a: Address, input: string, pos: nat, brackets: nat)
    requires !a.flags.compat && q.components <= 8
    requires Outcome(q, Landed(input, pos, brackets, a.components, a.flags.mask), a)
    ensures (!q.failed && Finish(q).0) <==> (a.flags.mask ==> a.mask <= 128)
    ensures !q.failed && Finish(q).0 ==>
      var out := Finish(q).1.out;
      if LooksCompat(a.components, a.flags.mask) then out.flags.compat else out == Normal(a)
  {
    var port, mask := if a.flags.port then a.port else 0, if a.flags.mask then a.mask else 0;
    var flags := Flags(a.flags.port, a.flags.mask, false, 0);
    hide Ipv6Reader.Step, Landed, LooksCompat, Dotted;
    if a.flags.mask && a.mask > 128 {
      FailedStaysFailed(q);
    } else if Dotted(a.components, a.flags.mask) {
      DottedEmbeds(a.components, a.flags.mask);
      hide Ipv6Reader.Conclude;
      ConcludesDotted(Step(q, EcWhitespace), input, pos, brackets, a.components, port, mask, flags);
    } else {
      NotDottedNotCompat(a.components, a.flags.mask);
      hide Ipv6Reader.Conclude;
      ConcludesPlain(Step(q, EcWhitespace), input, pos, brackets, a.components, a.flags.mask, port, mask, flags);
    }
  }

  lemma FailedStaysFailed(q: Reader)
    requires q.components <= 8 && Step(q, EcWhitespace).failed
    ensures !Finish(q).0
  {
    hide Ipv6Reader.Step;
  }

  lemma DottedEmbeds(c: Components, embed: bool)
    requires Dotted(c, embed)
    ensures embed
  {
  }

  lemma NotDottedNotCompat(c: Components, embed: bool)
    requires !Dotted(c, embed)
    ensures !LooksCompat(c, embed)
  {
    LongestIsLeftmostLongest(c);
    SixZeros(c);
    hide Ipv6Text.Longest;
  }

  lemma SixZeros(c: Components)
    ensures LooksCompat(c, true) ==> IsZeroRun(c, 0, 6)
  {
  }

  lemma RunKeepsCount(r: Reader, n: nat)
    requires r.position + n <= |r.input| && r.components <= 8
    ensures Run(r, n).components <= 8
  {
  }

  /** What the parser makes of the text of a non-compatible address. */
  lemma PlainReadsBack(a: Address)
    requires !a.flags.compat
    ensures var res := FromStr(Some(Text(a)), |Text(a)|);
      && (res.ok <==> (a.flags.mask ==> a.mask <= 128))
      && (res.ok ==> res.out.Some?)
      && (res.ok ==> if LooksCompat(a.components, a.flags.mask) then res.out.value.flags.compat else res.out.value == Normal(a))
  {
    hide Ipv6Text.Text, Ipv6Reader.Run, Ipv6Reader.Finish, Ipv6Reader.FromStr, Outcome, LooksCompat, Normal, Landed, Head;
    FromStrOfText(a);
    TextRead(a);
    RunKeepsCount(Start(Text(a), |Text(a)|), |Text(a)|);
    OutcomeConcludes(Run(Start(Text(a), |Text(a)|), |Text(a)|), a, Text(a), |Head(a)|, Brackets(a));
  }
}
