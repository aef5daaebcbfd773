/** What holds in every reachable error-free state of the reader, and what follows from it:
    every write is in range, no failure is silent, and tokens are exact. */
module Ipv6Invariant {
  import opened Wrappers
  import opened Numerals
  import opened Ipv6Address
  import opened Ipv6Reader

  /** The slots nothing has been written to are zero: those from `components` on while only
      IPv6 components were read, and under embedding the octets still to come. */
  ghost predicate Clear(c: Components, components: nat, embedding: bool, v4Embedding: nat, v4Octets: nat) {
    var first := if embedding then v4Embedding + (v4Octets + 1) / 2 else components;
    && (forall i :: first <= i < 8 ==> c[i] == 0)
    && (embedding && v4Octets % 2 == 1 && first <= 8 ==> c[first - 1] % 0x100 == 0)
  }

  /** The two reserved components are the last ones, and only a leading dotted quad is compatible. */
  ghost predicate Counted(components: nat, zerorun: nat, embedding: bool, compat: bool, v4Embedding: nat, v4Octets: nat) {
    && zerorun <= components <= 8
    && if embedding then
         components == v4Embedding + 2 && 1 <= v4Octets <= 4 && (compat <==> v4Embedding == 0)
       else v4Octets == 0 && !compat
  }

  /** The counters and the address of an error-free reader. */
  ghost predicate Shape(r: Reader) {
    && Counted(r.components, r.zerorun, r.embedding, r.compat, r.v4Embedding, r.v4Octets)
    && Clear(r.out.components, r.components, r.embedding, r.v4Embedding, r.v4Octets)
    && !r.out.flags.compat && r.out.flags.rest == 0
  }

  /** The token of an ADDR_COMPONENT, CIDR or PORT state ends right before the position. */
  ghost predicate TokenExact(r: Reader) {
    && r.position <= |r.input| && r.position <= r.inputBytes
    && r.current != StError && r.current != StZeroRun
    && (r.current in {StAddrComponent, StCidr, StPort} ==>
          && r.tokenPosition + r.tokenLen == r.position
          && InRadix(r.input[r.tokenPosition..r.position], if r.current.StAddrComponent? then 16 else 10))
    && (r.current.StAddrComponent? ==> r.tokenLen > 0)
  }

  ghost predicate Sound(r: Reader) { !r.failed && r.diags == [] && Shape(r) && TokenExact(r) }

  lemma StartIsSound(input: string, inputBytes: nat)
    ensures Sound(Start(input, inputBytes))
  {
  }

  lemma TokenIsSlice(r: Reader)
    requires TokenExact(r) && r.current in {StAddrComponent, StCidr, StPort}
    ensures Token(r) == r.input[r.tokenPosition..r.position]
    ensures r.tokenPosition + r.tokenLen <= r.inputBytes
  {
  }

  lemma V6ComponentKeepsShape(r: Reader)
    requires Shape(r) && !r.embedding
    ensures ParseV6Component(r).failed || Shape(ParseV6Component(r))
  {
  }

  /** The first octet of a pair goes, alone and modulo 256, to the high byte. */
  lemma HighOctet(octet: int)
    ensures OrOctet(0, octet, true) == 0x100 * (octet % 0x100)
    ensures OrOctet(0, octet, true) % 0x100 == 0
  {
    var q, w := octet / 0x1_0000, octet % 0x1_0000;
    var h, l := w / 0x100, w % 0x100;
    LowByte(octet, 0x100 * q + h, l);
    assert BitOr(0, w * 0x100) == w * 0x100;
    ShiftByte(h, l);
    LowByte(0x100 * l, l, 0);
  }

  lemma ShiftByte(h: nat, l: nat)
    requires l < 0x100
    ensures (0x100 * h + l) * 0x100 % 0x1_0000 == 0x100 * l
  {
    assert (0x100 * h + l) * 0x100 == 0x1_0000 * h + 0x100 * l;
  }

  lemma LowByte(n: int, m: int, l: nat)
    requires n == 0x100 * m + l && l < 0x100
    ensures n % 0x100 == l
  {
  }

  lemma SumFits(field: u16, octet: int)
    requires field % 0x100 == 0 && 0 <= octet < 0x100
    ensures field + octet < 0x1_0000
  {
  }

  lemma OrBelow(field: u16, octet: int)
    requires field % 0x100 == 0 && 0 <= octet < 0x100
    ensures BitOr(field, octet) == field + octet
  {
    assert TwoTo(8) == 0x100 by { assert TwoTo(4) == 16; }
    BitOrIsSum(field / 0x100, octet, 8);
  }

  /** The second octet of a pair is added below it. */
  lemma LowOctet(field: u16, octet: int)
    requires field % 0x100 == 0 && 0 <= octet < 0x100
    ensures OrOctet(field, octet, false) == field + octet
  {
    hide Ipv6Address.BitOr;
    SumFits(field, octet);
    OrBelow(field, octet);
  }

  function Max(x: nat, y: nat): nat { if x >= y then x else y }

  lemma V4ComponentKeepsShape(r: Reader)
    requires r.embedding && Clear(r.out.components, r.components, true, r.v4Embedding, r.v4Octets)
    requires Counted(r.components, r.zerorun, true, r.compat, r.v4Embedding, Max(r.v4Octets, 1))
    requires !r.out.flags.compat && r.out.flags.rest == 0
    ensures ParseV4Component(r).failed || Shape(ParseV4Component(r))
  {
    var (r1, octet) := ReadToken(r, 10);
    HighOctet(octet);
  }

  lemma ComponentKeepsShape(r: Reader)
    requires Shape(r)
    ensures ParseComponent(r).failed || Shape(ParseComponent(r))
  {
    if r.embedding {
      V4ComponentKeepsShape(r);
    } else {
      V6ComponentKeepsShape(r);
    }
  }

  lemma EmbeddingKeepsShape(r: Reader)
    requires Shape(r) && !r.embedding && r.components < 7
    ensures ParseComponent(BeginEmbedding(r)).failed || Shape(ParseComponent(BeginEmbedding(r)))
  {
    V4ComponentKeepsShape(BeginEmbedding(r));
  }

  lemma AddrComponentKeepsShape(r: Reader, ec: EventClass)
    requires Shape(r)
    ensures StepAddrComponent(r, ec).failed || Shape(StepAddrComponent(r, ec))
  {
    ComponentKeepsShape(r);
    if !r.embedding && r.components < 7 {
      EmbeddingKeepsShape(r);
    }
  }

  lemma TailStatesKeepShape(r: Reader, ec: EventClass)
    requires Shape(r)
    ensures StepCidr(r, ec).failed || Shape(StepCidr(r, ec))
    ensures StepPort(r, ec).failed || Shape(StepPort(r, ec))
    ensures StepPostAddr(r, ec).failed || Shape(StepPostAddr(r, ec))
    ensures StepIface(r, ec).failed || Shape(StepIface(r, ec))
  {
  }

  /** Every transition keeps the counters in step with the address. */
  lemma StepKeepsShape(r: Reader, ec: EventClass)
    requires Shape(r)
    ensures Step(r, ec).failed || Shape(Step(r, ec))
  {
    match r.current
    case StAddrComponent => AddrComponentKeepsShape(r, ec);
    case StCidr | StPort | StPostAddr | StIface => TailStatesKeepShape(r, ec);
    case StNone | StV6Separator | StZeroRun | StError =>
  }

  lemma SliceGrows(s: string, from: nat, to: nat, base: Radix)
    requires from <= to < |s| && InRadix(s[from..to], base) && InRadix([s[to]], base)
    ensures InRadix(s[from..to + 1], base)
  {
    assert s[from..to + 1] == s[from..to] + [s[to]];
    assert [s[to]][0] == s[to];
  }

  /** What one transition does to the token bookkeeping, if it ends in a token state. */
  ghost predicate TokenMoves(r: Reader, ec: EventClass, s: Reader) {
    || (&& s.current == r.current && s.tokenPosition == r.tokenPosition && s.tokenLen == r.tokenLen + 1
        && (ec.EcDigit? || (ec.EcHexDigit? && r.current.StAddrComponent?)))
    || (s.current.StAddrComponent? && s.tokenPosition == r.position && s.tokenLen == 1
        && (ec.EcDigit? || ec.EcHexDigit?))
    || (s.current in {StCidr, StPort} && s.tokenPosition == r.position + 1 && s.tokenLen == 0)
  }

  lemma StepMovesToken(r: Reader, ec: EventClass)
    requires !r.failed && r.current != StError && r.current != StZeroRun
    ensures var s := Step(r, ec);
      || s.failed
      || (s.current in {StAddrComponent, StCidr, StPort} && TokenMoves(r, ec, s))
      || s.current in {StNone, StV6Separator, StIface, StPostAddr}
  {
  }

  /** A token grows by the character that is read, or starts at it or right after it. */
  lemma AdvanceKeepsToken(r: Reader)
    requires !r.failed && TokenExact(r) && r.position < |r.input| && r.position < r.inputBytes
    ensures Advance(r).failed || TokenExact(Advance(r))
  {
    hide Ipv6Reader.Step;
    var c := r.input[r.position];
    if Classify(c).Some? && !Advance(r).failed {
      var ec := Classify(c).value;
      var r0 := if c == '[' then r.(brackets := r.brackets + 1) else r;
      StepMovesToken(r0, ec);
      var s := Advance(r);
      if s.current in {StAddrComponent, StCidr, StPort} {
        if s.tokenLen == 0 {
          assert s.input[s.tokenPosition..s.position] == [];
        } else {
          assert s.tokenLen == 1 ==> r.input[r.position..r.position] == [];
          SliceGrows(r.input, s.tokenPosition, r.position, if s.current.StAddrComponent? then 16 else 10);
        }
      }
    }
  }

  lemma AdvanceIsSound(r: Reader)
    requires Sound(r) && r.position < |r.input| && r.position < r.inputBytes
    ensures Honest(Advance(r))
    ensures Advance(r).failed || (Sound(Advance(r)) && Advance(r).position == r.position + 1)
  {
    AdvanceKeepsToken(r);
    var c := r.input[r.position];
    if Classify(c).Some? {
      StepKeepsShape(if c == '[' then r.(brackets := r.brackets + 1) else r, Classify(c).value);
    }
  }

  /** The invariant of whole runs: after any number of characters the reader has failed, with
      a diagnostic, or is sound and has consumed them all. */
  lemma {:induction false} RunIsSound(r: Reader, n: nat)
    requires Sound(r) && r.position + n <= |r.input| && r.position + n <= r.inputBytes
    ensures Honest(Run(r, n)) && Run(r, n).input == r.input && Run(r, n).inputBytes == r.inputBytes
    ensures Run(r, n).failed || (Sound(Run(r, n)) && Run(r, n).position == r.position + n)
    decreases n
  {
    if n > 0 {
      AdvanceIsSound(r);
      if !Advance(r).failed {
        RunIsSound(Advance(r), n - 1);
      }
    }
  }

  /** Putting the zeros back keeps the components before the run in place, moves those after it
      to the end, in order, and leaves as many zeros between as fill up to eight. */
  lemma ExpandSplits(c: Components, z: nat, n: nat, i: nat)
    requires z <= n <= 8 && i < 8
    ensures Expand(c, z, n)[i] == if i < z then c[i] else if i < z + (8 - n) then 0 else c[i - (8 - n)]
  {
    var zeros := ZERO_COMPONENTS[..8 - n];
    assert i >= z + (8 - n) ==> (c[..z] + zeros + c[z..n])[i] == c[z..n][i - z - (8 - n)];
  }

  lemma ConcludesUnfailed(r: Reader)
    requires r.components <= 8
    ensures Conclude(r).0 ==> !r.failed
  {
  }

  /** The block moves that put the abbreviated zeros back are always in range. */
  lemma FinishIsHonest(r: Reader)
    requires Sound(r)
    ensures Finish(r).0 <==> Finish(r).1.diags == []
  {
    StepKeepsShape(r, EcWhitespace);
  }

  /** The parser answers true exactly when it raised no diagnostic: no failure is silent. */
  lemma FailureIsReported(input: Option<string>, inputBytes: nat)
    ensures FromStr(input, inputBytes).ok <==> FromStr(input, inputBytes).diags == []
  {
    if input.Some? && inputBytes <= IPV6_STRING_SIZE {
      var r := Start(input.value, inputBytes);
      var n := VisibleLength(input.value, inputBytes);
      StartIsSound(input.value, inputBytes);
      RunIsSound(r, n);
      if !Run(r, n).failed {
        FinishIsHonest(Run(r, n));
      }
    }
  }

  /** In a sound reader the token is the text since it began: reading it as a component, a
      mask or a port never fails, and as an octet only on a hexadecimal letter. */
  lemma TokenReadsExactly(r: Reader, base: Radix)
    requires Sound(r) && r.current in {StAddrComponent, StCidr, StPort}
    ensures var token := r.input[r.tokenPosition..r.position];
      && AllHex(token)
      && ReadToken(r, base) ==
           (if InRadix(token, base) then (r, Accumulate(token, base)) else (Fail(r, InvalidInput), 0))
      && (r.current != StAddrComponent || base == 16 ==> InRadix(token, base))
      && (InRadix(token, base) && |token| <= (if base == 10 then 9 else 7) ==>
            ReadToken(r, base).1 == Positional(token, base))
  {
    TokenIsSlice(r);
    var token := r.input[r.tokenPosition..r.position];
    if InRadix(token, base) && |token| <= (if base == 10 then 9 else 7) {
      ShortTokensAreExact(token, base);
    }
  }

  // ---- Which tokens are taken, and for what ----

  /** The text of the token that a sound reader is reading. */
  function Reading(r: Reader): string
    requires r.tokenPosition <= r.position <= |r.input|
  {
    r.input[r.tokenPosition..r.position]
  }

  lemma SoundFacts(r: Reader)
    requires Sound(r)
    ensures !r.failed && r.components <= 8 && r.v4Octets <= 4 && (r.embedding ==> r.v4Embedding <= 6)
  {
  }

  lemma ComponentByValue(r: Reader, v: int)
    requires ReadToken(r, 16) == (r, v) && !r.failed && !r.embedding && r.components <= 8
    ensures ParseComponent(r).failed <==> r.components == 8 || v > 0xffff
    ensures !ParseComponent(r).failed ==>
      ParseComponent(r).out.components == r.out.components[r.components := v % 0x1_0000]
  {
    hide Ipv6Reader.ReadToken;
  }

  /** A component is refused exactly when its number, modulo 2^32, lies between 2^16 and 2^31;
      what is stored is the number modulo 2^16, so that from 2^16 on it is another one. */
  lemma ComponentIsStored(r: Reader)
    requires Sound(r) && r.current.StAddrComponent? && !r.embedding
    ensures AllHex(Reading(r)) && r.components <= 8
    ensures var p, s := Positional(Reading(r), 16), ParseComponent(r);
      && (s.failed <==> r.components == 8 || 0xffff < p % INT32_SPAN < 0x8000_0000)
      && (!s.failed ==> s.out.components == r.out.components[r.components := p % 0x1_0000])
      && (!s.failed ==> (s.out.components[r.components] == p <==> p <= 0xffff))
  {
    SoundFacts(r);
    TokenReadsExactly(r, 16);
    assert InRadix(Reading(r), 16);
    hide *;
    AccumulateExactly(Reading(r), 16);
    ComponentByValue(r, Accumulate(Reading(r), 16));
  }

  lemma MaskByValue(r: Reader, v: int)
    requires ReadToken(r, 10) == (r, v) && !r.failed
    ensures ParseCidr(r).failed <==> !(0 <= v <= 128)
    ensures !ParseCidr(r).failed ==> ParseCidr(r).out.mask == v && ParseCidr(r).out.flags.mask
  {
    hide Ipv6Reader.ReadToken;
  }

  /** A mask is refused exactly when its number, modulo 2^32, exceeds 128; what is stored is
      that remainder, so that from 2^32 on it is another number. */
  lemma MaskIsStored(r: Reader)
    requires Sound(r) && r.current.StCidr?
    ensures AllHex(Reading(r))
    ensures var p, s := Positional(Reading(r), 10), ParseCidr(r);
      && (s.failed <==> p % INT32_SPAN > 128)
      && (!s.failed ==> s.out.mask == p % INT32_SPAN && s.out.flags.mask)
      && (!s.failed ==> (s.out.mask == p <==> p <= 128))
  {
    SoundFacts(r);
    TokenReadsExactly(r, 10);
    assert InRadix(Reading(r), 10);
    hide *;
    AccumulateExactly(Reading(r), 10);
    MaskByValue(r, Accumulate(Reading(r), 10));
  }

  lemma PortByValue(r: Reader, v: int)
    requires ReadToken(r, 10) == (r, v) && !r.failed
    ensures ParsePort(r).failed <==> !(0 <= v <= 0xffff)
    ensures !ParsePort(r).failed ==> ParsePort(r).out.port == v && ParsePort(r).out.flags.port
  {
    hide Ipv6Reader.ReadToken;
  }

  /** The same of a port and 2^16 - 1. */
  lemma PortIsStored(r: Reader)
    requires Sound(r) && r.current.StPort?
    ensures AllHex(Reading(r))
    ensures var p, s := Positional(Reading(r), 10), ParsePort(r);
      && (s.failed <==> p % INT32_SPAN > 0xffff)
      && (!s.failed ==> s.out.port == p % INT32_SPAN && s.out.flags.port)
      && (!s.failed ==> (s.out.port == p <==> p <= 0xffff))
  {
    SoundFacts(r);
    TokenReadsExactly(r, 10);
    assert InRadix(Reading(r), 10);
    hide *;
    AccumulateExactly(Reading(r), 10);
    PortByValue(r, Accumulate(Reading(r), 10));
  }

  lemma OctetByValue(r: Reader)
    requires !r.failed && r.embedding && r.v4Octets <= 4 && r.v4Embedding <= 6
    requires ReadToken(r, 10).0 == r || ReadToken(r, 10).0.failed
    ensures ParseComponent(r).failed <==> ReadToken(r, 10).0.failed || r.v4Octets == 4 || ReadToken(r, 10).1 > 0xff
    ensures !ParseComponent(r).failed ==>
      var slot := r.v4Embedding + r.v4Octets / 2;
      ParseComponent(r).out.components
        == r.out.components[slot := OrOctet(r.out.components[slot], ReadToken(r, 10).1, r.v4Octets % 2 == 0)]
  {
    hide Ipv6Reader.ReadToken, OrOctet;
  }

  /** Or-ing looks at the low 16 bits only. */
  lemma OrSameBits(field: u16, v: int, p: int, high: bool)
    requires v % 0x1_0000 == p % 0x1_0000
    ensures OrOctet(field, v, high) == OrOctet(field, p, high)
  {
    hide Ipv6Address.BitOr;
  }

  /** An octet after the first is refused exactly when there were four, when it is no decimal
      number, or when that number, modulo 2^32, lies between 2^8 and 2^31. It is or-ed in with its
      low 16 bits, the second of a pair below the first. */
  lemma OctetIsTaken(r: Reader)
    requires Sound(r) && r.current.StAddrComponent? && r.embedding
    ensures AllHex(Reading(r)) && r.v4Octets <= 4 && r.v4Embedding <= 6
    ensures var p, s := Positional(Reading(r), 10), ParseComponent(r);
      && (s.failed <==> r.v4Octets == 4 || !InRadix(Reading(r), 10) || 0xff < p % INT32_SPAN < 0x8000_0000)
      && (!s.failed ==> (ReadToken(r, 10).1 == p <==> p <= 0xff))
      && (!s.failed ==>
            var slot := r.v4Embedding + r.v4Octets / 2;
            s.out.components == r.out.components[slot := OrOctet(r.out.components[slot], p, r.v4Octets % 2 == 0)])
  {
    SoundFacts(r);
    TokenReadsExactly(r, 10);
    ReadsOrFails(r, 10);
    hide *;
    AccumulateExactly(Reading(r), 10);
    OctetByValue(r);
    if !ParseComponent(r).failed {
      var slot := r.v4Embedding + r.v4Octets / 2;
      OrSameBits(r.out.components[slot], ReadToken(r, 10).1, Positional(Reading(r), 10), r.v4Octets % 2 == 0);
    }
  }

  lemma FirstByValue(r: Reader)
    requires !r.failed && !r.embedding && r.components < 7 && r.v4Octets == 0
    requires ReadToken(r, 10).0 == r || ReadToken(r, 10).0.failed
    ensures var s := ParseComponent(BeginEmbedding(r));
      && (s.failed <==> ReadToken(r, 10).0.failed || ReadToken(r, 10).1 > 0xff)
      && (!s.failed ==>
            && s.v4Octets == 1 && s.v4Embedding == r.components && s.components == r.components + 2
            && s.out.components
               == r.out.components[r.components := OrOctet(r.out.components[r.components], ReadToken(r, 10).1, true)])
  {
    EmbeddingReadsSame(r);
    ReadsOrFails(BeginEmbedding(r), 10);
    hide Ipv6Reader.ReadToken, OrOctet;
  }

  lemma EmbeddingReadsSame(r: Reader)
    requires !r.failed && r.components < 7
    ensures ReadToken(BeginEmbedding(r), 10).1 == ReadToken(r, 10).1
    ensures ReadToken(BeginEmbedding(r), 10).0.failed <==> ReadToken(r, 10).0.failed
  {
  }

  lemma UnembeddedFacts(r: Reader)
    requires Sound(r) && !r.embedding && r.components < 8
    ensures r.v4Octets == 0 && r.out.components[r.components] == 0
  {
  }

  /** The first octet of a quad is refused exactly when it is no decimal number or that number,
      modulo 2^32, lies between 2^8 and 2^31; 256 times the number modulo 256 is stored. */
  lemma FirstOctetIsTaken(r: Reader)
    requires Sound(r) && r.current.StAddrComponent? && !r.embedding && r.components < 7
    ensures AllHex(Reading(r))
    ensures var p, s := Positional(Reading(r), 10), ParseComponent(BeginEmbedding(r));
      && (s.failed <==> !InRadix(Reading(r), 10) || 0xff < p % INT32_SPAN < 0x8000_0000)
      && (!s.failed ==> (ReadToken(r, 10).1 == p <==> p <= 0xff))
      && (!s.failed ==>
            && s.v4Octets == 1 && s.v4Embedding == r.components
            && s.out.components == r.out.components[r.components := 0x100 * (p % 0x100)])
  {
    SoundFacts(r);
    UnembeddedFacts(r);
    TokenReadsExactly(r, 10);
    ReadsOrFails(r, 10);
    hide *;
    AccumulateExactly(Reading(r), 10);
    FirstByValue(r);
    if !ParseComponent(BeginEmbedding(r)).failed {
      OrSameBits(0, ReadToken(r, 10).1, Positional(Reading(r), 10), true);
      HighOctet(Positional(Reading(r), 10));
    }
  }

  lemma ReadsOrFails(r: Reader, base: Radix)
    ensures ReadToken(r, base).0 == r || ReadToken(r, base).0.failed
  {
  }

  /** Nine hexadecimal digits that are taken for the component 1. */
  lemma HugeComponentReadsAsOne()
    ensures var s := Numeral(0x1_0000_0001, 16); Positional(s, 16) == 0x1_0000_0001 && Accumulate(s, 16) == 1
  {
    hide Numeral, Positional, Accumulate;
    NumeralDenotes(0x1_0000_0001, 16);
    AccumulateWraps(Numeral(0x1_0000_0001, 16), 16);
  }

  /** An octet that is taken changes its own field only: the first of a pair becomes 256 times
      the octet, modulo 256, and the second is or-ed in, which is adding it if not negative. */
  lemma OctetIsAdded(r: Reader)
    requires r.embedding && r.v4Octets < 4 && r.v4Embedding <= 6
    requires Clear(r.out.components, r.components, true, r.v4Embedding, r.v4Octets)
    requires !ReadToken(r, 10).0.failed && ReadToken(r, 10).1 <= 0xff
    ensures var octet := ReadToken(r, 10).1;
      var slot := r.v4Embedding + r.v4Octets / 2;
      var field := r.out.components[slot];
      var s := ParseV4Component(r);
      && !s.failed && s.v4Octets == r.v4Octets + 1
      && (r.v4Octets % 2 == 0 ==> field == 0 && s.out.components == r.out.components[slot := 0x100 * (octet % 0x100)])
      && (r.v4Octets % 2 == 1 ==> s.out.components == r.out.components[slot := OrOctet(field, octet, false)])
      && (r.v4Octets % 2 == 1 && octet >= 0 ==> field + octet < 0x1_0000 && OrOctet(field, octet, false) == field + octet)
  {
    var octet := ReadToken(r, 10).1;
    HighOctet(octet);
    if r.v4Octets % 2 == 1 && octet >= 0 {
      LowOctet(r.out.components[r.v4Embedding + r.v4Octets / 2], octet);
      SumFits(r.out.components[r.v4Embedding + r.v4Octets / 2], octet);
    }
  }

  lemma OctetStaysInPair(r: Reader, i: nat)
    requires Shape(r) && r.embedding && i < 8
    requires i < r.v4Embedding || r.v4Embedding + 2 <= i
    ensures ParseComponent(r).embedding && ParseComponent(r).v4Embedding == r.v4Embedding
    ensures ParseComponent(r).out.components[i] == r.out.components[i]
  {
  }

  lemma AddrComponentStaysInPair(r: Reader, ec: EventClass, i: nat)
    requires Shape(r) && r.embedding && i < 8
    requires i < r.v4Embedding || r.v4Embedding + 2 <= i
    ensures StepAddrComponent(r, ec).embedding && StepAddrComponent(r, ec).v4Embedding == r.v4Embedding
    ensures StepAddrComponent(r, ec).out.components[i] == r.out.components[i]
  {
    OctetStaysInPair(r, i);
  }

  lemma OtherStatesWriteNoComponent(r: Reader, ec: EventClass)
    requires !r.current.StAddrComponent?
    ensures Step(r, ec).embedding == r.embedding && Step(r, ec).v4Embedding == r.v4Embedding
    ensures Step(r, ec).out.components == r.out.components
  {
  }

  /** Once octets have begun, no transition writes outside the reserved pair of components. */
  lemma EmbeddingFreezesTheRest(r: Reader, ec: EventClass, i: nat)
    requires Shape(r) && r.embedding && i < 8
    requires i < r.v4Embedding || r.v4Embedding + 2 <= i
    ensures Step(r, ec).embedding && Step(r, ec).v4Embedding == r.v4Embedding
    ensures Step(r, ec).out.components[i] == r.out.components[i]
  {
    if r.current.StAddrComponent? {
      AddrComponentStaysInPair(r, ec, i);
    } else {
      OtherStatesWriteNoComponent(r, ec);
    }
  }
}
