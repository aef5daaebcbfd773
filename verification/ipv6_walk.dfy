/** The reader over a printed address. The text is walked piece by piece (component, double
    colon, octet), and the reader after each piece is known in full. */
module Ipv6Walk {
  import opened Wrappers
  import opened Numerals
  import opened Ipv6Address
  import opened Ipv6Reader
  import opened Ipv6Invariant
  import opened Ipv6Text

  // ---- Runs ----

  lemma RunOne(r: Reader)
    requires r.position < |r.input| && !r.failed && !Advance(r).failed
    ensures Run(r, 1) == Advance(r)
  {
    hide Ipv6Reader.Advance;
    RunUnfolds(r, 1);
    assert Run(Advance(r), 0) == Advance(r);
  }

  lemma {:induction false} RunSplit(r: Reader, m: nat, n: nat)
    requires r.position + m + n <= |r.input| && !r.failed && !Run(r, m).failed
    ensures Run(r, m).input == r.input && Run(r, m).position == r.position + m
    ensures Run(r, m + n) == Run(Run(r, m), n)
    decreases m
  {
    hide Ipv6Reader.Advance;
    if m > 0 {
      RunUnfolds(r, m);
      RunUnfolds(r, m + n);
      RunSplit(Advance(r), m - 1, n);
    }
  }

  /** The input continues, from position pos, with s. */
  ghost predicate Ahead(input: string, pos: nat, s: string) {
    pos + |s| <= |input| && input[pos..pos + |s|] == s
  }

  lemma AheadSplit(input: string, pos: nat, s: string, t: string)
    requires Ahead(input, pos, s + t)
    ensures Ahead(input, pos, s) && Ahead(input, pos + |s|, t)
  {
    assert input[pos..pos + |s + t|][..|s|] == s;
    assert input[pos..pos + |s + t|][|s|..] == t;
  }

  lemma AheadAt(input: string, pos: nat, s: string, i: nat)
    requires Ahead(input, pos, s) && i < |s|
    ensures input[pos + i] == s[i]
  {
    assert input[pos..pos + |s|][i] == s[i];
  }

  lemma NextDigit(r: Reader)
    requires !r.failed && r.position < |r.input|
    requires IsDigit(r.input[r.position]) || (r.current.StAddrComponent? && IsHex(r.input[r.position]))
    requires r.current in {StAddrComponent, StCidr, StPort}
    ensures Advance(r) == r.(position := r.position + 1, tokenLen := r.tokenLen + 1)
  {
  }

  lemma FirstDigit(r: Reader)
    requires !r.failed && r.current in {StNone, StV6Separator}
    requires r.position < |r.input| && IsHex(r.input[r.position])
    ensures Advance(r) == r.(current := StAddrComponent, position := r.position + 1, tokenPosition := r.position, tokenLen := 1)
  {
    assert Classify(r.input[r.position]).Some? && r.input[r.position] != '[';
    DigitOpens(r, Classify(r.input[r.position]).value);
    hide Ipv6Reader.Step;
  }

  lemma DigitOpens(r: Reader, ec: EventClass)
    requires r.current in {StNone, StV6Separator} && (ec.EcDigit? || ec.EcHexDigit?)
    ensures Step(r, ec) == r.(current := StAddrComponent, tokenPosition := r.position, tokenLen := 1)
  {
    hide StepAddrComponent, StepIface, StepCidr, StepPostAddr, StepPort;
  }

  lemma HeadAndTail(input: string, pos: nat, s: string)
    requires s != [] && Ahead(input, pos, s)
    ensures pos + |s| <= |input| && input[pos] == s[0] && Ahead(input, pos + 1, s[1..])
    ensures AllHex(s) ==> IsHex(s[0]) && AllHex(s[1..])
    ensures AllDigits(s) ==> IsDigit(s[0]) && AllDigits(s[1..])
  {
    AheadAt(input, pos, s, 0);
    assert s == [s[0]] + s[1..];
    AheadSplit(input, pos, [s[0]], s[1..]);
  }

  /** Inside a token, digits only make it longer. */
  lemma {:induction false} RunDigits(r: Reader, s: string)
    requires !r.failed && Ahead(r.input, r.position, s)
    requires r.current in {StAddrComponent, StCidr, StPort}
    requires AllDigits(s) || (r.current.StAddrComponent? && AllHex(s))
    ensures r.position + |s| <= |r.input|
    ensures Run(r, |s|) == r.(position := r.position + |s|, tokenLen := r.tokenLen + |s|)
    decreases |s|
  {
    hide Ipv6Reader.Advance, Numerals.AllHex, Numerals.AllDigits;
    if s != [] {
      HeadAndTail(r.input, r.position, s);
      NextDigit(r);
      RunDigits(Advance(r), s[1..]);
      RunUnfolds(r, |s|);
    }
  }

  /** A component's digits open a token and fill it. */
  lemma RunToken(r: Reader, s: string)
    requires !r.failed && r.current in {StNone, StV6Separator}
    requires s != [] && AllHex(s) && Ahead(r.input, r.position, s)
    ensures r.position + |s| <= |r.input|
    ensures Run(r, |s|) == r.(current := StAddrComponent, position := r.position + |s|,
                              tokenPosition := r.position, tokenLen := |s|)
  {
    hide Ipv6Reader.Advance, Numerals.AllHex, Numerals.AllDigits, Ahead;
    HeadAndTail(r.input, r.position, s);
    FirstDigit(r);
    RunDigits(Advance(r), s[1..]);
    RunUnfolds(r, |s|);
  }

  // ---- Known readers ----

  function Pad(stored: seq<u16>): Components
    requires |stored| <= 8
  {
    stored + ZERO_COMPONENTS[|stored|..]
  }

  /** The reader between two pieces of an address: components stored, abbreviation at z. */
  function Scan(input: string, current: State, pos: nat, brackets: nat, stored: seq<u16>, z: Option<nat>): (r: Reader)
    requires |stored| <= 8
    ensures r.input == input && r.position == pos && !r.failed
  {
    Reader(input, |input|, current, pos, |stored|, 0, 0, brackets,
           if z.Some? then z.value else 0, 0, 0, z.Some?, false, false, false,
           Address(Pad(stored), 0, 0, NO_FLAGS), [])
  }

  /** The same with a token just read. */
  function Pending(input: string, pos: nat, brackets: nat, stored: seq<u16>, z: Option<nat>, token: string): (r: Reader)
    requires |stored| <= 8
    ensures r.input == input && r.position == pos + |token| && !r.failed
    ensures r.current.StAddrComponent? && !r.embedding && r.components == |stored|
  {
    Scan(input, StAddrComponent, pos + |token|, brackets, stored, z).(tokenPosition := pos, tokenLen := |token|)
  }

  lemma ScanToken(input: string, current: State, pos: nat, brackets: nat, stored: seq<u16>, z: Option<nat>, token: string)
    requires |stored| <= 8 && current in {StNone, StV6Separator}
    requires token != [] && AllHex(token) && Ahead(input, pos, token)
    ensures pos + |token| <= |input|
    ensures Run(Scan(input, current, pos, brackets, stored, z), |token|) == Pending(input, pos, brackets, stored, z, token)
  {
    RunToken(Scan(input, current, pos, brackets, stored, z), token);
  }

  lemma TokenAhead(r: Reader, token: string, base: Radix)
    requires r.inputBytes == |r.input| && Ahead(r.input, r.tokenPosition, token) && r.tokenLen == |token|
    requires AllHex(token) && InRadix(token, base)
    ensures ReadToken(r, base) == (r, Accumulate(token, base))
  {
    assert Token(r) == token;
  }

  /** The token is a numeral of v, not necessarily the one that is printed. */
  ghost predicate Names(token: string, base: Radix, v: int) {
    token != [] && AllHex(token) && InRadix(token, base) && Accumulate(token, base) == v
  }

  lemma NamesFacts(token: string, base: Radix, v: int)
    requires Names(token, base, v)
    ensures token != [] && AllHex(token)
  {
  }

  lemma HexNames(v: u16)
    ensures Names(Hex(v), 16, v)
  {
    NumeralReadsBack(v, 16);
  }

  lemma NamesAhead(r: Reader, token: string, base: Radix, v: int)
    requires r.inputBytes == |r.input| && Ahead(r.input, r.tokenPosition, token) && r.tokenLen == |token|
    requires Names(token, base, v)
    ensures ReadToken(r, base) == (r, v)
  {
    TokenAhead(r, token, base);
  }

  /** The token of a 16-bit component, flushed. */
  lemma FlushComponent(input: string, pos: nat, brackets: nat, stored: seq<u16>, z: Option<nat>, token: string, v: u16)
    requires |stored| < 8 && Ahead(input, pos, token) && Names(token, 16, v)
    ensures ParseComponent(Pending(input, pos, brackets, stored, z, token))
            == Scan(input, StAddrComponent, pos + |token|, brackets, stored + [v], z)
  {
    hide Ipv6Reader.ReadToken, Ipv6Reader.ParseComponent, Ahead, Names;
    var r := Pending(input, pos, brackets, stored, z, token);
    NamesAhead(r, token, 16, v);
    StoreHex(r, v);
    assert Pad(stored)[|stored| := v] == Pad(stored + [v]);
  }

  lemma StoreHex(r: Reader, v: u16)
    requires ReadToken(r, 16) == (r, v) && !r.embedding && r.components < 8
    ensures ParseComponent(r) == r.(out := r.out.(components := r.out.components[r.components := v]),
                                    components := r.components + 1, tokenPosition := 0, tokenLen := 0)
  {
    hide Ipv6Reader.ReadToken;
  }

  lemma ColonAfterToken(r: Reader)
    requires r.current.StAddrComponent? && !r.failed && !r.embedding && !r.compat
    requires r.position < |r.input| && r.input[r.position] == ':' && !ParseComponent(r).failed
    ensures Advance(r) == ParseComponent(r).(current := StV6Separator, position := r.position + 1)
  {
    hide Ipv6Reader.ParseComponent;
  }

  lemma PendingColon(input: string, pos: nat, brackets: nat, stored: seq<u16>, z: Option<nat>, token: string, v: u16)
    requires |stored| < 8 && Ahead(input, pos, token) && Ahead(input, pos + |token|, ":") && Names(token, 16, v)
    ensures Run(Pending(input, pos, brackets, stored, z, token), 1)
            == Scan(input, StV6Separator, pos + |token| + 1, brackets, stored + [v], z)
  {
    hide Ipv6Reader.ParseComponent, Ipv6Reader.Advance, Ipv6Reader.Run, Pad, Names;
    AheadAt(input, pos + |token|, ":", 0);
    FlushComponent(input, pos, brackets, stored, z, token, v);
    ColonAfterToken(Pending(input, pos, brackets, stored, z, token));
    RunOne(Pending(input, pos, brackets, stored, z, token));
  }

  /** A component and the separator after it. */
  lemma WalkComponent(input: string, current: State, pos: nat, brackets: nat, stored: seq<u16>, z: Option<nat>, token: string, v: u16)
    requires |stored| < 8 && current in {StNone, StV6Separator}
    requires Ahead(input, pos, token + ":") && Names(token, 16, v)
    ensures pos + |token| + 1 <= |input|
    ensures Run(Scan(input, current, pos, brackets, stored, z), |token| + 1)
            == Scan(input, StV6Separator, pos + |token| + 1, brackets, stored + [v], z)
  {
    hide *;
    AheadSplit(input, pos, token, ":");
    assert token != [] && AllHex(token) by { NamesFacts(token, 16, v); }
    ScanToken(input, current, pos, brackets, stored, z, token);
    PendingColon(input, pos, brackets, stored, z, token, v);
    RunSplit(Scan(input, current, pos, brackets, stored, z), |token|, 1);
  }

  // ---- Octets ----

  type u8 = x: int | 0 <= x < 0x100

  function Join(high: u8, low: u8): u16 {
    var h: int, l: int := high, low;
    0x100 * h + l
  }

  /** The components that 0 to 4 octets fill, the last one perhaps by half. */
  function Pair(octets: seq<u8>): (pair: seq<u16>)
    requires |octets| <= 4
    ensures |pair| == (|octets| + 1) / 2
  {
    if |octets| == 0 then []
    else if |octets| == 1 then [Join(octets[0], 0)]
    else if |octets| == 2 then [Join(octets[0], octets[1])]
    else if |octets| == 3 then [Join(octets[0], octets[1]), Join(octets[2], 0)]
    else [Join(octets[0], octets[1]), Join(octets[2], octets[3])]
  }

  /** The reader after some octets of an embedded address. */
  function Octets(input: string, current: State, pos: nat, brackets: nat, stored: seq<u16>, z: Option<nat>, octets: seq<u8>): (r: Reader)
    requires |stored| <= 6 && |octets| <= 4
    ensures r.input == input && r.position == pos && !r.failed
  {
    Scan(input, current, pos, brackets, stored, z).(
      embedding := true, v4Embedding := |stored|, v4Octets := |octets|, components := |stored| + 2,
      compat := stored == [], out := Address(Pad(stored + Pair(octets)), 0, 0, NO_FLAGS))
  }

  function PendingOctet(input: string, pos: nat, brackets: nat, stored: seq<u16>, z: Option<nat>, octets: seq<u8>, token: string): (r: Reader)
    requires |stored| <= 6 && |octets| <= 4
    ensures r.input == input && r.position == pos + |token| && !r.failed
    ensures r.current.StAddrComponent? && r.embedding
  {
    Octets(input, StAddrComponent, pos + |token|, brackets, stored, z, octets).(tokenPosition := pos, tokenLen := |token|)
  }

  lemma StoreOctet(r: Reader, o: u8, field: u16)
    requires ReadToken(r, 10) == (r, o) && r.embedding && r.v4Octets < 4 && r.v4Embedding <= 6
    requires r.out.components[r.v4Embedding + r.v4Octets / 2] == field
    requires if r.v4Octets % 2 == 0 then field == 0 else field % 0x100 == 0
    ensures field + (if r.v4Octets % 2 == 0 then 0x100 * o else o) < 0x1_0000
    ensures ParseComponent(r) == r.(
      out := r.out.(components := r.out.components[r.v4Embedding + r.v4Octets / 2 :=
                      field + if r.v4Octets % 2 == 0 then 0x100 * o else o]),
      v4Octets := r.v4Octets + 1, tokenPosition := 0, tokenLen := 0)
  {
    hide Ipv6Reader.ReadToken, Ipv6Reader.OrOctet;
    HighOctet(o);
    if r.v4Octets % 2 == 1 {
      LowOctet(field, o);
      SumFits(field, o);
    }
  }

  lemma PairGrows(octets: seq<u8>, o: u8)
    requires |octets| < 4
    ensures var h := |octets| / 2;
      if |octets| % 2 == 0 then Pair(octets + [o]) == Pair(octets) + [Join(o, 0)]
      else Pair(octets)[h] % 0x100 == 0 && Pair(octets)[h] + o < 0x1_0000
           && Pair(octets + [o]) == Pair(octets)[h := Pair(octets)[h] + o]
  {
  }

  lemma PadGrows(s: seq<u16>, v: u16)
    requires |s| < 8
    ensures Pad(s)[|s|] == 0 && Pad(s)[|s| := v] == Pad(s + [v])
  {
  }

  lemma PadChanges(s: seq<u16>, i: nat, v: u16)
    requires i < |s| <= 8
    ensures Pad(s)[i] == s[i] && Pad(s)[i := v] == Pad(s[i := v])
  {
  }

  /** What the slot of the next octet holds, and what it holds afterwards. */
  lemma SlotGrows(stored: seq<u16>, octets: seq<u8>, o: u8)
    requires |stored| <= 6 && |octets| < 4
    ensures var k := |stored| + |octets| / 2;
      var field := Pad(stored + Pair(octets))[k];
      && (if |octets| % 2 == 0 then field == 0 else field % 0x100 == 0)
      && field + (if |octets| % 2 == 0 then 0x100 * o else o) < 0x1_0000
      && Pad(stored + Pair(octets))[k := field + if |octets| % 2 == 0 then 0x100 * o else o]
         == Pad(stored + Pair(octets + [o]))
  {
    hide Pair, Pad;
    PairGrows(octets, o);
    var s := stored + Pair(octets);
    var k := |stored| + |octets| / 2;
    if |octets| % 2 == 0 {
      PadGrows(s, 0x100 * o);
      assert s + [Join(o, 0)] == stored + Pair(octets + [o]);
    } else {
      PadChanges(s, k, s[k] + o);
      assert s[k] == Pair(octets)[|octets| / 2];
      assert s[k := s[k] + o] == stored + Pair(octets + [o]);
    }
  }

  lemma FlushOctet(input: string, pos: nat, brackets: nat, stored: seq<u16>, z: Option<nat>, octets: seq<u8>, token: string, o: u8)
    requires |stored| <= 6 && |octets| < 4 && Ahead(input, pos, token) && Names(token, 10, o)
    ensures ParseComponent(PendingOctet(input, pos, brackets, stored, z, octets, token))
            == Octets(input, StAddrComponent, pos + |token|, brackets, stored, z, octets + [o])
  {
    hide Ipv6Reader.ReadToken, Ipv6Reader.ParseComponent, Ahead, Pad, Pair, Names;
    var r := PendingOctet(input, pos, brackets, stored, z, octets, token);
    NamesAhead(r, token, 10, o);
    SlotGrows(stored, octets, o);
    StoreOctet(r, o, Pad(stored + Pair(octets))[|stored| + |octets| / 2]);
  }

  /** The reader before an octet: still between components before the first, else after a dot. */
  function BeforeOctet(input: string, current: State, pos: nat, brackets: nat, stored: seq<u16>, z: Option<nat>, octets: seq<u8>): (r: Reader)
    requires |stored| <= 6 && |octets| <= 4
    ensures r.input == input && r.position == pos && !r.failed
  {
    if octets == [] then Scan(input, current, pos, brackets, stored, z)
    else Octets(input, StNone, pos, brackets, stored, z, octets)
  }

  lemma BeforeFirstOctet(input: string, current: State, pos: nat, brackets: nat, stored: seq<u16>, z: Option<nat>)
    requires |stored| <= 6
    ensures BeforeOctet(input, current, pos, brackets, stored, z, []) == Scan(input, current, pos, brackets, stored, z)
  {
  }

  /** The same with the octet's token read. */
  function AtOctet(input: string, pos: nat, brackets: nat, stored: seq<u16>, z: Option<nat>, octets: seq<u8>, token: string): (r: Reader)
    requires |stored| <= 6 && |octets| <= 4
    ensures r.input == input && r.position == pos + |token| && !r.failed && r.current.StAddrComponent?
    ensures !r.embedding ==> r.components < 7
  {
    if octets == [] then Pending(input, pos, brackets, stored, z, token)
    else PendingOctet(input, pos, brackets, stored, z, octets, token)
  }

  lemma ScanOctet(input: string, current: State, pos: nat, brackets: nat, stored: seq<u16>, z: Option<nat>, octets: seq<u8>, token: string)
    requires |stored| <= 6 && |octets| < 4 && current in {StNone, StV6Separator}
    requires token != [] && AllHex(token) && Ahead(input, pos, token)
    ensures pos + |token| <= |input|
    ensures Run(BeforeOctet(input, current, pos, brackets, stored, z, octets), |token|)
            == AtOctet(input, pos, brackets, stored, z, octets, token)
  {
    hide Ipv6Reader.Run, Pad, Pair, Ahead, Numerals.AllHex;
    RunToken(BeforeOctet(input, current, pos, brackets, stored, z, octets), token);
  }

  function Embedded(r: Reader): Reader { if r.embedding then r else BeginEmbedding(r) }

  lemma EmbeddingBegins(input: string, pos: nat, brackets: nat, stored: seq<u16>, z: Option<nat>, octets: seq<u8>, token: string)
    requires |stored| <= 6 && |octets| <= 4
    ensures Embedded(AtOctet(input, pos, brackets, stored, z, octets, token))
            == PendingOctet(input, pos, brackets, stored, z, octets, token)
  {
    assert octets == [] ==> stored + Pair(octets) == stored;
  }

  lemma DotAfterToken(r: Reader, done: Reader)
    requires r.current.StAddrComponent? && !r.failed && r.position < |r.input| && r.input[r.position] == '.'
    requires r.embedding || r.components < 7
    requires ParseComponent(Embedded(r)) == done && !done.failed
    ensures Run(r, 1) == done.(current := StNone, position := r.position + 1)
  {
    hide Ipv6Reader.ParseComponent, Ipv6Reader.Run;
    RunOne(r);
  }

  lemma OctetsMove(input: string, pos: nat, brackets: nat, stored: seq<u16>, z: Option<nat>, octets: seq<u8>)
    requires |stored| <= 6 && |octets| <= 4
    ensures Octets(input, StAddrComponent, pos, brackets, stored, z, octets).(current := StNone, position := pos + 1)
            == Octets(input, StNone, pos + 1, brackets, stored, z, octets)
  {
  }

  lemma DotFlushes(input: string, pos: nat, brackets: nat, stored: seq<u16>, z: Option<nat>, octets: seq<u8>, token: string, o: u8)
    requires |stored| <= 6 && |octets| < 4 && Names(token, 10, o)
    requires Ahead(input, pos, token) && pos + |token| < |input| && input[pos + |token|] == '.'
    ensures Run(AtOctet(input, pos, brackets, stored, z, octets, token), 1)
            == Octets(input, StNone, pos + |token| + 1, brackets, stored, z, octets + [o])
  {
    hide *;
    FlushOctet(input, pos, brackets, stored, z, octets, token, o);
    EmbeddingBegins(input, pos, brackets, stored, z, octets, token);
    OctetsMove(input, pos + |token|, brackets, stored, z, octets + [o]);
    DotAfterToken(AtOctet(input, pos, brackets, stored, z, octets, token),
                  Octets(input, StAddrComponent, pos + |token|, brackets, stored, z, octets + [o]));
  }

  lemma Chain(r: Reader, m: nat, r1: Reader, n: nat, r2: Reader)
    requires !r.failed && !r1.failed && r.position + m + n <= |r.input|
    requires Run(r, m) == r1 && r1.position + n <= |r1.input| && Run(r1, n) == r2
    ensures Run(r, m + n) == r2
  {
    hide Ipv6Reader.Run;
    RunSplit(r, m, n);
  }

  lemma AfterFirstOctet(input: string, current: State, pos: nat, brackets: nat, stored: seq<u16>, z: Option<nat>, octets: seq<u8>, o: u8)
    requires |stored| <= 6 && |octets| < 4
    ensures BeforeOctet(input, current, pos, brackets, stored, z, octets + [o])
            == Octets(input, StNone, pos, brackets, stored, z, octets + [o])
  {
  }

  /** An octet and the dot after it. */
  lemma WalkOctet(input: string, current: State, pos: nat, brackets: nat, stored: seq<u16>, z: Option<nat>, octets: seq<u8>,
                  token: string, o: u8)
    requires |stored| <= 6 && |octets| < 4 && current in {StNone, StV6Separator}
    requires Ahead(input, pos, token + ".") && Names(token, 10, o)
    ensures pos + |token| + 1 <= |input|
    ensures Run(BeforeOctet(input, current, pos, brackets, stored, z, octets), |token| + 1)
            == BeforeOctet(input, current, pos + |token| + 1, brackets, stored, z, octets + [o])
  {
    hide *;
    AheadSplit(input, pos, token, ".");
    AheadAt(input, pos + |token|, ".", 0);
    assert token != [] && AllHex(token) by { NamesFacts(token, 10, o); }
    ScanOctet(input, current, pos, brackets, stored, z, octets, token);
    DotFlushes(input, pos, brackets, stored, z, octets, token, o);
    AfterFirstOctet(input, current, pos + |token| + 1, brackets, stored, z, octets, o);
    Chain(BeforeOctet(input, current, pos, brackets, stored, z, octets), |token|,
          AtOctet(input, pos, brackets, stored, z, octets, token), 1,
          BeforeOctet(input, current, pos + |token| + 1, brackets, stored, z, octets + [o]));
  }

  function QuadOctets(high: u16, low: u16): (octets: seq<u8>)
    ensures |octets| == 4 && Pair(octets) == [high, low]
  {
    [high / 0x100, high % 0x100, low / 0x100, low % 0x100]
  }

  /** The dotted text of four tokens, from the k-th on. */
  function DottedText(ts: seq<string>, k: nat): string
    requires |ts| == 4 && k < 4
    decreases 4 - k
  {
    if k == 3 then ts[3] else ts[k] + "." + DottedText(ts, k + 1)
  }

  /** The tokens that are printed for a pair of components. */
  function QuadTokens(high: u16, low: u16): (ts: seq<string>)
    ensures |ts| == 4
  {
    var os := QuadOctets(high, low);
    [Dec(os[0]), Dec(os[1]), Dec(os[2]), Dec(os[3])]
  }

  ghost predicate AllName(ts: seq<string>, os: seq<u8>) {
    |ts| == |os| == 4 && forall i :: 0 <= i < 4 ==> Names(ts[i], 10, os[i])
  }

  lemma QuadIsDotted(high: u16, low: u16)
    ensures Quad(high, low) == DottedText(QuadTokens(high, low), 0)
    ensures AllName(QuadTokens(high, low), QuadOctets(high, low))
  {
    var os, ts := QuadOctets(high, low), QuadTokens(high, low);
    DecNames(os[0]);
    DecNames(os[1]);
    DecNames(os[2]);
    DecNames(os[3]);
    hide Numerals.Dec, Names;
    var a, b, c, d := Dec(os[0]) + ".", Dec(os[1]) + ".", Dec(os[2]) + ".", Dec(os[3]);
    assert DottedText(ts, 2) == c + d && DottedText(ts, 1) == b + (c + d);
    assert Quad(high, low) == a + (b + (c + d));
  }

  lemma DecNames(o: u8)
    ensures Names(Dec(o), 10, o)
  {
    DecReadsBack(o);
  }

  lemma NameAt(ts: seq<string>, os: seq<u8>, k: nat)
    requires AllName(ts, os) && k < 4
    ensures |ts| == |os| == 4 && Names(ts[k], 10, os[k]) && ts[k] != [] && AllHex(ts[k])
  {
  }

  lemma DottedStep(ts: seq<string>, k: nat)
    requires |ts| == 4 && k < 4
    ensures k == 3 ==> DottedText(ts, k) == ts[3]
    ensures k < 3 ==> DottedText(ts, k) == ts[k] + "." + DottedText(ts, k + 1)
  {
  }

  lemma DottedHoldsLast(ts: seq<string>, k: nat)
    requires |ts| == 4 && k < 4
    ensures |DottedText(ts, k)| >= |ts[3]|
    decreases 4 - k
  {
    DottedStep(ts, k);
    if k < 3 { DottedHoldsLast(ts, k + 1); }
  }

  /** The last octet of a quad, which is still a token. */
  lemma WalkLastOctet(input: string, current: State, pos: nat, brackets: nat, stored: seq<u16>, z: Option<nat>, octets: seq<u8>,
                      token: string)
    requires |stored| <= 6 && current in {StNone, StV6Separator} && |octets| == 3
    requires token != [] && AllHex(token) && Ahead(input, pos, token)
    ensures pos + |token| <= |input|
    ensures Run(BeforeOctet(input, current, pos, brackets, stored, z, octets), |token|)
            == PendingOctet(input, pos, brackets, stored, z, octets, token)
  {
    hide *;
    ScanOctet(input, current, pos, brackets, stored, z, octets, token);
    LastOctetPends(input, pos, brackets, stored, z, octets, token);
  }

  lemma LastOctetPends(input: string, pos: nat, brackets: nat, stored: seq<u16>, z: Option<nat>, octets: seq<u8>, token: string)
    requires |stored| <= 6 && |octets| == 3
    ensures AtOctet(input, pos, brackets, stored, z, octets, token) == PendingOctet(input, pos, brackets, stored, z, octets, token)
  {
  }

  /** A dotted quad from its k-th octet up to its last, which is still a token. */
  lemma {:induction false} WalkOctets(input: string, current: State, pos: nat, brackets: nat, stored: seq<u16>, z: Option<nat>,
                                      ts: seq<string>, os: seq<u8>, k: nat)
    requires |stored| <= 6 && current in {StNone, StV6Separator} && AllName(ts, os) && k < 4
    requires Ahead(input, pos, DottedText(ts, k))
    ensures pos + |DottedText(ts, k)| <= |input|
    ensures var last := pos + |DottedText(ts, k)| - |ts[3]|;
      && last >= 0 && Ahead(input, last, ts[3])
      && Run(BeforeOctet(input, current, pos, brackets, stored, z, os[..k]), |DottedText(ts, k)|)
         == PendingOctet(input, last, brackets, stored, z, os[..3], ts[3])
    decreases 4 - k
  {
    hide *;
    assert |ts| == |os| == 4 by { NameAt(ts, os, k); }
    if k == 3 {
      DottedStep(ts, k);
      assert ts[3] != [] && AllHex(ts[3]) by { NameAt(ts, os, 3); }
      WalkLastOctet(input, current, pos, brackets, stored, z, os[..3], ts[3]);
    } else {
      OctetThenRest(input, current, pos, brackets, stored, z, ts, os, k);
      WalkOctets(input, current, pos + |ts[k]| + 1, brackets, stored, z, ts, os, k + 1);
      Chain(BeforeOctet(input, current, pos, brackets, stored, z, os[..k]), |ts[k]| + 1,
            BeforeOctet(input, current, pos + |ts[k]| + 1, brackets, stored, z, os[..k + 1]), |DottedText(ts, k + 1)|,
            PendingOctet(input, pos + |DottedText(ts, k)| - |ts[3]|, brackets, stored, z, os[..3], ts[3]));
    }
  }

  lemma OctetThenRest(input: string, current: State, pos: nat, brackets: nat, stored: seq<u16>, z: Option<nat>,
                      ts: seq<string>, os: seq<u8>, k: nat)
    requires |stored| <= 6 && current in {StNone, StV6Separator} && AllName(ts, os) && k < 3
    requires Ahead(input, pos, DottedText(ts, k))
    ensures |ts| == |os| == 4 && |DottedText(ts, k)| == |ts[k]| + 1 + |DottedText(ts, k + 1)|
    ensures pos + |ts[k]| + 1 <= |input| && Ahead(input, pos + |ts[k]| + 1, DottedText(ts, k + 1))
    ensures Run(BeforeOctet(input, current, pos, brackets, stored, z, os[..k]), |ts[k]| + 1)
            == BeforeOctet(input, current, pos + |ts[k]| + 1, brackets, stored, z, os[..k + 1])
  {
    hide *;
    assert |ts| == |os| == 4 && Names(ts[k], 10, os[k]) by { NameAt(ts, os, k); }
    DottedStep(ts, k);
    AheadSplit(input, pos, ts[k] + ".", DottedText(ts, k + 1));
    WalkOctet(input, current, pos, brackets, stored, z, os[..k], ts[k], os[k]);
    assert os[..k] + [os[k]] == os[..k + 1];
  }

  // ---- The double colon ----

  lemma ColonOpens(r: Reader)
    requires !r.failed && r.current.StNone? && r.position < |r.input| && r.input[r.position] == ':'
    ensures Run(r, 1) == r.(current := StV6Separator, position := r.position + 1)
  {
    hide Ipv6Reader.Run, StepAddrComponent, StepV6Separator, StepIface, StepCidr, StepPostAddr, StepPort;
    RunOne(r);
  }

  lemma ColonAbbreviates(r: Reader)
    requires !r.failed && r.current.StV6Separator? && !r.hasZerorun
    requires r.position < |r.input| && r.input[r.position] == ':'
    ensures Run(r, 1) == r.(zerorun := r.components, hasZerorun := true, position := r.position + 1)
  {
    hide Ipv6Reader.Run, StepAddrComponent, StepNone, StepIface, StepCidr, StepPostAddr, StepPort;
    RunOne(r);
  }

  /** The abbreviation: two colons before the first component, one after a separator. */
  lemma WalkAbbreviation(input: string, pos: nat, brackets: nat, stored: seq<u16>, first: bool)
    requires |stored| <= 8 && (first ==> stored == [])
    requires Ahead(input, pos, if first then "::" else ":")
    ensures var n := if first then 2 else 1;
      && pos + n <= |input|
      && Run(Scan(input, if first then StNone else StV6Separator, pos, brackets, stored, None), n)
         == Scan(input, StV6Separator, pos + n, brackets, stored, Some(|stored|))
  {
    AheadAt(input, pos, if first then "::" else ":", 0);
    hide Pad, Ipv6Reader.Run;
    var sep := Scan(input, StV6Separator, if first then pos + 1 else pos, brackets, stored, None);
    if first {
      AheadAt(input, pos, "::", 1);
      ColonOpens(Scan(input, StNone, pos, brackets, stored, None));
      ColonAbbreviates(sep);
      RunSplit(Scan(input, StNone, pos, brackets, stored, None), 1, 1);
    } else {
      ColonAbbreviates(sep);
    }
  }

  // ---- All components ----

  /** The longest run is abbreviated. */
  predicate Abbreviated(c: Components, embed: bool) {
    Longest(c).len > 1 && !(embed && Longest(c).start == 6)
  }

  /** The last two components are written as a dotted quad. */
  predicate Dotted(c: Components, embed: bool) {
    embed && !(Abbreviated(c, embed) && Longest(c).start < 6 < Longest(c).start + Longest(c).len)
  }

  /** The printer comes to component i. */
  ghost predicate Visited(c: Components, embed: bool, i: nat) {
    && i <= 8
    && (Abbreviated(c, embed) ==> i <= Longest(c).start || Longest(c).start + Longest(c).len <= i)
    && (Dotted(c, embed) ==> i <= 6)
  }

  /** The components written before the i-th. */
  function Kept(c: Components, embed: bool, i: nat): (s: seq<u16>)
    requires Visited(c, embed, i)
    ensures |s| <= i
  {
    var w := Longest(c);
    if Abbreviated(c, embed) && i > w.start then c[..w.start] + c[w.start + w.len..i] else c[..i]
  }

  /** Where the abbreviation stands, once it is written. */
  function Zerorun(c: Components, embed: bool, i: nat): Option<nat> {
    if Abbreviated(c, embed) && i > Longest(c).start then Some(Longest(c).start) else None
  }

  lemma VisitsNext(c: Components, embed: bool, i: nat)
    requires Visited(c, embed, i) && i < 8 && !Abbreviates(c, embed, i) && !(embed && i == 6)
    ensures Visited(c, embed, i + 1) && !(Dotted(c, embed) && i >= 6)
    ensures Zerorun(c, embed, i + 1) == Zerorun(c, embed, i)
  {
    hide Ipv6Text.Longest;
  }

  lemma SpliceGrows(c: seq<u16>, s: nat, t: nat, i: nat)
    requires s <= |c| && t <= i < |c|
    ensures c[..i + 1] == c[..i] + [c[i]]
    ensures c[..s] + c[t..i + 1] == c[..s] + c[t..i] + [c[i]]
  {
    assert c[t..i + 1] == c[t..i] + [c[i]];
  }

  lemma KeptGrows(c: Components, embed: bool, i: nat)
    requires Visited(c, embed, i) && i < 8 && !Abbreviates(c, embed, i) && !(embed && i == 6)
    ensures Visited(c, embed, i + 1) && Kept(c, embed, i + 1) == Kept(c, embed, i) + [c[i]]
  {
    VisitsNext(c, embed, i);
    var w := Longest(c);
    assert w.start + w.len <= 8;
    hide Ipv6Text.Longest, Visited, Dotted;
    if Abbreviated(c, embed) && i > w.start {
      VisitedBeyond(c, embed, i);
      SpliceGrows(c, w.start, w.start + w.len, i);
    } else {
      SpliceGrows(c, 0, 0, i);
      assert !(Abbreviated(c, embed) && i + 1 > w.start);
    }
  }

  lemma VisitedBeyond(c: Components, embed: bool, i: nat)
    requires Visited(c, embed, i) && Abbreviated(c, embed) && i > Longest(c).start
    ensures Longest(c).start + Longest(c).len <= i
  {
  }

  lemma KeptSkips(c: Components, embed: bool, i: nat)
    requires Visited(c, embed, i) && i < 8 && Abbreviates(c, embed, i)
    ensures var next := i + Longest(c).len;
      && i < next && Visited(c, embed, next)
      && Kept(c, embed, next) == Kept(c, embed, i) && |Kept(c, embed, i)| == i
      && Zerorun(c, embed, i) == None && Zerorun(c, embed, next) == Some(i)
      && (next == 8 ==> !Dotted(c, embed))
  {
    assert IsZeroRun(c, Longest(c).start, Longest(c).len);
  }

  /** The reader after all components, the last one flushed. */
  ghost function Landed(input: string, pos: nat, brackets: nat, c: Components, embed: bool): (r: Reader)
    ensures r.input == input && r.position == pos && !r.failed
  {
    if Dotted(c, embed) then
      assert Visited(c, embed, 6);
      Octets(input, StNone, pos, brackets, Kept(c, embed, 6), Zerorun(c, embed, 6), QuadOctets(c[6], c[7]))
    else
      assert Longest(c).start + Longest(c).len <= 8;
      Scan(input, StNone, pos, brackets, Kept(c, embed, 8), Zerorun(c, embed, 8))
  }

  function Flush(r: Reader): Reader { if r.current.StAddrComponent? then ParseComponent(r) else r }

  /** p stands at the end of the components, with the last one still a token, if it was one. */
  ghost predicate AtEnd(p: Reader, input: string, pos: nat, brackets: nat, c: Components, embed: bool) {
    && !p.failed && p.input == input && p.position == pos
    && p.current in {StAddrComponent, StV6Separator}
    && Goto(Flush(p), StNone) == Landed(input, pos, brackets, c, embed)
  }

  /** The reader when the printer comes to component i. */
  ghost function Before(input: string, pos: nat, brackets: nat, c: Components, embed: bool, i: nat): (r: Reader)
    requires Visited(c, embed, i)
    ensures r.input == input && r.position == pos && !r.failed
  {
    Scan(input, if i == 0 then StNone else StV6Separator, pos, brackets, Kept(c, embed, i), Zerorun(c, embed, i))
  }

  lemma OctetsRest(input: string, pos: nat, brackets: nat, stored: seq<u16>, z: Option<nat>, octets: seq<u8>)
    requires |stored| <= 6 && |octets| <= 4
    ensures Goto(Octets(input, StAddrComponent, pos, brackets, stored, z, octets), StNone)
            == Octets(input, StNone, pos, brackets, stored, z, octets)
  {
  }

  lemma ScanRests(input: string, current: State, pos: nat, brackets: nat, stored: seq<u16>, z: Option<nat>)
    requires |stored| <= 8
    ensures Goto(Scan(input, current, pos, brackets, stored, z), StNone)
            == Scan(input, StNone, pos, brackets, stored, z)
  {
  }

  lemma FlushedIsAtEnd(p: Reader, flushed: Reader, input: string, pos: nat, brackets: nat, c: Components, embed: bool)
    requires !p.failed && p.input == input && p.position == pos && p.current.StAddrComponent?
    requires ParseComponent(p) == flushed && Goto(flushed, StNone) == Landed(input, pos, brackets, c, embed)
    ensures AtEnd(p, input, pos, brackets, c, embed)
  {
    hide Ipv6Reader.ParseComponent, Landed;
  }

  lemma LandedOnQuad(input: string, pos: nat, brackets: nat, c: Components)
    requires Visited(c, true, 6)
    ensures Landed(input, pos, brackets, c, true)
            == Octets(input, StNone, pos, brackets, Kept(c, true, 6), Zerorun(c, true, 6), QuadOctets(c[6], c[7]))
    ensures Before(input, pos, brackets, c, true, 6)
            == Scan(input, StV6Separator, pos, brackets, Kept(c, true, 6), Zerorun(c, true, 6))
  {
    hide Octets, Scan, Kept, Zerorun, QuadOctets;
  }

  lemma LandedOnLast(input: string, pos: nat, brackets: nat, c: Components, embed: bool)
    requires Visited(c, embed, 8) && !Dotted(c, embed)
    ensures Landed(input, pos, brackets, c, embed)
            == Scan(input, StNone, pos, brackets, Kept(c, embed, 8), Zerorun(c, embed, 8))
  {
    hide Octets, Scan, Kept, Zerorun, QuadOctets;
  }

  lemma BeforeIsScan(input: string, pos: nat, brackets: nat, c: Components, embed: bool, i: nat)
    requires Visited(c, embed, i)
    ensures |Kept(c, embed, i)| <= i <= 8
    ensures Before(input, pos, brackets, c, embed, i)
            == Scan(input, if i == 0 then StNone else StV6Separator, pos, brackets, Kept(c, embed, i), Zerorun(c, embed, i))
  {
  }

  /** A dotted quad: its last octet pends, and flushed it leaves the pair full. */
  lemma QuadPends(input: string, current: State, pos: nat, brackets: nat, stored: seq<u16>, z: Option<nat>, ts: seq<string>, os: seq<u8>)
    returns (p: Reader)
    requires |stored| <= 6 && current in {StNone, StV6Separator} && AllName(ts, os) && Ahead(input, pos, DottedText(ts, 0))
    ensures pos + |DottedText(ts, 0)| <= |input|
    ensures Run(Scan(input, current, pos, brackets, stored, z), |DottedText(ts, 0)|) == p
    ensures p.current.StAddrComponent? && !p.failed && p.input == input && p.position == pos + |DottedText(ts, 0)|
    ensures ParseComponent(p) == Octets(input, StAddrComponent, p.position, brackets, stored, z, os)
    ensures p.compat <==> stored == []
  {
    hide *;
    assert |ts| == |os| == 4 && Names(ts[3], 10, os[3]) by { NameAt(ts, os, 3); }
    assert |DottedText(ts, 0)| >= |ts[3]| by { DottedHoldsLast(ts, 0); }
    assert os[..0] == [] && os[..3] + [os[3]] == os;
    WalkOctets(input, current, pos, brackets, stored, z, ts, os, 0);
    BeforeFirstOctet(input, current, pos, brackets, stored, z);
    var last := pos + |DottedText(ts, 0)| - |ts[3]|;
    FlushOctet(input, last, brackets, stored, z, os[..3], ts[3], os[3]);
    PendingCompat(input, last, brackets, stored, z, os[..3], ts[3]);
    p := PendingOctet(input, last, brackets, stored, z, os[..3], ts[3]);
  }

  lemma PendingCompat(input: string, pos: nat, brackets: nat, stored: seq<u16>, z: Option<nat>, octets: seq<u8>, token: string)
    requires |stored| <= 6 && |octets| <= 4
    ensures PendingOctet(input, pos, brackets, stored, z, octets, token).compat <==> stored == []
  {
  }

  lemma QuadEnds(input: string, pos: nat, brackets: nat, c: Components)
    requires Visited(c, true, 6) && Ahead(input, pos, Quad(c[6], c[7]))
    ensures pos + |Quad(c[6], c[7])| <= |input|
    ensures AtEnd(Run(Before(input, pos, brackets, c, true, 6), |Quad(c[6], c[7])|),
                  input, pos + |Quad(c[6], c[7])|, brackets, c, true)
  {
    assert |c| == 8;
    hide *;
    var stored, z := Kept(c, true, 6), Zerorun(c, true, 6);
    LandedOnQuad(input, pos, brackets, c);
    QuadIsDotted(c[6], c[7]);
    var p := QuadPends(input, StV6Separator, pos, brackets, stored, z, QuadTokens(c[6], c[7]), QuadOctets(c[6], c[7]));
    LandedOnQuad(input, p.position, brackets, c);
    OctetsRest(input, p.position, brackets, stored, z, QuadOctets(c[6], c[7]));
    FlushedIsAtEnd(p, ParseComponent(p), input, p.position, brackets, c, true);
  }

  /** A last component's token, pending and flushed. */
  lemma ComponentPends(input: string, current: State, pos: nat, brackets: nat, stored: seq<u16>, z: Option<nat>, token: string, v: u16)
    returns (p: Reader)
    requires |stored| < 8 && current in {StNone, StV6Separator} && Ahead(input, pos, token) && Names(token, 16, v)
    ensures pos + |token| <= |input|
    ensures Run(Scan(input, current, pos, brackets, stored, z), |token|) == p
    ensures p.current.StAddrComponent? && !p.failed && p.input == input && p.position == pos + |token|
    ensures ParseComponent(p) == Scan(input, StAddrComponent, p.position, brackets, stored + [v], z)
  {
    hide *;
    assert token != [] && AllHex(token) by { NamesFacts(token, 16, v); }
    ScanToken(input, current, pos, brackets, stored, z, token);
    FlushComponent(input, pos, brackets, stored, z, token, v);
    p := Pending(input, pos, brackets, stored, z, token);
  }

  lemma HexEnds(input: string, pos: nat, brackets: nat, stored: seq<u16>, z: Option<nat>, v: u16, c: Components, embed: bool)
    requires |stored| < 8 && Ahead(input, pos, Hex(v))
    requires Landed(input, pos + |Hex(v)|, brackets, c, embed)
             == Scan(input, StNone, pos + |Hex(v)|, brackets, stored + [v], z)
    ensures pos + |Hex(v)| <= |input|
    ensures AtEnd(Run(Scan(input, StV6Separator, pos, brackets, stored, z), |Hex(v)|),
                  input, pos + |Hex(v)|, brackets, c, embed)
  {
    assert |stored| < 8;
    hide *;
    HexNames(v);
    var p := ComponentPends(input, StV6Separator, pos, brackets, stored, z, Hex(v), v);
    ScanRests(input, StAddrComponent, p.position, brackets, stored + [v], z);
    FlushedIsAtEnd(p, ParseComponent(p), input, p.position, brackets, c, embed);
  }

  lemma LastComponentEnds(input: string, pos: nat, brackets: nat, c: Components, embed: bool, last: nat)
    requires last == 7 && Visited(c, embed, last) && !Abbreviates(c, embed, last) && Ahead(input, pos, Hex(c[last]))
    ensures pos + |Hex(c[last])| <= |input|
    ensures AtEnd(Run(Before(input, pos, brackets, c, embed, last), |Hex(c[last])|),
                  input, pos + |Hex(c[last])|, brackets, c, embed)
  {
    hide Ipv6Reader.Run, Scan, AtEnd, Landed, Kept, Zerorun, Visited, Ipv6Text.Longest, Abbreviated, Dotted, Ahead, Numerals.Hex;
    VisitsNext(c, embed, last);
    KeptGrows(c, embed, last);
    BeforeIsScan(input, pos, brackets, c, embed, last);
    LandedOnLast(input, pos + |Hex(c[last])|, brackets, c, embed);
    HexEnds(input, pos, brackets, Kept(c, embed, last), Zerorun(c, embed, last), c[last], c, embed);
  }

  lemma AbbreviationEnds(input: string, pos: nat, brackets: nat, c: Components, embed: bool)
    requires Visited(c, embed, 8) && !Dotted(c, embed)
    ensures AtEnd(Scan(input, StV6Separator, pos, brackets, Kept(c, embed, 8), Zerorun(c, embed, 8)),
                  input, pos, brackets, c, embed)
  {
    hide Kept, Zerorun, Pad;
    LandedOnLast(input, pos, brackets, c, embed);
  }

  lemma RunChain(r: Reader, m: nat, r1: Reader, n: nat, input: string, pos: nat, brackets: nat, c: Components, embed: bool)
    requires !r.failed && !r1.failed && r.position + m + n <= |r.input|
    requires Run(r, m) == r1 && r1.position + n <= |r1.input| && AtEnd(Run(r1, n), input, pos, brackets, c, embed)
    ensures AtEnd(Run(r, m + n), input, pos, brackets, c, embed)
  {
    hide *;
    Chain(r, m, r1, n, Run(r1, n));
  }

  /** All components from the i-th on. */
  lemma {:induction false} WalkEmit(input: string, pos: nat, brackets: nat, c: Components, embed: bool, i: nat)
    requires Visited(c, embed, i) && i < 8 && Ahead(input, pos, Emit(c, embed, i))
    ensures pos + |Emit(c, embed, i)| <= |input|
    ensures AtEnd(Run(Before(input, pos, brackets, c, embed, i), |Emit(c, embed, i)|),
                  input, pos + |Emit(c, embed, i)|, brackets, c, embed)
    decreases 8 - i, 1
  {
    hide *;
    if Abbreviates(c, embed, i) {
      WalkAbbreviated(input, pos, brackets, c, embed, i);
    } else if embed && i == 6 {
      WalkDotted(input, pos, brackets, c, i);
    } else if i == 7 {
      EmitOfLast(c, embed, i);
      LastComponentEnds(input, pos, brackets, c, embed, i);
    } else {
      WalkOne(input, pos, brackets, c, embed, i);
    }
  }

  lemma {:induction false} WalkOne(input: string, pos: nat, brackets: nat, c: Components, embed: bool, i: nat)
    requires Visited(c, embed, i) && i < 7 && !Abbreviates(c, embed, i) && !(embed && i == 6)
    requires Ahead(input, pos, Emit(c, embed, i))
    ensures pos + |Emit(c, embed, i)| <= |input|
    ensures AtEnd(Run(Before(input, pos, brackets, c, embed, i), |Emit(c, embed, i)|),
                  input, pos + |Emit(c, embed, i)|, brackets, c, embed)
    decreases 8 - i, 0
  {
    hide *;
    WalkEmitComponent(input, pos, brackets, c, embed, i);
    var n := |Hex(c[i])| + 1;
    WalkEmit(input, pos + n, brackets, c, embed, i + 1);
    RunChain(Before(input, pos, brackets, c, embed, i), n, Before(input, pos + n, brackets, c, embed, i + 1),
             |Emit(c, embed, i + 1)|, input, pos + |Emit(c, embed, i)|, brackets, c, embed);
  }

  lemma WalkDotted(input: string, pos: nat, brackets: nat, c: Components, i: nat)
    requires i == 6 && Visited(c, true, i) && !Abbreviates(c, true, i) && Ahead(input, pos, Emit(c, true, i))
    ensures pos + |Emit(c, true, i)| <= |input|
    ensures AtEnd(Run(Before(input, pos, brackets, c, true, i), |Emit(c, true, i)|),
                  input, pos + |Emit(c, true, i)|, brackets, c, true)
  {
    hide Ipv6Reader.Run, Before, AtEnd, Ipv6Text.Quad, Visited, Ipv6Text.Longest, Ahead;
    QuadEnds(input, pos, brackets, c);
  }

  lemma {:induction false} WalkAbbreviated(input: string, pos: nat, brackets: nat, c: Components, embed: bool, i: nat)
    requires Visited(c, embed, i) && i < 8 && Abbreviates(c, embed, i)
    requires Ahead(input, pos, Emit(c, embed, i))
    ensures pos + |Emit(c, embed, i)| <= |input|
    ensures AtEnd(Run(Before(input, pos, brackets, c, embed, i), |Emit(c, embed, i)|),
                  input, pos + |Emit(c, embed, i)|, brackets, c, embed)
    decreases 8 - i, 0
  {
    hide *;
    WalkEmitAbbreviated(input, pos, brackets, c, embed, i);
    var n, next := if i == 0 then 2 else 1, i + Longest(c).len;
    if next < 8 {
      WalkEmit(input, pos + n, brackets, c, embed, next);
      RunChain(Before(input, pos, brackets, c, embed, i), n, Before(input, pos + n, brackets, c, embed, next),
               |Emit(c, embed, next)|, input, pos + |Emit(c, embed, i)|, brackets, c, embed);
    } else {
      EmitEnds(c, embed, next);
    }
  }

  lemma EmitEnds(c: Components, embed: bool, i: nat)
    requires i == 8
    ensures |Emit(c, embed, i)| == 0
  {
  }

  lemma EmitOfLast(c: Components, embed: bool, i: nat)
    requires i == 7 && !Abbreviates(c, embed, i)
    ensures Emit(c, embed, i) == Hex(c[i])
  {
    hide Ipv6Text.Longest, Numerals.Hex, Ipv6Text.Abbreviates;
  }

  lemma EmitOfComponent(c: Components, embed: bool, i: nat)
    requires i < 7 && !Abbreviates(c, embed, i) && !(embed && i == 6)
    ensures Emit(c, embed, i) == Hex(c[i]) + ":" + Emit(c, embed, i + 1)
  {
    hide Ipv6Text.Longest, Numerals.Hex, Ipv6Text.Abbreviates;
  }

  lemma EmitComponentAhead(input: string, pos: nat, c: Components, embed: bool, i: nat)
    requires i < 7 && !Abbreviates(c, embed, i) && !(embed && i == 6) && Ahead(input, pos, Emit(c, embed, i))
    ensures |Emit(c, embed, i)| == |Hex(c[i])| + 1 + |Emit(c, embed, i + 1)| && pos + |Emit(c, embed, i)| <= |input|
    ensures Ahead(input, pos, Hex(c[i]) + ":") && Ahead(input, pos + |Hex(c[i])| + 1, Emit(c, embed, i + 1))
  {
    hide *;
    EmitOfComponent(c, embed, i);
    AheadSplit(input, pos, Hex(c[i]) + ":", Emit(c, embed, i + 1));
  }

  lemma BeforeNext(input: string, pos: nat, brackets: nat, c: Components, embed: bool, i: nat)
    requires Visited(c, embed, i) && i < 8 && !Abbreviates(c, embed, i) && !(embed && i == 6)
    ensures Visited(c, embed, i + 1) && |Kept(c, embed, i)| <= i
    ensures Before(input, pos, brackets, c, embed, i + 1)
            == Scan(input, StV6Separator, pos, brackets, Kept(c, embed, i) + [c[i]], Zerorun(c, embed, i))
  {
    VisitsNext(c, embed, i);
    KeptGrows(c, embed, i);
    hide Kept, Zerorun, Scan, Visited, Abbreviates, Ipv6Text.Longest;
  }

  lemma RunsComponent(input: string, pos: nat, brackets: nat, c: Components, embed: bool, i: nat)
    requires Visited(c, embed, i) && i < 8 && !Abbreviates(c, embed, i) && !(embed && i == 6)
    requires Ahead(input, pos, Hex(c[i]) + ":")
    ensures pos + |Hex(c[i])| + 1 <= |input| && Visited(c, embed, i + 1)
    ensures Run(Before(input, pos, brackets, c, embed, i), |Hex(c[i])| + 1)
            == Before(input, pos + |Hex(c[i])| + 1, brackets, c, embed, i + 1)
  {
    assert |c| == 8;
    hide *;
    BeforeIsScan(input, pos, brackets, c, embed, i);
    BeforeNext(input, pos + |Hex(c[i])| + 1, brackets, c, embed, i);
    assert Names(Hex(c[i]), 16, c[i]) by { HexNames(c[i]); }
    WalkComponent(input, if i == 0 then StNone else StV6Separator, pos, brackets, Kept(c, embed, i), Zerorun(c, embed, i),
                  Hex(c[i]), c[i]);
  }

  lemma WalkEmitComponent(input: string, pos: nat, brackets: nat, c: Components, embed: bool, i: nat)
    requires Visited(c, embed, i) && i < 7 && !Abbreviates(c, embed, i) && !(embed && i == 6)
    requires Ahead(input, pos, Emit(c, embed, i))
    ensures var n := |Hex(c[i])| + 1;
      && |Emit(c, embed, i)| == n + |Emit(c, embed, i + 1)| && pos + |Emit(c, embed, i)| <= |input|
      && Visited(c, embed, i + 1) && Ahead(input, pos + n, Emit(c, embed, i + 1))
      && Run(Before(input, pos, brackets, c, embed, i), n) == Before(input, pos + n, brackets, c, embed, i + 1)
  {
    hide *;
    EmitComponentAhead(input, pos, c, embed, i);
    RunsComponent(input, pos, brackets, c, embed, i);
  }

  lemma AbbreviationAhead(input: string, pos: nat, c: Components, embed: bool, i: nat)
    requires i < 8 && Abbreviates(c, embed, i) && i + Longest(c).len <= 8 && Ahead(input, pos, Emit(c, embed, i))
    ensures var n, next := if i == 0 then 2 else 1, i + Longest(c).len;
      && |Emit(c, embed, i)| == n + |Emit(c, embed, next)| && pos + |Emit(c, embed, i)| <= |input|
      && Ahead(input, pos, if i == 0 then "::" else ":") && Ahead(input, pos + n, Emit(c, embed, next))
  {
    var colons, next := if i == 0 then "::" else ":", i + Longest(c).len;
    assert Emit(c, embed, i) == colons + Emit(c, embed, next);
    hide Emit, Longest, Abbreviates;
    AheadSplit(input, pos, colons, Emit(c, embed, next));
  }

  lemma BeforeSkip(input: string, pos: nat, brackets: nat, c: Components, embed: bool, i: nat)
    requires Visited(c, embed, i) && i < 8 && Abbreviates(c, embed, i)
    ensures var next := i + Longest(c).len;
      && Visited(c, embed, next) && |Kept(c, embed, i)| == i
      && Before(input, pos, brackets, c, embed, next) == Scan(input, StV6Separator, pos, brackets, Kept(c, embed, i), Some(i))
  {
    KeptSkips(c, embed, i);
    hide Kept, Zerorun, Scan, Visited, Abbreviates, Ipv6Text.Longest;
  }

  lemma RunsAbbreviation(input: string, pos: nat, brackets: nat, c: Components, embed: bool, i: nat)
    requires Visited(c, embed, i) && i < 8 && Abbreviates(c, embed, i) && Ahead(input, pos, if i == 0 then "::" else ":")
    ensures var n, next := if i == 0 then 2 else 1, i + Longest(c).len;
      && Visited(c, embed, next) && pos + n <= |input|
      && Run(Before(input, pos, brackets, c, embed, i), n) == Before(input, pos + n, brackets, c, embed, next)
  {
    assert Zerorun(c, embed, i) == None by { KeptSkips(c, embed, i); }
    hide *;
    BeforeIsScan(input, pos, brackets, c, embed, i);
    BeforeSkip(input, pos + if i == 0 then 2 else 1, brackets, c, embed, i);
    assert i == 0 ==> Kept(c, embed, i) == [];
    WalkAbbreviation(input, pos, brackets, Kept(c, embed, i), i == 0);
  }

  lemma WalkEmitAbbreviated(input: string, pos: nat, brackets: nat, c: Components, embed: bool, i: nat)
    requires Visited(c, embed, i) && i < 8 && Abbreviates(c, embed, i)
    requires Ahead(input, pos, Emit(c, embed, i))
    ensures var n, next := if i == 0 then 2 else 1, i + Longest(c).len;
      && i < next <= 8
      && |Emit(c, embed, i)| == n + |Emit(c, embed, next)| && pos + |Emit(c, embed, i)| <= |input|
      && Visited(c, embed, next) && Ahead(input, pos + n, Emit(c, embed, next))
      && Run(Before(input, pos, brackets, c, embed, i), n) == Before(input, pos + n, brackets, c, embed, next)
      && (next == 8 ==> AtEnd(Before(input, pos + n, brackets, c, embed, next), input, pos + n, brackets, c, embed))
  {
    var next := i + Longest(c).len;
    KeptSkips(c, embed, i);
    assert next <= 8;
    hide *;
    AbbreviationAhead(input, pos, c, embed, i);
    RunsAbbreviation(input, pos, brackets, c, embed, i);
    if next == 8 {
      AbbreviationEnds(input, pos + if i == 0 then 2 else 1, brackets, c, embed);
    }
  }
}
