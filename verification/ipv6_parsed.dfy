/** What a string holds that the parser accepts: where the components of the answer come from,
    over the whole run, for the zero run and for an embedded IPv4 address. */
module Ipv6Parsed {
  import opened Wrappers
  import opened Numerals
  import opened Ipv6Address
  import opened Ipv6Reader
  import opened Ipv6Invariant

  /** The reader after the whole input and the whitespace that flushes the last token. */
  function Flushed(input: string, inputBytes: nat): Reader {
    Step(Run(Start(input, inputBytes), VisibleLength(input, inputBytes)), EcWhitespace)
  }

  lemma AcceptedIsFlushed(input: Option<string>, inputBytes: nat)
    requires FromStr(input, inputBytes).ok
    ensures input.Some?
    ensures var q := Run(Start(input.value, inputBytes), VisibleLength(input.value, inputBytes));
      Sound(q) && q.position == VisibleLength(input.value, inputBytes) && Honest(q)
    ensures var r := Flushed(input.value, inputBytes);
      Shape(r) && Conclude(r).0 && FromStr(input, inputBytes).out == Some(Conclude(r).1.out)
  {
    var n := VisibleLength(input.value, inputBytes);
    var start := Start(input.value, inputBytes);
    StartIsSound(input.value, inputBytes);
    RunIsSound(start, n);
    StepKeepsShape(Run(start, n), EcWhitespace);
    hide Ipv6Reader.Run, Ipv6Reader.Step, Shape, Sound;
    ConcludesUnfailed(Step(Run(start, n), EcWhitespace));
  }

  // ---- Components and the zero run ----

  /** What the answer holds at each index: the components before the run, zeros, and those
      after it, in order; n were read in all. */
  ghost predicate Abbreviates(c: Components, read: Components, z: nat, n: nat) {
    && z <= n <= 8
    && forall i :: 0 <= i < 8 ==>
         c[i] == if i < z then read[i] else if i < z + (8 - n) then 0 else read[i - (8 - n)]
  }

  lemma ConcludesComponents(r: Reader)
    requires Shape(r) && Conclude(r).0
    ensures var b := Conclude(r).1.out;
      && (r.embedding ==> r.v4Octets == 4)
      && (r.compat ==> b.components == r.out.components)
      && (!r.compat && r.hasZerorun ==> Abbreviates(b.components, r.out.components, r.zerorun, r.components))
      && (!r.compat && !r.hasZerorun ==> r.components == 8 && b.components == r.out.components)
      && (b.flags.compat <==> r.compat) && b.port == r.out.port && b.mask == r.out.mask
      && b.flags.port == r.out.flags.port && (b.flags.mask <==> r.out.flags.mask || r.embedding)
  {
    if r.hasZerorun { ExpandsTo(r.out.components, r.zerorun, r.components); }
    hide Expand, Abbreviates;
  }

  lemma ExpandsTo(c: Components, z: nat, n: nat)
    requires z <= n <= 8
    ensures Abbreviates(Expand(c, z, n), c, z, n)
  {
    forall i | 0 <= i < 8
      ensures Expand(c, z, n)[i] == if i < z then c[i] else if i < z + (8 - n) then 0 else c[i - (8 - n)]
    {
      ExpandSplits(c, z, n, i);
    }
  }

  /** For every accepted string: without "::" exactly eight components were read, and they are the
      answer; with it at most eight, and zeros fill up to eight where it stood. An IPv4-compatible
      address is the two components of its quad. */
  lemma AcceptedComponents(input: Option<string>, inputBytes: nat)
    requires FromStr(input, inputBytes).ok
    ensures input.Some? && FromStr(input, inputBytes).out.Some?
    ensures var r, b := Flushed(input.value, inputBytes), FromStr(input, inputBytes).out.value;
      && (!r.compat && r.hasZerorun ==> Abbreviates(b.components, r.out.components, r.zerorun, r.components))
      && (!r.compat && !r.hasZerorun ==> r.components == 8 && b.components == r.out.components)
      && (r.compat ==> r.components == 2 && b.components == r.out.components)
      && (b.flags.compat <==> r.compat) && (r.embedding ==> r.v4Octets == 4)
  {
    AcceptedIsFlushed(input, inputBytes);
    var r := Flushed(input.value, inputBytes);
    hide Flushed, Ipv6Reader.FromStr, Abbreviates, Ipv6Reader.Conclude;
    ConcludesComponents(r);
  }

  // ---- Octets over the whole run ----

  /** The octet that a step stores, as the accumulator holds it. */
  function OctetOf(r: Reader, s: Reader): seq<int> {
    if s.v4Octets > r.v4Octets then [ReadToken(r, 10).1] else []
  }

  /** The octets that are stored while n characters are read. */
  function OctetsRead(r: Reader, n: nat): seq<int>
    requires r.position + n <= |r.input|
    decreases n
  {
    if n == 0 || r.failed || Advance(r).failed then []
    else OctetOf(r, Advance(r)) + OctetsRead(Advance(r), n - 1)
  }

  /** All octets of a string, with the one that the end of the input flushes. */
  function AllOctets(input: string, inputBytes: nat): seq<int> {
    var start, n := Start(input, inputBytes), VisibleLength(input, inputBytes);
    OctetsRead(start, n) + OctetOf(Run(start, n), Flushed(input, inputBytes))
  }

  ghost predicate NonNegative(os: seq<int>) { forall i :: 0 <= i < |os| ==> os[i] >= 0 }

  function Nth(os: seq<int>, i: nat): int { if i < |os| then os[i] else 0 }

  /** os are the octets so far, each at most 255; if none is negative, they fill the pair. */
  ghost predicate Packed(r: Reader, os: seq<int>) {
    && |os| == r.v4Octets <= 4
    && (!r.embedding ==> os == [])
    && (forall i :: 0 <= i < |os| ==> os[i] <= 0xff)
    && (r.embedding && NonNegative(os) ==>
          && r.v4Embedding <= 6
          && r.out.components[r.v4Embedding] == 0x100 * Nth(os, 0) + Nth(os, 1)
          && r.out.components[r.v4Embedding + 1] == 0x100 * Nth(os, 2) + Nth(os, 3))
  }

  lemma StartIsPacked(input: string, inputBytes: nat)
    ensures Packed(Start(input, inputBytes), [])
  {
  }

  /** An octet that is stored in a reader whose pair holds the octets before it. */
  lemma OctetPacks(r: Reader, os: seq<int>)
    requires r.embedding && r.v4Octets < 4 && r.v4Embedding <= 6 && Packed(r, os)
    requires Clear(r.out.components, r.components, true, r.v4Embedding, r.v4Octets)
    requires !ParseV4Component(r).failed && !r.failed
    ensures ParseV4Component(r).v4Octets == r.v4Octets + 1
    ensures Packed(ParseV4Component(r), os + [ReadToken(r, 10).1])
  {
    OctetWasRead(r);
    OctetIsAdded(r);
    hide Ipv6Reader.ReadToken, Ipv6Reader.OrOctet, Clear;
    var s, all, octet := ParseV4Component(r), os + [ReadToken(r, 10).1], ReadToken(r, 10).1;
    if NonNegative(all) {
      assert octet == all[|os|];
      assert forall i :: 0 <= i < |os| ==> os[i] == all[i];
    }
  }

  lemma OctetWasRead(r: Reader)
    requires !ParseV4Component(r).failed && !r.failed
    ensures !ReadToken(r, 10).0.failed && ReadToken(r, 10).1 <= 0xff
  {
    hide Ipv6Reader.OrOctet;
  }

  /** What a step does about octets: nothing, store one more, or begin with the first. */
  ghost predicate OctetStep(r: Reader, s: Reader) {
    || (&& s.v4Octets == r.v4Octets && s.embedding == r.embedding && s.v4Embedding == r.v4Embedding
        && (r.embedding ==> s.out.components == r.out.components))
    || (&& r.embedding && !ParseV4Component(r).failed && s.v4Octets == ParseV4Component(r).v4Octets
        && s.embedding && s.v4Embedding == r.v4Embedding && s.out.components == ParseV4Component(r).out.components)
    || (&& !r.embedding && r.components < 7 && !ParseV4Component(BeginEmbedding(r)).failed
        && s.v4Octets == ParseV4Component(BeginEmbedding(r)).v4Octets
        && s.embedding && s.v4Embedding == r.components
        && s.out.components == ParseV4Component(BeginEmbedding(r)).out.components)
  }

  lemma StepIsOctetStep(r: Reader, ec: EventClass)
    requires !r.failed && !Step(r, ec).failed
    ensures OctetStep(r, Step(r, ec))
  {
    hide Ipv6Reader.ReadToken, Ipv6Reader.OrOctet;
    if r.current.StAddrComponent? {
      AddrComponentIsOctetStep(r, ec);
    } else {
      OtherStatesKeepOctets(r, ec);
      OtherStatesWriteNoComponent(r, ec);
    }
  }

  lemma OtherStatesKeepOctets(r: Reader, ec: EventClass)
    requires !r.current.StAddrComponent?
    ensures Step(r, ec).v4Octets == r.v4Octets
  {
  }

  lemma FlushIsOctetStep(r: Reader)
    requires !r.failed && !ParseComponent(r).failed
    ensures OctetStep(r, ParseComponent(r))
  {
    ReadsOrFails(r, 10);
    ReadsOrFails(r, 16);
    hide Ipv6Reader.ReadToken, Ipv6Reader.OrOctet;
  }

  lemma BeginningIsOctetStep(r: Reader)
    requires !r.failed && !r.embedding && r.components < 7 && !ParseComponent(BeginEmbedding(r)).failed
    ensures OctetStep(r, ParseComponent(BeginEmbedding(r)))
  {
    ReadsOrFails(BeginEmbedding(r), 10);
    hide Ipv6Reader.ReadToken, Ipv6Reader.OrOctet;
  }

  lemma AddrComponentIsOctetStep(r: Reader, ec: EventClass)
    requires r.current.StAddrComponent? && !r.failed && !Step(r, ec).failed
    ensures OctetStep(r, Step(r, ec))
  {
    if !ParseComponent(r).failed { FlushIsOctetStep(r); }
    if !r.embedding && r.components < 7 && !ParseComponent(BeginEmbedding(r)).failed { BeginningIsOctetStep(r); }
    hide ParseComponent, ParseV4Component;
  }

  lemma StepPacks(r: Reader, ec: EventClass, os: seq<int>)
    requires Sound(r) && Packed(r, os) && !Step(r, ec).failed
    ensures Packed(Step(r, ec), os + OctetOf(r, Step(r, ec)))
  {
    SoundFacts(r);
    StepIsOctetStep(r, ec);
    OctetStepPacks(r, Step(r, ec), os);
  }

  lemma OctetStepPacks(r: Reader, s: Reader, os: seq<int>)
    requires !r.failed && r.v4Octets <= 4 && (r.embedding ==> r.v4Embedding <= 6)
    requires Clear(r.out.components, r.components, r.embedding, r.v4Embedding, r.v4Octets)
    requires Packed(r, os) && OctetStep(r, s)
    ensures Packed(s, os + OctetOf(r, s))
  {
    hide Packed, Clear, ParseV4Component, Ipv6Reader.ReadToken, BeginEmbedding;
    assert os + [] == os;
    if s.v4Octets <= r.v4Octets {
      NoOctetPacks(r, s, os);
    } else if r.embedding {
      NextOctetPacks(r, s, os);
    } else {
      FirstOctetPacks(r, s, os);
    }
  }

  lemma NoOctetPacks(r: Reader, s: Reader, os: seq<int>)
    requires !r.failed && r.v4Octets <= 4 && (r.embedding ==> r.v4Embedding <= 6)
    requires Clear(r.out.components, r.components, r.embedding, r.v4Embedding, r.v4Octets)
    requires Packed(r, os) && OctetStep(r, s) && s.v4Octets <= r.v4Octets
    ensures Packed(s, os)
  {
    if r.embedding && !ParseV4Component(r).failed {
      FourAtMost(r);
      OctetPacks(r, os);
    }
    if !r.embedding && r.components < 7 && !ParseV4Component(BeginEmbedding(r)).failed {
      NoOctetsYet(r, os);
      BeginsClear(r);
      OctetPacks(BeginEmbedding(r), os);
    }
    hide ParseV4Component, Ipv6Reader.ReadToken, BeginEmbedding, Clear;
  }

  lemma NoOctetsYet(r: Reader, os: seq<int>)
    requires Packed(r, os) && !r.embedding
    ensures r.v4Octets == 0 && os == []
  {
  }

  lemma NextOctetPacks(r: Reader, s: Reader, os: seq<int>)
    requires !r.failed && r.embedding && r.v4Octets <= 4 && r.v4Embedding <= 6
    requires Clear(r.out.components, r.components, true, r.v4Embedding, r.v4Octets)
    requires Packed(r, os) && OctetStep(r, s) && s.v4Octets > r.v4Octets
    ensures Packed(s, os + [ReadToken(r, 10).1])
  {
    hide Packed, Clear, ParseV4Component, Ipv6Reader.ReadToken, BeginEmbedding;
    FourAtMost(r);
    OctetPacks(r, os);
    EmbeddingStays(r);
    SamePair(ParseV4Component(r), s, os + [ReadToken(r, 10).1]);
  }

  lemma EmbeddingStays(r: Reader)
    requires r.embedding && !ParseV4Component(r).failed
    ensures ParseV4Component(r).embedding && ParseV4Component(r).v4Embedding == r.v4Embedding
  {
    ReadsOrFails(r, 10);
    hide Ipv6Reader.ReadToken, OrOctet;
  }

  lemma FirstOctetPacks(r: Reader, s: Reader, os: seq<int>)
    requires !r.failed && !r.embedding && Packed(r, os) && OctetStep(r, s) && s.v4Octets > r.v4Octets
    requires Clear(r.out.components, r.components, false, r.v4Embedding, r.v4Octets)
    ensures Packed(s, os + [ReadToken(r, 10).1])
  {
    NoOctetsYet(r, os);
    BeginsClear(r);
    hide Packed, Clear, ParseV4Component, Ipv6Reader.ReadToken, BeginEmbedding;
    OctetPacks(BeginEmbedding(r), os);
    EmbeddingStays(BeginEmbedding(r));
    SamePair(ParseV4Component(BeginEmbedding(r)), s, os + [ReadToken(r, 10).1]);
  }

  lemma FourAtMost(r: Reader)
    requires !r.failed && !ParseV4Component(r).failed
    ensures r.v4Octets < 4
  {
  }

  /** Packed speaks of the octets and the pair only. */
  lemma SamePair(r: Reader, s: Reader, os: seq<int>)
    requires s.v4Octets == r.v4Octets && s.embedding == r.embedding && s.v4Embedding == r.v4Embedding
    requires s.out.components == r.out.components && Packed(r, os)
    ensures Packed(s, os)
  {
  }

  lemma BeginsClear(r: Reader)
    requires !r.failed && !r.embedding && r.components < 7 && r.v4Octets == 0
    requires Clear(r.out.components, r.components, false, r.v4Embedding, r.v4Octets)
    ensures var b := BeginEmbedding(r);
      && Clear(b.out.components, b.components, true, b.v4Embedding, b.v4Octets) && Packed(b, [])
      && !b.failed && b.embedding && b.v4Octets == 0 && b.v4Embedding == r.components
      && ReadToken(b, 10).1 == ReadToken(r, 10).1
  {
  }

  // ---- Whole runs ----

  lemma AdvanceIsStep(r: Reader) returns (r0: Reader, ec: EventClass)
    requires r.position < |r.input| && !Advance(r).failed
    ensures r0 == r.(brackets := r0.brackets) && !Step(r0, ec).failed
    ensures Advance(r) == Step(r0, ec).(position := r.position + 1)
  {
    hide Ipv6Reader.Step;
    var c := r.input[r.position];
    ec := Classify(c).value;
    r0 := if c == '[' then r.(brackets := r.brackets + 1) else r;
  }

  /** One character. */
  lemma AdvancePacks(r: Reader, os: seq<int>)
    requires Sound(r) && Packed(r, os) && r.position < |r.input| && !Advance(r).failed
    ensures Packed(Advance(r), os + OctetOf(r, Advance(r)))
  {
    hide *;
    var r0, ec := AdvanceIsStep(r);
    BracketsAside(r, r0, os);
    StepPacks(r0, ec, os);
    MovedPacks(Step(r0, ec), r.position + 1, os + OctetOf(r0, Step(r0, ec)));
    SameOctet(r, r0, Step(r0, ec), Advance(r));
  }

  lemma SameOctet(r: Reader, r0: Reader, s: Reader, s': Reader)
    requires ReadToken(r0, 10).1 == ReadToken(r, 10).1 && r0.v4Octets == r.v4Octets && s.v4Octets == s'.v4Octets
    ensures OctetOf(r, s') == OctetOf(r0, s)
  {
  }

  lemma BracketsAside(r: Reader, r0: Reader, os: seq<int>)
    requires r0 == r.(brackets := r0.brackets) && Sound(r) && Packed(r, os)
    ensures Sound(r0) && Packed(r0, os) && ReadToken(r0, 10).1 == ReadToken(r, 10).1
  {
  }

  lemma MovedPacks(s: Reader, position: nat, os: seq<int>)
    requires Packed(s, os)
    ensures Packed(s.(position := position), os)
  {
  }

  lemma {:induction false} RunPacks(r: Reader, n: nat, os: seq<int>)
    requires Sound(r) && Packed(r, os) && r.position + n <= |r.input| && r.position + n <= r.inputBytes
    requires !Run(r, n).failed
    ensures Packed(Run(r, n), os + OctetsRead(r, n))
    decreases n
  {
    hide Sound, Packed, Ipv6Reader.Advance, OctetOf;
    assert os + [] == os;
    if n > 0 {
      NotFailed(r);
      RunUnfolds(r, n);
      AdvanceIsSound(r);
      AdvancePacks(r, os);
      var s, first := Advance(r), OctetOf(r, Advance(r));
      RunPacks(s, n - 1, os + first);
      assert os + first + OctetsRead(s, n - 1) == os + (first + OctetsRead(s, n - 1));
    }
  }

  lemma NotFailed(r: Reader)
    requires Sound(r)
    ensures !r.failed
  {
  }

  /** For every accepted string with an embedded address, exactly four octets were stored over
      the run, none above 255, and if none is negative the pair holds 256 times the first plus
      the second and 256 times the third plus the fourth. */
  lemma AcceptedOctets(input: Option<string>, inputBytes: nat)
    requires FromStr(input, inputBytes).ok && input.Some?
    requires Flushed(input.value, inputBytes).embedding
    ensures var os, r := AllOctets(input.value, inputBytes), Flushed(input.value, inputBytes);
      && |os| == 4 && (forall i :: 0 <= i < 4 ==> os[i] <= 0xff)
      && r.v4Embedding <= 6
      && (NonNegative(os) ==>
            && r.out.components[r.v4Embedding] == 0x100 * os[0] + os[1]
            && r.out.components[r.v4Embedding + 1] == 0x100 * os[2] + os[3])
  {
    hide *;
    var text := input.value;
    var start, n := Start(text, inputBytes), VisibleLength(text, inputBytes);
    StartPlace(text, inputBytes);
    var q, r := Run(start, n), Flushed(text, inputBytes);
    FlushedUnfolds(text, inputBytes);
    assert Sound(q) && Shape(r) by { AcceptedIsFlushed(input, inputBytes); }
    assert r.components <= 8 && r.v4Embedding <= 6 by { FlushedShape(r); }
    assert Conclude(r).0 by { AcceptedIsFlushed(input, inputBytes); }
    assert r.v4Octets == 4 by { AcceptedComponents(input, inputBytes); }
    assert !q.failed by { NotFailed(q); }
    assert !r.failed by { ConcludesUnfailed(r); }
    assert Packed(q, OctetsRead(start, n)) by {
      StartIsSound(text, inputBytes);
      StartIsPacked(text, inputBytes);
      RunPacks(start, n, []);
      assert [] + OctetsRead(start, n) == OctetsRead(start, n);
    }
    StepPacks(q, EcWhitespace, OctetsRead(start, n));
    PackedSays(r, AllOctets(text, inputBytes));
  }

  lemma StartPlace(text: string, inputBytes: nat)
    ensures var start := Start(text, inputBytes); start.position == 0 && start.input == text && start.inputBytes == inputBytes
  {
  }

  lemma FlushedUnfolds(text: string, inputBytes: nat)
    ensures var start, n := Start(text, inputBytes), VisibleLength(text, inputBytes);
      && Flushed(text, inputBytes) == Step(Run(start, n), EcWhitespace)
      && AllOctets(text, inputBytes) == OctetsRead(start, n) + OctetOf(Run(start, n), Flushed(text, inputBytes))
  {
    hide Ipv6Reader.Run, Ipv6Reader.Step, OctetsRead, OctetOf;
  }

  lemma FlushedShape(r: Reader)
    requires Shape(r)
    ensures r.components <= 8 && (r.embedding ==> r.v4Embedding <= 6)
  {
  }

  lemma PackedSays(r: Reader, os: seq<int>)
    requires Packed(r, os) && r.embedding && r.v4Octets == 4
    ensures |os| == 4 && forall i :: 0 <= i < 4 ==> os[i] <= 0xff
    ensures NonNegative(os) ==>
      && r.v4Embedding <= 6
      && r.out.components[r.v4Embedding] == 0x100 * os[0] + os[1]
      && r.out.components[r.v4Embedding + 1] == 0x100 * os[2] + os[3]
  {
  }

  /** Once octets have begun, no component outside the pair changes for the rest of the run. */
  lemma {:induction false} RestIsFrozen(r: Reader, n: nat, i: nat)
    requires Sound(r) && r.embedding && r.position + n <= |r.input| && r.position + n <= r.inputBytes
    requires i < 8 && (i < r.v4Embedding || r.v4Embedding + 2 <= i) && !Run(r, n).failed
    ensures Run(r, n).embedding && Run(r, n).v4Embedding == r.v4Embedding
    ensures Run(r, n).out.components[i] == r.out.components[i]
    decreases n
  {
    hide Sound, Ipv6Reader.Advance;
    if n > 0 {
      NotFailed(r);
      RunUnfolds(r, n);
      AdvanceIsSound(r);
      AdvanceFreezes(r, i);
      RestIsFrozen(Advance(r), n - 1, i);
    }
  }

  lemma AdvanceFreezes(r: Reader, i: nat)
    requires Sound(r) && r.embedding && r.position < |r.input| && !Advance(r).failed
    requires i < 8 && (i < r.v4Embedding || r.v4Embedding + 2 <= i)
    ensures Advance(r).embedding && Advance(r).v4Embedding == r.v4Embedding
    ensures Advance(r).out.components[i] == r.out.components[i]
  {
    var c := r.input[r.position];
    hide Ipv6Reader.Step;
    EmbeddingFreezesTheRest(if c == '[' then r.(brackets := r.brackets + 1) else r, Classify(c).value, i);
  }

  // ---- Components over the whole run ----

  /** The text of the component that a step stores. */
  function ComponentOf(r: Reader, s: Reader): seq<string> {
    if !s.embedding && s.components > r.components then [Token(r)] else []
  }

  /** The texts of the components that are stored while n characters are read. */
  function ComponentsRead(r: Reader, n: nat): seq<string>
    requires r.position + n <= |r.input|
    decreases n
  {
    if n == 0 || r.failed || Advance(r).failed then []
    else ComponentOf(r, Advance(r)) + ComponentsRead(Advance(r), n - 1)
  }

  /** All components of a string, with the one that the end of the input flushes. */
  function AllComponents(input: string, inputBytes: nat): seq<string> {
    var start, n := Start(input, inputBytes), VisibleLength(input, inputBytes);
    ComponentsRead(start, n) + ComponentOf(Run(start, n), Flushed(input, inputBytes))
  }

  /** How many components stand before the pair, or in all. */
  function Written(r: Reader): nat { if r.embedding then r.v4Embedding else r.components }

  ghost predicate Holds(c: Components, i: nat, t: string) {
    i < 8 && AllHex(t) && c[i] == Positional(t, 16) % 0x1_0000
  }

  /** ts are the components so far, and slot i holds the number of the i-th, modulo 2^16. */
  ghost predicate Slotted(r: Reader, ts: seq<string>) {
    |ts| == Written(r) <= 8 && forall i :: 0 <= i < |ts| ==> Holds(r.out.components, i, ts[i])
  }

  lemma StartIsSlotted(input: string, inputBytes: nat)
    ensures Slotted(Start(input, inputBytes), [])
  {
  }

  /** A step that keeps the components before the pair, and how many there are. */
  ghost predicate KeepsSlots(r: Reader, s: Reader) {
    Written(s) == Written(r) && forall i :: 0 <= i < Written(r) && i < 8 ==> s.out.components[i] == r.out.components[i]
  }

  /** A step that stores one more component. */
  ghost predicate AddsSlot(r: Reader, s: Reader) {
    && !r.embedding && !s.embedding && !ParseComponent(r).failed && r.current.StAddrComponent?
    && s.components == r.components + 1 && s.out.components == ParseComponent(r).out.components
  }

  lemma EmbeddedStepKeepsSlots(r: Reader, ec: EventClass)
    requires Shape(r) && r.embedding
    ensures KeepsSlots(r, Step(r, ec)) && Step(r, ec).embedding
  {
    hide Ipv6Reader.Step;
    EmbeddingFreezesTheRest(r, ec, if r.v4Embedding > 0 then 0 else 2);
    forall i | 0 <= i < r.v4Embedding && i < 8 ensures Step(r, ec).out.components[i] == r.out.components[i] {
      EmbeddingFreezesTheRest(r, ec, i);
    }
  }

  lemma OtherStepKeepsSlots(r: Reader, ec: EventClass)
    requires !r.current.StAddrComponent?
    ensures KeepsSlots(r, Step(r, ec)) && Step(r, ec).components == r.components
  {
    OtherStatesWriteNoComponent(r, ec);
  }

  lemma BeginningKeepsSlots(r: Reader)
    requires !r.embedding && r.components < 7
    ensures KeepsSlots(r, ParseComponent(BeginEmbedding(r))) && ParseComponent(BeginEmbedding(r)).embedding
  {
    ReadsOrFails(BeginEmbedding(r), 10);
    ReadFailureKeeps(BeginEmbedding(r), 10);
    hide Ipv6Reader.ReadToken, OrOctet;
  }

  lemma ReadFailureKeeps(r: Reader, base: Radix)
    ensures var s := ReadToken(r, base).0;
      && s.out == r.out && s.components == r.components && s.v4Octets == r.v4Octets
      && s.embedding == r.embedding && s.v4Embedding == r.v4Embedding
  {
  }

  lemma ComponentAddsSlot(r: Reader)
    requires !r.embedding && !r.failed && r.current.StAddrComponent? && !ParseComponent(r).failed
    ensures ParseComponent(r).components == r.components + 1 && !ParseComponent(r).embedding
  {
    ReadFailureKeeps(r, 16);
    hide Ipv6Reader.ReadToken;
  }

  lemma AddrStepOfSlots(r: Reader, ec: EventClass)
    requires !r.embedding && !r.failed && r.current.StAddrComponent? && !Step(r, ec).failed
    ensures KeepsSlots(r, Step(r, ec)) || AddsSlot(r, Step(r, ec))
    ensures Step(r, ec).embedding || Step(r, ec).components == r.components || AddsSlot(r, Step(r, ec))
  {
    if !ParseComponent(r).failed { ComponentAddsSlot(r); }
    if r.components < 7 { BeginningKeepsSlots(r); }
    hide ParseComponent, KeepsSlots;
    SameKeepsSlots(r);
    if ec.EcV4Separator? { MovedKeepsSlots(r, ParseComponent(BeginEmbedding(r)), Step(r, ec)); }
    if ec.EcDigit? || ec.EcHexDigit? { MovedKeepsSlots(r, r, Step(r, ec)); }
  }

  lemma SameKeepsSlots(r: Reader)
    ensures KeepsSlots(r, r)
  {
  }

  lemma MovedKeepsSlots(r: Reader, s: Reader, s': Reader)
    requires KeepsSlots(r, s) && s'.out.components == s.out.components && Written(s') == Written(s)
    ensures KeepsSlots(r, s')
  {
  }

  lemma KeptIsSlotted(r: Reader, s: Reader, ts: seq<string>)
    requires Slotted(r, ts) && KeepsSlots(r, s)
    ensures Slotted(s, ts)
  {
    hide AllHex, Positional;
  }

  lemma AddedIsSlotted(r: Reader, s: Reader, ts: seq<string>)
    requires Sound(r) && Slotted(r, ts) && AddsSlot(r, s)
    ensures Slotted(s, ts + [Token(r)])
  {
    SoundFacts(r);
    ComponentIsStored(r);
    TokenIsReading(r);
    hide ParseComponent, Positional, AllHex, Token, Reading, Sound;
    var all := ts + [Token(r)];
    forall i | 0 <= i < |all| ensures Holds(s.out.components, i, all[i]) {
      if i < |ts| { assert Holds(r.out.components, i, ts[i]); }
    }
  }

  lemma TokenIsReading(r: Reader)
    requires Sound(r) && r.current.StAddrComponent?
    ensures Token(r) == Reading(r)
  {
    TokenIsSlice(r);
  }

  lemma StepSlots(r: Reader, ec: EventClass, ts: seq<string>)
    requires Sound(r) && Slotted(r, ts) && !Step(r, ec).failed
    ensures Slotted(Step(r, ec), ts + ComponentOf(r, Step(r, ec)))
  {
    var s := Step(r, ec);
    assert !r.failed && Shape(r);
    hide Slotted, Sound, Shape, KeepsSlots, ParseComponent, Ipv6Reader.Step, Token;
    assert ts + [] == ts;
    if r.embedding {
      EmbeddedStepKeepsSlots(r, ec);
    } else if r.current.StAddrComponent? {
      AddrStepOfSlots(r, ec);
    } else {
      OtherStepKeepsSlots(r, ec);
    }
    if KeepsSlots(r, s) {
      KeptIsSlotted(r, s, ts);
      NothingAdded(r, s);
    } else {
      AddedIsSlotted(r, s, ts);
    }
  }

  lemma NothingAdded(r: Reader, s: Reader)
    requires KeepsSlots(r, s)
    requires r.embedding ==> s.embedding
    requires s.embedding || s.components == r.components || AddsSlot(r, s)
    ensures ComponentOf(r, s) == []
  {
    hide ParseComponent;
  }

  lemma AdvanceSlots(r: Reader, ts: seq<string>)
    requires Sound(r) && Slotted(r, ts) && r.position < |r.input| && !Advance(r).failed
    ensures Slotted(Advance(r), ts + ComponentOf(r, Advance(r)))
  {
    hide *;
    var r0, ec := AdvanceIsStep(r);
    BracketsApart(r, r0, ts);
    StepSlots(r0, ec, ts);
    SameComponent(r, r0, Step(r0, ec), Advance(r), ts + ComponentOf(r0, Step(r0, ec)));
  }

  lemma BracketsApart(r: Reader, r0: Reader, ts: seq<string>)
    requires r0 == r.(brackets := r0.brackets) && Sound(r) && Slotted(r, ts)
    ensures Sound(r0) && Slotted(r0, ts)
  {
    hide AllHex, Positional;
  }

  lemma SameComponent(r: Reader, r0: Reader, s: Reader, s': Reader, ts: seq<string>)
    requires r0 == r.(brackets := r0.brackets) && s' == s.(position := s'.position) && Slotted(s, ts)
    ensures Slotted(s', ts) && ComponentOf(r, s') == ComponentOf(r0, s)
  {
    hide AllHex, Positional;
  }

  /** After any number of characters, the slots before the pair hold the components so far. */
  lemma {:induction false} RunSlots(r: Reader, n: nat, ts: seq<string>)
    requires Sound(r) && Slotted(r, ts) && r.position + n <= |r.input| && r.position + n <= r.inputBytes
    requires !Run(r, n).failed
    ensures Slotted(Run(r, n), ts + ComponentsRead(r, n))
    decreases n
  {
    hide Sound, Slotted, Ipv6Reader.Advance, ComponentOf;
    assert ts + [] == ts;
    if n > 0 {
      NotFailed(r);
      RunUnfolds(r, n);
      AdvanceIsSound(r);
      AdvanceSlots(r, ts);
      var s, first := Advance(r), ComponentOf(r, Advance(r));
      RunSlots(s, n - 1, ts + first);
      assert ts + first + ComponentsRead(s, n - 1) == ts + (first + ComponentsRead(s, n - 1));
    }
  }

  lemma ComponentsUnfold(text: string, inputBytes: nat)
    ensures var start, n := Start(text, inputBytes), VisibleLength(text, inputBytes);
      && Flushed(text, inputBytes) == Step(Run(start, n), EcWhitespace)
      && AllComponents(text, inputBytes) == ComponentsRead(start, n) + ComponentOf(Run(start, n), Flushed(text, inputBytes))
  {
    hide Ipv6Reader.Run, Ipv6Reader.Step, ComponentsRead, ComponentOf;
  }

  /** For every accepted string: the slots before a quad, or all slots that were read, hold in
      order the numbers of the hexadecimal tokens of the string, modulo 2^16. */
  lemma AcceptedTokens(input: Option<string>, inputBytes: nat)
    requires FromStr(input, inputBytes).ok && input.Some?
    ensures var r, ts := Flushed(input.value, inputBytes), AllComponents(input.value, inputBytes);
      && |ts| == (if r.embedding then r.v4Embedding else r.components) <= 8
      && forall i :: 0 <= i < |ts| ==> AllHex(ts[i]) && r.out.components[i] == Positional(ts[i], 16) % 0x1_0000
  {
    hide *;
    var text := input.value;
    var start, n := Start(text, inputBytes), VisibleLength(text, inputBytes);
    StartPlace(text, inputBytes);
    var q, r := Run(start, n), Flushed(text, inputBytes);
    ComponentsUnfold(text, inputBytes);
    assert Sound(q) && Shape(r) by { AcceptedIsFlushed(input, inputBytes); }
    assert r.components <= 8 by { FlushedShape(r); }
    assert Conclude(r).0 by { AcceptedIsFlushed(input, inputBytes); }
    assert !q.failed by { NotFailed(q); }
    assert !r.failed by { ConcludesUnfailed(r); }
    assert Slotted(q, ComponentsRead(start, n)) by {
      StartIsSound(text, inputBytes);
      StartIsSlotted(text, inputBytes);
      RunSlots(start, n, []);
      assert [] + ComponentsRead(start, n) == ComponentsRead(start, n);
    }
    StepSlots(q, EcWhitespace, ComponentsRead(start, n));
    SlottedSays(r, AllComponents(text, inputBytes));
  }

  lemma SlottedSays(r: Reader, ts: seq<string>)
    requires Slotted(r, ts)
    ensures |ts| == (if r.embedding then r.v4Embedding else r.components) <= 8
    ensures forall i :: 0 <= i < |ts| ==> AllHex(ts[i]) && r.out.components[i] == Positional(ts[i], 16) % 0x1_0000
  {
    forall i | 0 <= i < |ts| ensures AllHex(ts[i]) && r.out.components[i] == Positional(ts[i], 16) % 0x1_0000 {
      assert Holds(r.out.components, i, ts[i]);
    }
  }
}
