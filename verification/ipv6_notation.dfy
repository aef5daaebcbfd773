/** The three forms of section 2.2 of RFC 4291, with groups of one to four digits of either case:
    every such text is accepted. One inclusion, since the parser takes more than that. */
module Ipv6Notation {
  import opened Wrappers
  import opened Numerals
  import opened Ipv6Address
  import opened Ipv6Reader
  import opened Ipv6Walk
  import opened Ipv6Plain

  // ---- Texts and what they denote ----

  predicate Group(t: string) { 1 <= |t| <= 4 && AllHex(t) }

  predicate Octet(t: string) { 1 <= |t| <= 3 && AllDigits(t) && AllHex(t) && Positional(t, 10) <= 255 }

  ghost predicate Groups(gs: seq<string>) { forall i :: 0 <= i < |gs| ==> Group(gs[i]) }

  ghost predicate Dots(quad: seq<string>) { |quad| == 4 && forall i :: 0 <= i < 4 ==> Octet(quad[i]) }

  /** Groups, perhaps "::" and further groups, perhaps a dotted quad. */
  datatype Notation = Notation(before: seq<string>, abbreviated: bool, after: seq<string>, quad: seq<string>)

  /** How many components are written out. */
  function Count(n: Notation): nat { |n.before| + |n.after| + if n.quad == [] then 0 else 2 }

  ghost predicate WellFormed(n: Notation) {
    && Groups(n.before) && Groups(n.after) && (n.quad == [] || Dots(n.quad))
    && if n.abbreviated then Count(n) <= 7 else n.after == [] && Count(n) == 8
  }

  /** Groups, each with the colon after it. */
  function Led(gs: seq<string>): string { if gs == [] then "" else gs[0] + ":" + Led(gs[1..]) }

  /** Groups and a quad with colons between them. */
  function Tail(gs: seq<string>, quad: seq<string>): string
    requires quad == [] || |quad| == 4
  {
    if gs == [] then if quad == [] then "" else DottedText(quad, 0)
    else if |gs| == 1 && quad == [] then gs[0]
    else gs[0] + ":" + Tail(gs[1..], quad)
  }

  function Text(n: Notation): string
    requires n.quad == [] || |n.quad| == 4
  {
    if n.abbreviated then Led(n.before) + ((if n.before == [] then "::" else ":") + Tail(n.after, n.quad))
    else Tail(n.before, n.quad)
  }

  function GroupValue(t: string): u16
    requires Group(t)
  {
    GroupFits(t);
    Positional(t, 16)
  }

  lemma GroupFits(t: string)
    requires Group(t)
    ensures Positional(t, 16) < 0x1_0000
  {
    PositionalBound(t, 16);
    PowMonotone(16, |t|, 4);
    assert Pow(16, 4) == 0x1_0000;
  }

  function Values(gs: seq<string>): (vs: seq<u16>)
    requires Groups(gs)
    ensures |vs| == |gs|
  {
    seq(|gs|, i requires 0 <= i < |gs| => GroupValue(gs[i]))
  }

  function OctetValues(quad: seq<string>): (os: seq<u8>)
    requires Dots(quad)
    ensures |os| == 4
  {
    [Positional(quad[0], 10), Positional(quad[1], 10), Positional(quad[2], 10), Positional(quad[3], 10)]
  }

  /** The components that are written last, as a quad. */
  function QuadValues(quad: seq<string>): seq<u16>
    requires quad == [] || Dots(quad)
  {
    if quad == [] then [] else Pair(OctetValues(quad))
  }

  /** The address that a text denotes. */
  function Denoted(n: Notation): Components
    requires WellFormed(n)
  {
    Values(n.before) + ZERO_COMPONENTS[..8 - Count(n)] + Values(n.after) + QuadValues(n.quad)
  }

  lemma GroupNames(t: string)
    requires Group(t)
    ensures Names(t, 16, GroupValue(t))
  {
    ShortTokensAreExact(t, 16);
  }

  lemma DotsName(quad: seq<string>)
    requires Dots(quad)
    ensures AllName(quad, OctetValues(quad))
  {
    forall i | 0 <= i < 4 ensures Names(quad[i], 10, OctetValues(quad)[i]) {
      assert Octet(quad[i]);
      ShortTokensAreExact(quad[i], 10);
    }
  }

  lemma ValuesStep(gs: seq<string>)
    requires Groups(gs) && gs != []
    ensures Group(gs[0]) && Groups(gs[1..]) && Values(gs) == [GroupValue(gs[0])] + Values(gs[1..])
  {
  }

  // ---- Reading groups ----

  lemma Continue(stored: seq<u16>, gs: seq<string>)
    requires Groups(gs) && gs != []
    ensures Group(gs[0]) && Groups(gs[1..])
    ensures stored + [GroupValue(gs[0])] + Values(gs[1..]) == stored + Values(gs)
  {
    ValuesStep(gs);
  }

  lemma LedAhead(input: string, pos: nat, gs: seq<string>)
    requires gs != [] && Ahead(input, pos, Led(gs))
    ensures |Led(gs)| == |gs[0]| + 1 + |Led(gs[1..])|
    ensures Ahead(input, pos, gs[0] + ":") && Ahead(input, pos + |gs[0]| + 1, Led(gs[1..]))
  {
    assert Led(gs) == (gs[0] + ":") + Led(gs[1..]);
    AheadSplit(input, pos, gs[0] + ":", Led(gs[1..]));
  }

  lemma LedOfNone(input: string, current: State, pos: nat, stored: seq<u16>)
    requires |stored| <= 8 && pos <= |input|
    ensures Run(Scan(input, current, pos, 0, stored, None), |Led([])|) == Scan(input, current, pos, 0, stored + Values([]), None)
  {
    assert stored + Values([]) == stored;
    RunNothing(Scan(input, current, pos, 0, stored, None));
  }

  /** One group with its colon. */
  lemma WalkGroup(input: string, current: State, pos: nat, stored: seq<u16>, z: Option<nat>, g: string)
    requires Group(g) && |stored| < 8 && current in {StNone, StV6Separator} && Ahead(input, pos, g + ":")
    ensures pos + |g| + 1 <= |input|
    ensures Run(Scan(input, current, pos, 0, stored, z), |g| + 1)
            == Scan(input, StV6Separator, pos + |g| + 1, 0, stored + [GroupValue(g)], z)
  {
    hide *;
    assert Names(g, 16, GroupValue(g)) by { GroupNames(g); }
    WalkComponent(input, current, pos, 0, stored, z, g, GroupValue(g));
  }

  /** Groups, each with its colon. */
  lemma {:induction false} WalkLed(input: string, current: State, pos: nat, stored: seq<u16>, gs: seq<string>)
    requires Groups(gs) && |stored| + |gs| <= 8 && current in {StNone, StV6Separator}
    requires pos <= |input| && Ahead(input, pos, Led(gs))
    ensures pos + |Led(gs)| <= |input|
    ensures Run(Scan(input, current, pos, 0, stored, None), |Led(gs)|)
            == Scan(input, if gs == [] then current else StV6Separator, pos + |Led(gs)|, 0, stored + Values(gs), None)
    decreases |gs|
  {
    hide *;
    if gs == [] {
      assert |Led(gs)| == 0 by { LedIsEmpty(gs); }
      LedOfNone(input, current, pos, stored);
    } else {
      var g := gs[0];
      assert Group(g) && Groups(gs[1..]) && stored + [GroupValue(g)] + Values(gs[1..]) == stored + Values(gs) by { Continue(stored, gs); }
      LedAhead(input, pos, gs);
      WalkGroup(input, current, pos, stored, None, g);
      WalkLed(input, StV6Separator, pos + |g| + 1, stored + [GroupValue(g)], gs[1..]);
      Chain(Scan(input, current, pos, 0, stored, None), |g| + 1,
            Scan(input, StV6Separator, pos + |g| + 1, 0, stored + [GroupValue(g)], None), |Led(gs[1..])|,
            Scan(input, StV6Separator, pos + |Led(gs)|, 0, stored + Values(gs), None));
    }
  }

  lemma LedIsEmpty(gs: seq<string>)
    requires gs == []
    ensures |Led(gs)| == 0
  {
  }

  /** The reader after a text, with the last token flushed. */
  function Ended(input: string, pos: nat, stored: seq<u16>, z: Option<nat>, quad: seq<string>): (r: Reader)
    requires quad == [] || Dots(quad)
    requires |stored| + (if quad == [] then 0 else 2) <= 8
  {
    if quad == [] then Scan(input, StNone, pos, 0, stored, z)
    else Octets(input, StNone, pos, 0, stored, z, OctetValues(quad))
  }

  /** A run of n characters ends unfailed, and flushed in l. */
  ghost predicate EndsIn(r: Reader, n: nat, l: Reader) {
    r.position + n <= |r.input| && !Run(r, n).failed && Step(Run(r, n), EcWhitespace) == l
  }

  lemma EndsAfter(r: Reader, m: nat, r1: Reader, n: nat, l: Reader)
    requires !r.failed && !r1.failed && r.position + m <= |r.input| && Run(r, m) == r1 && EndsIn(r1, n, l)
    ensures EndsIn(r, m + n, l)
  {
    hide Ipv6Reader.Run, Ipv6Reader.Step;
    RunSplit(r, m, 0);
    Chain(r, m, r1, n, Run(r1, n));
  }

  lemma FlushedEnds(p: Reader, r: Reader, n: nat, l: Reader)
    requires r.position + n <= |r.input| && Run(r, n) == p && !p.failed && p.current.StAddrComponent?
    requires Goto(ParseComponent(p), StNone) == l
    ensures EndsIn(r, n, l)
  {
    hide Ipv6Reader.Run, Ipv6Reader.ParseComponent;
    EndsWith(p);
  }

  lemma NothingEnds(input: string, current: State, pos: nat, stored: seq<u16>, z: Option<nat>)
    requires |stored| <= 8 && current in {StNone, StV6Separator} && pos <= |input|
    ensures EndsIn(Scan(input, current, pos, 0, stored, z), 0, Scan(input, StNone, pos, 0, stored, z))
  {
  }

  lemma FourTokens(quad: seq<string>)
    ensures Dots(quad) ==> |quad| == 4
  {
  }

  lemma WalkQuad(input: string, current: State, pos: nat, stored: seq<u16>, z: Option<nat>, quad: seq<string>)
    requires Dots(quad) && |stored| <= 6 && current in {StNone, StV6Separator} && Ahead(input, pos, DottedText(quad, 0))
    ensures EndsIn(Scan(input, current, pos, 0, stored, z), |DottedText(quad, 0)|,
                   Octets(input, StNone, pos + |DottedText(quad, 0)|, 0, stored, z, OctetValues(quad)))
  {
    hide *;
    var os := OctetValues(quad);
    assert |quad| == 4 by { FourTokens(quad); }
    assert AllName(quad, os) by { DotsName(quad); }
    var p := QuadPends(input, current, pos, 0, stored, z, quad, os);
    OctetsRest(input, p.position, 0, stored, z, os);
    FlushedEnds(p, Scan(input, current, pos, 0, stored, z), |DottedText(quad, 0)|, Octets(input, StNone, p.position, 0, stored, z, os));
  }

  lemma WalkNothing(input: string, current: State, pos: nat, stored: seq<u16>, z: Option<nat>, quad: seq<string>)
    requires (quad == [] || Dots(quad)) && |stored| + (if quad == [] then 0 else 2) <= 8
    requires current in {StNone, StV6Separator} && pos <= |input| && Ahead(input, pos, Tail([], quad))
    ensures EndsIn(Scan(input, current, pos, 0, stored, z), |Tail([], quad)|, Ended(input, pos + |Tail([], quad)|, stored, z, quad))
  {
    hide EndsIn, Scan, Octets, Ahead, DottedText, OctetValues, Ipv6Reader.Run, Ipv6Reader.Step, Values, Led;
    if quad == [] {
      NothingEnds(input, current, pos, stored, z);
    } else {
      WalkQuad(input, current, pos, stored, z, quad);
    }
  }

  lemma WalkLast(input: string, current: State, pos: nat, stored: seq<u16>, z: Option<nat>, g: string)
    requires Group(g) && |stored| < 8 && current in {StNone, StV6Separator} && Ahead(input, pos, g)
    ensures EndsIn(Scan(input, current, pos, 0, stored, z), |g|, Scan(input, StNone, pos + |g|, 0, stored + [GroupValue(g)], z))
  {
    hide *;
    GroupNames(g);
    var p := ComponentPends(input, current, pos, 0, stored, z, g, GroupValue(g));
    ScanRests(input, StAddrComponent, p.position, 0, stored + [GroupValue(g)], z);
    FlushedEnds(p, Scan(input, current, pos, 0, stored, z), |g|, Scan(input, StNone, p.position, 0, stored + [GroupValue(g)], z));
  }

  /** More follows the first group. */
  predicate GoesOn(gs: seq<string>, quad: seq<string>) { gs != [] && !(|gs| == 1 && quad == []) }

  lemma TailAhead(input: string, pos: nat, gs: seq<string>, quad: seq<string>)
    requires (quad == [] || |quad| == 4) && GoesOn(gs, quad) && Ahead(input, pos, Tail(gs, quad))
    ensures |Tail(gs, quad)| == |gs[0]| + 1 + |Tail(gs[1..], quad)|
    ensures Ahead(input, pos, gs[0] + ":") && Ahead(input, pos + |gs[0]| + 1, Tail(gs[1..], quad))
  {
    assert Tail(gs, quad) == (gs[0] + ":") + Tail(gs[1..], quad);
    hide Tail;
    AheadSplit(input, pos, gs[0] + ":", Tail(gs[1..], quad));
  }

  lemma NoMore(stored: seq<u16>, gs: seq<string>)
    requires gs == []
    ensures stored + Values(gs) == stored
  {
  }

  lemma OneMore(input: string, pos: nat, stored: seq<u16>, z: Option<nat>, gs: seq<string>, quad: seq<string>)
    requires Groups(gs) && gs != [] && !GoesOn(gs, quad) && |stored| < 8
    ensures quad == [] && Group(gs[0]) && Tail(gs, quad) == gs[0]
    ensures |stored + Values(gs)| <= 8
    ensures Ended(input, pos, stored + Values(gs), z, quad) == Scan(input, StNone, pos, 0, stored + [GroupValue(gs[0])], z)
  {
    assert Values(gs) == [GroupValue(gs[0])];
    hide Scan;
  }

  lemma WalkShort(input: string, current: State, pos: nat, stored: seq<u16>, z: Option<nat>, gs: seq<string>, quad: seq<string>)
    requires Groups(gs) && (quad == [] || Dots(quad)) && |stored| + |gs| + (if quad == [] then 0 else 2) <= 8
    requires current in {StNone, StV6Separator} && pos <= |input| && Ahead(input, pos, Tail(gs, quad)) && !GoesOn(gs, quad)
    ensures EndsIn(Scan(input, current, pos, 0, stored, z), |Tail(gs, quad)|,
                   Ended(input, pos + |Tail(gs, quad)|, stored + Values(gs), z, quad))
  {
    hide *;
    if gs == [] {
      NoMore(stored, gs);
      WalkNothing(input, current, pos, stored, z, quad);
    } else {
      OneMore(input, pos + |gs[0]|, stored, z, gs, quad);
      WalkLast(input, current, pos, stored, z, gs[0]);
    }
  }

  lemma TokensOrNone(quad: seq<string>)
    requires quad == [] || Dots(quad)
    ensures quad == [] || |quad| == 4
  {
  }

  /** Groups and a quad, to the end. */
  lemma {:induction false} WalkTail(input: string, current: State, pos: nat, stored: seq<u16>, z: Option<nat>, gs: seq<string>, quad: seq<string>)
    requires Groups(gs) && (quad == [] || Dots(quad)) && |stored| + |gs| + (if quad == [] then 0 else 2) <= 8
    requires current in {StNone, StV6Separator} && pos <= |input| && Ahead(input, pos, Tail(gs, quad))
    ensures EndsIn(Scan(input, current, pos, 0, stored, z), |Tail(gs, quad)|,
                   Ended(input, pos + |Tail(gs, quad)|, stored + Values(gs), z, quad))
    decreases |gs|
  {
    hide *;
    if !GoesOn(gs, quad) {
      WalkShort(input, current, pos, stored, z, gs, quad);
    } else {
      assert quad == [] || |quad| == 4 by { TokensOrNone(quad); }
      assert gs != [] by { GoesOnSome(gs, quad); }
      var g := gs[0];
      assert Group(g) && Groups(gs[1..]) && stored + [GroupValue(g)] + Values(gs[1..]) == stored + Values(gs) by { Continue(stored, gs); }
      TailAhead(input, pos, gs, quad);
      WalkGroup(input, current, pos, stored, z, g);
      WalkTail(input, StV6Separator, pos + |g| + 1, stored + [GroupValue(g)], z, gs[1..], quad);
      EndsAfter(Scan(input, current, pos, 0, stored, z), |g| + 1,
                Scan(input, StV6Separator, pos + |g| + 1, 0, stored + [GroupValue(g)], z), |Tail(gs[1..], quad)|,
                Ended(input, pos + |Tail(gs, quad)|, stored + Values(gs), z, quad));
    }
  }

  lemma GoesOnSome(gs: seq<string>, quad: seq<string>)
    ensures GoesOn(gs, quad) ==> gs != []
  {
  }

  // ---- Whole texts ----

  lemma {:induction false} LedBounds(gs: seq<string>)
    requires Groups(gs)
    ensures NoNul(Led(gs)) && |Led(gs)| <= 5 * |gs|
    decreases |gs|
  {
    if gs != [] {
      ValuesStep(gs);
      LedBounds(gs[1..]);
    }
  }

  lemma DotsBounds(quad: seq<string>)
    requires Dots(quad)
    ensures NoNul(DottedText(quad, 0)) && |DottedText(quad, 0)| <= 15
  {
    assert Octet(quad[0]) && Octet(quad[1]) && Octet(quad[2]) && Octet(quad[3]);
    hide Numerals.Positional;
    assert DottedText(quad, 2) == quad[2] + "." + quad[3];
    assert DottedText(quad, 1) == quad[1] + "." + DottedText(quad, 2);
    assert DottedText(quad, 0) == quad[0] + "." + DottedText(quad, 1);
  }

  lemma {:induction false} TailBounds(gs: seq<string>, quad: seq<string>)
    requires Groups(gs) && (quad == [] || Dots(quad))
    ensures quad == [] || |quad| == 4
    ensures NoNul(Tail(gs, quad)) && |Tail(gs, quad)| <= 5 * |gs| + 15
    ensures gs != [] ==> Tail(gs, quad) != []
    decreases |gs|
  {
    if quad != [] { DotsBounds(quad); }
    hide DottedText, Dots, Octet;
    if gs != [] {
      ValuesStep(gs);
      TailBounds(gs[1..], quad);
    }
  }

  lemma TextBounds(n: Notation)
    requires WellFormed(n)
    ensures n.quad == [] || |n.quad| == 4
    ensures NoNul(Text(n)) && 0 < |Text(n)| <= 66
  {
    LedBounds(n.before);
    TailBounds(n.before, n.quad);
    TailBounds(n.after, n.quad);
    hide Led, Tail, Dots, Groups;
  }

  /** What is stored: all groups, in order. */
  function Stored(n: Notation): (vs: seq<u16>)
    requires WellFormed(n)
    ensures |vs| == |n.before| + |n.after|
  {
    Values(n.before) + Values(n.after)
  }

  function Mark(n: Notation): Option<nat> { if n.abbreviated then Some(|n.before|) else None }

  lemma WellFormedParts(n: Notation)
    requires WellFormed(n)
    ensures Groups(n.before) && Groups(n.after) && (n.quad == [] || Dots(n.quad)) && (n.quad == [] || |n.quad| == 4)
    ensures |n.before| + |n.after| + (if n.quad == [] then 0 else 2) == Count(n) <= 8
    ensures !n.abbreviated ==> n.after == []
  {
  }

  lemma AbbreviatedText(n: Notation)
    requires WellFormed(n) && n.abbreviated
    ensures n.quad == [] || |n.quad| == 4
    ensures var led, sign, t := Led(n.before), Sign(n.before), Text(n);
      && |t| == |led| + |sign| + |Tail(n.after, n.quad)|
      && Ahead(t, 0, led) && Ahead(t, |led|, sign) && Ahead(t, |led| + |sign|, Tail(n.after, n.quad))
  {
    WellFormedParts(n);
    hide Tail, WellFormed;
    var sign, t := Sign(n.before), Text(n);
    assert t[0..|t|] == t;
    AheadSplit(t, 0, Led(n.before), sign + Tail(n.after, n.quad));
    AheadSplit(t, |Led(n.before)|, sign, Tail(n.after, n.quad));
  }

  function Sign(gs: seq<string>): string { if gs == [] then "::" else ":" }

  lemma LedFromStart(t: string, gs: seq<string>)
    requires Groups(gs) && |gs| <= 8 && Ahead(t, 0, Led(gs))
    ensures |Led(gs)| <= |t|
    ensures Run(Start(t, |t|), |Led(gs)|)
            == Scan(t, if gs == [] then StNone else StV6Separator, |Led(gs)|, 0, Values(gs), None)
  {
    hide *;
    NoBracketRead(t);
    WalkLed(t, StNone, 0, [], gs);
    assert [] + Values(gs) == Values(gs);
  }

  lemma SignRead(t: string, pos: nat, gs: seq<string>)
    requires Groups(gs) && |gs| <= 8 && Ahead(t, pos, Sign(gs))
    ensures pos + |Sign(gs)| <= |t|
    ensures Run(Scan(t, if gs == [] then StNone else StV6Separator, pos, 0, Values(gs), None), |Sign(gs)|)
            == Scan(t, StV6Separator, pos + |Sign(gs)|, 0, Values(gs), Some(|gs|))
  {
    hide Scan, Ipv6Reader.Run, Values, Led, Ahead;
    WalkAbbreviation(t, pos, 0, Values(gs), gs == []);
  }

  /** The groups before "::", and the colons. */
  lemma WalkToSign(t: string, gs: seq<string>)
    requires Groups(gs) && |gs| <= 8 && Ahead(t, 0, Led(gs)) && Ahead(t, |Led(gs)|, Sign(gs))
    ensures |Led(gs)| + |Sign(gs)| <= |t|
    ensures Run(Start(t, |t|), |Led(gs)| + |Sign(gs)|)
            == Scan(t, StV6Separator, |Led(gs)| + |Sign(gs)|, 0, Values(gs), Some(|gs|))
  {
    hide *;
    StartFacts(t);
    LedFromStart(t, gs);
    SignRead(t, |Led(gs)|, gs);
    Chain(Start(t, |t|), |Led(gs)|, Scan(t, if gs == [] then StNone else StV6Separator, |Led(gs)|, 0, Values(gs), None), |Sign(gs)|,
          Scan(t, StV6Separator, |Led(gs)| + |Sign(gs)|, 0, Values(gs), Some(|gs|)));
  }

  /** A text with "::". */
  lemma WalkAbbreviatedText(n: Notation)
    requires WellFormed(n) && n.abbreviated
    ensures n.quad == [] || |n.quad| == 4
    ensures EndsIn(Start(Text(n), |Text(n)|), |Text(n)|, Ended(Text(n), |Text(n)|, Stored(n), Mark(n), n.quad))
  {
    hide *;
    WellFormedParts(n);
    AbbreviatedText(n);
    AbbreviatedParts(n);
    var t, m := Text(n), |Led(n.before)| + |Sign(n.before)|;
    WalkToSign(t, n.before);
    WalkTail(t, StV6Separator, m, Values(n.before), Some(|n.before|), n.after, n.quad);
    StartFacts(t);
    EndsAfter(Start(t, |t|), m, Scan(t, StV6Separator, m, 0, Values(n.before), Some(|n.before|)), |Tail(n.after, n.quad)|,
              Ended(t, |t|, Stored(n), Mark(n), n.quad));
  }

  lemma AbbreviatedParts(n: Notation)
    requires WellFormed(n) && n.abbreviated
    ensures Stored(n) == Values(n.before) + Values(n.after) && Mark(n) == Some(|n.before|)
  {
  }

  /** A text without. */
  lemma WalkFullText(n: Notation)
    requires WellFormed(n) && !n.abbreviated
    ensures n.quad == [] || |n.quad| == 4
    ensures EndsIn(Start(Text(n), |Text(n)|), |Text(n)|, Ended(Text(n), |Text(n)|, Stored(n), Mark(n), n.quad))
  {
    WellFormedParts(n);
    var t := Text(n);
    assert t == Tail(n.before, n.quad) && Mark(n) == None && t[0..|t|] == t;
    assert [] + Values(n.before) == Stored(n);
    hide *;
    NoBracketRead(t);
    assert Ahead(t, 0, t) by { WholeIsAhead(t); }
    WalkTail(t, StNone, 0, [], None, n.before, n.quad);
  }

  lemma WholeIsAhead(t: string)
    ensures Ahead(t, 0, t)
  {
  }

  // ---- The address that is read ----

  lemma TextIsRead(n: Notation)
    requires WellFormed(n)
    ensures n.quad == [] || |n.quad| == 4
    ensures var l := Ended(Text(n), |Text(n)|, Stored(n), Mark(n), n.quad);
      l.components <= 8 && FromStr(Some(Text(n)), |Text(n)|) == Result(Conclude(l).0, Some(Conclude(l).1.out), Conclude(l).1.diags)
  {
    TextBounds(n);
    WellFormedParts(n);
    EndedFits(Text(n), |Text(n)|, Stored(n), Mark(n), n.quad);
    if n.abbreviated { WalkAbbreviatedText(n); } else { WalkFullText(n); }
    NoNulIsVisible(Text(n));
    hide Ipv6Reader.Run, Ipv6Reader.Step, Ipv6Reader.Conclude, Text, Ended, WellFormed, VisibleLength;
  }

  lemma EndedFits(input: string, pos: nat, stored: seq<u16>, z: Option<nat>, quad: seq<string>)
    requires quad == [] || Dots(quad)
    requires |stored| + (if quad == [] then 0 else 2) <= 8
    ensures Ended(input, pos, stored, z, quad).components == |stored| + (if quad == [] then 0 else 2)
  {
    hide Pad, Pair;
  }

  /** The components are those denoted, but a quad right after a leading "::" is taken for an
      IPv4-compatible address. */
  function Taken(n: Notation): Address
    requires WellFormed(n)
  {
    var compat := n.quad != [] && n.before == [] && n.after == [];
    Address(if compat then Pad(QuadValues(n.quad)) else Denoted(n), 0, 0, Flags(false, n.quad != [], compat, 0))
  }

  lemma PadWholes(s: seq<u16>)
    requires |s| == 8
    ensures Pad(s) == s
  {
  }

  lemma SplicedExpands(before: seq<u16>, after: seq<u16>)
    requires |before| + |after| <= 8
    ensures Expand(Pad(before + after), |before|, |before| + |after|)
            == before + ZERO_COMPONENTS[..8 - |before| - |after|] + after
  {
    var s := before + after;
    assert Pad(s)[..|before|] == before;
    assert Pad(s)[|before|..|s|] == after;
  }

  /** What is stored with the quad. */
  function Full(n: Notation): (vs: seq<u16>)
    requires WellFormed(n)
    ensures |vs| == Count(n)
  {
    Stored(n) + QuadValues(n.quad)
  }

  lemma EndedIs(n: Notation, input: string, pos: nat)
    requires WellFormed(n)
    ensures |Stored(n)| + (if n.quad == [] then 0 else 2) <= 8
    ensures var l := Ended(input, pos, Stored(n), Mark(n), n.quad);
      && !l.failed && l.components == Count(n) && l.out == Address(Pad(Full(n)), 0, 0, NO_FLAGS) && l.diags == []
      && (l.embedding <==> n.quad != []) && (l.embedding ==> l.v4Octets == 4)
      && (l.compat <==> n.quad != [] && n.before == [] && n.after == [])
      && (l.hasZerorun <==> n.abbreviated) && (n.abbreviated ==> l.zerorun == |n.before|)
  {
    WellFormedParts(n);
    assert n.quad == [] ==> Stored(n) + [] == Stored(n);
    hide WellFormed, Pad, Pair, Values;
  }

  lemma DenotedIs(n: Notation)
    requires WellFormed(n)
    ensures n.abbreviated ==> Expand(Pad(Full(n)), |n.before|, Count(n)) == Denoted(n)
    ensures !n.abbreviated ==> Pad(Full(n)) == Denoted(n)
  {
    WellFormedParts(n);
    hide WellFormed;
    var before, after := Values(n.before), Values(n.after) + QuadValues(n.quad);
    assert Full(n) == before + after;
    if n.abbreviated {
      SplicedExpands(before, after);
    } else {
      PadWholes(Full(n));
    }
  }

  lemma ConcludesAs(l: Reader, c: Components, embed: bool, compat: bool, d: Components)
    requires !l.failed && l.components <= 8 && l.diags == [] && l.out == Address(c, 0, 0, NO_FLAGS)
    requires l.embedding == embed && (embed ==> l.v4Octets == 4) && l.compat == compat && (compat ==> embed)
    requires l.hasZerorun ==> l.zerorun <= l.components && (!compat ==> Expand(c, l.zerorun, l.components) == d)
    requires !l.hasZerorun ==> l.components == 8 && c == d
    ensures Conclude(l).0 && Conclude(l).1.diags == []
    ensures Conclude(l).1.out == Address(if compat then c else d, 0, 0, Flags(false, embed, compat, 0))
  {
    hide Expand;
  }

  lemma ConcludesTaken(n: Notation, l: Reader)
    requires WellFormed(n) && !l.failed && l.components == Count(n) && l.diags == []
    requires l.out == Address(Pad(Full(n)), 0, 0, NO_FLAGS)
    requires (l.embedding <==> n.quad != []) && (l.embedding ==> l.v4Octets == 4)
    requires l.compat <==> n.quad != [] && n.before == [] && n.after == []
    requires (l.hasZerorun <==> n.abbreviated) && (n.abbreviated ==> l.zerorun == |n.before|)
    ensures Conclude(l).0 && Conclude(l).1.diags == [] && Conclude(l).1.out == Taken(n)
  {
    WellFormedParts(n);
    DenotedIs(n);
    if n.before == [] && n.after == [] { FullOfQuad(n); }
    hide Pad, Expand, Full, Denoted, WellFormed, Ipv6Reader.Conclude, Dots, Groups, QuadValues;
    ConcludesAs(l, Pad(Full(n)), n.quad != [], l.compat, Denoted(n));
  }

  lemma FullOfQuad(n: Notation)
    requires WellFormed(n) && n.before == [] && n.after == []
    ensures Full(n) == QuadValues(n.quad)
  {
  }

  /** Every text of the three forms is accepted, without a diagnostic, as the address it denotes,
      except that "::" with nothing but a quad after it is taken for an IPv4-compatible one. */
  lemma NotationIsAccepted(n: Notation)
    requires WellFormed(n)
    ensures n.quad == [] || |n.quad| == 4
    ensures FromStr(Some(Text(n)), |Text(n)|) == Result(true, Some(Taken(n)), [])
  {
    hide *;
    TextIsRead(n);
    assert n.quad == [] || Dots(n.quad) by { WellFormedParts(n); }
    EndedIs(n, Text(n), |Text(n)|);
    ConcludesTaken(n, Ended(Text(n), |Text(n)|, Stored(n), Mark(n), n.quad));
  }

  /** The components read are those denoted, unless the text is "::" and a quad other than
      0.0.0.0. */
  lemma NotationIsReadExactly(n: Notation)
    requires WellFormed(n)
    ensures (n.quad == [] || Dots(n.quad)) && (n.quad == [] || |n.quad| == 4)
    ensures var result := FromStr(Some(Text(n)), |Text(n)|);
      && result.ok && result.out.Some?
      && (result.out.value.components == Denoted(n) <==>
            n.quad == [] || n.before != [] || n.after != [] || QuadValues(n.quad) == [0, 0])
  {
    NotationIsAccepted(n);
    WellFormedParts(n);
    hide Ipv6Reader.FromStr, Text, WellFormed;
    if n.quad != [] && n.before == [] && n.after == [] { LoneQuad(n); }
    hide Pad, Denoted;
  }

  lemma LoneQuad(n: Notation)
    requires WellFormed(n) && n.quad != [] && n.before == [] && n.after == []
    ensures Dots(n.quad)
    ensures Pad(QuadValues(n.quad)) == Denoted(n) <==> QuadValues(n.quad) == [0, 0]
  {
    WellFormedParts(n);
    var pair := QuadValues(n.quad);
    assert |pair| == 2;
    assert Denoted(n) == ZERO_COMPONENTS[..6] + pair;
    assert Denoted(n)[6] == pair[0] && Denoted(n)[7] == pair[1] && Denoted(n)[0] == 0 == Denoted(n)[1];
    assert Pad(pair)[0] == pair[0] && Pad(pair)[1] == pair[1];
    if pair == [0, 0] { assert Pad(pair) == Denoted(n); }
  }
}
