/** Character by character the reader is what Ipv6Language says of the text before, or fails with
    the complaints about the character: one lemma for each place and each kind of step. */
module Ipv6Following {
  import opened Wrappers
  import opened Numerals
  import opened Ipv6Address
  import opened Ipv6Reader
  import opened Ipv6Language

  // ---- The reader knows what the text says ----

  function StateAt(s: string, i: nat): State
    requires i <= |s|
  {
    match PlaceOf(s, i)
    case Body => if IsHex(Before(s, i)) then StAddrComponent else if Before(s, i) == ':' then StV6Separator else StNone
    case Mask => StCidr
    case Zone => StIface
    case Back => StPostAddr
    case Port => StPort
  }

  /** The reader stands at i of a text that begins with s[..i]. */
  ghost predicate Shows(r: Reader, s: string, i: nat)
    requires i <= |s|
  {
    r.position == i <= |r.input| && i <= r.inputBytes && r.input[..i] == s[..i]
  }

  /** The counters, flags and address of the reader are those of the text before i. */
  ghost predicate Counts(r: Reader, s: string, i: nat)
    requires i <= |s|
  {
    && Fits(s, i) && !r.failed && r.diags == []
    && r.components == CountOf(s, i) && r.embedding == Dotted(s, i) && r.compat == Leading(s, i)
    && (r.embedding ==> r.v4Embedding == |Groups(s, i)|) && r.v4Octets == |Quad(s, i)|
    && r.hasZerorun == Abbreviation(s, i).Some? && (r.hasZerorun ==> r.zerorun == Abbreviation(s, i).value)
    && r.out == ReadSoFar(s, i)
  }

  /** The state and the token of the reader are those of the place i. */
  ghost predicate Stands(r: Reader, s: string, i: nat)
    requires i <= |s|
  {
    && r.current == StateAt(s, i)
    && (r.current in {StAddrComponent, StCidr, StPort} ==>
          r.tokenPosition + r.tokenLen == i && r.tokenLen == |Digits(s, i)|)
    && (r.current in {StCidr, StPort} ==> AllDigits(Digits(s, i)))
  }

  lemma StandsAt(r: Reader, s: string, i: nat)
    requires i <= |s| && Shows(r, s, i)
    ensures r.position == i && InRadix(Digits(s, i), 16)
  {
    hide Digits, AllHex;
  }

  lemma TokenIs(r: Reader, s: string, i: nat)
    requires i <= |s| && Shows(r, s, i) && Stands(r, s, i) && r.current in {StAddrComponent, StCidr, StPort}
    ensures Token(r) == Digits(s, i) && r.tokenPosition + r.tokenLen <= r.inputBytes
  {
    var n := |Digits(s, i)|;
    assert Digits(s, i) == s[i - n..i];
    hide Digits, StateAt, AllHex, AllDigits, Token;
    SameSlice(r.input, s, i, n);
    TokenOf(r, i, n);
  }

  lemma TokenOf(r: Reader, i: nat, n: nat)
    requires n <= i <= |r.input| && r.tokenPosition + r.tokenLen == i && r.tokenLen == n
    ensures Token(r) == r.input[i - n..i]
  {
  }

  lemma SameSlice(input: string, s: string, i: nat, n: nat)
    requires n <= i <= |s| && i <= |input| && input[..i] == s[..i]
    ensures input[i - n..i] == s[i - n..i]
  {
    assert input[i - n..i] == input[..i][i - n..i];
    assert s[i - n..i] == s[..i][i - n..i];
  }

  lemma ReadsDigits(r: Reader, s: string, i: nat, base: Radix)
    requires i <= |s| && Shows(r, s, i) && Stands(r, s, i) && r.current in {StAddrComponent, StCidr, StPort}
    ensures ReadToken(r, base) ==
      if InRadix(Digits(s, i), base) then (r, ValueOf(Digits(s, i), base)) else (Fail(r, InvalidInput), 0)
  {
    TokenIs(r, s, i);
    AccumulateWraps(Digits(s, i), base);
    hide Stands, Shows, Token, Digits, AllHex, AllDigits, Positional, Accumulate;
  }

  /** What one more character adds. */
  lemma OneFurther(s: string, i: nat)
    requires i < |s|
    ensures PlaceOf(s, i + 1) == Behind(PlaceOf(s, i), s[i], IsHex(Before(s, i)) && Leading(s, i))
    ensures Dotted(s, i + 1) <==> Dotted(s, i) || (s[i] == '.' && PlaceOf(s, i).Body?)
    ensures Digits(s, i + 1) == if IsHex(s[i]) then Digits(s, i) + [s[i]] else ""
    ensures Groups(s, i + 1) == Groups(s, i) + if Closes(s, i) && !Dotted(s, i + 1) then [Digits(s, i)] else []
    ensures Quad(s, i + 1) == Quad(s, i) + if Closes(s, i) && Dotted(s, i + 1) then [Digits(s, i)] else []
    ensures Before(s, i + 1) == s[i]
  {
  }

  lemma OneFurtherMarks(s: string, i: nat)
    requires i < |s|
    ensures Abbreviation(s, i + 1) ==
      if Abbreviation(s, i).Some? then Abbreviation(s, i)
      else if PlaceOf(s, i).Body? && s[i] == ':' && Before(s, i) == ':' then Some(CountOf(s, i))
      else None
    ensures MaskBefore(s, i + 1) ==
      if PlaceOf(s, i).Mask? && !PlaceOf(s, i + 1).Mask? then Some(ValueOf(Digits(s, i), 10)) else MaskBefore(s, i)
    ensures PortBefore(s, i + 1) ==
      if PlaceOf(s, i).Port? && !PlaceOf(s, i + 1).Port? then Some(ValueOf(Digits(s, i), 10)) else PortBefore(s, i)
  {
  }

  function DiagsAt(cs: seq<DiagEvent>, i: nat): seq<Diag> { seq(|cs|, k requires 0 <= k < |cs| => Diag(cs[k], i)) }

  /** After the i-th character the reader is what the text says, or failed with the complaints. */
  ghost predicate Moves(r: Reader, s: string, i: nat)
    requires i < |s|
  {
    if Complaints(s, i) == [] then Counts(r, s, i + 1) && Stands(r, s, i + 1)
    else r.failed && r.diags == DiagsAt(Complaints(s, i), i)
  }

  // ---- Numbers that end ----

  lemma FilledGroup(gs: seq<u16>, v: u16)
    requires |gs| < 8
    ensures Filled(gs + [v], []) == Filled(gs, [])[|gs| := v]
  {
    var c, d := Ipv6Walk.Pad(gs + [v]), Ipv6Walk.Pad(gs)[|gs| := v];
    forall k | 0 <= k < 8 ensures c[k] == d[k] {
      hide *;
      PadAt(gs, k);
      PadAt(gs + [v], k);
    }
  }

  lemma PadAt(gs: seq<u16>, k: nat)
    requires |gs| <= 8 && k < 8
    ensures Ipv6Walk.Pad(gs)[k] == if k < |gs| then gs[k] else 0
  {
  }

  lemma FilledOctet(gs: seq<u16>, os: seq<int>, o: int)
    requires |gs| <= 6 && |os| < 4
    ensures var c, slot := Filled(gs, os), |gs| + |os| / 2;
      Filled(gs, os + [o]) == c[slot := OrOctet(c[slot], o, |os| % 2 == 0)]
  {
    assert (os + [o])[..|os|] == os;
    hide OrOctet;
  }

  lemma OneMoreGroup(gs: seq<string>, t: string)
    requires AllHex(t) && forall i :: 0 <= i < |gs| ==> AllHex(gs[i])
    ensures GroupValues(gs + [t]) == GroupValues(gs) + [Positional(t, 16) % 0x1_0000]
    ensures ValueOf(t, 16) % 0x1_0000 == Positional(t, 16) % 0x1_0000
  {
    AccumulateWraps(t, 16);
    AccumulateExactly(t, 16);
    hide Positional, Accumulate, AllHex;
  }

  lemma OneMoreOctet(os: seq<string>, t: string)
    requires AllHex(t) && forall i :: 0 <= i < |os| ==> AllHex(os[i])
    ensures OctetValues(os + [t]) == OctetValues(os) + [ValueOf(t, 10)]
  {
    hide ValueOf, AllHex;
  }

  /** A component t that is read as the n-th. */
  lemma GroupParsed(r: Reader, n: nat, t: string)
    requires !r.embedding && !r.failed && r.diags == [] && r.components == n <= 8 && AllHex(t)
    requires ReadToken(r, 16) == (r, ValueOf(t, 16))
    ensures if GroupComplaints(t, n) != [] then
        ParseComponent(r).failed && ParseComponent(r).diags == DiagsAt(GroupComplaints(t, n), r.position)
      else n < 8 && ParseComponent(r) == r.(components := n + 1, tokenPosition := 0, tokenLen := 0,
                                            out := r.out.(components := r.out.components[n := ValueOf(t, 16) % 0x1_0000]))
  {
    hide ReadToken, ValueOf, AllHex;
  }

  /** An octet t after n others, behind m groups. */
  lemma OctetParsed(r: Reader, m: nat, n: nat, t: string)
    requires r.embedding && !r.failed && r.diags == [] && r.v4Embedding == m <= 6 && r.v4Octets == n <= 4 && AllHex(t)
    requires ReadToken(r, 10) == if InRadix(t, 10) then (r, ValueOf(t, 10)) else (Fail(r, InvalidInput), 0)
    ensures if OctetComplaints(t, n) != [] then
        && ParseComponent(r).failed && ParseComponent(r).diags == DiagsAt(OctetComplaints(t, n), r.position)
        && ParseComponent(r).v4Octets == (if OctetComplaints(t, n) == [InvalidInput] then n + 1 else n)
      else n < 4 && ParseComponent(r) == r.(v4Octets := n + 1, tokenPosition := 0, tokenLen := 0, out := r.out.(components :=
        r.out.components[m + n / 2 := OrOctet(r.out.components[m + n / 2], ValueOf(t, 10), n % 2 == 0)]))
  {
    hide ReadToken, OrOctet, ValueOf, AllHex, AllDigits;
  }

  lemma CountsSay(r: Reader, s: string, i: nat)
    requires i <= |s| && Counts(r, s, i)
    ensures Fits(s, i) && !r.failed && r.diags == [] && r.components == CountOf(s, i)
    ensures r.embedding == Dotted(s, i) && (r.embedding ==> r.v4Embedding == |Groups(s, i)| <= 6)
    ensures r.v4Octets == |Quad(s, i)| <= 4 && |Groups(s, i)| <= 8 && r.out.components == Stored(s, i)
    ensures Stored(s, i) == Filled(GroupValues(Groups(s, i)), OctetValues(Quad(s, i)))
    ensures !Dotted(s, i) ==> Quad(s, i) == [] && CountOf(s, i) == |Groups(s, i)| && OctetValues(Quad(s, i)) == []
  {
    hide Filled, Groups, Quad, Dotted, Leading, Abbreviation, MaskBefore, PortBefore;
  }

  /** A component that ends is complained of, or stored behind the others. */
  lemma GroupEnds(r: Reader, s: string, i: nat)
    requires i < |s| && Shows(r, s, i) && Counts(r, s, i) && Stands(r, s, i) && r.current.StAddrComponent? && !Dotted(s, i)
    ensures var cs, q := GroupComplaints(Digits(s, i), |Groups(s, i)|), ParseComponent(r);
      if cs != [] then q.failed && q.diags == DiagsAt(cs, i)
      else |Groups(s, i)| < 8 && q == r.(components := |Groups(s, i)| + 1, tokenPosition := 0, tokenLen := 0,
                  out := r.out.(components := Filled(GroupValues(Groups(s, i) + [Digits(s, i)]), [])))
  {
    hide *;
    StandsAt(r, s, i);
    var gs, t := Groups(s, i), Digits(s, i);
    ReadsDigits(r, s, i, 16);
    CountsSay(r, s, i);
    GroupParsed(r, |gs|, t);
    OneMoreGroup(gs, t);
    if |gs| < 8 { FilledGroup(GroupValues(gs), Positional(t, 16) % 0x1_0000); }
  }

  /** The same of an octet. */
  lemma OctetEnds(r: Reader, s: string, i: nat)
    requires i < |s| && Shows(r, s, i) && Counts(r, s, i) && Stands(r, s, i) && r.current.StAddrComponent? && Dotted(s, i)
    ensures var cs, q := OctetComplaints(Digits(s, i), |Quad(s, i)|), ParseComponent(r);
      if cs != [] then
        q.failed && q.diags == DiagsAt(cs, i) && q.v4Octets == |Quad(s, i)| + (if cs == [InvalidInput] then 1 else 0)
      else |Quad(s, i)| < 4 && |Groups(s, i)| <= 6 && q == r.(v4Octets := |Quad(s, i)| + 1, tokenPosition := 0, tokenLen := 0,
                  out := r.out.(components := Filled(GroupValues(Groups(s, i)), OctetValues(Quad(s, i) + [Digits(s, i)]))))
  {
    hide *;
    StandsAt(r, s, i);
    var gs, os, t := Groups(s, i), Quad(s, i), Digits(s, i);
    ReadsDigits(r, s, i, 10);
    CountsSay(r, s, i);
    OctetParsed(r, |gs|, |os|, t);
    OneMoreOctet(os, t);
    if |os| < 4 { FilledOctet(GroupValues(gs), OctetValues(os), ValueOf(t, 10)); }
  }

  // ---- One character ----

  /** The i-th character ends no number and marks nothing. */
  ghost predicate Unmarked(s: string, i: nat)
    requires i < |s|
  {
    && Groups(s, i + 1) == Groups(s, i) && Quad(s, i + 1) == Quad(s, i) && Dotted(s, i + 1) == Dotted(s, i)
    && Abbreviation(s, i + 1) == Abbreviation(s, i)
    && MaskBefore(s, i + 1) == MaskBefore(s, i) && PortBefore(s, i + 1) == PortBefore(s, i)
  }

  /** The two readers differ in state and token at most. */
  predicate SameApart(r: Reader, q: Reader) {
    q == r.(current := q.current, tokenPosition := q.tokenPosition, tokenLen := q.tokenLen)
  }

  lemma CountsCarry(r: Reader, q: Reader, s: string, i: nat)
    requires i < |s| && Counts(r, s, i) && Unmarked(s, i) && SameApart(r, q)
    ensures Counts(q, s, i + 1)
  {
    hide Groups, Quad, Dotted, Abbreviation, MaskBefore, PortBefore, Filled, GroupValues, OctetValues;
  }

  /** What a step starts from. */
  ghost predicate Ready(r: Reader, s: string, i: nat, ec: EventClass) {
    && i < |s| && Shows(r, s, i) && Counts(r, s, i) && Stands(r, s, i) && Classify(s[i]) == Some(ec)
    && (s[i] == '[' ==> (r.brackets == 1 <==> '[' !in s[..i]))
  }

  lemma ClassOf(c: char, ec: EventClass)
    requires Classify(c) == Some(ec)
    ensures IsKnown(c) && (IsDigit(c) <==> ec.EcDigit?) && (IsHex(c) <==> ec.EcDigit? || ec.EcHexDigit?)
    ensures (c == ':' <==> ec.EcV6Separator?) && (c == '.' <==> ec.EcV4Separator?) && (c == '/' <==> ec.EcCidrMask?)
    ensures (c == '%' <==> ec.EcIface?) && (c == '[' <==> ec.EcOpenBracket?) && (c == ']' <==> ec.EcCloseBracket?)
    ensures IsSpace(c) <==> ec.EcWhitespace?
  {
  }

  lemma OutsideUnmarked(s: string, i: nat)
    requires i < |s| && (PlaceOf(s, i).Zone? || PlaceOf(s, i).Back?)
    ensures Unmarked(s, i)
  {
    OneFurther(s, i);
    OneFurtherMarks(s, i);
    hide PlaceOf, Groups, Quad, Dotted, Abbreviation, MaskBefore, PortBefore, Digits;
  }

  /** A step without complaint into a state that reads no token. */
  lemma Lands(q: Reader, s: string, i: nat)
    requires i < |s| && Complaints(s, i) == [] && Counts(q, s, i + 1)
    requires q.current == StateAt(s, i + 1) && q.current !in {StAddrComponent, StCidr, StPort}
    ensures Moves(q, s, i)
  {
    hide Complaints, Counts, StateAt, Digits;
  }

  lemma Complains(q: Reader, s: string, i: nat)
    requires i < |s| && Complaints(s, i) != [] && q.failed && q.diags == DiagsAt(Complaints(s, i), i)
    ensures Moves(q, s, i)
  {
    hide Complaints, Counts, Stands;
  }

  /** The classes of one character that lead out of the zone or the mask. */
  function OutState(ec: EventClass, stay: State): State {
    match ec
    case EcWhitespace => StNone
    case EcCloseBracket => StPostAddr
    case EcIface => StIface
    case _ => stay
  }

  lemma ZoneSteps(r: Reader, ec: EventClass)
    requires r.current.StIface?
    ensures SameApart(r, Step(r, ec)) && Step(r, ec).current == OutState(ec, StIface)
  {
  }

  lemma ZoneSays(s: string, i: nat, ec: EventClass)
    requires i < |s| && PlaceOf(s, i).Zone? && Classify(s[i]) == Some(ec)
    ensures Complaints(s, i) == [] && StateAt(s, i + 1) == OutState(ec, StIface)
  {
    ClassOf(s[i], ec);
    OneFurther(s, i);
    hide Classify, IsHex, IsSpace, PlaceOf, Groups, Quad, Dotted, Leading, Digits;
  }

  lemma StepInZone(r: Reader, s: string, i: nat, ec: EventClass)
    requires Ready(r, s, i, ec) && PlaceOf(s, i).Zone?
    ensures Moves(Step(r, ec), s, i)
  {
    assert r.current.StIface? && Counts(r, s, i) && Classify(s[i]) == Some(ec) by { hide Classify, Counts, PlaceOf, Digits; }
    hide *;
    OutsideUnmarked(s, i);
    ZoneSteps(r, ec);
    ZoneSays(s, i, ec);
    CountsCarry(r, Step(r, ec), s, i);
    Lands(Step(r, ec), s, i);
  }

  lemma ReadyParts(r: Reader, s: string, i: nat, ec: EventClass)
    requires Ready(r, s, i, ec)
    ensures i < |s| && Shows(r, s, i) && Counts(r, s, i) && Stands(r, s, i) && Classify(s[i]) == Some(ec)
    ensures r.current == StateAt(s, i) && r.position == i && !r.failed && r.diags == []
    ensures s[i] == '[' ==> (r.brackets == 1 <==> '[' !in s[..i])
    ensures r.current in {StAddrComponent, StCidr, StPort} ==> r.tokenPosition + r.tokenLen == i && r.tokenLen == |Digits(s, i)|
    ensures r.current in {StCidr, StPort} ==> AllDigits(Digits(s, i))
  {
    hide Classify, Fits, StateAt, ReadSoFar, CountOf, Leading, Digits, AllDigits;
  }

  // ---- Behind "]" ----

  lemma BackSteps(r: Reader, ec: EventClass)
    requires r.current.StPostAddr? && !r.failed && r.diags == []
    ensures var q := Step(r, ec);
      if ec.EcWhitespace? then q == r
      else if ec.EcV6Separator? then q == r.(current := StPort, tokenPosition := r.position + 1, tokenLen := 0)
      else q.failed && q.diags == [Diag(InvalidInput, r.position)]
  {
  }

  lemma ComplaintsInBack(s: string, i: nat)
    requires i < |s| && PlaceOf(s, i).Back? && IsKnown(s[i])
    ensures Complaints(s, i) == if s[i] == ':' || IsSpace(s[i]) then [] else [InvalidInput]
  {
    hide IsKnown, IsSpace, PlaceOf;
  }

  lemma BackMoves(s: string, i: nat)
    requires i < |s| && PlaceOf(s, i).Back?
    ensures PlaceOf(s, i + 1) == if s[i] == ':' then Port else Back
    ensures !IsHex(s[i]) ==> Digits(s, i + 1) == ""
  {
    OneFurther(s, i);
    hide IsHex, IsSpace, PlaceOf, Groups, Quad, Dotted, Leading, Digits;
  }

  lemma BackSays(s: string, i: nat, ec: EventClass)
    requires i < |s| && PlaceOf(s, i).Back? && Classify(s[i]) == Some(ec)
    ensures Complaints(s, i) == if ec.EcWhitespace? || ec.EcV6Separator? then [] else [InvalidInput]
    ensures ec.EcWhitespace? ==> StateAt(s, i + 1) == StPostAddr
    ensures ec.EcV6Separator? ==> StateAt(s, i + 1) == StPort && Digits(s, i + 1) == ""
  {
    hide *;
    ClassOf(s[i], ec);
    ComplaintsInBack(s, i);
    BackMoves(s, i);
    SpaceIsNoDigit(s[i]);
    StateBy(s, i + 1);
  }

  /** A step without complaint that opens a token. */
  lemma Opens(q: Reader, s: string, i: nat, t: string)
    requires i < |s| && Complaints(s, i) == [] && Counts(q, s, i + 1) && q.current == StateAt(s, i + 1)
    requires Digits(s, i + 1) == t && q.tokenPosition + q.tokenLen == i + 1 && q.tokenLen == |t|
    requires q.current in {StCidr, StPort} ==> AllDigits(t)
    ensures Moves(q, s, i)
  {
    hide Complaints, Counts, StateAt, Digits, AllDigits;
  }

  lemma NoDigitsAreDecimal()
    ensures AllDigits("")
  {
  }

  lemma StepInBack(r: Reader, s: string, i: nat, ec: EventClass)
    requires Ready(r, s, i, ec) && PlaceOf(s, i).Back?
    ensures Moves(Step(r, ec), s, i)
  {
    hide *;
    ReadyParts(r, s, i, ec);
    assert r.current.StPostAddr? by { StateOfBack(s, i); }
    OutsideUnmarked(s, i);
    BackSteps(r, ec);
    BackSays(s, i, ec);
    NoDigitsAreDecimal();
    var q := Step(r, ec);
    if ec.EcWhitespace? {
      SameApartFrom(r, q);
      CountsCarry(r, q, s, i);
      Lands(q, s, i);
    } else if ec.EcV6Separator? {
      SameApartFrom(r, q);
      CountsCarry(r, q, s, i);
      Opens(q, s, i, "");
    } else {
      OneDiag(InvalidInput, i);
      Complains(q, s, i);
    }
  }

  lemma StateOfBack(s: string, i: nat)
    requires i <= |s| && PlaceOf(s, i).Back?
    ensures StateAt(s, i).StPostAddr?
  {
    hide PlaceOf;
  }

  lemma SameApartFrom(r: Reader, q: Reader)
    requires q == r.(current := q.current, tokenPosition := q.tokenPosition, tokenLen := q.tokenLen)
    ensures SameApart(r, q)
  {
  }

  lemma OneDiag(event: DiagEvent, i: nat)
    ensures DiagsAt([event], i) == [Diag(event, i)]
  {
  }

  // ---- Behind "/" ----

  predicate LeavesMask(ec: EventClass) { ec.EcWhitespace? || ec.EcCloseBracket? || ec.EcIface? }

  lemma MaskSteps(r: Reader, ec: EventClass, v: int)
    requires r.current.StCidr? && !r.failed && r.diags == [] && ReadToken(r, 10) == (r, v)
    ensures var q := Step(r, ec);
      if ec.EcDigit? then q == r.(tokenLen := r.tokenLen + 1)
      else if !LeavesMask(ec) then q.failed && q.diags == [Diag(InvalidInput, r.position)]
      else if 0 <= v <= 128 then q == r.(current := OutState(ec, StCidr), out := r.out.(mask := v, flags := r.out.flags.(mask := true)))
      else q.failed && q.diags == [Diag(InvalidCidrMask, r.position)]
  {
    hide ReadToken;
  }

  lemma ComplaintsInMask(s: string, i: nat)
    requires i < |s| && PlaceOf(s, i).Mask? && IsKnown(s[i])
    ensures Complaints(s, i) ==
      if IsDigit(s[i]) then []
      else if !(s[i] == '%' || s[i] == ']' || IsSpace(s[i])) then [InvalidInput]
      else if 0 <= ValueOf(Digits(s, i), 10) <= 128 then []
      else [InvalidCidrMask]
  {
    hide IsKnown, IsDigit, IsSpace, PlaceOf, Digits, ValueOf;
  }

  lemma MaskMoves(s: string, i: nat)
    requires i < |s| && PlaceOf(s, i).Mask?
    ensures PlaceOf(s, i + 1) == if s[i] == '%' then Zone else if s[i] == ']' then Back else if IsSpace(s[i]) then Body else Mask
    ensures Before(s, i + 1) == s[i] && Digits(s, i + 1) == if IsHex(s[i]) then Digits(s, i) + [s[i]] else ""
  {
    OneFurther(s, i);
    hide IsHex, IsSpace, PlaceOf, Groups, Quad, Dotted, Leading, Digits;
  }

  lemma MaskSays(s: string, i: nat, ec: EventClass)
    requires i < |s| && PlaceOf(s, i).Mask? && Classify(s[i]) == Some(ec)
    ensures Complaints(s, i) ==
      if ec.EcDigit? then []
      else if !LeavesMask(ec) then [InvalidInput]
      else if 0 <= ValueOf(Digits(s, i), 10) <= 128 then []
      else [InvalidCidrMask]
    ensures ec.EcDigit? ==> StateAt(s, i + 1) == StCidr && PlaceOf(s, i + 1).Mask? && Digits(s, i + 1) == Digits(s, i) + [s[i]] && IsDigit(s[i])
    ensures LeavesMask(ec) ==> StateAt(s, i + 1) == OutState(ec, StCidr) && !PlaceOf(s, i + 1).Mask?
  {
    hide *;
    ClassOf(s[i], ec);
    ComplaintsInMask(s, i);
    MaskMoves(s, i);
    SpaceIsNoDigit(s[i]);
    StateBy(s, i + 1);
    LeavesIs(ec);
  }

  lemma LeavesIs(ec: EventClass)
    ensures LeavesMask(ec) <==> ec.EcWhitespace? || ec.EcCloseBracket? || ec.EcIface?
    ensures ec.EcWhitespace? ==> OutState(ec, StCidr) == StNone
    ensures ec.EcCloseBracket? ==> OutState(ec, StCidr) == StPostAddr
    ensures ec.EcIface? ==> OutState(ec, StCidr) == StIface
  {
  }

  /** Behind "/" and in a port only the mask and the port change. */
  lemma TailMarks(s: string, i: nat)
    requires i < |s| && (PlaceOf(s, i).Mask? || PlaceOf(s, i).Port?)
    ensures Groups(s, i + 1) == Groups(s, i) && Quad(s, i + 1) == Quad(s, i) && Dotted(s, i + 1) == Dotted(s, i)
    ensures Abbreviation(s, i + 1) == Abbreviation(s, i)
    ensures MaskBefore(s, i + 1) ==
      if PlaceOf(s, i).Mask? && !PlaceOf(s, i + 1).Mask? then Some(ValueOf(Digits(s, i), 10)) else MaskBefore(s, i)
    ensures PortBefore(s, i + 1) ==
      if PlaceOf(s, i).Port? && !PlaceOf(s, i + 1).Port? then Some(ValueOf(Digits(s, i), 10)) else PortBefore(s, i)
    ensures MaskBefore(s, i + 1) == MaskBefore(s, i) && PortBefore(s, i + 1) == PortBefore(s, i) ==> Unmarked(s, i)
  {
    OneFurther(s, i);
    OneFurtherMarks(s, i);
    hide PlaceOf, Groups, Quad, Dotted, Abbreviation, MaskBefore, PortBefore, Digits, ValueOf;
  }

  lemma CountsMask(r: Reader, q: Reader, s: string, i: nat, v: int)
    requires i < |s| && Counts(r, s, i) && 0 <= v <= 128 && MaskBefore(s, i + 1) == Some(v) && PortBefore(s, i + 1) == PortBefore(s, i)
    requires Groups(s, i + 1) == Groups(s, i) && Quad(s, i + 1) == Quad(s, i) && Dotted(s, i + 1) == Dotted(s, i)
    requires Abbreviation(s, i + 1) == Abbreviation(s, i)
    requires q == r.(current := q.current, out := r.out.(mask := v, flags := r.out.flags.(mask := true)))
    ensures Counts(q, s, i + 1)
  {
    hide Groups, Quad, Dotted, Abbreviation, MaskBefore, PortBefore, Filled, GroupValues, OctetValues;
  }

  lemma StateOfMask(s: string, i: nat)
    requires i <= |s| && PlaceOf(s, i).Mask?
    ensures StateAt(s, i).StCidr?
  {
    hide PlaceOf;
  }

  lemma DecimalReads(r: Reader, s: string, i: nat)
    requires i <= |s| && Shows(r, s, i) && Stands(r, s, i) && r.current in {StCidr, StPort} && AllDigits(Digits(s, i))
    ensures ReadToken(r, 10) == (r, ValueOf(Digits(s, i), 10))
  {
    ReadsDigits(r, s, i, 10);
    hide Shows, Stands, ReadToken, Digits, AllDigits, ValueOf;
  }

  lemma OneMoreDecimal(t: string, c: char)
    requires AllDigits(t) && IsDigit(c)
    ensures AllDigits(t + [c]) && |t + [c]| == |t| + 1
  {
  }

  lemma OutStateReadsNothing(ec: EventClass, stay: State)
    requires LeavesMask(ec)
    ensures OutState(ec, stay) in {StNone, StPostAddr, StIface}
  {
  }

  lemma StepInMask(r: Reader, s: string, i: nat, ec: EventClass)
    requires Ready(r, s, i, ec) && PlaceOf(s, i).Mask?
    ensures Moves(Step(r, ec), s, i)
  {
    hide *;
    ReadyParts(r, s, i, ec);
    assert r.current.StCidr? by { StateOfMask(s, i); }
    var t, q := Digits(s, i), Step(r, ec);
    var v := ValueOf(t, 10);
    DecimalReads(r, s, i);
    MaskSteps(r, ec, v);
    MaskSays(s, i, ec);
    TailMarks(s, i);
    if ec.EcDigit? {
      assert !PlaceOf(s, i).Port?;
      SameApartFrom(r, q);
      CountsCarry(r, q, s, i);
      OneMoreDecimal(t, s[i]);
      Opens(q, s, i, t + [s[i]]);
    } else if LeavesMask(ec) && 0 <= v <= 128 {
      OutStateReadsNothing(ec, StCidr);
      CountsMask(r, q, s, i, v);
      Lands(q, s, i);
    } else {
      OneDiag(if LeavesMask(ec) then InvalidCidrMask else InvalidInput, i);
      Complains(q, s, i);
    }
  }

  // ---- In a port ----

  lemma PortSteps(r: Reader, ec: EventClass, v: int)
    requires r.current.StPort? && !r.failed && r.diags == [] && ReadToken(r, 10) == (r, v)
    ensures var q := Step(r, ec);
      if ec.EcDigit? then q == r.(tokenLen := r.tokenLen + 1)
      else if !ec.EcWhitespace? then q.failed && q.diags == [Diag(InvalidInput, r.position)]
      else if 0 <= v <= 0xffff then q == r.(current := StNone, out := r.out.(port := v, flags := r.out.flags.(port := true)))
      else q.failed && q.diags == [Diag(InvalidPort, r.position)]
  {
    hide ReadToken;
  }

  lemma ComplaintsInPort(s: string, i: nat)
    requires i < |s| && PlaceOf(s, i).Port? && IsKnown(s[i])
    ensures Complaints(s, i) ==
      if IsDigit(s[i]) then []
      else if !IsSpace(s[i]) then [InvalidInput]
      else if 0 <= ValueOf(Digits(s, i), 10) <= 0xffff then []
      else [InvalidPort]
  {
    hide IsKnown, IsDigit, IsSpace, PlaceOf, Digits, ValueOf;
  }

  lemma PortMoves(s: string, i: nat)
    requires i < |s| && PlaceOf(s, i).Port?
    ensures PlaceOf(s, i + 1) == if IsSpace(s[i]) then Body else Port
    ensures Before(s, i + 1) == s[i] && Digits(s, i + 1) == if IsHex(s[i]) then Digits(s, i) + [s[i]] else ""
  {
    OneFurther(s, i);
    hide IsHex, IsSpace, PlaceOf, Groups, Quad, Dotted, Leading, Digits;
  }

  lemma SpaceIsNoDigit(c: char)
    ensures IsSpace(c) ==> !IsHex(c) && c != ':'
    ensures IsDigit(c) ==> IsHex(c)
  {
  }

  lemma PortSays(s: string, i: nat, ec: EventClass)
    requires i < |s| && PlaceOf(s, i).Port? && Classify(s[i]) == Some(ec)
    ensures Complaints(s, i) ==
      if ec.EcDigit? then []
      else if !ec.EcWhitespace? then [InvalidInput]
      else if 0 <= ValueOf(Digits(s, i), 10) <= 0xffff then []
      else [InvalidPort]
    ensures ec.EcDigit? ==> StateAt(s, i + 1) == StPort && PlaceOf(s, i + 1).Port? && Digits(s, i + 1) == Digits(s, i) + [s[i]] && IsDigit(s[i])
    ensures ec.EcWhitespace? ==> StateAt(s, i + 1) == StNone && !PlaceOf(s, i + 1).Port?
  {
    hide *;
    ClassOf(s[i], ec);
    ComplaintsInPort(s, i);
    PortMoves(s, i);
    SpaceIsNoDigit(s[i]);
    StateBy(s, i + 1);
  }

  lemma StateBy(s: string, i: nat)
    requires i <= |s|
    ensures PlaceOf(s, i).Port? ==> StateAt(s, i) == StPort
    ensures PlaceOf(s, i).Mask? ==> StateAt(s, i) == StCidr
    ensures PlaceOf(s, i).Zone? ==> StateAt(s, i) == StIface
    ensures PlaceOf(s, i).Back? ==> StateAt(s, i) == StPostAddr
    ensures PlaceOf(s, i).Body? && !IsHex(Before(s, i)) && Before(s, i) != ':' ==> StateAt(s, i) == StNone
  {
    hide PlaceOf, IsHex;
  }

  lemma CountsPort(r: Reader, q: Reader, s: string, i: nat, v: int)
    requires i < |s| && Counts(r, s, i) && 0 <= v <= 0xffff && PortBefore(s, i + 1) == Some(v) && MaskBefore(s, i + 1) == MaskBefore(s, i)
    requires Groups(s, i + 1) == Groups(s, i) && Quad(s, i + 1) == Quad(s, i) && Dotted(s, i + 1) == Dotted(s, i)
    requires Abbreviation(s, i + 1) == Abbreviation(s, i)
    requires q == r.(current := q.current, out := r.out.(port := v, flags := r.out.flags.(port := true)))
    ensures Counts(q, s, i + 1)
  {
    hide Groups, Quad, Dotted, Abbreviation, MaskBefore, PortBefore, Filled, GroupValues, OctetValues;
  }

  lemma StateOfPort(s: string, i: nat)
    requires i <= |s| && PlaceOf(s, i).Port?
    ensures StateAt(s, i).StPort?
  {
    hide PlaceOf;
  }

  lemma StepInPort(r: Reader, s: string, i: nat, ec: EventClass)
    requires Ready(r, s, i, ec) && PlaceOf(s, i).Port?
    ensures Moves(Step(r, ec), s, i)
  {
    hide *;
    ReadyParts(r, s, i, ec);
    assert r.current.StPort? by { StateOfPort(s, i); }
    var t, q := Digits(s, i), Step(r, ec);
    var v := ValueOf(t, 10);
    DecimalReads(r, s, i);
    PortSteps(r, ec, v);
    PortSays(s, i, ec);
    TailMarks(s, i);
    if ec.EcDigit? {
      assert !PlaceOf(s, i).Mask?;
      SameApartFrom(r, q);
      CountsCarry(r, q, s, i);
      OneMoreDecimal(t, s[i]);
      Opens(q, s, i, t + [s[i]]);
    } else if ec.EcWhitespace? && 0 <= v <= 0xffff {
      CountsPort(r, q, s, i, v);
      Lands(q, s, i);
    } else {
      OneDiag(if ec.EcWhitespace? then InvalidPort else InvalidInput, i);
      Complains(q, s, i);
    }
  }

  // ---- In an address, not behind a digit ----

  /** The state behind a character that is not a digit, in an address. */
  function NextState(ec: EventClass): State {
    match ec
    case EcDigit | EcHexDigit => StAddrComponent
    case EcCloseBracket => StPostAddr
    case EcV6Separator => StV6Separator
    case EcCidrMask => StCidr
    case EcIface => StIface
    case EcWhitespace | EcOpenBracket | EcV4Separator => StNone
  }

  predicate OpensToken(ec: EventClass) { ec.EcDigit? || ec.EcHexDigit? || ec.EcCidrMask? }

  /** The reader in its next state, with a token opened. */
  function Opened(r: Reader, ec: EventClass): Reader {
    if ec.EcCidrMask? then r.(current := StCidr, tokenPosition := r.position + 1, tokenLen := 0)
    else r.(current := StAddrComponent, tokenPosition := r.position, tokenLen := 1)
  }

  lemma ClearSteps(r: Reader, ec: EventClass)
    requires r.current.StNone? && !r.failed && r.diags == []
    ensures var q := Step(r, ec);
      if ec.EcV4Separator? || ec.EcIface? then q.failed && q.diags == [Diag(InvalidInput, r.position)]
      else if ec.EcOpenBracket? && r.brackets != 1 then q.failed && q.diags == [Diag(InvalidBrackets, r.position)]
      else if OpensToken(ec) then q == Opened(r, ec)
      else q == r.(current := NextState(ec))
  {
  }

  lemma ColonSteps(r: Reader, ec: EventClass)
    requires r.current.StV6Separator? && !r.failed && r.diags == []
    ensures var q := Step(r, ec);
      if ec.EcV4Separator? then q.failed && q.diags == [Diag(InvalidInput, r.position)]
      else if ec.EcOpenBracket? then q.failed && q.diags == [Diag(InvalidBrackets, r.position)]
      else if ec.EcV6Separator? then
        if r.hasZerorun then q.failed && q.diags == [Diag(InvalidAbbrev, r.position)]
        else q == r.(zerorun := r.components, hasZerorun := true)
      else if OpensToken(ec) then q == Opened(r, ec)
      else q == r.(current := NextState(ec))
  {
  }

  /** In an address, not behind a digit. */
  predicate NoDigitBefore(s: string, i: nat) { i < |s| && PlaceOf(s, i).Body? && !IsHex(Before(s, i)) }

  lemma StateWithoutDigit(s: string, i: nat)
    requires NoDigitBefore(s, i)
    ensures StateAt(s, i) == if Before(s, i) == ':' then StV6Separator else StNone
    ensures Digits(s, i) == ""
  {
    hide PlaceOf, IsHex;
  }

  lemma NoDigitSays(s: string, i: nat, ec: EventClass)
    requires NoDigitBefore(s, i) && Classify(s[i]) == Some(ec)
    ensures Complaints(s, i) ==
      if ec.EcV4Separator? then [InvalidInput]
      else if Before(s, i) == ':' then
        if ec.EcOpenBracket? then [InvalidBrackets]
        else if ec.EcV6Separator? && Abbreviation(s, i).Some? then [InvalidAbbrev] else []
      else if ec.EcIface? then [InvalidInput]
      else if ec.EcOpenBracket? && '[' in s[..i] then [InvalidBrackets]
      else []
  {
    ClassOf(s[i], ec);
    hide Classify, IsSpace, IsHex, PlaceOf, Groups, Quad, Dotted, Leading, Digits, ValueOf, Abbreviation;
  }

  lemma NoDigitMoves(s: string, i: nat, ec: EventClass)
    requires NoDigitBefore(s, i) && Classify(s[i]) == Some(ec) && !ec.EcV4Separator?
    ensures StateAt(s, i + 1) == NextState(ec)
    ensures OpensToken(ec) ==> Digits(s, i + 1) == if ec.EcCidrMask? then "" else [s[i]]
    ensures !(ec.EcV6Separator? && Before(s, i) == ':') ==> Unmarked(s, i)
  {
    ClassOf(s[i], ec);
    OneFurther(s, i);
    OneFurtherMarks(s, i);
    StateWithoutDigit(s, i);
    hide Classify, IsSpace, IsHex, PlaceOf, Groups, Quad, Dotted, Leading, Digits, ValueOf, Abbreviation, MaskBefore, PortBefore;
    if ec.EcDigit? || ec.EcHexDigit? { assert "" + [s[i]] == [s[i]]; }
  }

  lemma AbbreviationMarks(s: string, i: nat)
    requires NoDigitBefore(s, i) && s[i] == ':' == Before(s, i) && Abbreviation(s, i).None?
    ensures Groups(s, i + 1) == Groups(s, i) && Quad(s, i + 1) == Quad(s, i) && Dotted(s, i + 1) == Dotted(s, i)
    ensures MaskBefore(s, i + 1) == MaskBefore(s, i) && PortBefore(s, i + 1) == PortBefore(s, i)
    ensures Abbreviation(s, i + 1) == Some(CountOf(s, i))
  {
    OneFurther(s, i);
    OneFurtherMarks(s, i);
    hide IsSpace, IsHex, PlaceOf, Groups, Quad, Dotted, Leading, Digits, ValueOf, Abbreviation, MaskBefore, PortBefore;
  }

  lemma CountsAbbreviation(r: Reader, q: Reader, s: string, i: nat)
    requires i < |s| && Counts(r, s, i) && Abbreviation(s, i + 1) == Some(CountOf(s, i))
    requires Groups(s, i + 1) == Groups(s, i) && Quad(s, i + 1) == Quad(s, i) && Dotted(s, i + 1) == Dotted(s, i)
    requires MaskBefore(s, i + 1) == MaskBefore(s, i) && PortBefore(s, i + 1) == PortBefore(s, i)
    requires q == r.(zerorun := r.components, hasZerorun := true)
    ensures Counts(q, s, i + 1)
  {
    hide Groups, Quad, Dotted, Abbreviation, MaskBefore, PortBefore, Filled, GroupValues, OctetValues;
  }

  lemma ZerorunSays(r: Reader, s: string, i: nat)
    requires i <= |s| && Counts(r, s, i)
    ensures r.hasZerorun == Abbreviation(s, i).Some?
  {
    hide Fits, ReadSoFar, CountOf, Leading, Dotted, Groups, Quad, Abbreviation;
  }

  /** What a step that opens a token, or none, comes to. */
  lemma Enters(r: Reader, q: Reader, s: string, i: nat, ec: EventClass)
    requires Ready(r, s, i, ec) && NoDigitBefore(s, i) && !ec.EcV4Separator? && Complaints(s, i) == [] && Unmarked(s, i)
    requires q == if OpensToken(ec) then Opened(r, ec) else r.(current := NextState(ec))
    ensures Moves(q, s, i)
  {
    hide *;
    ReadyParts(r, s, i, ec);
    NoDigitMoves(s, i, ec);
    OpenedParts(r, ec);
    SameApartFrom(r, q);
    CountsCarry(r, q, s, i);
    if OpensToken(ec) {
      NoDigitsAreDecimal();
      Opens(q, s, i, if ec.EcCidrMask? then "" else [s[i]]);
    } else {
      Lands(q, s, i);
    }
  }

  lemma OpenedParts(r: Reader, ec: EventClass)
    ensures OpensToken(ec) ==>
      var q := Opened(r, ec);
      && q == r.(current := NextState(ec), tokenPosition := q.tokenPosition, tokenLen := q.tokenLen)
      && q.tokenPosition + q.tokenLen == r.position + 1 && q.tokenLen == (if ec.EcCidrMask? then 0 else 1)
      && (q.current in {StCidr, StPort} <==> ec.EcCidrMask?)
    ensures !OpensToken(ec) ==> NextState(ec) !in {StAddrComponent, StCidr, StPort}
  {
  }

  lemma StepInTheClear(r: Reader, s: string, i: nat, ec: EventClass)
    requires Ready(r, s, i, ec) && NoDigitBefore(s, i) && Before(s, i) != ':'
    ensures Moves(Step(r, ec), s, i)
  {
    hide *;
    ReadyParts(r, s, i, ec);
    StateWithoutDigit(s, i);
    ClearSteps(r, ec);
    NoDigitSays(s, i, ec);
    ClassOf(s[i], ec);
    OneDiag(InvalidInput, i);
    OneDiag(InvalidBrackets, i);
    if Complaints(s, i) != [] {
      Complains(Step(r, ec), s, i);
    } else {
      NoDigitMoves(s, i, ec);
      Enters(r, Step(r, ec), s, i, ec);
    }
  }

  lemma StepBehindColon(r: Reader, s: string, i: nat, ec: EventClass)
    requires Ready(r, s, i, ec) && NoDigitBefore(s, i) && Before(s, i) == ':'
    ensures Moves(Step(r, ec), s, i)
  {
    hide *;
    ReadyParts(r, s, i, ec);
    StateWithoutDigit(s, i);
    ColonSteps(r, ec);
    NoDigitSays(s, i, ec);
    ClassOf(s[i], ec);
    ZerorunSays(r, s, i);
    OneDiag(InvalidInput, i);
    OneDiag(InvalidBrackets, i);
    OneDiag(InvalidAbbrev, i);
    var q := Step(r, ec);
    if Complaints(s, i) != [] {
      Complains(q, s, i);
    } else {
      NoDigitMoves(s, i, ec);
      if ec.EcV6Separator? {
        AbbreviationMarks(s, i);
        CountsAbbreviation(r, q, s, i);
        NextStateOfColon(ec);
        Lands(q, s, i);
      } else {
        Enters(r, q, s, i, ec);
      }
    }
  }

  lemma NextStateOfColon(ec: EventClass)
    requires ec.EcV6Separator?
    ensures NextState(ec) == StV6Separator
  {
  }

  // ---- In an address, behind a digit ----

  predicate DigitBefore(s: string, i: nat) { i < |s| && PlaceOf(s, i).Body? && IsHex(Before(s, i)) }

  /** The state behind a number, by the class that ended it. */
  function EndState(ec: EventClass, leading: bool): State {
    if ec.EcV6Separator? && leading then StPort else if ec.EcV4Separator? then StNone else NextState(ec)
  }

  /** The reader in that state; a mask and a port open a token. */
  function Ended(p: Reader, ec: EventClass, leading: bool): Reader {
    var q := p.(current := EndState(ec, leading));
    if q.current in {StCidr, StPort} then q.(tokenPosition := p.position + 1, tokenLen := 0) else q
  }

  predicate Ends(ec: EventClass) { !ec.EcDigit? && !ec.EcHexDigit? && !ec.EcOpenBracket? }

  lemma DigitSteps(r: Reader, ec: EventClass)
    requires r.current.StAddrComponent? && !r.failed && r.diags == []
    ensures var q, p := Step(r, ec), ParseComponent(if ec.EcV4Separator? && !r.embedding then BeginEmbedding(r) else r);
      if ec.EcDigit? || ec.EcHexDigit? then q == r.(tokenLen := r.tokenLen + 1)
      else if ec.EcOpenBracket? then q.failed && q.diags == [Diag(InvalidInput, r.position)]
      else if ec.EcV6Separator? && r.embedding && !r.compat then q.failed && q.diags == [Diag(Ipv4IncorrectPosition, r.position)]
      else if ec.EcV4Separator? && !r.embedding && r.components >= 7 then q.failed && q.diags == [Diag(Ipv4RequiredBits, r.position)]
      else p.position == r.position && q == Ended(p, ec, r.compat)
  {
    hide ParseComponent;
  }

  lemma StateBehindDigit(s: string, i: nat)
    requires DigitBefore(s, i)
    ensures StateAt(s, i) == StAddrComponent
  {
    hide PlaceOf, IsHex;
  }

  lemma DigitSays(s: string, i: nat, ec: EventClass)
    requires DigitBefore(s, i) && Classify(s[i]) == Some(ec)
    ensures Complaints(s, i) ==
      if ec.EcDigit? || ec.EcHexDigit? then []
      else if ec.EcOpenBracket? then [InvalidInput]
      else if ec.EcV6Separator? && Dotted(s, i) && !Leading(s, i) then [Ipv4IncorrectPosition]
      else if ec.EcV4Separator? && !Dotted(s, i) && |Groups(s, i)| >= 7 then [Ipv4RequiredBits]
      else if ec.EcV4Separator? || Dotted(s, i) then OctetComplaints(Digits(s, i), |Quad(s, i)|)
      else GroupComplaints(Digits(s, i), |Groups(s, i)|)
  {
    ClassOf(s[i], ec);
    hide Classify, IsSpace, IsHex, PlaceOf, Groups, Quad, Dotted, Leading, Digits, OctetComplaints, GroupComplaints;
  }

  lemma DigitStays(s: string, i: nat, ec: EventClass)
    requires DigitBefore(s, i) && Classify(s[i]) == Some(ec) && (ec.EcDigit? || ec.EcHexDigit?)
    ensures Unmarked(s, i) && StateAt(s, i + 1) == StAddrComponent && Digits(s, i + 1) == Digits(s, i) + [s[i]]
  {
    ClassOf(s[i], ec);
    OneFurther(s, i);
    OneFurtherMarks(s, i);
    assert s[i] != ':' && s[i] != '.';
    hide Classify, IsSpace, IsHex, PlaceOf, Groups, Quad, Dotted, Leading, Digits, ValueOf, Abbreviation, MaskBefore, PortBefore;
  }

  lemma DigitMoves(s: string, i: nat, ec: EventClass)
    requires DigitBefore(s, i) && Classify(s[i]) == Some(ec) && Ends(ec)
    ensures StateAt(s, i + 1) == EndState(ec, Leading(s, i)) && Digits(s, i + 1) == ""
    ensures Dotted(s, i + 1) == (Dotted(s, i) || ec.EcV4Separator?)
    ensures Groups(s, i + 1) == Groups(s, i) + (if Dotted(s, i + 1) then [] else [Digits(s, i)])
    ensures Quad(s, i + 1) == Quad(s, i) + (if Dotted(s, i + 1) then [Digits(s, i)] else [])
    ensures OnlyNumbers(s, i)
  {
    ClassOf(s[i], ec);
    assert DigitBefore(s, i) ==> Before(s, i) != ':' && PlaceOf(s, i).Body? && IsHex(Before(s, i)) by { hide PlaceOf; }
    assert Ends(ec) ==> !ec.EcDigit? && !ec.EcHexDigit? && !ec.EcOpenBracket?;
    hide *;
    EndPlaces(s, i, ec);
    OneFurther(s, i);
    OneFurtherMarks(s, i);
    assert Closes(s, i) by { ClosesHere(s, i); }
    OnlyNumbersIs(s, i);
  }

  lemma ClosesHere(s: string, i: nat)
    requires i < |s| && PlaceOf(s, i).Body? && IsHex(Before(s, i)) && !IsHex(s[i])
    ensures Closes(s, i)
  {
    hide PlaceOf, IsHex;
  }

  lemma EndPlaces(s: string, i: nat, ec: EventClass)
    requires i < |s| && PlaceOf(s, i).Body? && IsHex(Before(s, i)) && Classify(s[i]) == Some(ec) && Ends(ec)
    ensures StateAt(s, i + 1) == EndState(ec, Leading(s, i))
    ensures !PlaceOf(s, i).Mask? && !PlaceOf(s, i).Port?
  {
    ClassOf(s[i], ec);
    OneFurther(s, i);
    hide Classify, IsSpace, IsHex, PlaceOf, Groups, Quad, Dotted, Leading, Digits;
  }

  /** The marks besides the numbers stay. */
  ghost predicate OnlyNumbers(s: string, i: nat)
    requires i < |s|
  {
    Abbreviation(s, i + 1) == Abbreviation(s, i) && MaskBefore(s, i + 1) == MaskBefore(s, i) && PortBefore(s, i + 1) == PortBefore(s, i)
  }

  lemma OnlyNumbersIs(s: string, i: nat)
    requires i < |s|
    requires Abbreviation(s, i + 1) == Abbreviation(s, i) && MaskBefore(s, i + 1) == MaskBefore(s, i) && PortBefore(s, i + 1) == PortBefore(s, i)
    ensures OnlyNumbers(s, i)
  {
  }

  lemma CountsGroup(r: Reader, q: Reader, s: string, i: nat, t: string)
    requires i < |s| && Counts(r, s, i) && OnlyNumbers(s, i) && AllHex(t) && |Groups(s, i)| < 8
    requires !Dotted(s, i + 1) && !Dotted(s, i) && Groups(s, i + 1) == Groups(s, i) + [t] && Quad(s, i + 1) == Quad(s, i)
    requires q == r.(components := |Groups(s, i)| + 1, current := q.current, tokenPosition := q.tokenPosition, tokenLen := q.tokenLen,
                     out := r.out.(components := Filled(GroupValues(Groups(s, i) + [t]), [])))
    ensures Counts(q, s, i + 1)
  {
    assert Quad(s, i) == [] && OctetValues(Quad(s, i)) == [] by { hide Groups, Quad, Dotted, Abbreviation, MaskBefore, PortBefore, Filled; }
    hide Groups, Quad, Dotted, Abbreviation, MaskBefore, PortBefore, Filled, GroupValues, OctetValues, AllHex;
  }

  lemma CountsOctet(r: Reader, q: Reader, s: string, i: nat, t: string)
    requires i < |s| && Counts(r, s, i) && OnlyNumbers(s, i) && AllHex(t) && |Quad(s, i)| < 4 && |Groups(s, i)| <= 6
    requires Dotted(s, i + 1) && Dotted(s, i) && Groups(s, i + 1) == Groups(s, i) && Quad(s, i + 1) == Quad(s, i) + [t]
    requires q == r.(v4Octets := |Quad(s, i)| + 1, current := q.current, tokenPosition := q.tokenPosition, tokenLen := q.tokenLen,
                     out := r.out.(components := Filled(GroupValues(Groups(s, i)), OctetValues(Quad(s, i) + [t]))))
    ensures Counts(q, s, i + 1)
  {
    hide Groups, Quad, Dotted, Abbreviation, MaskBefore, PortBefore, Filled, GroupValues, OctetValues, AllHex;
  }

  /** The reader with its first octet stored. */
  lemma CountsFirst(r: Reader, q: Reader, s: string, i: nat, t: string)
    requires i < |s| && Counts(r, s, i) && OnlyNumbers(s, i) && AllHex(t) && |Groups(s, i)| <= 6
    requires Dotted(s, i + 1) && !Dotted(s, i) && Groups(s, i + 1) == Groups(s, i) && Quad(s, i + 1) == [t]
    requires q == r.(v4Embedding := |Groups(s, i)|, embedding := true, compat := Groups(s, i) == [], components := |Groups(s, i)| + 2,
                     v4Octets := 1, current := q.current, tokenPosition := q.tokenPosition, tokenLen := q.tokenLen,
                     out := r.out.(components := Filled(GroupValues(Groups(s, i)), OctetValues([t]))))
    ensures Counts(q, s, i + 1)
  {
    hide Groups, Quad, Dotted, Abbreviation, MaskBefore, PortBefore, Filled, GroupValues, OctetValues, AllHex;
  }

  lemma FirstOctetEnds(r: Reader, s: string, i: nat)
    requires i < |s| && Shows(r, s, i) && Counts(r, s, i) && Stands(r, s, i) && r.current.StAddrComponent? && !Dotted(s, i)
    requires |Groups(s, i)| <= 6
    ensures var cs, q := OctetComplaints(Digits(s, i), 0), ParseComponent(BeginEmbedding(r));
      if cs != [] then q.failed && q.diags == DiagsAt(cs, i)
      else q == r.(v4Embedding := |Groups(s, i)|, embedding := true, compat := Groups(s, i) == [], components := |Groups(s, i)| + 2,
                   v4Octets := 1, tokenPosition := 0, tokenLen := 0,
                   out := r.out.(components := Filled(GroupValues(Groups(s, i)), OctetValues([Digits(s, i)]))))
  {
    hide *;
    StandsAt(r, s, i);
    var gs, t, b := Groups(s, i), Digits(s, i), BeginEmbedding(r);
    ReadsDigits(r, s, i, 10);
    CountsSay(r, s, i);
    LeadingSays(r, s, i);
    BeginsEmbedding(r, |gs|);
    EmbeddingReads(r, t);
    OctetParsed(b, |gs|, 0, t);
    OneMoreOctet([], t);
    assert [] + [t] == [t];
    FilledOctet(GroupValues(gs), [], ValueOf(t, 10));
    assert OctetValues([]) == [];
    assert [] + [ValueOf(t, 10)] == [ValueOf(t, 10)];
  }

  lemma LeadingSays(r: Reader, s: string, i: nat)
    requires i <= |s| && Counts(r, s, i)
    ensures r.compat == Leading(s, i) && (!Dotted(s, i) ==> !Leading(s, i))
  {
    hide Fits, ReadSoFar, CountOf, Dotted, Groups, Quad, Abbreviation;
  }

  lemma BeginsEmbedding(r: Reader, m: nat)
    requires r.components == m <= 6 && !r.compat && !r.embedding
    ensures BeginEmbedding(r) == r.(v4Embedding := m, embedding := true, compat := m == 0, components := m + 2)
  {
  }

  lemma EmbeddingReads(r: Reader, t: string)
    requires r.components <= 6 && AllHex(t)
    requires ReadToken(r, 10) == if InRadix(t, 10) then (r, ValueOf(t, 10)) else (Fail(r, InvalidInput), 0)
    ensures var b := BeginEmbedding(r);
      ReadToken(b, 10) == if InRadix(t, 10) then (b, ValueOf(t, 10)) else (Fail(b, InvalidInput), 0)
  {
    hide InRadix, AllHex, ValueOf, Accumulate;
  }

  lemma EndedParts(p: Reader, ec: EventClass, leading: bool)
    ensures var q := Ended(p, ec, leading);
      && SameApart(p, q) && q.current == EndState(ec, leading) && q.failed == p.failed && q.diags == p.diags
      && (Ends(ec) ==> !q.current.StAddrComponent?)
      && (q.current in {StCidr, StPort} ==> q.tokenPosition == p.position + 1 && q.tokenLen == 0)
  {
  }

  /** A step behind a number that was stored. */
  lemma NumberLands(q: Reader, s: string, i: nat)
    requires i < |s| && Complaints(s, i) == [] && Counts(q, s, i + 1) && Digits(s, i + 1) == ""
    requires q.current == StateAt(s, i + 1) && !q.current.StAddrComponent?
    requires q.current in {StCidr, StPort} ==> q.tokenPosition == i + 1 && q.tokenLen == 0
    ensures Moves(q, s, i)
  {
    hide *;
    if q.current in {StCidr, StPort} {
      NoDigitsAreDecimal();
      Opens(q, s, i, "");
    } else {
      Lands(q, s, i);
    }
  }

  /** A number ends, and nothing forbids it to end here. */
  ghost predicate MayEnd(r: Reader, s: string, i: nat, ec: EventClass) {
    && Ready(r, s, i, ec) && DigitBefore(s, i) && Ends(ec)
    && !(ec.EcV6Separator? && Dotted(s, i) && !Leading(s, i))
    && !(ec.EcV4Separator? && !Dotted(s, i) && |Groups(s, i)| >= 7)
  }

  lemma MayEndParts(r: Reader, s: string, i: nat, ec: EventClass)
    requires MayEnd(r, s, i, ec)
    ensures Ready(r, s, i, ec) && DigitBefore(s, i) && Ends(ec) && OnlyNumbers(s, i)
    ensures r.current == StAddrComponent && r.position == i
    ensures var p := ParseComponent(if ec.EcV4Separator? && !Dotted(s, i) then BeginEmbedding(r) else r);
      p.position == i && Step(r, ec) == Ended(p, ec, Leading(s, i))
    ensures ec.EcV4Separator? && !Dotted(s, i) ==> |Groups(s, i)| <= 6
    ensures Complaints(s, i) ==
      if ec.EcV4Separator? || Dotted(s, i) then OctetComplaints(Digits(s, i), |Quad(s, i)|)
      else GroupComplaints(Digits(s, i), |Groups(s, i)|)
  {
    assert Ready(r, s, i, ec) && DigitBefore(s, i) && Ends(ec) by { hide Ready, DigitBefore, Ends; }
    MayEndStep(r, s, i, ec);
  }

  lemma MayEndStep(r: Reader, s: string, i: nat, ec: EventClass)
    requires Ready(r, s, i, ec) && DigitBefore(s, i) && Ends(ec) && MayEnd(r, s, i, ec)
    ensures OnlyNumbers(s, i) && r.current == StAddrComponent && r.position == i
    ensures var p := ParseComponent(if ec.EcV4Separator? && !Dotted(s, i) then BeginEmbedding(r) else r);
      p.position == i && Step(r, ec) == Ended(p, ec, Leading(s, i))
    ensures ec.EcV4Separator? && !Dotted(s, i) ==> |Groups(s, i)| <= 6
    ensures Complaints(s, i) ==
      if ec.EcV4Separator? || Dotted(s, i) then OctetComplaints(Digits(s, i), |Quad(s, i)|)
      else GroupComplaints(Digits(s, i), |Groups(s, i)|)
  {
    assert !(ec.EcV6Separator? && Dotted(s, i) && !Leading(s, i)) && !(ec.EcV4Separator? && !Dotted(s, i) && |Groups(s, i)| >= 7) by {
      hide Ready, DigitBefore, Dotted, Leading, Groups;
    }
    assert !ec.EcDigit? && !ec.EcHexDigit? && !ec.EcOpenBracket?;
    hide *;
    ReadyParts(r, s, i, ec);
    StateBehindDigit(s, i);
    DigitSteps(r, ec);
    DigitSays(s, i, ec);
    DigitMoves(s, i, ec);
    CountsSay(r, s, i);
    LeadingSays(r, s, i);
  }

  lemma GroupStep(r: Reader, s: string, i: nat, ec: EventClass)
    requires MayEnd(r, s, i, ec) && !Dotted(s, i) && !ec.EcV4Separator?
    ensures Moves(Step(r, ec), s, i)
  {
    hide *;
    MayEndParts(r, s, i, ec);
    ReadyParts(r, s, i, ec);
    DigitMoves(s, i, ec);
    GroupEnds(r, s, i);
    var p, q := ParseComponent(r), Step(r, ec);
    EndedParts(p, ec, Leading(s, i));
    if Complaints(s, i) != [] {
      Complains(q, s, i);
    } else {
      AddedApart(r, p, q);
      assert Groups(s, i + 1) == Groups(s, i) + [Digits(s, i)] && Quad(s, i + 1) == Quad(s, i);
      CountsGroup(r, q, s, i, Digits(s, i));
      NumberLands(q, s, i);
    }
  }

  /** The two readers differ in state, token, counters and components at most. */
  lemma AddedApart(r: Reader, p: Reader, q: Reader)
    requires p == r.(components := p.components, tokenPosition := 0, tokenLen := 0, v4Octets := p.v4Octets, out := p.out,
                     v4Embedding := p.v4Embedding, embedding := p.embedding, compat := p.compat)
    requires SameApart(p, q)
    ensures q == r.(components := p.components, current := q.current, tokenPosition := q.tokenPosition, tokenLen := q.tokenLen,
                    v4Octets := p.v4Octets, out := p.out, v4Embedding := p.v4Embedding, embedding := p.embedding, compat := p.compat)
  {
  }

  lemma OctetStep(r: Reader, s: string, i: nat, ec: EventClass)
    requires MayEnd(r, s, i, ec) && Dotted(s, i)
    ensures Moves(Step(r, ec), s, i)
  {
    hide *;
    MayEndParts(r, s, i, ec);
    ReadyParts(r, s, i, ec);
    DigitMoves(s, i, ec);
    OctetEnds(r, s, i);
    var p, q := ParseComponent(r), Step(r, ec);
    EndedParts(p, ec, Leading(s, i));
    if Complaints(s, i) != [] {
      Complains(q, s, i);
    } else {
      AddedApart(r, p, q);
      assert Quad(s, i + 1) == Quad(s, i) + [Digits(s, i)] && Groups(s, i + 1) == Groups(s, i);
      CountsOctet(r, q, s, i, Digits(s, i));
      NumberLands(q, s, i);
    }
  }

  lemma FirstOctetStep(r: Reader, s: string, i: nat, ec: EventClass)
    requires MayEnd(r, s, i, ec) && !Dotted(s, i) && ec.EcV4Separator?
    ensures Moves(Step(r, ec), s, i)
  {
    hide *;
    MayEndParts(r, s, i, ec);
    ReadyParts(r, s, i, ec);
    DigitMoves(s, i, ec);
    CountsSay(r, s, i);
    FirstOctetEnds(r, s, i);
    var p, q := ParseComponent(BeginEmbedding(r)), Step(r, ec);
    EndedParts(p, ec, Leading(s, i));
    assert |Quad(s, i)| == 0;
    if Complaints(s, i) != [] {
      Complains(q, s, i);
    } else {
      AddedApart(r, p, q);
      assert Quad(s, i + 1) == [Digits(s, i)] && Groups(s, i + 1) == Groups(s, i);
      CountsFirst(r, q, s, i, Digits(s, i));
      NumberLands(q, s, i);
    }
  }

  lemma StepBehindDigit(r: Reader, s: string, i: nat, ec: EventClass)
    requires Ready(r, s, i, ec) && DigitBefore(s, i)
    ensures Moves(Step(r, ec), s, i)
  {
    hide *;
    ReadyParts(r, s, i, ec);
    StateBehindDigit(s, i);
    DigitSteps(r, ec);
    DigitSays(s, i, ec);
    CountsSay(r, s, i);
    LeadingSays(r, s, i);
    var q := Step(r, ec);
    if ec.EcDigit? || ec.EcHexDigit? {
      DigitStays(s, i, ec);
      SameApartFrom(r, q);
      CountsCarry(r, q, s, i);
      Opens(q, s, i, Digits(s, i) + [s[i]]);
    } else if ec.EcOpenBracket? {
      OneDiag(InvalidInput, i);
      Complains(q, s, i);
    } else if ec.EcV6Separator? && Dotted(s, i) && !Leading(s, i) {
      OneDiag(Ipv4IncorrectPosition, i);
      Complains(q, s, i);
    } else if ec.EcV4Separator? && !Dotted(s, i) && |Groups(s, i)| >= 7 {
      OneDiag(Ipv4RequiredBits, i);
      Complains(q, s, i);
    } else {
      EndsHere(r, s, i, ec);
      if Dotted(s, i) {
        OctetStep(r, s, i, ec);
      } else if ec.EcV4Separator? {
        FirstOctetStep(r, s, i, ec);
      } else {
        GroupStep(r, s, i, ec);
      }
    }
  }

  lemma EndsHere(r: Reader, s: string, i: nat, ec: EventClass)
    requires Ready(r, s, i, ec) && DigitBefore(s, i) && !ec.EcDigit? && !ec.EcHexDigit? && !ec.EcOpenBracket?
    requires !(ec.EcV6Separator? && Dotted(s, i) && !Leading(s, i)) && !(ec.EcV4Separator? && !Dotted(s, i) && |Groups(s, i)| >= 7)
    ensures MayEnd(r, s, i, ec)
  {
    hide Ready, DigitBefore, Dotted, Leading, Groups;
  }

  // ---- Any character, and runs of them ----

  lemma StepMoves(r: Reader, s: string, i: nat, ec: EventClass)
    requires Ready(r, s, i, ec)
    ensures Moves(Step(r, ec), s, i)
  {
    assert i < |s|;
    hide *;
    match PlaceOf(s, i)
    case Mask => StepInMask(r, s, i, ec);
    case Zone => StepInZone(r, s, i, ec);
    case Back => StepInBack(r, s, i, ec);
    case Port => StepInPort(r, s, i, ec);
    case Body =>
      if IsHex(Before(s, i)) {
        BehindDigit(s, i);
        StepBehindDigit(r, s, i, ec);
      } else {
        BehindNoDigit(s, i);
        if Before(s, i) == ':' { StepBehindColon(r, s, i, ec); } else { StepInTheClear(r, s, i, ec); }
      }
  }

  lemma BehindDigit(s: string, i: nat)
    requires i < |s| && PlaceOf(s, i).Body? && IsHex(Before(s, i))
    ensures DigitBefore(s, i)
  {
    hide PlaceOf;
  }

  lemma BehindNoDigit(s: string, i: nat)
    requires i < |s| && PlaceOf(s, i).Body? && !IsHex(Before(s, i))
    ensures NoDigitBefore(s, i)
  {
    hide PlaceOf;
  }

  /** The reader has read the text up to i, and knows it. */
  ghost predicate Tracks(r: Reader, s: string, i: nat) {
    i <= |s| && Shows(r, s, i) && Counts(r, s, i) && Stands(r, s, i) && (r.brackets == 0 <==> '[' !in s[..i])
  }

  lemma StartTracks(input: string, bytes: nat, s: string)
    ensures Tracks(Start(input, bytes), s, 0)
  {
    var r := Start(input, bytes);
    assert r.input[..0] == s[..0] == "";
    assert Filled(GroupValues([]), OctetValues([])) == Ipv6Walk.Pad([]) == ZERO_COMPONENTS;
  }

  lemma BracketsAside(r: Reader, s: string, i: nat, brackets: nat, ec: EventClass)
    requires Tracks(r, s, i) && i < |s| && Classify(s[i]) == Some(ec)
    requires brackets == if s[i] == '[' then r.brackets + 1 else r.brackets
    ensures Ready(r.(brackets := brackets), s, i, ec)
  {
    hide Classify, Fits, ReadSoFar, StateAt, Digits, AllDigits, CountOf, Leading, Dotted, Groups, Quad, Abbreviation;
  }

  lemma FeedMoves(r: Reader, s: string, i: nat)
    requires Tracks(r, s, i) && i < |s|
    ensures Moves(Feed(r, s[i]), s, i) && Feed(r, s[i]).position == i
    ensures Feed(r, s[i]).input == r.input && Feed(r, s[i]).inputBytes == r.inputBytes
    ensures Feed(r, s[i]).brackets == if s[i] == '[' then r.brackets + 1 else r.brackets
  {
    FeedIs(r, s[i]);
    TracksParts(r, s, i);
    hide *;
    if Classify(s[i]).None? {
      UnknownComplains(s, i);
      OneDiag(InvalidInputChar, i);
      Complains(Feed(r, s[i]), s, i);
    } else {
      var ec, brackets := Classify(s[i]).value, if s[i] == '[' then r.brackets + 1 else r.brackets;
      BracketsAside(r, s, i, brackets, ec);
      StepMoves(r.(brackets := brackets), s, i, ec);
    }
  }

  lemma TracksParts(r: Reader, s: string, i: nat)
    requires Tracks(r, s, i)
    ensures i <= |s| && Shows(r, s, i) && Counts(r, s, i) && Stands(r, s, i) && (r.brackets == 0 <==> '[' !in s[..i])
    ensures r.position == i <= |r.input| && i <= r.inputBytes && r.input[..i] == s[..i] && !r.failed && r.diags == []
  {
    hide Fits, ReadSoFar, StateAt, Digits, AllDigits, CountOf, Leading, Dotted, Groups, Quad, Abbreviation;
  }

  lemma FeedIs(r: Reader, c: char)
    requires !r.failed && r.diags == []
    ensures var q := Feed(r, c);
      && q.position == r.position && q.input == r.input && q.inputBytes == r.inputBytes
      && q.brackets == (if c == '[' then r.brackets + 1 else r.brackets)
      && match Classify(c)
         case None => q.failed && q.diags == [Diag(InvalidInputChar, r.position)]
         case Some(ec) => q == Step(r.(brackets := q.brackets), ec)
  {
    assert Classify('[') == Some(EcOpenBracket);
    hide Step;
  }

  lemma UnknownComplains(s: string, i: nat)
    requires i < |s| && Classify(s[i]).None?
    ensures Complaints(s, i) == [InvalidInputChar]
  {
  }

  lemma AdvanceTracks(r: Reader, s: string, i: nat)
    requires Tracks(r, s, i) && i < |s| && i < |r.input| && i < r.inputBytes && r.input[i] == s[i]
    ensures r.position == i && !r.failed
    ensures var q := Advance(r);
      if Complaints(s, i) == [] then !q.failed && Tracks(q, s, i + 1) && q.input == r.input && q.inputBytes == r.inputBytes
      else q.failed && q.diags == DiagsAt(Complaints(s, i), i)
  {
    hide *;
    TracksParts(r, s, i);
    AdvanceIs(r, s[i]);
    FeedMoves(r, s, i);
    MovedTracks(r, Feed(r, s[i]), s, i);
  }

  lemma AdvanceIs(r: Reader, c: char)
    requires r.position < |r.input| && r.input[r.position] == c
    ensures Advance(r) == var q := Feed(r, c); if q.failed then q else q.(position := q.position + 1)
  {
    hide Feed;
  }

  lemma MovedTracks(r: Reader, q: Reader, s: string, i: nat)
    requires i < |s| && Moves(q, s, i) && q.position == i && q.input == r.input && q.inputBytes == r.inputBytes
    requires i < |r.input| && i < r.inputBytes && r.input[..i] == s[..i] && r.input[i] == s[i]
    requires r.brackets == 0 <==> '[' !in s[..i]
    requires q.brackets == if s[i] == '[' then r.brackets + 1 else r.brackets
    ensures if Complaints(s, i) == [] then !q.failed && Tracks(q.(position := i + 1), s, i + 1)
      else q.failed && q.diags == DiagsAt(Complaints(s, i), i)
  {
    hide *;
    MovesSay(q, s, i);
    if Complaints(s, i) == [] {
      PrefixGrows(q.input, s, i);
      MovedOn(q, s, i);
    }
  }

  lemma MovesSay(q: Reader, s: string, i: nat)
    requires i < |s| && Moves(q, s, i)
    ensures Complaints(s, i) == [] ==> Counts(q, s, i + 1) && Stands(q, s, i + 1) && !q.failed
    ensures Complaints(s, i) != [] ==> q.failed && q.diags == DiagsAt(Complaints(s, i), i)
  {
    hide Complaints, Stands, Fits, ReadSoFar, CountOf, Leading, Dotted, Groups, Quad, Abbreviation, DiagsAt;
  }

  lemma MovedOn(q: Reader, s: string, i: nat)
    requires i < |s| && i < |q.input| && i < q.inputBytes && q.input[..i + 1] == s[..i + 1]
    requires Counts(q, s, i + 1) && Stands(q, s, i + 1) && (q.brackets == 0 <==> '[' !in s[..i + 1])
    ensures Tracks(q.(position := i + 1), s, i + 1)
  {
    hide Fits, ReadSoFar, StateAt, Digits, AllDigits, CountOf, Leading, Dotted, Groups, Quad, Abbreviation;
  }

  lemma PrefixGrows(input: string, s: string, i: nat)
    requires i < |input| && i < |s| && input[..i] == s[..i] && input[i] == s[i]
    ensures input[..i + 1] == s[..i + 1] && ('[' in s[..i + 1] <==> '[' in s[..i] || s[i] == '[')
  {
    assert input[..i + 1] == input[..i] + [input[i]] && s[..i + 1] == s[..i] + [s[i]];
  }

  /** The first n characters of the reader's text, from i on, are those of s. */
  ghost predicate Carries(r: Reader, s: string, i: nat, n: nat) {
    i + n <= |s| && i + n <= |r.input| && i + n <= r.inputBytes && forall j :: i <= j < i + n ==> r.input[j] == s[j]
  }

  lemma NextCarries(r: Reader, s: string, i: nat, n: nat)
    requires Carries(r, s, i, n) && n > 0
    ensures i < |s| && i < |r.input| && i < r.inputBytes && r.input[i] == s[i] && i + n <= |r.input|
    ensures forall q: Reader :: q.input == r.input && q.inputBytes == r.inputBytes ==> Carries(q, s, i + 1, n - 1)
  {
  }

  /** Characters without complaint are read. */
  lemma {:induction false} RunTracks(r: Reader, s: string, i: nat, n: nat)
    requires Tracks(r, s, i) && Carries(r, s, i, n) && i + n <= |s| && forall j :: i <= j < i + n ==> Complaints(s, j) == []
    ensures r.position == i && i + n <= |r.input| && !Run(r, n).failed && Tracks(Run(r, n), s, i + n)
    decreases n
  {
    hide *;
    TracksParts(r, s, i);
    if n == 0 {
      RunOfNone(r, n);
    } else {
      NextCarries(r, s, i, n);
      AdvanceTracks(r, s, i);
      RunUnfolds(r, n);
      RunTracks(Advance(r), s, i + 1, n - 1);
    }
  }

  /** The first complaint ends the run, and is reported. */
  lemma {:induction false} RunComplains(r: Reader, s: string, i: nat, n: nat, k: nat)
    requires Tracks(r, s, i) && Carries(r, s, i, n) && i <= k < i + n <= |s|
    requires Complaints(s, k) != [] && forall j :: i <= j < k ==> Complaints(s, j) == []
    ensures r.position == i && i + n <= |r.input| && Run(r, n).failed && Run(r, n).diags == DiagsAt(Complaints(s, k), k)
    decreases n
  {
    hide *;
    TracksParts(r, s, i);
    NextCarries(r, s, i, n);
    AdvanceTracks(r, s, i);
    RunUnfolds(r, n);
    if i < k {
      RunComplains(Advance(r), s, i + 1, n - 1, k);
    }
  }

  lemma RunOfNone(r: Reader, n: nat)
    requires n == 0 && r.position <= |r.input|
    ensures Run(r, n) == r
  {
  }
}
