/** Exactly which strings the parser accepts, as which address, and what it reports of the others:
    the parser and the description of the language in Ipv6Language agree on every input. */
module Ipv6Accepts {
  import opened Wrappers
  import opened Numerals
  import opened Ipv6Address
  import opened Ipv6Reader
  import opened Ipv6Language
  import opened Ipv6Following
  import Ipv6Invariant

  /** The text that the parser looks at, with a blank put behind it. */
  function Shown(input: string, bytes: nat): (s: string)
    ensures |s| == VisibleLength(input, bytes) + 1 && s[|s| - 1] == ' '
  {
    input[..VisibleLength(input, bytes)] + " "
  }

  lemma ShownCarries(input: string, bytes: nat)
    ensures Carries(Start(input, bytes), Shown(input, bytes), 0, VisibleLength(input, bytes))
  {
  }

  // ---- The end of the text ----

  lemma FlushOfNumber(r: Reader)
    requires r.current.StAddrComponent?
    ensures Step(r, EcWhitespace) == Goto(ParseComponent(r), StNone)
  {
    hide ParseComponent;
  }

  lemma FlushOfTail(r: Reader)
    requires !r.current.StAddrComponent?
    ensures KeepsComponents(r, Step(r, EcWhitespace))
  {
    hide StepNone, StepV6Separator, StepIface, StepCidr, StepPostAddr, StepPort;
  }

  lemma ReadKeeps(r: Reader, base: Radix)
    ensures ReadToken(r, base).0.embedding == r.embedding
  {
  }

  lemma GroupKeepsEmbedding(r: Reader)
    ensures ParseV6Component(r).embedding == r.embedding
  {
    ReadKeeps(r, 16);
    hide ReadToken;
  }

  lemma OctetKeepsEmbedding(r: Reader)
    ensures ParseV4Component(r).embedding == r.embedding
  {
    ReadKeeps(r, 10);
    hide ReadToken, OrOctet;
  }

  lemma NumberKeepsEmbedding(r: Reader)
    ensures ParseComponent(r).embedding == r.embedding
  {
    GroupKeepsEmbedding(r);
    OctetKeepsEmbedding(r);
    hide ParseV4Component, ParseV6Component;
  }

  /** An embedding neither begins nor ends at a blank. */
  lemma BlankKeepsEmbedding(r: Reader)
    ensures Step(r, EcWhitespace).embedding == r.embedding
  {
    if r.current.StAddrComponent? {
      FlushOfNumber(r);
      NumberKeepsEmbedding(r);
      hide Step, ParseComponent;
    } else {
      FlushOfTail(r);
      hide Step;
    }
  }

  /** A blank is complained of only for the number that it ends. */
  lemma BlankEnds(s: string)
    requires s != [] && s[|s| - 1] == ' ' && Complaints(s, |s| - 1) != [] && Dotted(s, |s| - 1)
    ensures var last := |s| - 1;
      || (&& (PlaceOf(s, last).Mask? || PlaceOf(s, last).Port?) && Complaints(s, last) in {[InvalidCidrMask], [InvalidPort]}
          && Quad(s, |s|) == Quad(s, last))
      || (&& DigitBefore(s, last) && Complaints(s, last) == OctetComplaints(Digits(s, last), |Quad(s, last)|)
          && Quad(s, |s|) == Quad(s, last) + [Digits(s, last)])
  {
    OneFurther(s, |s| - 1);
    assert Classify(' ') == Some(EcWhitespace);
    hide Classify, PlaceOf, Digits, OctetComplaints, ValueOf, Groups, Quad, Dotted, Abbreviation, Leading;
  }

  /** A flush that fails leaves the octets counted, with one that has a letter in it. */
  lemma FailedFlushCounts(r: Reader, s: string)
    requires s != [] && Ready(r, s, |s| - 1, EcWhitespace) && s[|s| - 1] == ' '
    requires Complaints(s, |s| - 1) != [] && Dotted(s, |s| - 1)
    ensures Step(r, EcWhitespace).embedding && Step(r, EcWhitespace).v4Octets == OctetsAtEnd(s)
  {
    var last := |s| - 1;
    assert OctetsAtEnd(s) ==
      |Quad(s, if Complaints(s, last) == [] || Complaints(s, last) == [InvalidInput] then |s| else last)| by { hide Complaints, Quad; }
    hide *;
    ReadyParts(r, s, last, EcWhitespace);
    CountsSay(r, s, last);
    BlankEnds(s);
    if DigitBefore(s, last) {
      StateBehindDigit(s, last);
      OctetEnds(r, s, last);
      FlushOfNumber(r);
      BlankKeepsEmbedding(r);
      Went(ParseComponent(r), StNone);
    } else {
      if PlaceOf(s, last).Mask? { StateOfMask(s, last); } else { StateOfPort(s, last); }
      FlushOfTail(r);
      TailStays(r, Step(r, EcWhitespace));
    }
  }

  lemma Went(p: Reader, state: State)
    ensures Goto(p, state).v4Octets == p.v4Octets
  {
  }

  lemma TailStays(r: Reader, q: Reader)
    requires KeepsComponents(r, q)
    ensures q.embedding == r.embedding && q.v4Octets == r.v4Octets
  {
  }

  /** The checks of a flushed reader whose counters are those of the text. */
  lemma ConcludesText(q: Reader, s: string)
    requires s != [] && Counts(q, s, |s|) && q.position == |s| - 1 && Complaints(s, |s| - 1) == []
    ensures q.components <= 8 && Fits(s, |s|)
    ensures Conclude(q).1.diags == DiagsAt(EndComplaints(s), |s| - 1) && (Conclude(q).0 <==> EndComplaints(s) == [])
    ensures Conclude(q).0 ==> Conclude(q).1.out == Meaning(s, |s|)
  {
    hide *;
    OneDiag(V4BadComponentCount, |s| - 1);
    OneDiag(V6BadComponentCount, |s| - 1);
    NoDiags([], |s| - 1);
    EndsWithout(s);
    CountsSay(q, s, |s|);
    CountsSayMore(q, s, |s|);
    ConcludeIs(q);
    MeaningIs(s, |s|);
  }

  /** The final checks, of a reader that has not failed. */
  lemma ConcludeIs(q: Reader)
    requires !q.failed && q.diags == [] && q.components <= 8 && (q.hasZerorun ==> q.zerorun <= q.components)
    requires !q.out.flags.compat && q.out.flags.rest == 0
    ensures var (ok, r) := Conclude(q);
      if q.embedding && q.v4Octets != 4 then !ok && r.diags == [Diag(V4BadComponentCount, q.position)]
      else if !q.compat && !q.hasZerorun && q.components < 8 then !ok && r.diags == [Diag(V6BadComponentCount, q.position)]
      else
        var c := if !q.compat && q.hasZerorun then Expand(q.out.components, q.zerorun, q.components) else q.out.components;
        ok && r.diags == [] && r.out == Address(c, q.out.port, q.out.mask,
                                                Flags(q.out.flags.port, q.out.flags.mask || q.embedding, q.compat, 0))
  {
    hide Expand;
  }

  lemma MeaningIs(s: string, i: nat)
    requires i <= |s| && Fits(s, i) && (Abbreviation(s, i).Some? ==> Abbreviation(s, i).value <= CountOf(s, i) <= 8)
    ensures var a, z := ReadSoFar(s, i), Abbreviation(s, i);
      var c := if !Leading(s, i) && z.Some? then Expand(a.components, z.value, CountOf(s, i)) else a.components;
      Meaning(s, i) == Address(c, a.port, a.mask, Flags(a.flags.port, a.flags.mask || Dotted(s, i), Leading(s, i), 0))
  {
    hide Fits, ReadSoFar, Abbreviation, Leading, CountOf, Dotted, Expand;
  }

  lemma EndsWithout(s: string)
    requires s != [] && Complaints(s, |s| - 1) == []
    ensures EndComplaints(s) ==
      if Dotted(s, |s|) && |Quad(s, |s|)| != 4 then [V4BadComponentCount]
      else if !Leading(s, |s|) && Abbreviation(s, |s|).None? && CountOf(s, |s|) < 8 then [V6BadComponentCount]
      else []
  {
    hide Complaints, Groups, Quad, Dotted, Abbreviation, Leading, CountOf;
    assert [] + [V4BadComponentCount] == [V4BadComponentCount];
  }

  lemma CountsSayMore(r: Reader, s: string, i: nat)
    requires i <= |s| && Counts(r, s, i) && Fits(s, i)
    ensures r.compat == Leading(s, i) && r.out == ReadSoFar(s, i) && CountOf(s, i) <= 8
    ensures r.hasZerorun == Abbreviation(s, i).Some?
    ensures r.hasZerorun ==> r.zerorun == Abbreviation(s, i).value <= CountOf(s, i)
    ensures Leading(s, i) ==> Dotted(s, i)
    ensures ReadSoFar(s, i).flags.rest == 0 && !ReadSoFar(s, i).flags.compat
  {
    hide Filled, Groups, Quad, Dotted, Abbreviation, MaskBefore, PortBefore, GroupValues, OctetValues;
  }

  lemma ConcludesFailed(q: Reader, s: string)
    requires s != [] && q.failed && q.components <= 8 && q.position == |s| - 1 && Complaints(s, |s| - 1) != []
    requires q.diags == DiagsAt(Complaints(s, |s| - 1), |s| - 1)
    requires Dotted(s, |s|) ==> q.embedding && q.v4Octets == OctetsAtEnd(s)
    requires q.embedding ==> Dotted(s, |s|)
    ensures !Conclude(q).0 && Conclude(q).1.diags == DiagsAt(EndComplaints(s), |s| - 1) && EndComplaints(s) != []
  {
    MoreDiags(Complaints(s, |s| - 1), V4BadComponentCount, |s| - 1);
    hide Complaints, OctetsAtEnd, Groups, Quad, Dotted, Abbreviation, MaskBefore, PortBefore, DiagsAt, Expand;
  }

  lemma MoreDiags(cs: seq<DiagEvent>, event: DiagEvent, i: nat)
    ensures DiagsAt(cs + [event], i) == DiagsAt(cs, i) + [Diag(event, i)]
  {
  }

  lemma NoDiags(cs: seq<DiagEvent>, i: nat)
    ensures DiagsAt(cs, i) == [] <==> cs == []
  {
  }

  lemma BlankIsReady(r: Reader, s: string)
    requires s != [] && Tracks(r, s, |s| - 1) && s[|s| - 1] == ' '
    ensures Ready(r, s, |s| - 1, EcWhitespace) && r.components <= 8 && !r.failed && r.position == |s| - 1
    ensures r.embedding == Dotted(s, |s| - 1) == Dotted(s, |s|)
  {
    hide *;
    var last := |s| - 1;
    assert Ready(r, s, last, EcWhitespace) by {
      BlankClass();
      BracketsAside(r, s, last, r.brackets, EcWhitespace);
      BracketsSame(r);
    }
    ReadyParts(r, s, last, EcWhitespace);
    CountsSay(r, s, last);
    CountsSayMore(r, s, last);
    BlankIsNoDot(s);
  }

  lemma BlankIsNoDot(s: string)
    requires s != [] && s[|s| - 1] == ' '
    ensures Dotted(s, |s| - 1) == Dotted(s, |s|)
  {
    hide PlaceOf;
  }

  lemma BlankClass()
    ensures Classify(' ') == Some(EcWhitespace)
  {
  }

  lemma BracketsSame(r: Reader)
    ensures r.(brackets := r.brackets) == r
  {
  }

  lemma FinishesText(r: Reader, s: string)
    requires s != [] && Tracks(r, s, |s| - 1) && s[|s| - 1] == ' '
    ensures r.components <= 8
    ensures Finish(r).1.diags == DiagsAt(EndComplaints(s), |s| - 1) && (Finish(r).0 <==> EndComplaints(s) == [])
    ensures Finish(r).0 ==> Fits(s, |s|) && Finish(r).1.out == Meaning(s, |s|)
  {
    hide *;
    BlankIsReady(r, s);
    var q := Step(r, EcWhitespace);
    FinishIs(r);
    StepMoves(r, s, |s| - 1, EcWhitespace);
    MovesSay(q, s, |s| - 1);
    if Complaints(s, |s| - 1) == [] {
      ConcludesText(q, s);
    } else {
      if Dotted(s, |s| - 1) { FailedFlushCounts(r, s); } else { BlankKeepsEmbedding(r); }
      ConcludesFailed(q, s);
    }
  }

  lemma FinishIs(r: Reader)
    requires r.components <= 8
    ensures var q := Step(r, EcWhitespace); q.position == r.position && q.components <= 8 && Finish(r) == Conclude(q)
  {
    hide Step, Conclude;
  }

  // ---- What a quad means ----

  /** Four octets in range are two components behind the groups: 256 times the first and the
      second, 256 times the third and the fourth. */
  lemma QuadFills(gs: seq<u16>, o0: Ipv6Walk.u8, o1: Ipv6Walk.u8, o2: Ipv6Walk.u8, o3: Ipv6Walk.u8)
    requires |gs| <= 6
    ensures Filled(gs, [o0, o1, o2, o3]) == Ipv6Walk.Pad(gs)[|gs| := 0x100 * o0 + o1][|gs| + 1 := 0x100 * o2 + o3]
  {
    hide *;
    var c, g := Ipv6Walk.Pad(gs), |gs|;
    PadAt(gs, g);
    PadAt(gs, g + 1);
    NoOctets(gs);
    assert [] + [o0] == [o0] && [o0] + [o1] == [o0, o1] && [o0, o1] + [o2] == [o0, o1, o2];
    assert [o0, o1, o2] + [o3] == [o0, o1, o2, o3];
    FilledOctet(gs, [], o0);
    FilledOctet(gs, [o0], o1);
    FilledOctet(gs, [o0, o1], o2);
    FilledOctet(gs, [o0, o1, o2], o3);
    Ipv6Invariant.HighOctet(o0);
    Ipv6Invariant.HighOctet(o2);
    Ipv6Invariant.LowOctet(0x100 * o0, o1);
    Ipv6Invariant.LowOctet(0x100 * o2, o3);
  }

  lemma NoOctets(gs: seq<u16>)
    requires |gs| <= 8
    ensures Filled(gs, []) == Ipv6Walk.Pad(gs)
  {
  }

  // ---- Every input ----

  /** A null pointer and an empty C string are invalid input, and more bytes than an address can
      take are too many, whatever they are; in both cases the address is left alone. */
  lemma CallsAreRefused(input: Option<string>, bytes: nat)
    ensures var result := FromStr(input, bytes); var empty := input.None? || VisibleLength(input.value, 1) == 0;
      && (empty ==> result == Result(false, None, [Diag(InvalidInput, 0)]))
      && (!empty && bytes > IPV6_STRING_SIZE ==> result == Result(false, None, [Diag(StringSizeExceeded, 0)]))
      && (result.out.Some? <==> !empty && bytes <= IPV6_STRING_SIZE)
  {
    hide Ipv6Reader.Run, Finish;
  }

  /** What the loop and the final phase come to. */
  lemma FromStrIs(input: string, bytes: nat)
    requires input != "" && input[0] != '\0' && bytes <= IPV6_STRING_SIZE
    ensures var r := Run(Start(input, bytes), VisibleLength(input, bytes));
      && r.components <= 8
      && FromStr(Some(input), bytes) ==
        if r.failed then Result(false, Some(r.out), r.diags) else Result(Finish(r).0, Some(Finish(r).1.out), Finish(r).1.diags)
  {
    hide Ipv6Reader.Run, Finish, VisibleLength;
  }

  lemma CleanSays(s: string, n: nat)
    requires n <= |s| && Clean(s, n)
    ensures forall j :: 0 <= j < n ==> Complaints(s, j) == []
  {
    hide Complaints;
  }

  /** The first complaint is what the parser reports, at its position, and all it reports. */
  lemma FirstComplaintIsReported(input: string, bytes: nat, k: nat)
    requires input != "" && input[0] != '\0' && bytes <= IPV6_STRING_SIZE
    requires var s := Shown(input, bytes); k < |s| - 1 && Clean(s, k) && Complaints(s, k) != []
    ensures var result := FromStr(Some(input), bytes);
      !result.ok && result.diags == DiagsAt(Complaints(Shown(input, bytes), k), k)
  {
    var s, start := Shown(input, bytes), Start(input, bytes);
    hide *;
    CleanSays(s, k);
    StartTracks(input, bytes, s);
    ShownCarries(input, bytes);
    RunComplains(start, s, 0, |s| - 1, k);
    FromStrIs(input, bytes);
  }

  /** A text without complaint up to its end is judged by its end. */
  lemma CleanTextIsJudged(input: string, bytes: nat)
    requires input != "" && input[0] != '\0' && bytes <= IPV6_STRING_SIZE
    requires var s := Shown(input, bytes); Clean(s, |s| - 1)
    ensures var s, result := Shown(input, bytes), FromStr(Some(input), bytes);
      && result.diags == DiagsAt(EndComplaints(s), |s| - 1)
      && (result.ok <==> EndComplaints(s) == [])
      && (result.ok ==> Fits(s, |s|) && result.out == Some(Meaning(s, |s|)))
  {
    var s, start := Shown(input, bytes), Start(input, bytes);
    hide *;
    CleanSays(s, |s| - 1);
    StartTracks(input, bytes, s);
    ShownCarries(input, bytes);
    RunTracks(start, s, 0, |s| - 1);
    FromStrIs(input, bytes);
    FinishesText(Run(start, |s| - 1), s);
  }

  /** For every string and byte count: the parser accepts exactly the texts in which nothing is
      wrong, without a diagnostic, and as the address that they mean. */
  lemma AcceptsExactly(input: string, bytes: nat)
    requires input != "" && input[0] != '\0' && bytes <= IPV6_STRING_SIZE
    ensures var s, result := Shown(input, bytes), FromStr(Some(input), bytes);
      && (result.ok <==> Clean(s, |s| - 1) && EndComplaints(s) == [])
      && (result.ok ==> result.diags == [] && Fits(s, |s|) && result.out == Some(Meaning(s, |s|)))
  {
    hide *;
    var s := Shown(input, bytes);
    if Clean(s, |s| - 1) {
      CleanTextIsJudged(input, bytes);
      NoDiags(EndComplaints(s), |s| - 1);
    } else {
      var k := FirstComplaint(s, |s| - 1);
      FirstComplaintIsReported(input, bytes, k);
    }
  }

  lemma {:induction false} FirstComplaint(s: string, n: nat) returns (k: nat)
    requires n <= |s| && !Clean(s, n)
    ensures k < n && Clean(s, k) && Complaints(s, k) != []
  {
    hide Complaints;
    k := n - 1;
    if !Clean(s, n - 1) { k := FirstComplaint(s, n - 1); }
  }
}
