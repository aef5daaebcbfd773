/** What follows for texts that are refused: a complaint stays whatever comes behind it, and a
    second "::" is refused wherever it stands. */
module Ipv6Refusals {
  import opened Wrappers
  import opened Numerals
  import opened Ipv6Address
  import opened Ipv6Reader
  import opened Ipv6Walk
  import opened Ipv6Following
  import opened Ipv6Accepts
  import L = Ipv6Language
  import N = Ipv6Notation
  import Ipv6Plain

  // ---- A complaint depends on the text before it alone ----

  /** Two texts with the same beginning. */
  ghost predicate Agree(s: string, t: string, i: nat) {
    i <= |s| && i <= |t| && forall j :: 0 <= j < i ==> s[j] == t[j]
  }

  /** All that is said of the two up to i is the same. */
  ghost predicate SaidAlike(s: string, t: string, i: nat)
    requires i <= |s| && i <= |t|
  {
    && L.PlaceOf(s, i) == L.PlaceOf(t, i) && L.Dotted(s, i) == L.Dotted(t, i) && L.Digits(s, i) == L.Digits(t, i)
    && L.Groups(s, i) == L.Groups(t, i) && L.Quad(s, i) == L.Quad(t, i) && L.Before(s, i) == L.Before(t, i)
    && L.Abbreviation(s, i) == L.Abbreviation(t, i)
  }

  lemma {:induction false} SaidAlikeFrom(s: string, t: string, i: nat)
    requires Agree(s, t, i)
    ensures SaidAlike(s, t, i)
    decreases i
  {
    hide *;
    if i == 0 {
      NothingSaid(s, t, i);
    } else {
      AgreeParts(s, t, i - 1);
      SaidAlikeFrom(s, t, i - 1);
      SaidAlikeNext(s, t, i - 1);
    }
  }

  lemma NothingSaid(s: string, t: string, i: nat)
    requires i == 0
    ensures SaidAlike(s, t, i)
  {
  }

  lemma SaidAlikeNext(s: string, t: string, i: nat)
    requires i < |s| && i < |t| && SaidAlike(s, t, i) && s[i] == t[i]
    ensures SaidAlike(s, t, i + 1)
  {
    OneFurther(s, i);
    OneFurther(t, i);
    OneFurtherMarks(s, i);
    OneFurtherMarks(t, i);
    hide L.PlaceOf, L.Dotted, L.Digits, L.Groups, L.Quad, L.Abbreviation, L.MaskBefore, L.PortBefore, L.ValueOf, IsHex, L.IsSpace;
  }

  lemma SameInBody(s: string, t: string, i: nat)
    requires i < |s| && i < |t| && SaidAlike(s, t, i) && s[i] == t[i] && ('[' in s[..i] <==> '[' in t[..i])
    ensures L.ComplaintsBehindDigit(s, i) == L.ComplaintsBehindDigit(t, i)
    ensures L.ComplaintsBehindColon(s, i) == L.ComplaintsBehindColon(t, i)
    ensures L.ComplaintsInTheClear(s, i) == L.ComplaintsInTheClear(t, i)
  {
    hide L.PlaceOf, L.Dotted, L.Digits, L.Groups, L.Quad, L.Abbreviation, IsHex, L.OctetComplaints, L.GroupComplaints;
  }

  lemma SameInPlace(s: string, t: string, i: nat)
    requires i < |s| && i < |t| && s[i] == t[i]
    requires L.PlaceOf(s, i) == L.PlaceOf(t, i) && L.Before(s, i) == L.Before(t, i) && L.Digits(s, i) == L.Digits(t, i)
    requires L.ComplaintsBehindDigit(s, i) == L.ComplaintsBehindDigit(t, i)
    requires L.ComplaintsBehindColon(s, i) == L.ComplaintsBehindColon(t, i)
    requires L.ComplaintsInTheClear(s, i) == L.ComplaintsInTheClear(t, i)
    ensures L.Complaints(s, i) == L.Complaints(t, i)
  {
    hide L.PlaceOf, L.Before, L.Digits, IsHex, IsDigit, L.ComplaintsBehindDigit, L.ComplaintsBehindColon, L.ComplaintsInTheClear,
      L.ValueOf, L.IsKnown, L.IsSpace;
  }

  lemma AgreeParts(s: string, t: string, i: nat)
    requires Agree(s, t, i + 1)
    ensures i < |s| && i < |t| && Agree(s, t, i) && s[i] == t[i] && ('[' in s[..i] <==> '[' in t[..i])
  {
    assert s[..i] == t[..i];
  }

  lemma AlikeParts(s: string, t: string, i: nat)
    requires i <= |s| && i <= |t| && SaidAlike(s, t, i)
    ensures L.PlaceOf(s, i) == L.PlaceOf(t, i) && L.Before(s, i) == L.Before(t, i) && L.Digits(s, i) == L.Digits(t, i)
  {
    hide L.PlaceOf, L.Before, L.Dotted, L.Digits, L.Groups, L.Quad, L.Abbreviation;
  }

  /** What is wrong with a character does not depend on the text behind it. */
  lemma SameComplaints(s: string, t: string, i: nat)
    requires Agree(s, t, i + 1)
    ensures i < |s| && i < |t| && L.Complaints(s, i) == L.Complaints(t, i)
  {
    hide *;
    AgreeParts(s, t, i);
    SaidAlikeFrom(s, t, i);
    AlikeParts(s, t, i);
    SameInBody(s, t, i);
    SameInPlace(s, t, i);
  }

  // ---- Two abbreviations ----

  /** A second colon that follows another within an address. */
  predicate Doubled(s: string, j: nat) { 0 < j < |s| && L.PlaceOf(s, j).Body? && s[j] == ':' == s[j - 1] }

  lemma {:induction false} AbbreviationStays(s: string, j: nat, k: nat)
    requires j <= k <= |s| && L.Abbreviation(s, j).Some?
    ensures L.Abbreviation(s, k) == L.Abbreviation(s, j)
    decreases k
  {
    if j < k {
      AbbreviationStays(s, j, k - 1);
      OneFurtherMarks(s, k - 1);
      hide L.Abbreviation;
    }
  }

  lemma DoubledAbbreviates(s: string, j: nat)
    requires Doubled(s, j)
    ensures L.Abbreviation(s, j + 1).Some?
  {
    OneFurtherMarks(s, j);
    hide L.Abbreviation, L.PlaceOf;
  }

  /** No accepted text has two double colons in its addresses, whatever else is in it. */
  lemma OneAbbreviationAtMost(input: string, bytes: nat, j: nat, k: nat)
    requires input != "" && input[0] != '\0' && bytes <= IPV6_STRING_SIZE && FromStr(Some(input), bytes).ok
    requires Doubled(Shown(input, bytes), j) && Doubled(Shown(input, bytes), k)
    ensures j == k
  {
    hide *;
    var s := Shown(input, bytes);
    AcceptsExactly(input, bytes);
    CleanSays(s, |s| - 1);
    if j < k { SecondComplains(s, j, k); }
    if k < j { SecondComplains(s, k, j); }
  }

  lemma SecondComplains(s: string, j: nat, k: nat)
    requires Doubled(s, j) && Doubled(s, k) && j < k && s[|s| - 1] == ' '
    ensures k < |s| - 1 && L.Complaints(s, k) == [InvalidAbbrev]
  {
    DoubledAbbreviates(s, j);
    AbbreviationStays(s, j + 1, k);
    assert k != |s| - 1;
    hide L.Abbreviation, L.PlaceOf;
  }

  /** Groups after an abbreviation, each with its colon. */
  lemma {:induction false} WalkLedBehind(input: string, pos: nat, stored: seq<u16>, z: Option<nat>, gs: seq<string>)
    requires N.Groups(gs) && |stored| + |gs| <= 8 && pos <= |input| && Ahead(input, pos, N.Led(gs))
    ensures pos + |N.Led(gs)| <= |input|
    ensures Run(Scan(input, StV6Separator, pos, 0, stored, z), |N.Led(gs)|)
            == Scan(input, StV6Separator, pos + |N.Led(gs)|, 0, stored + N.Values(gs), z)
    decreases |gs|
  {
    hide *;
    if gs == [] {
      assert |N.Led(gs)| == 0 by { N.LedIsEmpty(gs); }
      assert stored + N.Values(gs) == stored;
      Ipv6Plain.RunNothing(Scan(input, StV6Separator, pos, 0, stored, z));
    } else {
      var g := gs[0];
      assert N.Group(g) && N.Groups(gs[1..]) && stored + [N.GroupValue(g)] + N.Values(gs[1..]) == stored + N.Values(gs) by { N.Continue(stored, gs); }
      N.LedAhead(input, pos, gs);
      N.WalkGroup(input, StV6Separator, pos, stored, z, g);
      WalkLedBehind(input, pos + |g| + 1, stored + [N.GroupValue(g)], z, gs[1..]);
      Chain(Scan(input, StV6Separator, pos, 0, stored, z), |g| + 1,
            Scan(input, StV6Separator, pos + |g| + 1, 0, stored + [N.GroupValue(g)], z), |N.Led(gs[1..])|,
            Scan(input, StV6Separator, pos + |N.Led(gs)|, 0, stored + N.Values(gs), z));
    }
  }

  /** Groups, an abbreviation, groups, and the second colon of another abbreviation. */
  function Twice(before: seq<string>, middle: seq<string>): string {
    N.Led(before) + ((if before == [] then "::" else ":") + (N.Led(middle) + ":"))
  }

  lemma TwiceAhead(t: string, before: seq<string>, middle: seq<string>)
    requires t == Twice(before, middle)
    ensures var n := |N.Led(before)|; var m := if before == [] then 2 else 1;
      && |t| == n + m + |N.Led(middle)| + 1 && Ahead(t, 0, N.Led(before)) && Ahead(t, n, if before == [] then "::" else ":")
      && Ahead(t, n + m, N.Led(middle)) && t[|t| - 1] == ':'
  {
    hide N.Led;
    var mark, n := if before == [] then "::" else ":", |N.Led(before)|;
    assert Ahead(t, 0, N.Led(before) + (mark + (N.Led(middle) + ":")));
    AheadSplit(t, 0, N.Led(before), mark + (N.Led(middle) + ":"));
    AheadSplit(t, n, mark, N.Led(middle) + ":");
    AheadSplit(t, n + |mark|, N.Led(middle), ":");
  }

  lemma SecondColonFails(t: string, pos: nat, stored: seq<u16>, z: nat)
    requires |stored| <= 8 && pos < |t| && t[pos] == ':'
    ensures var q := Run(Scan(t, StV6Separator, pos, 0, stored, Some(z)), 1); q.failed && q.diags == [Diag(InvalidAbbrev, pos)]
  {
    hide Pad;
    RunUnfolds(Scan(t, StV6Separator, pos, 0, stored, Some(z)), 1);
  }

  /** Up to the last colon the text is read, and there the reader fails. */
  lemma TwiceFails(t: string, before: seq<string>, middle: seq<string>)
    requires N.Groups(before) && N.Groups(middle) && |before| + |middle| <= 8 && t == Twice(before, middle)
    ensures Run(Start(t, |t|), |t|).failed && Run(Start(t, |t|), |t|).diags == [Diag(InvalidAbbrev, |t| - 1)]
  {
    hide *;
    TwiceAhead(t, before, middle);
    var n, m, k := |N.Led(before)|, if before == [] then 2 else 1, |N.Led(middle)|;
    var vs, z := N.Values(before), Some(|before|);
    assert [] + vs == vs;
    var r0, r1 := Scan(t, StNone, 0, 0, [], None), Scan(t, if before == [] then StNone else StV6Separator, n, 0, vs, None);
    var r2, r3 := Scan(t, StV6Separator, n + m, 0, vs, z), Scan(t, StV6Separator, n + m + k, 0, vs + N.Values(middle), z);
    Ipv6Plain.NoBracketRead(t);
    N.WalkLed(t, StNone, 0, [], before);
    assert before == [] ==> vs == [];
    WalkAbbreviation(t, n, 0, vs, before == []);
    WalkLedBehind(t, n + m, vs, z, middle);
    Chain(r0, n, r1, m, r2);
    Chain(r0, n + m, r2, k, r3);
    SecondColonFails(t, n + m + k, vs + N.Values(middle), |before|);
    RunSplit(r0, n + m + k, 1);
  }

  lemma {:induction false} LedIsVisible(gs: seq<string>)
    requires N.Groups(gs)
    ensures forall i :: 0 <= i < |N.Led(gs)| ==> N.Led(gs)[i] != '\0'
    decreases |gs|
  {
    if gs != [] {
      N.ValuesStep(gs);
      LedIsVisible(gs[1..]);
    }
  }

  /** What the loop sees of an input that begins with t. */
  lemma ShowsPrefix(t: string, input: string, bytes: nat)
    requires t <= input && |t| <= bytes && forall i :: 0 <= i < |t| ==> t[i] != '\0'
    ensures |Shown(input, bytes)| > |t| && Agree(Shown(input, bytes), t, |t|)
    ensures t != "" ==> input != "" && input[0] != '\0'
  {
    var n := VisibleLength(input, bytes);
    assert n >= |t|;
    hide VisibleLength;
  }

  lemma TwiceIsVisible(before: seq<string>, middle: seq<string>)
    requires N.Groups(before) && N.Groups(middle)
    ensures forall i :: 0 <= i < |Twice(before, middle)| ==> Twice(before, middle)[i] != '\0'
  {
    LedIsVisible(before);
    LedIsVisible(middle);
    hide N.Led;
  }

  /** What the complaints about the text itself are. */
  lemma TwiceComplains(t: string, before: seq<string>, middle: seq<string>)
    requires N.Groups(before) && N.Groups(middle) && |before| + |middle| <= 8 && t == Twice(before, middle)
    ensures |t| > 0 && L.Clean(t + " ", |t| - 1) && L.Complaints(t + " ", |t| - 1) == [InvalidAbbrev]
  {
    var s, k, start := t + " ", |t| - 1, Start(t, |t|);
    assert Carries(start, s, 0, |t|);
    assert s[|t|] == ' ';
    hide *;
    TwiceAhead(t, before, middle);
    TwiceFails(t, before, middle);
    StartTracks(t, |t|, s);
    if !L.Clean(s, |t|) {
      var j := FirstComplaint(s, |t|);
      CleanSays(s, j);
      RunComplains(start, s, 0, |t|, j);
      OnePosition(L.Complaints(s, j), j, InvalidAbbrev, k);
    } else {
      CleanSays(s, |t|);
      RunTracks(start, s, 0, |t|);
    }
  }

  lemma OnePosition(cs: seq<DiagEvent>, j: nat, event: DiagEvent, k: nat)
    requires DiagsAt(cs, j) == [Diag(event, k)]
    ensures j == k && cs == [event]
  {
    assert |cs| == 1 && DiagsAt(cs, j)[0] == Diag(cs[0], j);
  }

  /** Whatever comes behind a second "::", and in front of it in the way of groups, the text is
      refused, and what is reported is the second colon of the second "::". */
  lemma TwoAbbreviationsAreRefused(before: seq<string>, middle: seq<string>, input: string, bytes: nat)
    requires N.Groups(before) && N.Groups(middle) && |before| + |middle| <= 8
    requires Twice(before, middle) <= input && |Twice(before, middle)| <= bytes <= IPV6_STRING_SIZE
    ensures var result := FromStr(Some(input), bytes);
      !result.ok && result.diags == [Diag(InvalidAbbrev, |Twice(before, middle)| - 1)]
  {
    hide *;
    var t, s := Twice(before, middle), Shown(input, bytes);
    var k := |t| - 1;
    TwiceComplains(t, before, middle);
    TwiceIsVisible(before, middle);
    ShowsPrefix(t, input, bytes);
    AgreesOn(s, t, k);
    AgreesClean(s, t + " ", k);
    SameComplaints(t + " ", s, k);
    OneDiag(InvalidAbbrev, k);
    FirstComplaintIsReported(input, bytes, k);
  }

  lemma AgreesOn(s: string, t: string, k: nat)
    requires |s| > |t| && Agree(s, t, |t|) && k + 1 == |t|
    ensures Agree(t + " ", s, k + 1)
  {
  }

  lemma AgreesClean(s: string, t: string, k: nat)
    requires k < |s| && k < |t| && L.Clean(t, k) && Agree(t, s, k + 1)
    ensures L.Clean(s, k)
  {
    hide L.Complaints, Agree;
    forall j | 0 <= j < k ensures L.Complaints(s, j) == [] {
      AgreesBefore(s, t, k, j);
      SameComplaints(t, s, j);
    }
  }

  lemma AgreesBefore(s: string, t: string, k: nat, j: nat)
    requires j < k && Agree(t, s, k + 1)
    ensures Agree(t, s, j + 1) && j < |s| && j < |t|
  {
  }

  /** "0:::" is refused at its last colon. */
  lemma ThreeColonsAreRefused(input: string, bytes: nat)
    requires input == "0:::" && 4 <= bytes <= IPV6_STRING_SIZE
    ensures var result := FromStr(Some(input), bytes); !result.ok && result.diags == [Diag(InvalidAbbrev, 3)]
  {
    assert N.Led(["0"]) == "0:" by { assert ["0"][1..] == []; }
    assert N.Led([]) == "";
    assert Twice(["0"], []) == input;
    assert N.Group("0");
    hide *;
    assert N.Groups(["0"]) && N.Groups([]) by { GroupsOfOne(["0"]); }
    TwoAbbreviationsAreRefused(["0"], [], input, bytes);
  }

  lemma GroupsOfOne(gs: seq<string>)
    requires |gs| == 1 && N.Group(gs[0])
    ensures N.Groups(gs) && N.Groups([])
  {
  }
}
