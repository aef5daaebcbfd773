/** Sections 4.1 to 4.3 of RFC 5952 on the printed text: no leading zeros, no upper-case letters,
    and in the components at most one double colon, standing for the leftmost longest run of
    zeros, and none for a single zero. */
module Ipv6Canonical {
  import opened Numerals
  import opened Ipv6Address
  import opened Ipv6Text
  import opened Ipv6Walk

  /** How often two colons stand side by side. */
  function DoubleColons(s: string): nat {
    if |s| < 2 then 0
    else (if s[0] == ':' && s[1] == ':' then 1 else 0) + DoubleColons(s[1..])
  }

  predicate StartsWithColon(s: string) { s != "" && s[0] == ':' }

  ghost predicate NoColon(s: string) { forall i :: 0 <= i < |s| ==> s[i] != ':' }

  lemma {:induction false} AfterToken(token: string, rest: string)
    requires NoColon(token)
    ensures DoubleColons(token + rest) == DoubleColons(rest)
    ensures token != "" ==> !StartsWithColon(token + rest)
  {
    if token == "" {
      assert token + rest == rest;
    } else {
      assert (token + rest)[1..] == token[1..] + rest;
      AfterToken(token[1..], rest);
    }
  }

  lemma AfterColon(rest: string)
    ensures DoubleColons(":" + rest) == DoubleColons(rest) + (if StartsWithColon(rest) then 1 else 0)
  {
    assert (":" + rest)[1..] == rest;
  }

  lemma TokensHaveNoColon(c: Components, i: nat)
    requires i < 8
    ensures NoColon(Hex(c[i])) && NoColon(Quad(c[6], c[7]))
  {
  }

  /** How many double colons the text from component i on holds; at the run itself, if the
      separator before it is not counted, its second colon is alone. */
  function Expected(c: Components, embed: bool, i: nat): nat {
    if !Abbreviated(c, embed) || i > Longest(c).start then 0
    else if i == Longest(c).start && i > 0 then 0 else 1
  }

  lemma LastPiece(c: Components, embed: bool, i: nat, token: string)
    requires i <= 8 && NoColon(token) && token != "" && Emit(c, embed, i) == token
    ensures DoubleColons(Emit(c, embed, i)) == 0 && !StartsWithColon(Emit(c, embed, i))
  {
    AfterToken(token, "");
    assert token + "" == token;
  }

  lemma NothingLeft(c: Components, embed: bool, i: nat)
    requires i == 8
    ensures DoubleColons(Emit(c, embed, i)) == 0 && !StartsWithColon(Emit(c, embed, i)) && Expected(c, embed, i) == 0
  {
    assert Longest(c).start + Longest(c).len <= 8;
  }

  lemma QuadPiece(c: Components, i: nat)
    requires i == 6 && Visited(c, true, i) && !Abbreviates(c, true, i)
    ensures DoubleColons(Emit(c, true, i)) == 0 && !StartsWithColon(Emit(c, true, i)) && Expected(c, true, i) == 0
  {
    TokensHaveNoColon(c, i);
    QuadLength(c[6], c[7]);
    assert Longest(c).start + Longest(c).len <= 8;
    hide DoubleColons, NoColon, Ipv6Text.Longest, Ipv6Text.Quad;
    LastPiece(c, true, i, Quad(c[6], c[7]));
  }

  lemma TokenColonRest(token: string, rest: string)
    requires NoColon(token) && token != ""
    ensures DoubleColons(token + ":" + rest) == DoubleColons(rest) + (if StartsWithColon(rest) then 1 else 0)
    ensures !StartsWithColon(token + ":" + rest)
  {
    hide DoubleColons, NoColon;
    AfterToken(token, ":" + rest);
    AfterColon(rest);
    assert token + ":" + rest == token + (":" + rest);
  }

  lemma ComponentPiece(c: Components, embed: bool, i: nat)
    requires i < 7 && !Abbreviates(c, embed, i) && !(embed && i == 6)
    ensures var rest := Emit(c, embed, i + 1);
      && DoubleColons(Emit(c, embed, i)) == DoubleColons(rest) + (if StartsWithColon(rest) then 1 else 0)
      && !StartsWithColon(Emit(c, embed, i))
  {
    TokensHaveNoColon(c, i);
    EmitOfComponent(c, embed, i);
    hide DoubleColons, NoColon, StartsWithColon, Ipv6Text.Emit, Ipv6Text.Longest, Numerals.Hex;
    TokenColonRest(Hex(c[i]), Emit(c, embed, i + 1));
  }

  lemma LastComponentPiece(c: Components, embed: bool, i: nat)
    requires i == 7 && !Abbreviates(c, embed, i)
    ensures DoubleColons(Emit(c, embed, i)) == 0 && !StartsWithColon(Emit(c, embed, i))
  {
    TokensHaveNoColon(c, i);
    EmitOfLast(c, embed, i);
    hide DoubleColons, NoColon, StartsWithColon, Ipv6Text.Emit, Ipv6Text.Longest, Numerals.Hex;
    LastPiece(c, embed, i, Hex(c[i]));
  }

  lemma AbbreviationPiece(c: Components, embed: bool, i: nat)
    requires i < 8 && Visited(c, embed, i) && Abbreviates(c, embed, i)
    ensures var next := i + Longest(c).len;
      && next <= 8 && Visited(c, embed, next)
      && DoubleColons(Emit(c, embed, i)) == DoubleColons(Emit(c, embed, next))
           + (if StartsWithColon(Emit(c, embed, next)) then 1 else 0) + (if i > 0 then 0 else 1)
      && StartsWithColon(Emit(c, embed, i))
  {
    KeptSkips(c, embed, i);
    EmitOfRun(c, embed, i);
    hide *;
    AfterColons(if i > 0 then ":" else "::", Emit(c, embed, i + Longest(c).len));
  }

  lemma AfterColons(mark: string, rest: string)
    requires mark in {":", "::"}
    ensures StartsWithColon(mark + rest)
    ensures DoubleColons(mark + rest) == DoubleColons(rest) + (if StartsWithColon(rest) then 1 else 0) + |mark| - 1
  {
    hide DoubleColons;
    AfterColon(rest);
    AfterColon(":" + rest);
    assert "::" + rest == ":" + (":" + rest);
  }

  lemma EmitOfRun(c: Components, embed: bool, i: nat)
    requires i < 8 && Abbreviates(c, embed, i)
    ensures i + Longest(c).len <= 8
    ensures Emit(c, embed, i) == (if i > 0 then ":" else "::") + Emit(c, embed, i + Longest(c).len)
  {
    assert Longest(c).start + Longest(c).len <= 8;
    hide Ipv6Text.Longest;
  }

  lemma ExpectedAtComponent(c: Components, embed: bool, i: nat)
    requires Visited(c, embed, i) && i < 7 && !Abbreviates(c, embed, i) && !(embed && i == 6)
    ensures Expected(c, embed, i) == Expected(c, embed, i + 1) + if Abbreviates(c, embed, i + 1) then 1 else 0
  {
    assert Longest(c).start + Longest(c).len <= 8;
    hide Ipv6Text.Longest;
  }

  lemma ExpectedAtRun(c: Components, embed: bool, i: nat)
    requires Visited(c, embed, i) && i < 8 && Abbreviates(c, embed, i)
    ensures var next := i + Longest(c).len;
      && i < next <= 8 && Expected(c, embed, next) == 0 && (next < 8 ==> !Abbreviates(c, embed, next))
      && Expected(c, embed, i) == if i > 0 then 0 else 1
  {
    assert Longest(c).start + Longest(c).len <= 8;
    hide Ipv6Text.Longest;
  }

  lemma ExpectedAtLast(c: Components, embed: bool, i: nat)
    requires Visited(c, embed, i) && i == 7 && !Abbreviates(c, embed, i)
    ensures Expected(c, embed, i) == 0
  {
    assert Longest(c).start + Longest(c).len <= 8;
    hide Ipv6Text.Longest;
  }

  lemma VisitedWithin(c: Components, embed: bool, i: nat)
    requires Visited(c, embed, i)
    ensures i <= 8
  {
  }

  lemma {:induction false} EmitDoubleColons(c: Components, embed: bool, i: nat)
    requires Visited(c, embed, i)
    ensures i <= 8 && DoubleColons(Emit(c, embed, i)) == Expected(c, embed, i)
    ensures StartsWithColon(Emit(c, embed, i)) <==> i < 8 && Abbreviates(c, embed, i)
    decreases 8 - i
  {
    hide *;
    VisitedWithin(c, embed, i);
    if i == 8 {
      NothingLeft(c, embed, i);
    } else if Abbreviates(c, embed, i) {
      AbbreviationPiece(c, embed, i);
      ExpectedAtRun(c, embed, i);
      EmitDoubleColons(c, embed, i + Longest(c).len);
    } else if embed && i == 6 {
      QuadPiece(c, i);
    } else if i == 7 {
      LastComponentPiece(c, embed, i);
      ExpectedAtLast(c, embed, i);
    } else {
      VisitsNext(c, embed, i);
      EmitDoubleColons(c, embed, i + 1);
      ExpectedAtComponent(c, embed, i);
      ComponentPiece(c, embed, i);
    }
  }

  lemma AllDoubleColons(c: Components, embed: bool, first: nat)
    requires first == 0
    ensures DoubleColons(ComponentsText(c, embed)) == Expected(c, embed, first)
  {
    hide DoubleColons, Ipv6Text.Longest, Ipv6Text.Emit;
    EmitDoubleColons(c, embed, first);
  }

  lemma NeighbouringZeros(c: Components)
    ensures Longest(c).len > 1 <==> exists i :: 0 <= i < 7 && c[i] == 0 == c[i + 1]
  {
    LongestIsLeftmostLongest(c);
    hide Ipv6Text.Longest;
    forall i | 0 <= i < 7 && c[i] == 0 == c[i + 1] ensures Longest(c).len > 1 {
      assert IsZeroRun(c, i, 2);
    }
    var s := Longest(c).start;
    assert Longest(c).len > 1 ==> c[s] == 0 == c[s + 1];
  }

  /** The printed components hold one double colon if two or more zeros stand in a row, other
      than just the last two under the mask flag, and none otherwise. */
  lemma OneAbbreviation(c: Components, embed: bool)
    ensures DoubleColons(ComponentsText(c, embed)) == if Abbreviated(c, embed) then 1 else 0
    ensures Longest(c).len > 1 <==> exists i :: 0 <= i < 7 && c[i] == 0 == c[i + 1]
  {
    hide ComponentsText, DoubleColons, Ipv6Text.Longest;
    NeighbouringZeros(c);
    AllDoubleColons(c, embed, 0);
  }

  // ---- Leading zeros and case ----

  /** Position i opens a run of hexadecimal digits. */
  predicate Opens(s: string, i: nat)
    requires i < |s|
  {
    IsHex(s[i]) && (i == 0 || !IsHex(s[i - 1]))
  }

  /** No number is written with a leading zero, and no letter in upper case. */
  ghost predicate Tidy(s: string) {
    && (forall i :: 0 <= i < |s| - 1 && Opens(s, i) && s[i] == '0' ==> !IsHex(s[i + 1]))
    && forall i :: 0 <= i < |s| ==> !('A' <= s[i] <= 'F')
  }

  lemma TidyNumeral(n: nat, base: Radix)
    ensures Tidy(Numeral(n, base))
  {
    NumeralIsShortest(n, base);
    hide Numeral;
  }

  /** Tidy parts stay tidy where a separator stands between them. */
  lemma TidyJoin(s: string, t: string)
    requires Tidy(s) && Tidy(t)
    requires s == "" || t == "" || !IsHex(s[|s| - 1]) || !IsHex(t[0])
    ensures Tidy(s + t)
  {
    hide IsHex;
    forall i | 0 <= i < |s + t| - 1 && Opens(s + t, i) && (s + t)[i] == '0' ensures !IsHex((s + t)[i + 1]) {
      if i < |s| { assert Opens(s, i); } else { assert Opens(t, i - |s|); }
    }
  }

  /** A number with a mark behind it, before anything tidy. */
  lemma TidyBefore(token: string, mark: string, rest: string)
    requires Tidy(token) && |mark| == 1 && mark[0] in {':', '.'} && Tidy(rest)
    ensures Tidy(token + mark + rest)
  {
    assert Tidy(mark);
    hide Tidy;
    TidyJoin(token, mark);
    TidyJoin(token + mark, rest);
  }

  /** A mark before anything tidy. */
  lemma TidyAfter(mark: string, rest: string)
    requires mark in {"", ":", "::", "[", "/", "]:"} && Tidy(rest)
    ensures Tidy(mark + rest)
  {
    assert Tidy(mark);
    hide Tidy;
    TidyJoin(mark, rest);
  }

  lemma TidyQuad(high: u16, low: u16)
    ensures Tidy(Quad(high, low))
  {
    hide *;
    var a, b, c, d := high / 0x100, high % 0x100, low / 0x100, low % 0x100;
    assert Quad(high, low) == Dec(a) + "." + (Dec(b) + "." + (Dec(c) + "." + Dec(d))) by { QuadNests(high, low); }
    TidyDec(a);
    TidyDec(b);
    TidyDec(c);
    TidyDec(d);
    TidyBefore(Dec(c), ".", Dec(d));
    TidyBefore(Dec(b), ".", Dec(c) + "." + Dec(d));
    TidyBefore(Dec(a), ".", Dec(b) + "." + (Dec(c) + "." + Dec(d)));
  }

  lemma QuadNests(high: u16, low: u16)
    ensures Quad(high, low)
      == Dec(high / 0x100) + "." + (Dec(high % 0x100) + "." + (Dec(low / 0x100) + "." + Dec(low % 0x100)))
  {
    hide Dec;
  }

  lemma TidyDec(n: nat)
    ensures Tidy(Dec(n))
  {
    TidyNumeral(n, 10);
    hide Tidy, Numeral;
  }

  lemma TidyHex(n: nat)
    ensures Tidy(Hex(n))
  {
    TidyNumeral(n, 16);
    hide Tidy, Numeral;
  }

  /** From every component on, the text is tidy. */
  lemma {:induction false} TidyEmit(c: Components, embed: bool, i: nat)
    requires i <= 8
    ensures Tidy(Emit(c, embed, i))
    decreases 8 - i
  {
    assert Longest(c).start + Longest(c).len <= 8;
    hide Tidy, Ipv6Text.Longest, Quad, Hex;
    if i == 8 {
      TidyNothing();
    } else if Abbreviates(c, embed, i) {
      TidyEmit(c, embed, i + Longest(c).len);
      TidyAfter(if i > 0 then ":" else "::", Emit(c, embed, i + Longest(c).len));
    } else if embed && i == 6 {
      TidyQuad(c[6], c[7]);
    } else {
      TidyHex(c[i]);
      if i == 7 {
        EmitOfLast(c, embed, i);
      } else {
        TidyEmit(c, embed, i + 1);
        TidyBefore(Hex(c[i]), ":", Emit(c, embed, i + 1));
      }
    }
  }

  lemma TidyNothing()
    ensures Tidy("")
  {
  }

  lemma TidyCut(s: string, n: nat)
    requires Tidy(s)
    ensures Tidy(Cut(s, n))
  {
    forall i | 0 <= i < |Cut(s, n)| - 1 && Opens(Cut(s, n), i) && Cut(s, n)[i] == '0' ensures !IsHex(Cut(s, n)[i + 1]) {
      assert Opens(s, i);
    }
  }

  lemma TidyCompat(a: Address)
    ensures Tidy(CompatText(a))
  {
    hide Tidy, Quad, Dec;
    TidyQuad(a.components[0], a.components[1]);
    TidyDec(a.port);
    TidyAfter(":", Dec(a.port));
    TidyNothing();
    TidyJoin(Quad(a.components[0], a.components[1]), if a.flags.port then ":" + Dec(a.port) else "");
  }

  lemma TidyHead(a: Address)
    ensures Tidy(Head(a))
  {
    hide Tidy, Emit;
    TidyEmit(a.components, a.flags.mask, 0);
    TidyAfter(if a.flags.port then "[" else "", ComponentsText(a.components, a.flags.mask));
  }

  lemma TidyMask(a: Address)
    ensures Tidy(MaskText(a)) && (MaskText(a) != "" ==> MaskText(a)[0] == '/')
  {
    hide Tidy, Dec;
    TidyNothing();
    TidyDec(a.mask);
    TidyAfter("/", Dec(a.mask));
  }

  lemma TidyPort(a: Address)
    ensures Tidy(PortText(a)) && (PortText(a) != "" ==> PortText(a)[0] == ']')
  {
    hide Tidy, Dec;
    TidyNothing();
    TidyDec(a.port);
    TidyAfter("]:", Dec(a.port));
  }

  /** Every printed text is tidy, with its mask and its port, and so is what is left of it in a
      buffer that is too small. */
  lemma TextIsTidy(a: Address)
    ensures Tidy(Text(a))
    ensures forall size: nat :: Print(a, size).Some? ==> Tidy(Print(a, size).value)
  {
    TidyWhole(a);
    hide Tidy, Text, Head, EndsAbbreviated;
    forall size: nat | Print(a, size).Some? ensures Tidy(Print(a, size).value) {
      TidyCut(Text(a), size - 1);
    }
  }

  lemma TidyWhole(a: Address)
    ensures Tidy(Text(a))
  {
    TidyCompat(a);
    TidyCut(CompatText(a), TOKEN_CHARS);
    TidyHead(a);
    TidyMask(a);
    TidyPort(a);
    hide Tidy, Head, MaskText, PortText, CompatText, Cut;
    TidyJoin(Head(a), MaskText(a));
    TidyJoin(Head(a) + MaskText(a), PortText(a));
  }

  // ---- What a buffer gets ----

  predicate EndsWithColon(s: string) { s != "" && s[|s| - 1] == ':' }

  lemma EndOf(s: string, t: string)
    requires t != ""
    ensures s + t != "" && (EndsWithColon(s + t) <==> EndsWithColon(t))
  {
  }

  lemma NumbersEnd(c: Components, i: nat)
    requires i < 8
    ensures Hex(c[i]) != "" && !EndsWithColon(Hex(c[i])) && Quad(c[6], c[7]) != "" && !EndsWithColon(Quad(c[6], c[7]))
  {
    TokensHaveNoColon(c, i);
    hide Hex, Dec;
  }

  /** The text ends with a colon only where the abbreviation reaches the last component. */
  lemma {:induction false} EmitEnds(c: Components, embed: bool, i: nat)
    requires Visited(c, embed, i) && i < 8
    ensures var w := Longest(c);
      Emit(c, embed, i) != "" && (EndsWithColon(Emit(c, embed, i)) <==> Abbreviated(c, embed) && i <= w.start && w.start + w.len == 8)
    decreases 8 - i
  {
    hide *;
    NumbersEnd(c, i);
    EndPlaces(c, embed, i);
    if Abbreviates(c, embed, i) {
      EmitOfRun(c, embed, i);
      var next := i + Longest(c).len;
      if next < 8 {
        EmitEnds(c, embed, next);
        EndOf(if i > 0 then ":" else "::", Emit(c, embed, next));
      } else {
        EmitOfNone(c, embed, next);
        ColonsEnd(if i > 0 then ":" else "::", Emit(c, embed, next));
      }
    } else if embed && i == 6 {
      EmitOfQuad(c, i);
    } else if i == 7 {
      EmitOfLast(c, embed, i);
    } else {
      EmitOfComponent(c, embed, i);
      VisitsNext(c, embed, i);
      EmitEnds(c, embed, i + 1);
      EndOf(Hex(c[i]) + ":", Emit(c, embed, i + 1));
    }
  }

  lemma EmitOfNone(c: Components, embed: bool, i: nat)
    requires i == 8
    ensures Emit(c, embed, i) == ""
  {
  }

  lemma ColonsEnd(mark: string, rest: string)
    requires mark in {":", "::"} && rest == ""
    ensures mark + rest != "" && EndsWithColon(mark + rest)
  {
  }

  lemma EmitOfQuad(c: Components, i: nat)
    requires i == 6 && !Abbreviates(c, true, i)
    ensures Emit(c, true, i) == Quad(c[6], c[7])
  {
    hide Ipv6Text.Longest, Quad, Abbreviates;
  }

  lemma EndPlaces(c: Components, embed: bool, i: nat)
    requires Visited(c, embed, i) && i < 8
    ensures var w := Longest(c);
      && (Abbreviates(c, embed, i) ==> Abbreviated(c, embed) && i == w.start && w.len > 1 && i + w.len <= 8)
      && (Abbreviates(c, embed, i) && i + w.len < 8 ==> Visited(c, embed, i + w.len))
      && (embed && i == 6 && !Abbreviates(c, embed, i) && Abbreviated(c, embed) && i <= w.start ==> w.start + w.len < 8)
      && (i == 7 && !Abbreviates(c, embed, i) && Abbreviated(c, embed) ==> w.start < i)
      && (!Abbreviates(c, embed, i) && Abbreviated(c, embed) && i <= w.start ==> i < w.start)
  {
    assert Longest(c).start + Longest(c).len <= 8;
    hide Ipv6Text.Longest;
  }

  lemma AllZeroRun(c: Components)
    ensures (Longest(c).start == 0 && Longest(c).len == 8) <==> c == ZERO_COMPONENTS
  {
    LongestIsLeftmostLongest(c);
    hide Ipv6Text.Longest;
    if c == ZERO_COMPONENTS {
      assert IsZeroRun(c, 0, 8);
    }
  }

  /** An abbreviation at the very end is told from the text: it ends with a colon, and is not that
      of the address of zeros. */
  lemma EndsAbbreviatedExactly(a: Address)
    ensures EndsAbbreviated(a) <==> EndsWithColon(Head(a)) && a.components != ZERO_COMPONENTS
  {
    hide *;
    var c, embed := a.components, a.flags.mask;
    assert Visited(c, embed, 0) by { VisitedFirst(c, embed); }
    EmitEnds(c, embed, 0);
    HeadEnds(a);
    AllZeroRun(c);
    EndsAbbreviatedIs(a);
  }

  lemma VisitedFirst(c: Components, embed: bool)
    ensures Visited(c, embed, 0)
  {
    hide Ipv6Text.Longest;
  }

  lemma HeadEnds(a: Address)
    requires Emit(a.components, a.flags.mask, 0) != ""
    ensures EndsWithColon(Head(a)) <==> EndsWithColon(Emit(a.components, a.flags.mask, 0))
  {
    hide Emit;
    EndOf(if a.flags.port then "[" else "", Emit(a.components, a.flags.mask, 0));
  }

  lemma EndsAbbreviatedIs(a: Address)
    ensures var w := Longest(a.components);
      && w.start + w.len <= 8
      && (EndsAbbreviated(a) <==> Abbreviated(a.components, a.flags.mask) && w.start > 0 && w.start + w.len == 8)
      && (w.start == 0 && w.len == 8 ==> Abbreviated(a.components, a.flags.mask))
  {
    assert Longest(a.components).start + Longest(a.components).len <= 8;
    hide Ipv6Text.Longest;
  }

  /** For every address and every size that is not refused: the buffer gets the text, as much of it
      as it holds, unless the components with their bracket leave less than two characters of
      room, or less than three when they end with a colon; then there is no text. A compatible
      address always has one. */
  lemma PrintExactly(a: Address, size: nat)
    requires size >= 4
    ensures var room := if EndsWithColon(Head(a)) && a.components != ZERO_COMPONENTS then 3 else 2;
      Print(a, size).None? <==> !a.flags.compat && |Head(a)| + room > size
    ensures Print(a, size).Some? ==>
      Print(a, size).value == if |Text(a)| < size then Text(a) else Text(a)[..size - 1]
  {
    EndsAbbreviatedExactly(a);
    hide Head, Text, EndsAbbreviated, EndsWithColon;
  }
}
