/** ipv6_to_str and ipv6_compare as they run: spans counted in an array, a write pointer
    advanced through the caller's buffer. */
module Ipv6Printer {
  import opened Wrappers
  import opened Numerals
  import opened Ipv6Address
  import opened Ipv6Text

  /** The buffer holds s as a C string. */
  ghost predicate Holds(buffer: seq<char>, s: string) {
    |s| < |buffer| && buffer[..|s|] == s && buffer[|s|] == '\0'
  }

  /** A nonzero component ends the runs seen so far; one of the last component's own stands by. */
  lemma SpanEnds(c: Components, i: nat, from: nat, w: Span)
    requires i < 8 && c[i] != 0 && from <= i
    requires IsZeroRun(c, from, i - from) && (from > 0 ==> c[from - 1] != 0)
    requires LeftmostLongest(c, from, w)
    ensures LeftmostLongest(c, i + 1, if i - from > w.len then Span(from, i - from) else w)
  {
    LongestSoFar(c, i, from, w);
  }

  lemma LongestSoFar(c: Components, p: nat, from: nat, w: Span)
    requires from <= p <= 8
    requires IsZeroRun(c, from, p - from) && (from > 0 ==> c[from - 1] != 0)
    requires LeftmostLongest(c, from, w)
    ensures LeftmostLongest(c, p, if p - from > w.len then Span(from, p - from) else w)
  {
    var v := if p - from > w.len then Span(from, p - from) else w;
    forall s: nat, n: nat | IsZeroRun(c, s, n) && s + n <= p && n > 0
      ensures n < v.len || (n == v.len && v.start <= s)
    {
      if s + n > from && s < from {
        assert false;
      }
    }
  }

  /** The scan for the span of zeros to abbreviate. */
  method FindLongestSpan(c: Components) returns (position: nat, span: nat)
    ensures Span(position, span) == Longest(c)
  {
    var spansPosition := 0;
    span, position := 0, 0;
    var spans := new nat[8](_ => 0);
    for i := 0 to 8
      invariant spansPosition <= i && (spansPosition > 0 ==> c[spansPosition - 1] != 0)
      invariant IsZeroRun(c, spansPosition, i - spansPosition)
      invariant spansPosition < 8 ==> spans[spansPosition] == i - spansPosition
      invariant forall j :: spansPosition < j < 8 ==> spans[j] == 0
      invariant LeftmostLongest(c, spansPosition, Span(position, span))
    {
      if c[i] != 0 {
        SpanEnds(c, i, spansPosition, Span(position, span));
        if spans[spansPosition] > span {
          position := spansPosition;
          span := spans[spansPosition];
        }
        spansPosition := i + 1;
      } else {
        spans[spansPosition] := spans[spansPosition] + 1;
      }
    }
    LongestSoFar(c, 8, spansPosition, Span(position, span));
    if spansPosition < 8 && spans[spansPosition] > span {
      position := spansPosition;
      span := spans[spansPosition];
    }
    LeftmostLongestIsUnique(c, Span(position, span));
  }

  // ---- The buffer ----

  /** The n characters at the front of the buffer are s. */
  ghost predicate Front(out: array<char>, n: nat, s: string) reads out {
    n == |s| <= out.Length && out[..n] == s
  }

  /** snprintf(token, sizeof token, ...) keeps at most the 15 characters before the terminator. */
  function Snprintf(s: string): string { Cut(s, TOKEN_CHARS) }

  /** Copies a token to the write pointer, as far as the end pointer. */
  method Copy(token: string, out: array<char>, from: nat, end: nat, ghost done: string) returns (wp: nat)
    requires from <= end < out.Length && Front(out, from, done)
    modifies out
    ensures Front(out, wp, Cut(done + token, end))
    ensures out[end + 1..] == old(out[end + 1..])
  {
    wp := from;
    while wp < end && wp - from < |token|
      invariant from <= wp <= end && wp - from <= |token|
      invariant forall k :: from <= k < wp ==> out[k] == token[k - from]
      invariant forall k :: 0 <= k < from || wp <= k < out.Length ==> out[k] == old(out[k])
    {
      out[wp] := token[wp - from];
      wp := wp + 1;
    }
  }

  /** A component's token and, unless it is the last, a separator, as far as they fit. */
  method WriteToken(token: string, separate: bool, out: array<char>, from: nat, end: nat, ghost done: string)
      returns (wp: nat)
    requires from < end < out.Length && Front(out, from, done)
    modifies out
    ensures Front(out, wp, Cut(done + token + (if separate then ":" else ""), end))
    ensures out[end + 1..] == old(out[end + 1..])
  {
    wp := Copy(token, out, from, end, done);
    if separate && wp < end {
      out[wp] := ':';
      wp := wp + 1;
    }
  }

  /** The double colon; after a component its first half is already there. */
  method WriteAbbreviation(first: bool, out: array<char>, from: nat, end: nat, ghost done: string) returns (wp: nat)
    requires from + 2 < end < out.Length && Front(out, from, done)
    modifies out
    ensures Front(out, wp, done + (if first then "::" else ":"))
    ensures out[end + 1..] == old(out[end + 1..])
  {
    wp := from;
    if !first {
      out[wp] := ':';
      wp := wp + 1;
    } else {
      out[wp] := ':';
      out[wp + 1] := ':';
      wp := wp + 2;
    }
  }

  /** Terminates the string of wp characters that stands at the front of the buffer. */
  method Terminate(out: array<char>, wp: nat, size: nat, ghost done: string)
    requires wp < size <= out.Length && Front(out, wp, done)
    modifies out
    ensures Holds(out[..size], done) && out[size..] == old(out[size..])
  {
    out[wp] := '\0';
    assert out[..size][..wp] == old(out[..wp]);
  }

  // ---- One component ----

  /** What component i contributes to the text. */
  function Piece(c: Components, embed: bool, i: nat): string
    requires i < 8
  {
    if Abbreviates(c, embed, i) then if i > 0 then ":" else "::"
    else if embed && i == 6 then Quad(c[6], c[7])
    else Hex(c[i]) + (if i < 7 then ":" else "")
  }

  function NextComponent(c: Components, embed: bool, i: nat): nat {
    if Abbreviates(c, embed, i) then i + Longest(c).len else if embed && i == 6 then 8 else i + 1
  }

  lemma EmitSplits(c: Components, embed: bool, i: nat)
    requires i < 8
    ensures i < NextComponent(c, embed, i) <= 8 && Piece(c, embed, i) != ""
    ensures Emit(c, embed, i) == Piece(c, embed, i) + Emit(c, embed, NextComponent(c, embed, i))
  {
    QuadLength(c[6], c[7]);
    assert embed && i == 6 ==> Quad(c[6], c[7]) + "" == Quad(c[6], c[7]);
  }

  lemma TokensAreShort(c: Components, i: nat)
    requires i < 8
    ensures Snprintf(Hex(c[i])) == Hex(c[i]) && Snprintf(Quad(c[6], c[7])) == Quad(c[6], c[7])
    ensures Longest(c).start + Longest(c).len <= 8
  {
    HexLength(c[i]);
    QuadLength(c[6], c[7]);
  }

  /** The room component i needs besides its text: after another component, the double colon
      is checked for two characters although only one is left to write. */
  function Slack(c: Components, embed: bool, i: nat): (n: nat)
    ensures n <= 1
  {
    if Abbreviates(c, embed, i) && i > 0 then 1 else 0
  }

  /** Writes what component i asks for and answers the next component to look at; not ok
      when the end pointer was reached. */
  method EmitComponent(c: Components, embed: bool, w: Span, i: nat, out: array<char>, from: nat, end: nat, ghost done: string)
      returns (ok: bool, wp: nat, next: nat)
    requires i < 8 && from < end < out.Length && w == Longest(c) && Front(out, from, done)
    modifies out
    ensures out[end + 1..] == old(out[end + 1..])
    ensures ok <==> from + |Piece(c, embed, i)| + Slack(c, embed, i) < end
    ensures ok ==> Front(out, wp, done + Piece(c, embed, i)) && next == NextComponent(c, embed, i)
    ensures !ok ==> out[0] == '\0'
  {
    hide Ipv6Text.Quad, Ipv6Text.Longest, Snprintf, Numerals.Hex;
    TokensAreShort(c, i);
    var token: string;
    wp, next := from, i;
    if next == 6 && embed {
      token := Snprintf(Quad(c[6], c[7]));
      next := next + 1;
    } else {
      token := Snprintf(Hex(c[next]));
    }
    if next == w.start && w.len > 1 {
      if wp + 2 >= end {
        out[0] := '\0';
        return false, wp, next;
      }
      wp := WriteAbbreviation(next == 0, out, wp, end, done);
      return true, wp, next + w.len;
    }
    wp := WriteToken(token, next < 8 - 1, out, wp, end, done);
    assert done + Piece(c, embed, i) == done + token + (if next < 7 then ":" else "");
    if wp == end {
      out[0] := '\0';
      return false, wp, next;
    }
    return true, wp, next + 1;
  }

  // ---- All components ----

  lemma AbbreviationIsTheLongest(a: Address, i: nat)
    requires i < 8
    requires Slack(a.components, a.flags.mask, i) == 1
    ensures NextComponent(a.components, a.flags.mask, i) == 8 ==> EndsAbbreviated(a)
  {
  }

  lemma SkipsOrEnds(a: Address, i: nat)
    requires i < 8 && EndsAbbreviated(a) && i <= Longest(a.components).start
    ensures var next := NextComponent(a.components, a.flags.mask, i);
      if next == 8 then Slack(a.components, a.flags.mask, i) == 1 else next <= Longest(a.components).start
  {
  }

  lemma EmitIsNonempty(c: Components, embed: bool, i: nat)
    requires i <= 8
    ensures |Emit(c, embed, i)| > 0 <==> i < 8
  {
    if i < 8 { EmitSplits(c, embed, i); }
  }

  /** All that a reader of the loop needs to know about one turn of it. */
  lemma TurnKeepsHead(a: Address, i: nat, done: string)
    requires i < 8 && done + Emit(a.components, a.flags.mask, i) == Head(a)
    ensures var c, embed := a.components, a.flags.mask;
      var next, after := NextComponent(c, embed, i), done + Piece(c, embed, i);
      && i < next <= 8 && after + Emit(c, embed, next) == Head(a)
      && |after| + Slack(c, embed, i) <= |Head(a)| + (if EndsAbbreviated(a) then 1 else 0)
      && (EndsAbbreviated(a) && i <= Longest(c).start ==>
            next <= Longest(c).start || (next == 8 && Slack(c, embed, i) == 1))
  {
    hide *;
    var c, embed := a.components, a.flags.mask;
    var next := NextComponent(c, embed, i);
    EmitSplits(c, embed, i);
    EmitIsNonempty(c, embed, next);
    assert (done + Piece(c, embed, i)) + Emit(c, embed, next) == Head(a);
    if Slack(c, embed, i) == 1 { AbbreviationIsTheLongest(a, i); }
    if EndsAbbreviated(a) && i <= Longest(c).start { SkipsOrEnds(a, i); }
  }

  /** The loop over the components, from a buffer that holds what precedes them. */
  method EmitComponents(a: Address, out: array<char>, from: nat, end: nat, ghost bracket: string)
      returns (ok: bool, wp: nat)
    requires from < end < out.Length && Front(out, from, bracket)
    requires bracket + Emit(a.components, a.flags.mask, 0) == Head(a)
    modifies out
    ensures out[end + 1..] == old(out[end + 1..])
    ensures ok <==> |Head(a)| + (if EndsAbbreviated(a) then 1 else 0) < end
    ensures ok ==> Front(out, wp, Head(a))
    ensures !ok ==> out[0] == '\0'
  {
    hide *;
    var c, embed := a.components, a.flags.mask;
    ghost var done := bracket;
    var position, span := FindLongestSpan(c);
    ghost var ends := EndsAbbreviated(a);
    var i := 0;
    wp := from;
    FrontLength(out, wp, done);
    while i < 8
      invariant i <= 8 && wp == |done| < end
      invariant Front(out, wp, done) && done + Emit(c, embed, i) == Head(a)
      invariant ends ==> i <= Longest(c).start || (i == 8 && wp + 1 < end)
      invariant out[end + 1..] == old(out[end + 1..])
      decreases 8 - i
    {
      TurnKeepsHead(a, i, done);
      ghost var piece := Piece(c, embed, i);
      ok, wp, i := EmitComponent(c, embed, Span(position, span), i, out, wp, end, done);
      if !ok {
        return false, wp;
      }
      done := done + piece;
      FrontLength(out, wp, done);
    }
    EmitIsNonempty(c, embed, 8);
    EndsInRange(a);
    assert done == Head(a);
    return true, wp;
  }

  lemma EndsInRange(a: Address)
    ensures EndsAbbreviated(a) ==> Longest(a.components).start < 8
  {
  }

  lemma FrontLength(out: array<char>, n: nat, s: string)
    requires Front(out, n, s)
    ensures n == |s|
  {
  }

  // ---- The whole text ----

  /** The shortcut for IPv4-compatible addresses: always answers, cutting what does not fit. */
  method PrintCompat(a: Address, out: array<char>, size: nat)
    requires 4 <= size <= out.Length && a.flags.compat
    modifies out
    ensures out[size..] == old(out[size..])
    ensures Holds(out[..size], Cut(Text(a), size - 1))
  {
    hide Ipv6Text.CompatText, Holds;
    var wp := Copy(Snprintf(CompatText(a)), out, 0, size - 1, "");
    assert "" + Snprintf(CompatText(a)) == Text(a);
    Terminate(out, wp, size, Cut(Text(a), size - 1));
  }

  /** The mask and the port, each as far as it fits. */
  method WriteMaskAndPort(a: Address, out: array<char>, from: nat, end: nat, ghost done: string) returns (wp: nat)
    requires from < end < out.Length && Front(out, from, done)
    modifies out
    ensures Front(out, wp, Cut(done + MaskText(a) + PortText(a), end)) && wp <= end
    ensures out[end + 1..] == old(out[end + 1..])
  {
    MaskLength(a.mask);
    PortLength(a.port);
    wp := from;
    ghost var sofar := done;
    if a.flags.mask {
      wp := Copy(Snprintf(MaskText(a)), out, wp, end, done);
      sofar := Cut(done + MaskText(a), end);
    }
    if a.flags.port {
      wp := Copy(Snprintf(PortText(a)), out, wp, end, sofar);
    }
    assert done + "" == done && done + MaskText(a) + "" == done + MaskText(a);
    assert Cut(sofar + PortText(a), end) == Cut(done + MaskText(a) + PortText(a), end);
  }

  /** An address with a port stands in brackets. */
  method OpenBracket(a: Address, out: array<char>, size: nat) returns (wp: nat)
    requires 4 <= size <= out.Length
    modifies out
    ensures wp <= 1 && out[size..] == old(out[size..])
    ensures Front(out, wp, if a.flags.port then "[" else "")
  {
    wp := 0;
    if a.flags.port {
      out[wp] := '[';
      wp := wp + 1;
    }
  }

  method PrintFull(a: Address, out: array<char>, size: nat) returns (ok: bool)
    requires 4 <= size <= out.Length && !a.flags.compat
    modifies out
    ensures out[size..] == old(out[size..])
    ensures if Print(a, size).None? then !ok && out[0] == '\0' else ok && Holds(out[..size], Print(a, size).value)
  {
    assert (if a.flags.port then "[" else "") + Emit(a.components, a.flags.mask, 0) == Head(a);
    assert Text(a) == Head(a) + MaskText(a) + PortText(a);
    PrintUnfolds(a, size);
    hide *;
    var end := size - 1;
    var wp := OpenBracket(a, out, size);
    ok, wp := EmitComponents(a, out, wp, end, if a.flags.port then "[" else "");
    if !ok {
      return false;
    }
    FrontLength(out, wp, Head(a));
    wp := WriteMaskAndPort(a, out, wp, end, Head(a));
    Terminate(out, wp, size, Cut(Text(a), end));
    return true;
  }

  lemma PrintUnfolds(a: Address, size: nat)
    requires 4 <= size && !a.flags.compat
    ensures Print(a, size) ==
      if |Head(a)| + (if EndsAbbreviated(a) then 1 else 0) < size - 1 then Some(Cut(Text(a), size - 1)) else None
  {
  }

  /** ipv6_to_str: not ok for a null answer. Nothing outside the first size characters is
      touched, and what is left there is a C string in every case but a refused call. */
  method ToStr(input: Option<Address>, out: array<char>, size: nat) returns (ok: bool)
    requires size <= out.Length
    modifies out
    ensures out[size..] == old(out[size..])
    ensures size < 4 || input.None? ==> !ok && out[..] == old(out[..])
    ensures size >= 4 && input.Some? ==>
      match Print(input.value, size)
      case None => !ok && out[0] == '\0'
      case Some(s) => ok && Holds(out[..size], s)
  {
    if size < 4 || input.None? {
      return false;
    }
    if input.value.flags.compat {
      PrintCompat(input.value, out, size);
      return true;
    }
    ok := PrintFull(input.value, out, size);
  }

  /** ipv6_compare. */
  method CompareAddresses(a: Address, b: Address) returns (compare: int)
    ensures compare == Compare(a, b)
    ensures compare == 0 <==> Same(a, b)
  {
    CompareZeroIffSame(a, b);
    for i := 0 to 8
      invariant FirstDifference(a.components, b.components, 0) == FirstDifference(a.components, b.components, i)
    {
      var x: int, y: int := a.components[i], b.components[i];
      compare := x - y;
      if compare != 0 { return compare; }
    }
    compare := Difference(a.flags.Word(), b.flags.Word());
    if compare != 0 { return compare; }
    if a.flags.port {
      var x: int, y: int := a.port, b.port;
      compare := x - y;
      if compare != 0 { return compare; }
    }
    if a.flags.mask {
      compare := Difference(a.mask, b.mask);
      if compare != 0 { return compare; }
    }
    return 0;
  }
}
