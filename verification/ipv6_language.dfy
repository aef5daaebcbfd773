/** What the parser accepts and refuses, said of the text alone: where each character stands,
    what is wrong with it there, and what the numbers of an accepted text mean. */
module Ipv6Language {
  import opened Wrappers
  import opened Numerals
  import opened Ipv6Address
  import opened Ipv6Reader
  import Ipv6Walk

  // ---- Where a character stands ----

  /** In an address, behind "/", behind "%", behind "]", or behind the colon of a port. */
  datatype Place = Body | Mask | Zone | Back | Port

  predicate IsSpace(c: char) { c in {' ', '\t', '\n', '\r'} }

  predicate IsKnown(c: char) { IsHex(c) || c in {':', '.', '/', '%', '[', ']'} || IsSpace(c) }

  /** The character before the i-th. */
  function Before(s: string, i: nat): char
    requires i <= |s|
  {
    if i == 0 then ' ' else s[i - 1]
  }

  /** The place behind a character; a colon opens the port of a leading dotted quad. */
  function Behind(p: Place, c: char, port: bool): Place {
    match p
    case Body => if c == '/' then Mask else if c == '%' then Zone else if c == ']' then Back else if c == ':' && port then Port else Body
    case Mask => if c == '%' then Zone else if c == ']' then Back else if IsSpace(c) then Body else Mask
    case Zone => if c == ']' then Back else if IsSpace(c) then Body else Zone
    case Back => if c == ':' then Port else Back
    case Port => if IsSpace(c) then Body else Port
  }

  /** The place of the i-th character. */
  function PlaceOf(s: string, i: nat): Place
    requires i <= |s|
    decreases i, 0
  {
    if i == 0 then Body else Behind(PlaceOf(s, i - 1), s[i - 1], IsHex(Before(s, i - 1)) && Leading(s, i - 1))
  }

  /** A dot stands in an address before i. */
  predicate Dotted(s: string, i: nat)
    requires i <= |s|
    decreases i, 1
  {
    i > 0 && (Dotted(s, i - 1) || (s[i - 1] == '.' && PlaceOf(s, i - 1).Body?))
  }

  /** The hexadecimal digits right before i. */
  function Digits(s: string, i: nat): (t: string)
    requires i <= |s|
    ensures AllHex(t) && |t| <= i && t == s[i - |t|..i]
  {
    if i > 0 && IsHex(s[i - 1]) then Digits(s, i - 1) + [s[i - 1]] else ""
  }

  /** A number of an address ends right before the i-th character. */
  predicate Closes(s: string, i: nat)
    requires i < |s|
    decreases i, 1
  {
    PlaceOf(s, i).Body? && IsHex(Before(s, i)) && !IsHex(s[i])
  }

  /** The numbers before i: those up to the first dot, and the others, the first of which is the
      one that the first dot ends. */
  function Groups(s: string, i: nat): (ts: seq<string>)
    requires i <= |s|
    ensures forall k :: 0 <= k < |ts| ==> AllHex(ts[k])
    decreases i, 2
  {
    if i == 0 then [] else Groups(s, i - 1) + if Closes(s, i - 1) && !Dotted(s, i) then [Digits(s, i - 1)] else []
  }

  function Quad(s: string, i: nat): (ts: seq<string>)
    requires i <= |s|
    ensures forall k :: 0 <= k < |ts| ==> AllHex(ts[k])
    decreases i, 2
  {
    if i == 0 then [] else Quad(s, i - 1) + if Closes(s, i - 1) && Dotted(s, i) then [Digits(s, i - 1)] else []
  }

  /** A dotted quad came first, before any group. */
  predicate Leading(s: string, i: nat)
    requires i <= |s|
    decreases i, 3
  {
    Dotted(s, i) && Groups(s, i) == []
  }

  /** How many components there are before i, a quad counting for two. */
  function CountOf(s: string, i: nat): nat
    requires i <= |s|
  {
    |Groups(s, i)| + if Dotted(s, i) then 2 else 0
  }

  /** How many components stand before the "::", if there is one before i. */
  function Abbreviation(s: string, i: nat): Option<nat>
    requires i <= |s|
    decreases i
  {
    if i == 0 then None
    else if Abbreviation(s, i - 1).Some? then Abbreviation(s, i - 1)
    else if PlaceOf(s, i - 1).Body? && s[i - 1] == ':' && Before(s, i - 1) == ':' then Some(CountOf(s, i - 1))
    else None
  }

  /** The value that a number of any length has in an int32_t. */
  function ValueOf(t: string, base: Radix): int
    requires AllHex(t)
  {
    Wrap32(Positional(t, base))
  }

  /** The last mask, and the last port, that ended before i. */
  function MaskBefore(s: string, i: nat): Option<int>
    requires i <= |s|
    decreases i
  {
    if i == 0 then None
    else if PlaceOf(s, i - 1).Mask? && !PlaceOf(s, i).Mask? then Some(ValueOf(Digits(s, i - 1), 10))
    else MaskBefore(s, i - 1)
  }

  function PortBefore(s: string, i: nat): Option<int>
    requires i <= |s|
    decreases i
  {
    if i == 0 then None
    else if PlaceOf(s, i - 1).Port? && !PlaceOf(s, i).Port? then Some(ValueOf(Digits(s, i - 1), 10))
    else PortBefore(s, i - 1)
  }

  // ---- What is wrong with it ----

  function GroupComplaints(t: string, count: nat): seq<DiagEvent>
    requires AllHex(t)
  {
    if count >= 8 then [V6BadComponentCount] else if ValueOf(t, 16) > 0xffff then [V6ComponentOutOfRange] else []
  }

  function OctetComplaints(t: string, count: nat): seq<DiagEvent>
    requires AllHex(t)
  {
    if !AllDigits(t) then if count >= 4 then [InvalidInput, V4BadComponentCount] else [InvalidInput]
    else if count >= 4 then [V4BadComponentCount]
    else if ValueOf(t, 10) > 0xff then [V4ComponentOutOfRange]
    else []
  }

  /** Right behind a digit of an address. */
  function ComplaintsBehindDigit(s: string, i: nat): seq<DiagEvent>
    requires i < |s|
  {
    var c := s[i];
    if IsHex(c) then []
    else if c == '[' then [InvalidInput]
    else if c == ':' && Dotted(s, i) && !Leading(s, i) then [Ipv4IncorrectPosition]
    else if c == '.' && !Dotted(s, i) && |Groups(s, i)| >= 7 then [Ipv4RequiredBits]
    else if c == '.' || Dotted(s, i) then OctetComplaints(Digits(s, i), |Quad(s, i)|)
    else GroupComplaints(Digits(s, i), |Groups(s, i)|)
  }

  /** Right behind a colon of an address: a second "::" is one too many. */
  function ComplaintsBehindColon(s: string, i: nat): seq<DiagEvent>
    requires i < |s|
  {
    match s[i]
    case ':' => if Abbreviation(s, i).Some? then [InvalidAbbrev] else []
    case '[' => [InvalidBrackets]
    case '.' => [InvalidInput]
    case _ => []
  }

  /** Elsewhere in an address: only one bracket may open in the whole text. */
  function ComplaintsInTheClear(s: string, i: nat): seq<DiagEvent>
    requires i < |s|
  {
    match s[i]
    case '[' => if '[' in s[..i] then [InvalidBrackets] else []
    case '.' | '%' => [InvalidInput]
    case _ => []
  }

  /** What is wrong with the i-th character, or with the number that it ends. */
  function Complaints(s: string, i: nat): seq<DiagEvent>
    requires i < |s|
  {
    var c := s[i];
    if !IsKnown(c) then [InvalidInputChar]
    else match PlaceOf(s, i)
      case Body =>
        if IsHex(Before(s, i)) then ComplaintsBehindDigit(s, i)
        else if Before(s, i) == ':' then ComplaintsBehindColon(s, i)
        else ComplaintsInTheClear(s, i)
      case Mask =>
        if IsDigit(c) then []
        else if c == '%' || c == ']' || IsSpace(c) then
          if 0 <= ValueOf(Digits(s, i), 10) <= 128 then [] else [InvalidCidrMask]
        else [InvalidInput]
      case Zone => []
      case Back => if c == ':' || IsSpace(c) then [] else [InvalidInput]
      case Port =>
        if IsDigit(c) then []
        else if IsSpace(c) then if 0 <= ValueOf(Digits(s, i), 10) <= 0xffff then [] else [InvalidPort]
        else [InvalidInput]
  }

  /** Nothing is wrong before n. */
  ghost predicate Clean(s: string, n: nat)
    requires n <= |s|
  {
    forall i :: 0 <= i < n ==> Complaints(s, i) == []
  }

  /** How many octets are counted at the end: one with a letter in it is, one out of range is not. */
  function OctetsAtEnd(s: string): nat
    requires s != []
  {
    var cs := Complaints(s, |s| - 1);
    |Quad(s, if cs == [] || cs == [InvalidInput] then |s| else |s| - 1)|
  }

  /** What is wrong at the end, the last character of s being a blank put there: with it, or with
      the count of octets or of components. */
  function EndComplaints(s: string): seq<DiagEvent>
    requires s != []
  {
    var cs, n := Complaints(s, |s| - 1), |s|;
    if Dotted(s, n) && OctetsAtEnd(s) != 4 then cs + [V4BadComponentCount]
    else if cs == [] && !Leading(s, n) && Abbreviation(s, n).None? && CountOf(s, n) < 8 then [V6BadComponentCount]
    else cs
  }

  // ---- What it means ----

  function GroupValues(gs: seq<string>): (vs: seq<u16>)
    requires forall i :: 0 <= i < |gs| ==> AllHex(gs[i])
    ensures |vs| == |gs|
  {
    seq(|gs|, i requires 0 <= i < |gs| => Positional(gs[i], 16) % 0x1_0000)
  }

  /** The components with octets or-ed in behind groups, high byte first. */
  function Filled(gs: seq<u16>, os: seq<int>): Components
    requires |gs| + (|os| + 1) / 2 <= 8
  {
    if os == [] then Ipv6Walk.Pad(gs)
    else
      var last := |os| - 1;
      var c, slot := Filled(gs, os[..last]), |gs| + last / 2;
      c[slot := OrOctet(c[slot], os[last], last % 2 == 0)]
  }

  function OctetValues(ts: seq<string>): (os: seq<int>)
    requires forall i :: 0 <= i < |ts| ==> AllHex(ts[i])
    ensures |os| == |ts|
  {
    seq(|ts|, i requires 0 <= i < |ts| => ValueOf(ts[i], 10))
  }

  /** The numbers before i are no more than the address has room for, and in range. */
  ghost predicate Fits(s: string, i: nat)
    requires i <= |s|
  {
    && |Groups(s, i)| <= 8 && (if Dotted(s, i) then |Groups(s, i)| <= 6 && |Quad(s, i)| <= 4 else Quad(s, i) == [])
    && (match Abbreviation(s, i) case None => true case Some(z) => z <= CountOf(s, i))
    && (match MaskBefore(s, i) case None => true case Some(mask) => 0 <= mask <= 128)
    && (match PortBefore(s, i) case None => true case Some(port) => 0 <= port <= 0xffff)
  }

  function Stored(s: string, i: nat): Components
    requires i <= |s| && Fits(s, i)
  {
    Filled(GroupValues(Groups(s, i)), OctetValues(Quad(s, i)))
  }

  /** The address that was read before i: the numbers in their slots, without abbreviated zeros. */
  function ReadSoFar(s: string, i: nat): Address
    requires i <= |s| && Fits(s, i)
  {
    var mask, port := MaskBefore(s, i), PortBefore(s, i);
    Address(Stored(s, i), if port.Some? then port.value else 0, if mask.Some? then mask.value else 0,
            Flags(port.Some?, mask.Some?, false, 0))
  }

  /** The address that a whole text means. */
  function Meaning(s: string, i: nat): Address
    requires i <= |s| && Fits(s, i)
  {
    var a, z := ReadSoFar(s, i), Abbreviation(s, i);
    var c := if !Leading(s, i) && z.Some? then Expand(a.components, z.value, CountOf(s, i)) else a.components;
    Address(c, a.port, a.mask, Flags(a.flags.port, a.flags.mask || Dotted(s, i), Leading(s, i), 0))
  }
}
