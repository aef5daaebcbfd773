/** The reader of contrib/ipv6-parse/ipv6.c as a value: one function a C function, on a
    record of the C reader state. Ipv6Parser holds the code that updates it in place. */
module Ipv6Reader {
  import opened Wrappers
  import opened Numerals
  import opened Ipv6Address

  datatype State = StNone | StAddrComponent | StV6Separator | StZeroRun | StCidr | StIface
    | StPort | StPostAddr | StError

  datatype EventClass = EcDigit | EcHexDigit | EcV4Separator | EcV6Separator | EcCidrMask
    | EcIface | EcOpenBracket | EcCloseBracket | EcWhitespace

  datatype DiagEvent = StringSizeExceeded | InvalidInput | InvalidInputChar
    | V6BadComponentCount | V4BadComponentCount | V6ComponentOutOfRange
    | V4ComponentOutOfRange | InvalidPort | InvalidCidrMask | Ipv4RequiredBits
    | Ipv4IncorrectPosition | InvalidBrackets | InvalidAbbrev | InvalidDecimalToken
    | InvalidHexToken

  datatype Diag = Diag(event: DiagEvent, position: nat)

  /** The reader state. The four bits of the C flags word are hasZerorun, failed, embedding
      and compat; out is the address under construction; diags are the diagnostics raised. */
  datatype Reader = Reader(
    input: string, inputBytes: nat,
    current: State, position: nat, components: nat,
    tokenPosition: nat, tokenLen: nat, brackets: nat,
    zerorun: nat, v4Embedding: nat, v4Octets: nat,
    hasZerorun: bool, failed: bool, embedding: bool, compat: bool,
    out: Address, diags: seq<Diag>)

  function Start(input: string, inputBytes: nat): Reader {
    Reader(input, inputBytes, StNone, 0, 0, 0, 0, 0, 0, 0, 0, false, false, false, false, ZERO_ADDRESS, [])
  }

  /** A failure is on record exactly when a diagnostic was raised. */
  predicate Honest(r: Reader) { r.failed <==> r.diags != [] }

  /** What no transition touches, takes back or hides. */
  ghost predicate Follows(r: Reader, s: Reader) {
    && s.input == r.input && s.inputBytes == r.inputBytes && s.position == r.position
    && s.brackets == r.brackets
    && (r.failed ==> s.failed) && (Honest(r) ==> Honest(s)) && r.diags <= s.diags
    && (r.compat ==> s.compat) && (r.components <= 8 ==> s.components <= 8)
    && s.out.flags.compat == r.out.flags.compat && s.out.flags.rest == r.out.flags.rest
    && (r.out.mask <= 128 ==> s.out.mask <= 128)
  }

  /** What only the ADDR_COMPONENT state changes. */
  ghost predicate KeepsComponents(r: Reader, s: Reader) {
    && s.out.components == r.out.components && s.components == r.components
    && s.embedding == r.embedding && s.v4Embedding == r.v4Embedding && s.v4Octets == r.v4Octets
    && s.compat == r.compat
  }

  // ---- Tokens ----

  function Fail(r: Reader, event: DiagEvent): (s: Reader)
    ensures Follows(r, s) && s.failed
  {
    r.(failed := true, current := StError, diags := r.diags + [Diag(event, r.position)])
  }

  function Goto(r: Reader, state: State): (s: Reader)
    ensures Follows(r, s)
  {
    r.(current := state)
  }

  function BeginToken(r: Reader, offset: nat): (s: Reader)
    ensures Follows(r, s)
  {
    r.(tokenPosition := r.position + offset, tokenLen := 0)
  }

  function Min(x: nat, y: nat): nat { if x <= y then x else y }

  /** The characters between token_position and its length, stopping at the terminator. */
  function Token(r: Reader): string {
    var from := Min(r.tokenPosition, |r.input|);
    r.input[from..Min(from + r.tokenLen, |r.input|)]
  }

  /** read_decimal_token (base 10) and read_hexidecimal_token (base 16): the reader, marked
      as failed when the token is bad, and the accumulated value. */
  function ReadToken(r: Reader, base: Radix): (res: (Reader, int))
    ensures Follows(r, res.0)
  {
    if r.tokenPosition + r.tokenLen > r.inputBytes then
      (Fail(r, if base == 10 then InvalidDecimalToken else InvalidHexToken), 0)
    else if InRadix(Token(r), base) then (r, Accumulate(Token(r), base))
    else (Fail(r, InvalidInput), 0)
  }

  // ---- Components, mask and port ----

  function ParseV6Component(r: Reader): (s: Reader)
    ensures Follows(r, s)
  {
    var (r1, v) := ReadToken(r, 16);
    if r1.components >= 8 then Fail(r1, V6BadComponentCount)
    else if v > 0xffff then Fail(r1, V6ComponentOutOfRange)
    else r1.(out := r1.out.(components := r1.out.components[r1.components := v % 0x1_0000]),
             components := r1.components + 1, tokenPosition := 0, tokenLen := 0)
  }

  /** The 16-bit field after an octet is or-ed in: the high byte when high, else the low. */
  function OrOctet(field: u16, octet: int, high: bool): u16 {
    BitOr(field, octet % 0x1_0000 * (if high then 0x100 else 1)) % 0x1_0000
  }

  function ParseV4Component(r: Reader): (s: Reader)
    ensures Follows(r, s)
  {
    var (r1, octet) := ReadToken(r, 10);
    if r1.v4Octets >= 4 then Fail(r1, V4BadComponentCount)
    else if octet > 0xff then Fail(r1, V4ComponentOutOfRange)
    else if r1.v4Embedding > 6 then Fail(r1, Ipv4RequiredBits)
    else
      var slot := r1.v4Embedding + r1.v4Octets / 2;
      var field := OrOctet(r1.out.components[slot], octet, r1.v4Octets % 2 == 0);
      r1.(out := r1.out.(components := r1.out.components[slot := field]),
          v4Octets := r1.v4Octets + 1, tokenPosition := 0, tokenLen := 0)
  }

  function ParseComponent(r: Reader): (s: Reader)
    ensures Follows(r, s)
  {
    if r.embedding then ParseV4Component(r) else ParseV6Component(r)
  }

  function ParseCidr(r: Reader): (s: Reader)
    ensures Follows(r, s) && KeepsComponents(r, s)
  {
    var (r1, mask) := ReadToken(r, 10);
    if !(-1 < mask < 129) then Fail(r1, InvalidCidrMask)
    else r1.(out := r1.out.(mask := mask, flags := r1.out.flags.(mask := true)))
  }

  function ParsePort(r: Reader): (s: Reader)
    ensures Follows(r, s) && KeepsComponents(r, s)
  {
    var (r1, port) := ReadToken(r, 10);
    if !(-1 < port <= 0xffff) then Fail(r1, InvalidPort)
    else r1.(out := r1.out.(port := port, flags := r1.out.flags.(port := true)))
  }

  // ---- Transitions ----

  function StepNone(r: Reader, ec: EventClass): (s: Reader)
    ensures Follows(r, s) && KeepsComponents(r, s)
  {
    match ec
    case EcDigit | EcHexDigit => BeginToken(Goto(r, StAddrComponent), 0).(tokenLen := 1)
    case EcOpenBracket => if r.brackets == 1 then r else Fail(r, InvalidBrackets)
    case EcCloseBracket => Goto(r, StPostAddr)
    case EcV6Separator => Goto(r, StV6Separator)
    case EcCidrMask => BeginToken(Goto(r, StCidr), 1)
    case EcWhitespace => r
    case EcV4Separator | EcIface => Fail(r, InvalidInput)
  }

  /** The first dot of an address: everything stored so far precedes the embedded octets. */
  function BeginEmbedding(r: Reader): (s: Reader)
    ensures Follows(r, s)
  {
    var r1 := r.(v4Embedding := r.components, embedding := true);
    if r1.components >= 7 then Fail(r1, Ipv4RequiredBits)
    else r1.(compat := r1.compat || r1.components == 0, components := r1.components + 2)
  }

  function StepAddrComponent(r: Reader, ec: EventClass): (s: Reader)
    ensures Follows(r, s)
  {
    match ec
    case EcDigit | EcHexDigit => r.(tokenLen := r.tokenLen + 1)
    case EcCloseBracket => Goto(ParseComponent(r), StPostAddr)
    case EcWhitespace => Goto(ParseComponent(r), StNone)
    case EcV6Separator =>
      if r.compat then BeginToken(Goto(ParseComponent(r), StPort), 1)
      else if r.embedding then Fail(r, Ipv4IncorrectPosition)
      else Goto(ParseComponent(r), StV6Separator)
    case EcV4Separator =>
      if r.embedding then Goto(ParseComponent(r), StNone)
      else if r.components >= 7 then BeginEmbedding(r)
      else Goto(ParseComponent(BeginEmbedding(r)), StNone)
    case EcIface => Goto(ParseComponent(r), StIface)
    case EcCidrMask => BeginToken(Goto(ParseComponent(r), StCidr), 1)
    case EcOpenBracket => Fail(r, InvalidInput)
  }

  function StepV6Separator(r: Reader, ec: EventClass): (s: Reader)
    ensures Follows(r, s) && KeepsComponents(r, s)
  {
    match ec
    case EcV6Separator =>
      if r.hasZerorun then Fail(r, InvalidAbbrev)
      else r.(zerorun := r.components, hasZerorun := true)
    case EcWhitespace => Goto(r, StNone)
    case EcCloseBracket => Goto(r, StPostAddr)
    case EcOpenBracket => Fail(r, InvalidBrackets)
    case EcDigit | EcHexDigit => BeginToken(Goto(r, StAddrComponent), 0).(tokenLen := 1)
    case EcIface => Goto(r, StIface)
    case EcCidrMask => BeginToken(Goto(BeginToken(r, 0), StCidr), 1)
    case EcV4Separator => Fail(r, InvalidInput)
  }

  function StepIface(r: Reader, ec: EventClass): (s: Reader)
    ensures Follows(r, s) && KeepsComponents(r, s)
  {
    match ec
    case EcWhitespace => Goto(r, StNone)
    case EcCloseBracket => Goto(r, StPostAddr)
    case _ => r
  }

  function StepCidr(r: Reader, ec: EventClass): (s: Reader)
    ensures Follows(r, s) && KeepsComponents(r, s)
  {
    match ec
    case EcDigit => r.(tokenLen := r.tokenLen + 1)
    case EcCloseBracket => Goto(ParseCidr(r), StPostAddr)
    case EcWhitespace => Goto(ParseCidr(r), StNone)
    case EcIface => Goto(ParseCidr(r), StIface)
    case _ => Fail(r, InvalidInput)
  }

  function StepPostAddr(r: Reader, ec: EventClass): (s: Reader)
    ensures Follows(r, s) && KeepsComponents(r, s)
  {
    match ec
    case EcWhitespace => r
    case EcV6Separator => BeginToken(Goto(r, StPort), 1)
    case _ => Fail(r, InvalidInput)
  }

  function StepPort(r: Reader, ec: EventClass): (s: Reader)
    ensures Follows(r, s) && KeepsComponents(r, s)
  {
    match ec
    case EcDigit => r.(tokenLen := r.tokenLen + 1)
    case EcWhitespace => Goto(ParsePort(r), StNone)
    case _ => Fail(r, InvalidInput)
  }

  /** ipv6_state_transition. */
  function Step(r: Reader, ec: EventClass): (s: Reader)
    ensures Follows(r, s)
  {
    match r.current
    case StError | StZeroRun => r
    case StNone => StepNone(r, ec)
    case StAddrComponent => StepAddrComponent(r, ec)
    case StV6Separator => StepV6Separator(r, ec)
    case StIface => StepIface(r, ec)
    case StCidr => StepCidr(r, ec)
    case StPostAddr => StepPostAddr(r, ec)
    case StPort => StepPort(r, ec)
  }

  // ---- The loop over the input and what follows it ----

  function Classify(c: char): Option<EventClass> {
    if IsDigit(c) then Some(EcDigit)
    else if IsHexLetter(c) then Some(EcHexDigit)
    else match c
      case ':' => Some(EcV6Separator)
      case '.' => Some(EcV4Separator)
      case '/' => Some(EcCidrMask)
      case '%' => Some(EcIface)
      case '[' => Some(EcOpenBracket)
      case ']' => Some(EcCloseBracket)
      case ' ' | '\t' | '\n' | '\r' => Some(EcWhitespace)
      case _ => None
  }

  /** What one character does to the reader, before the position moves. */
  function Feed(r: Reader, c: char): (s: Reader)
    ensures Follows(r.(brackets := s.brackets), s)
  {
    match Classify(c)
    case None => Fail(r, InvalidInputChar)
    case Some(ec) => Step(if c == '[' then r.(brackets := r.brackets + 1) else r, ec)
  }

  /** One turn of the loop; a failed reader does not move. */
  function Advance(r: Reader): Reader
    requires r.position < |r.input|
  {
    var r1 := Feed(r, r.input[r.position]);
    if r1.failed then r1 else r1.(position := r1.position + 1)
  }

  /** n turns of the loop, stopping at the first failure. */
  function Run(r: Reader, n: nat): (s: Reader)
    requires r.position + n <= |r.input|
    ensures r.components <= 8 ==> s.components <= 8
    ensures r.out.mask <= 128 ==> s.out.mask <= 128
    decreases n
  {
    if n == 0 || r.failed then r
    else
      var r1 := Advance(r);
      if r1.failed then r1 else Run(r1, n - 1)
  }

  lemma RunUnfolds(r: Reader, n: nat)
    requires 0 < n && r.position + n <= |r.input| && !r.failed
    ensures Advance(r).input == r.input && Advance(r).inputBytes == r.inputBytes
    ensures (!Advance(r).failed ==> Advance(r).position == r.position + 1)
    ensures Run(r, n) == if Advance(r).failed then Advance(r) else Run(Advance(r), n - 1)
  {
  }

  /** The components with the abbreviated zeros put back at index z, n being read in all. */
  function Expand(c: Components, z: nat, n: nat): Components
    requires z <= n <= 8
  {
    c[..z] + ZERO_COMPONENTS[..8 - n] + c[z..n]
  }

  /** The checks of the whole address, once its last token is flushed. The guards on the
      block moves answer false without a diagnostic. */
  function Conclude(r1: Reader): (bool, Reader)
    requires r1.components <= 8
  {
    var r2 := if !r1.embedding then r1
              else if r1.v4Octets != 4 then Fail(r1, V4BadComponentCount)
              else r1.(out := r1.out.(flags := r1.out.flags.(mask := true)));
    if r2.failed then (false, r2)
    else if r2.compat then (true, r2.(out := r2.out.(flags := r2.out.flags.(compat := true))))
    else if !r2.hasZerorun then
      if r2.components < 8 then (false, Fail(r2, V6BadComponentCount)) else (true, r2)
    else if !(0 <= r2.components - r2.zerorun <= 8) then (false, r2)
    else (true, r2.(out := r2.out.(components := Expand(r2.out.components, r2.zerorun, r2.components))))
  }

  /** The end of the input is taken as whitespace to flush the last token. */
  function Finish(r: Reader): (bool, Reader)
    requires r.components <= 8
  {
    Conclude(Step(r, EcWhitespace))
  }

  // ---- The entry point ----

  /** How many characters the loop looks at: up to the terminator, and no more than bytes. */
  function VisibleLength(input: string, bytes: nat): (n: nat)
    ensures n <= |input| && n <= bytes
    ensures forall i :: 0 <= i < n ==> input[i] != '\0'
    ensures n < |input| && n < bytes ==> input[n] == '\0'
  {
    if input == [] || bytes == 0 || input[0] == '\0' then 0
    else 1 + VisibleLength(input[1..], bytes - 1)
  }

  /** out is None when the caller's address was left as it was. */
  datatype Result = Result(ok: bool, out: Option<Address>, diags: seq<Diag>)

  /** ipv6_from_str_diag on a C string (None for a null pointer). */
  function FromStr(input: Option<string>, inputBytes: nat): Result {
    if input.None? || input.value == [] || input.value[0] == '\0' then
      Result(false, None, [Diag(InvalidInput, 0)])
    else if inputBytes > IPV6_STRING_SIZE then
      Result(false, None, [Diag(StringSizeExceeded, 0)])
    else
      var r := Run(Start(input.value, inputBytes), VisibleLength(input.value, inputBytes));
      if r.failed then Result(false, Some(r.out), r.diags)
      else
        var (ok, r1) := Finish(r);
        Result(ok, Some(r1.out), r1.diags)
  }
}
