/** contrib/ipv6-parse/ipv6.c as it runs: the reader state and the caller's address are
    updated in place, each C function doing to them what its function in Ipv6Reader says. */
module Ipv6Parser {
  import opened Wrappers
  import opened Numerals
  import opened Ipv6Address
  import opened Ipv6Reader

  /** ipv6_address_full_t. */
  class AddressFull {
    const components: array<u16>
    var port: u16
    var mask: u32
    var flags: Flags

    constructor ()
      ensures Valid() && fresh(components) && Value() == ZERO_ADDRESS
    {
      components := new u16[NUM_COMPONENTS](_ => 0);
      port, mask, flags := 0, 0, NO_FLAGS;
    }

    ghost predicate Valid() reads this { components.Length == NUM_COMPONENTS }

    ghost function Value(): Address
      requires Valid()
      reads this, components
    {
      Address(components[..], port, mask, flags)
    }

    /** memset(out, 0, sizeof). */
    method Zero()
      requires Valid()
      modifies this, components
      ensures Valid() && Value() == ZERO_ADDRESS
    {
      port, mask, flags := 0, 0, NO_FLAGS;
      forall i | 0 <= i < components.Length { components[i] := 0; }
    }
  }

  /** ipv6_reader_state_t. */
  class ReaderState {
    const input: string
    const inputBytes: nat
    const out: AddressFull
    var current: State
    var position: nat
    var components: nat
    var tokenPosition: nat
    var tokenLen: nat
    var brackets: nat
    var zerorun: nat
    var v4Embedding: nat
    var v4Octets: nat
    var hasZerorun: bool
    var failed: bool
    var embedding: bool
    var compat: bool
    var diags: seq<Diag>

    constructor (input: string, inputBytes: nat, out: AddressFull)
      requires out.Valid() && out.Value() == ZERO_ADDRESS
      ensures Valid() && this.out == out && Abs() == Start(input, inputBytes)
    {
      this.input, this.inputBytes, this.out := input, inputBytes, out;
      current, position, components, tokenPosition, tokenLen, brackets := StNone, 0, 0, 0, 0, 0;
      zerorun, v4Embedding, v4Octets := 0, 0, 0;
      hasZerorun, failed, embedding, compat, diags := false, false, false, false, [];
    }

    ghost predicate Valid() reads this, out { out.Valid() }

    ghost function Abs(): Reader
      requires Valid()
      reads this, out, out.components
    {
      Reader(input, inputBytes, current, position, components, tokenPosition, tokenLen, brackets,
             zerorun, v4Embedding, v4Octets, hasZerorun, failed, embedding, compat, out.Value(), diags)
    }

    method Error(event: DiagEvent)
      requires Valid()
      modifies this
      ensures Valid() && Abs() == Fail(old(Abs()), event)
    {
      diags := diags + [Diag(event, position)];
      failed := true;
      current := StError;
    }

    method ChangeState(state: State)
      requires Valid()
      modifies this
      ensures Valid() && Abs() == Goto(old(Abs()), state)
    {
      current := state;
    }

    method Begin(offset: nat)
      requires Valid()
      modifies this
      ensures Valid() && Abs() == BeginToken(old(Abs()), offset)
    {
      tokenPosition := position + offset;
      tokenLen := 0;
    }

    /** The digits of a token one by one, until one is bad. */
    static method Digits(input: string, cp0: nat, ep: nat, base: Radix, ghost token: string) returns (good: bool, accumulate: int)
      requires cp0 <= ep && token == input[Min(cp0, |input|)..Min(ep, |input|)]
      ensures good <==> InRadix(token, base)
      ensures good ==> accumulate == Accumulate(token, base)
    {
      var cp := cp0;
      accumulate := 0;
      while cp < |input| && cp < ep
        invariant cp0 <= cp <= ep && cp - cp0 <= |token| && (cp == cp0 || cp <= |input|)
        invariant InRadix(token[..cp - cp0], base) && accumulate == Accumulate(token[..cp - cp0], base)
      {
        ghost var k := cp - cp0;
        assert token[k] == input[cp];
        if !(if base == 10 then IsDigit(input[cp]) else IsHex(input[cp])) {
          return false, 0;
        }
        assert token[..k + 1][..k] == token[..k];
        accumulate := Wrap32(Scale(accumulate, base) + DigitValue(input[cp]));
        cp := cp + 1;
      }
      assert token[..|token|] == token;
      return true, accumulate;
    }

    method ReadNumber(base: Radix) returns (accumulate: int)
      requires Valid()
      modifies this
      ensures Valid() && (Abs(), accumulate) == ReadToken(old(Abs()), base)
    {
      if tokenPosition + tokenLen > inputBytes {
        Error(if base == 10 then InvalidDecimalToken else InvalidHexToken);
        return 0;
      }
      hide InRadix, Accumulate;
      var good;
      good, accumulate := Digits(input, tokenPosition, tokenPosition + tokenLen, base, Token(Abs()));
      if !good {
        Error(InvalidInput);
        return 0;
      }
    }

    method ParseV6()
      requires Valid()
      modifies this, out, out.components
      ensures Valid() && Abs() == ParseV6Component(old(Abs()))
    {
      var component := ReadNumber(16);
      if components >= 8 {
        Error(V6BadComponentCount);
        return;
      }
      if component > 0xffff {
        Error(V6ComponentOutOfRange);
        return;
      }
      out.components[components] := component % 0x1_0000;
      components := components + 1;
      tokenPosition, tokenLen := 0, 0;
    }

    method ParseV4()
      requires Valid()
      modifies this, out, out.components
      ensures Valid() && Abs() == ParseV4Component(old(Abs()))
    {
      var octet := ReadNumber(10);
      if v4Octets >= 4 {
        Error(V4BadComponentCount);
        return;
      }
      if octet > 0xff {
        Error(V4ComponentOutOfRange);
        return;
      }
      if v4Embedding > 6 {
        Error(Ipv4RequiredBits);
        return;
      }
      var slot := v4Embedding + v4Octets / 2;
      out.components[slot] := OrOctet(out.components[slot], octet, v4Octets % 2 == 0);
      v4Octets := v4Octets + 1;
      tokenPosition, tokenLen := 0, 0;
    }

    method ParseX()
      requires Valid()
      modifies this, out, out.components
      ensures Valid() && Abs() == ParseComponent(old(Abs()))
    {
      if embedding {
        ParseV4();
      } else {
        ParseV6();
      }
    }

    method ParseMask()
      requires Valid()
      modifies this, out
      ensures Valid() && Abs() == ParseCidr(old(Abs()))
    {
      var mask := ReadNumber(10);
      if !(-1 < mask < 129) {
        Error(InvalidCidrMask);
        return;
      }
      out.mask := mask;
      out.flags := out.flags.(mask := true);
    }

    method ParsePortNumber()
      requires Valid()
      modifies this, out
      ensures Valid() && Abs() == ParsePort(old(Abs()))
    {
      var port := ReadNumber(10);
      if !(-1 < port <= 0xffff) {
        Error(InvalidPort);
        return;
      }
      out.port := port;
      out.flags := out.flags.(port := true);
    }

    method TransitionNone(ec: EventClass)
      requires Valid()
      modifies this
      ensures Valid() && Abs() == StepNone(old(Abs()), ec)
    {
      match ec
      case EcDigit | EcHexDigit =>
        ChangeState(StAddrComponent);
        Begin(0);
        tokenLen := tokenLen + 1;
      case EcOpenBracket => if brackets != 1 { Error(InvalidBrackets); }
      case EcCloseBracket => ChangeState(StPostAddr);
      case EcV6Separator => ChangeState(StV6Separator);
      case EcCidrMask =>
        ChangeState(StCidr);
        Begin(1);
      case EcWhitespace =>
      case EcV4Separator | EcIface => Error(InvalidInput);
    }

    /** Marks the embedding point and reserves two components, if there is room for them. */
    method MarkEmbedding() returns (room: bool)
      requires Valid()
      modifies this
      ensures Valid() && Abs() == BeginEmbedding(old(Abs()))
      ensures room <==> old(components) < 7
    {
      v4Embedding := components;
      embedding := true;
      if components >= 7 {
        Error(Ipv4RequiredBits);
        return false;
      }
      if components == 0 { compat := true; }
      components := components + 2;
      return true;
    }

    method TransitionAddrComponent(ec: EventClass)
      requires Valid()
      modifies this, out, out.components
      ensures Valid() && Abs() == StepAddrComponent(old(Abs()), ec)
    {
      match ec
      case EcDigit | EcHexDigit => tokenLen := tokenLen + 1;
      case EcCloseBracket =>
        ParseX();
        ChangeState(StPostAddr);
      case EcWhitespace =>
        ParseX();
        ChangeState(StNone);
      case EcV6Separator =>
        if compat {
          ParseX();
          ChangeState(StPort);
          Begin(1);
          return;
        }
        if embedding {
          Error(Ipv4IncorrectPosition);
          return;
        }
        ParseX();
        ChangeState(StV6Separator);
      case EcV4Separator =>
        if !embedding {
          var room := MarkEmbedding();
          if !room { return; }
        }
        ParseX();
        ChangeState(StNone);
      case EcIface =>
        ParseX();
        ChangeState(StIface);
      case EcCidrMask =>
        ParseX();
        ChangeState(StCidr);
        Begin(1);
      case EcOpenBracket => Error(InvalidInput);
    }

    method TransitionV6Separator(ec: EventClass)
      requires Valid()
      modifies this
      ensures Valid() && Abs() == StepV6Separator(old(Abs()), ec)
    {
      match ec
      case EcV6Separator =>
        if hasZerorun {
          Error(InvalidAbbrev);
          return;
        }
        zerorun := components;
        hasZerorun := true;
      case EcWhitespace => ChangeState(StNone);
      case EcCloseBracket => ChangeState(StPostAddr);
      case EcOpenBracket => Error(InvalidBrackets);
      case EcDigit | EcHexDigit =>
        ChangeState(StAddrComponent);
        Begin(0);
        tokenLen := tokenLen + 1;
      case EcIface => ChangeState(StIface);
      case EcCidrMask =>
        Begin(0);
        ChangeState(StCidr);
        Begin(1);
      case EcV4Separator => Error(InvalidInput);
    }

    method TransitionIface(ec: EventClass)
      requires Valid()
      modifies this
      ensures Valid() && Abs() == StepIface(old(Abs()), ec)
    {
      match ec
      case EcWhitespace => ChangeState(StNone);
      case EcCloseBracket => ChangeState(StPostAddr);
      case _ =>
    }

    method TransitionCidr(ec: EventClass)
      requires Valid()
      modifies this, out
      ensures Valid() && Abs() == StepCidr(old(Abs()), ec)
    {
      match ec
      case EcDigit => tokenLen := tokenLen + 1;
      case EcCloseBracket =>
        ParseMask();
        ChangeState(StPostAddr);
      case EcWhitespace =>
        ParseMask();
        ChangeState(StNone);
      case EcIface =>
        ParseMask();
        ChangeState(StIface);
      case _ => Error(InvalidInput);
    }

    method TransitionPostAddr(ec: EventClass)
      requires Valid()
      modifies this
      ensures Valid() && Abs() == StepPostAddr(old(Abs()), ec)
    {
      match ec
      case EcWhitespace =>
      case EcV6Separator =>
        ChangeState(StPort);
        Begin(1);
      case _ => Error(InvalidInput);
    }

    method TransitionPort(ec: EventClass)
      requires Valid()
      modifies this, out
      ensures Valid() && Abs() == StepPort(old(Abs()), ec)
    {
      match ec
      case EcDigit => tokenLen := tokenLen + 1;
      case EcWhitespace =>
        ParsePortNumber();
        ChangeState(StNone);
      case _ => Error(InvalidInput);
    }

    /** ipv6_state_transition. */
    method Transition(ec: EventClass)
      requires Valid()
      modifies this, out, out.components
      ensures Valid() && Abs() == Step(old(Abs()), ec)
    {
      match current
      case StError | StZeroRun =>
      case StNone => TransitionNone(ec);
      case StAddrComponent => TransitionAddrComponent(ec);
      case StV6Separator => TransitionV6Separator(ec);
      case StIface => TransitionIface(ec);
      case StCidr => TransitionCidr(ec);
      case StPostAddr => TransitionPostAddr(ec);
      case StPort => TransitionPort(ec);
    }

    /** One character of the input. */
    method Consume(c: char)
      requires Valid()
      modifies this, out, out.components
      ensures Valid() && Abs() == Feed(old(Abs()), c)
    {
      match Classify(c)
      case None => Error(InvalidInputChar);
      case Some(ec) =>
        if c == '[' { brackets := brackets + 1; }
        Transition(ec);
    }

    /** One turn of the loop over the input; a failure leaves the position where it is. */
    method Turn()
      requires Valid() && position < |input|
      modifies this, out, out.components
      ensures Valid() && Abs() == Advance(old(Abs()))
    {
      Consume(input[position]);
      if !failed { position := position + 1; }
    }

    /** The loop over the input, left at the first failure. */
    method ConsumeInput()
      requires Valid() && position == 0 && !failed
      modifies this, out, out.components
      ensures Valid() && Abs() == Run(old(Abs()), VisibleLength(input, inputBytes))
    {
      hide Ipv6Reader.Advance;
      ghost var n := VisibleLength(input, inputBytes);
      while position < |input| && input[position] != '\0' && position < inputBytes
        invariant Valid() && !failed && position <= n
        invariant Run(old(Abs()), n) == Run(Abs(), n - position)
        decreases |input| - position
      {
        RunUnfolds(Abs(), n - position);
        Turn();
        if failed { return; }
      }
    }

    /** The block moves that put the abbreviated zeros back, through a zeroed temporary. */
    method ExpandZerorun()
      requires Valid() && zerorun <= components <= NUM_COMPONENTS
      modifies out.components
      ensures out.components[..] == Expand(old(out.components[..]), zerorun, components)
    {
      var dst := new u16[NUM_COMPONENTS](_ => 0);
      var moveCount := components - zerorun;
      var target := NUM_COMPONENTS - moveCount;
      ghost var src := out.components[..];
      forall i | 0 <= i < moveCount { dst[target + i] := out.components[zerorun + i]; }
      forall i | 0 <= i < zerorun { dst[i] := out.components[i]; }
      assert dst[..] == Expand(src, zerorun, components);
      forall i | 0 <= i < NUM_COMPONENTS { out.components[i] := dst[i]; }
    }

    /** Everything after the loop over the input. */
    method Complete() returns (ok: bool)
      requires Valid() && components <= NUM_COMPONENTS
      modifies this, out, out.components
      ensures Valid() && (ok, Abs()) == Finish(old(Abs()))
    {
      Transition(EcWhitespace);
      if embedding {
        if v4Octets != 4 {
          Error(V4BadComponentCount);
        } else {
          out.flags := out.flags.(mask := true);
        }
      }
      if failed { return false; }
      if compat {
        out.flags := out.flags.(compat := true);
        return true;
      }
      if !hasZerorun {
        if components < NUM_COMPONENTS {
          Error(V6BadComponentCount);
          return false;
        }
        return true;
      }
      var moveCount: int := components - zerorun;
      var target := NUM_COMPONENTS - moveCount;
      if moveCount < 0 || moveCount > NUM_COMPONENTS { return false; }
      if target < 0 || target + moveCount > NUM_COMPONENTS { return false; }
      ExpandZerorun();
      return true;
    }
  }

  /** ipv6_from_str_diag: input is None for a null pointer, diags the calls of the callback. */
  method FromStrDiag(input: Option<string>, inputBytes: nat, out: AddressFull?) returns (ok: bool, diags: seq<Diag>)
    requires out != null ==> out.Valid()
    modifies out, if out != null then {out.components} else {}
    ensures out == null ==> !ok && diags == [Diag(InvalidInput, 0)]
    ensures out != null ==> out.Valid()
    ensures out != null ==>
      var result := FromStr(input, inputBytes);
      && ok == result.ok && diags == result.diags
      && out.Value() == (if result.out.Some? then result.out.value else old(out.Value()))
  {
    if input.None? || input.value == [] || input.value[0] == '\0' || out == null {
      return false, [Diag(InvalidInput, 0)];
    }
    if inputBytes > IPV6_STRING_SIZE {
      return false, [Diag(StringSizeExceeded, 0)];
    }
    out.Zero();
    var text := input.value;
    var state := new ReaderState(text, inputBytes, out);
    state.ConsumeInput();
    if state.failed {
      return false, state.diags;
    }
    ok := state.Complete();
    diags := state.diags;
  }
}
