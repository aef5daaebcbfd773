# Verified models of the StarCraft II client library

The StarCraft II client library lets bots and replay observers talk to the game. This project
models six parts of it as Dafny programs and proves what they promise.

1. **Addresses** (`ipv6_*.dfy`, `numerals.dfy`; source `contrib/ipv6-parse/ipv6.c`). The parser
   is a nine-state machine that reads IPv6 and IPv4 addresses with zero-run abbreviation,
   embedded dotted quads, masks and ports (text form of section 2.2 of RFC 4291). The printer
   writes the text of an address into a bounded buffer and abbreviates the leftmost longest run
   of zeros (section 4.2 of RFC 5952). `Ipv6Reader` and `Ipv6Text` hold both as functions on
   values, `Ipv6Parser` and `Ipv6Printer` hold the code that updates the reader state, the
   address and the buffer in place. `Ipv6Notation` proves that every text form of section 2.2 is
   accepted. `Ipv6Accepts` says exactly which strings are accepted, as what, and what is reported
   of the others, in terms of the text alone (`Ipv6Language`).
   `Ipv6Canonical` proves sections 4.1 to 4.3 of RFC 5952 of the printed text. The
   promise "address, string, address" is settled for every address there is:
   `Ipv6RoundTrip.RoundTrip` says exactly which ones survive.
2. **Units and events** (`unit_pool.dfy`, `frame_diff.dfy`, `client_events.dfy`; source
   `sc2_unit.cc`, `sc2_client.cc`). A paged allocator that never frees a unit has an index of
   all units and one of the existing ones; the difference between frames decides which callbacks
   are made. `FrameDiff` says how often each event fires at each step of a run, and
   `ClientEvents` proves that of the code on the heap.
3. **Responses across threads** (`connection.dfy`; source `sc2_connection.cc`). The queue that
   socket threads fill and the client empties, first as a class, then at the granularity of
   single steps between which any thread may run.
4. **Requests and responses** (`proto_interface.dfy`; source `sc2_proto_interface.cc`). One
   request at a time, against a game that answers each request once and in order.
5. **The end of a game** (`game_end.dfy`; source `sc2_coordinator.cc`, `sc2_client.cc`). How an
   agent is stepped in each of the three modes, with every outcome of sending and waiting as an
   input, and when `OnGameEnd` is called.
6. **Search and data** (`search.dfy`, `ability_remap.dfy`; source `sc2_search.cc`,
   `sc2_data.cc`, `sc2_client.cc`). Clustering around running centres of mass, the batch of
   placement queries and its slices, and the two directions of the ability remapping.

Paths in the table are relative to the root of the repository. Check everything with
`dafny verify dfyconfig.toml`.

## Where the code and its documentation part

- The header says that the comparison answers 0 for equal addresses, 1 if the first is the
  greater and -1 if it is the lesser. The code answers the difference of the first fields that
  differ, cut to 32 bits, so that even the sign can be wrong: with the masks 0 and 2^31 + 1 the
  lesser address compares greater (`Ipv6Address.LesserComparesGreater`). The sign is right
  exactly when the difference fits an int32_t (`Ipv6Address.SignExactly`), and the answer is the
  documented one exactly when the difference is at most one (`Ipv6Address.DocumentedExactly`).
- The messages speak of numbers out of range, but a number is looked at only after it was cut
  to 32 bits: some components, masks, ports and octets out of range are accepted as another
  number. Which, and for what, is exact in `Ipv6Invariant.ComponentIsStored`, `MaskIsStored`,
  `PortIsStored`, `FirstOctetIsTaken` and `OctetIsTaken`. "100000001::" is accepted as "1::"
  (`Ipv6Misread.HugeComponentIsAccepted`).
- "::" followed by nothing but a dotted quad denotes an IPv6 address by section 2.2 of RFC 4291
  and is read as an IPv4-compatible one; every other text of that section is read as what it
  denotes (`Ipv6Notation.NotationIsReadExactly`; for "::1.2.3.4"
  `Ipv6Misread.LoneQuadIsMisread`).
- The interface says of `OnUnitIdle` that it does not come a second time. For a unit that rests
  in two frames running it does exactly if the unit was given an order between them
  (`FrameDiff.IdleAgainExactly`; `FrameDiff.IdleTwice` is a run of two frames).
- The interface says of `OnUnitEnterVision` that an enemy comes into vision. A unit that goes from
  snapshot to visible is not announced, because it was listed already
  (`FrameDiff.SnapshotNeverAnnounced`; exactly when in `FrameDiff.VisionExactly`).
- The interface speaks of the player's own units at `OnUnitDestroyed`; it fires for units of every
  side (`FrameDiff.EnemyDeathIsAnnounced`; exactly when in `FrameDiff.DestroyedExactly`).
- The header gives the mask flag and the embedding flag as two features; they are one bit. An
  address with a mask is printed with a dotted tail, and an embedded one with its mask, be it
  zero. `Ipv6RoundTrip.MaskedLowAddressIsMisread` is an address that does not survive this.
- A frame without raw data keeps the copy of the units before the last frame, so that the units
  of that frame are announced once more if the game loop moved:
  `FrameDiff.MissingRawDataAnnouncesTwice`; `FrameDiff.AnnouncesEntriesExactly` says when.
- In single-threaded stepping of a multiplayer game `OnGameEnd` is never called, because the
  second poll skips the call; against the computer it is called again by every later step
  (`GameEnds.SingleThreadedEndsExactly`).
- A request that is sent with a pending one ignored makes the answer to the first a mismatch
  exactly when that answer has no errors and is of another kind than the second request:
  `ProtoInterfaces.IgnoringPendingMismatches`. `ProtoInterfaces.SingleExactly` says which
  operations keep one request at a time.
- A distance apart whose square reaches the largest float makes the clustering follow a null
  pointer at the first unit (`Search.ClusterUnits`).

## Model

| member | source | states |
|---|---|---|
| Numerals.AccumulateWraps | contrib/ipv6-parse/ipv6.c:198-261 | The int32 accumulator of the token readers holds the positional value of the token modulo 2^32, for tokens of any length. |
| Numerals.AccumulateExactly | contrib/ipv6-parse/ipv6.c:198-261 | A token is read as the number it denotes exactly below 2^31; otherwise as the number that agrees with it modulo 2^32 and fits an int32_t. |
| Numerals.ShortTokensAreExact | contrib/ipv6-parse/ipv6.c:198-261 | Tokens of at most nine decimal or seven hexadecimal digits are read as their positional value, without overflow. |
| Numerals.NumeralDenotes | contrib/ipv6-parse/ipv6.c:902-909 | The printed numeral of a number denotes that number. |
| Numerals.NumeralReadsBack | contrib/ipv6-parse/ipv6.c:946-957 | A printed 32-bit number is read back exactly below 2^31 and as the negative number 2^32 lower from there on. |
| Numerals.NumeralLength | contrib/ipv6-parse/ipv6.c:34-35 | A number below the k-th power of the base has at most k digits. |
| Numerals.NumeralIsShortest | contrib/ipv6-parse/ipv6.c:902-909 | A printed number has no leading zero, except that zero is one digit, and no upper-case letter. |
| Numerals.CutNumeralDiffers | contrib/ipv6-parse/ipv6.c:833-846 | A numeral that loses its last digits denotes a smaller number, unless it is that of zero. |
| Ipv6Address.CompareZeroIffSame | contrib/ipv6-parse/ipv6.c:968-1005 | The comparison is zero exactly for addresses with equal components and flags, equal ports if the flags name a port, and equal masks if they name a mask; the int32 differences lose no inequality. |
| Ipv6Address.ExactIsOrder | contrib/ipv6-parse/ipv6.h:200 | The uncut difference of the first fields that differ is negative exactly for a lexicographically lesser address, and positive exactly for a greater one. |
| Ipv6Address.SignExactly | contrib/ipv6-parse/ipv6.c:968-1005 | The comparison has the sign of the lexicographic order if and only if the difference fits an int32_t. |
| Ipv6Address.DocumentedExactly | contrib/ipv6-parse/ipv6.c:968-1005 | The comparison is the documented -1, 0 or 1 if and only if the difference is at most one; it lies in that range besides that only for the two greatest differences. |
| Ipv6Address.LesserComparesGreater | contrib/ipv6-parse/ipv6.c:996-1002 | With masks 0 and 2^31 + 1 the lesser address compares greater. |
| Ipv6Address.BitOrIsSum | contrib/ipv6-parse/ipv6.c:311-318 | Or-ing a number below 2^k into a multiple of 2^k adds it. |
| Ipv6Address.BitOrBits | contrib/ipv6-parse/ipv6.c:311-318 | A bit of an or is set exactly if it is set in one of the two numbers. |
| Ipv6Reader.VisibleLength | contrib/ipv6-parse/ipv6.c:655-657 | The loop looks at the characters before the terminator, and at no more than the given number of bytes. |
| Ipv6Invariant.StepKeepsShape | contrib/ipv6-parse/ipv6.c:362-621 | Every transition from a good state fails or keeps: zerorun <= components <= 8; under embedding components == v4_embedding + 2 and one to four octets; no embedding means no octets; slots not yet written are zero. |
| Ipv6Invariant.AdvanceKeepsToken | contrib/ipv6-parse/ipv6.c:373-613 | While a component, mask or port is read, the token ends at the position and holds hexadecimal, respectively decimal, digits only. |
| Ipv6Invariant.AdvanceIsSound | contrib/ipv6-parse/ipv6.c:657-722 | One character leaves the reader failed with a diagnostic, or sound and one position further. |
| Ipv6Invariant.RunIsSound | contrib/ipv6-parse/ipv6.c:624-722 | After any number of characters of any string the reader has failed with a diagnostic, or satisfies the whole invariant and has consumed them all. |
| Ipv6Invariant.FinishIsHonest | contrib/ipv6-parse/ipv6.c:724-783 | From any sound reader the final phase answers true exactly when no diagnostic was raised, so the two guards that answer false silently are never taken. |
| Ipv6Invariant.FailureIsReported | contrib/ipv6-parse/ipv6.c:624-784 | For every input and every length the parser answers true if and only if it raised no diagnostic. |
| Ipv6Invariant.TokenReadsExactly | contrib/ipv6-parse/ipv6.c:198-261 | In a sound reader the bounds and digit checks of a component, mask or port token never fail; short tokens are read as their positional value. |
| Ipv6Invariant.ComponentIsStored | contrib/ipv6-parse/ipv6.c:265-285 | For a sound reader at a component that denotes p: refused exactly when eight were read or p mod 2^32 lies between 2^16 and 2^31; p mod 2^16 is stored in the next slot and no other component changes; that is p exactly when p < 2^16. |
| Ipv6Invariant.MaskIsStored | contrib/ipv6-parse/ipv6.c:332-342 | For a sound reader at a mask that denotes p: refused exactly when p mod 2^32 exceeds 128; p mod 2^32 is stored, which is p exactly when p <= 128. |
| Ipv6Invariant.PortIsStored | contrib/ipv6-parse/ipv6.c:345-355 | For a sound reader at a port that denotes p: refused exactly when p mod 2^32 exceeds 65535; p mod 2^32 is stored, which is p exactly when p <= 65535. |
| Ipv6Invariant.OctetIsTaken | contrib/ipv6-parse/ipv6.c:288-320 | For a sound reader at an octet after the first that denotes p: refused exactly when four were read, a letter is in it, or p mod 2^32 lies between 2^8 and 2^31; its low 16 bits are or-ed into its own slot only, above or below the other octet of the pair; the value read is p exactly when p < 2^8. |
| Ipv6Invariant.FirstOctetIsTaken | contrib/ipv6-parse/ipv6.c:446-470 | For a sound reader at a component that a dot turns into the first octet of a quad, denoting p: refused exactly when a letter is in it or p mod 2^32 lies between 2^8 and 2^31; 256 * (p mod 256) is stored in the slot after the components, and no other changes; the value read is p exactly when p < 2^8. |
| Ipv6Invariant.HugeComponentReadsAsOne | contrib/ipv6-parse/ipv6.c:227-261 | The nine hexadecimal digits of 2^32 + 1 are read as 1. |
| Ipv6Invariant.HighOctet | contrib/ipv6-parse/ipv6.c:311-318 | The first octet of a pair or-ed into an empty field is 256 times the octet modulo 256, with an empty low byte, for any accumulator. |
| Ipv6Invariant.LowOctet | contrib/ipv6-parse/ipv6.c:311-318 | The second octet of a pair or-ed below the first is added to it. |
| Ipv6Invariant.OctetIsAdded | contrib/ipv6-parse/ipv6.c:288-320 | An octet that passes the guard, negative or not, changes its own component only: the first of a pair to 256 times the octet modulo 256, the second by or-ing, which adds it if it is not negative. |
| Ipv6Invariant.EmbeddingFreezesTheRest | contrib/ipv6-parse/ipv6.c:446-470 | Once octets have begun, no transition writes a component outside the reserved pair. |
| Ipv6Parsed.AcceptedComponents | contrib/ipv6-parse/ipv6.c:724-783 | For every accepted string: without "::" exactly eight components were read and are the answer; with it at most eight, and the answer holds at each index those before the run, 8 - n zeros, and those after it; a compatible address is its two components. |
| Ipv6Parsed.AcceptedTokens | contrib/ipv6-parse/ipv6.c:265-285 | For every accepted string: the slots before a quad, or all that were read, are as many as the hexadecimal tokens that the run stored, and slot i holds the number of the i-th token modulo 2^16. |
| Ipv6Parsed.RunSlots | contrib/ipv6-parse/ipv6.c:624-722 | After any number of characters, from any sound reader, the slots before the pair hold the tokens stored so far, in order. |
| Ipv6Parsed.AcceptedOctets | contrib/ipv6-parse/ipv6.c:288-320 | For every accepted string with an embedded address, exactly four octets were stored over the whole run, none above 255, and if none is negative the reserved pair holds 256 * o0 + o1 and 256 * o2 + o3. |
| Ipv6Parsed.RunPacks | contrib/ipv6-parse/ipv6.c:446-470 | After any number of characters, the pair holds the octets stored so far. |
| Ipv6Parsed.RestIsFrozen | contrib/ipv6-parse/ipv6.c:446-470 | Once octets have begun, no component outside the pair changes over the rest of any run. |
| Ipv6Parsed.ConcludesComponents | contrib/ipv6-parse/ipv6.c:724-783 | What the final checks and the expansion make of any reader of good shape, with the port, the mask and the flags. |
| Ipv6Accepts.AcceptsExactly | contrib/ipv6-parse/ipv6.c:624-784 | For every string and byte count: the parser answers true if and only if no character of the visible text is complained of and neither is its end, and then without a diagnostic and with the address, mask, port and flags that the text means. Complaints and meaning are said of the text alone (Ipv6Language): the place of each character, the numbers before it, where the double colon stands. |
| Ipv6Accepts.FirstComplaintIsReported | contrib/ipv6-parse/ipv6.c:640-722 | The diagnostics of a refused text are exactly the complaints about the first character that has any, at its position. |
| Ipv6Accepts.CleanTextIsJudged | contrib/ipv6-parse/ipv6.c:724-783 | The diagnostics of a text without complaint up to its end are exactly those about its end: the last number, the count of octets, the count of components. |
| Ipv6Following.StepMoves | contrib/ipv6-parse/ipv6.c:362-621 | One transition from a reader that agrees with the text before a character, for every state and class: it agrees with the text behind it, or has failed with exactly the complaints about the character. |
| Ipv6Accepts.CallsAreRefused | contrib/ipv6-parse/ipv6.c:638-650 | A null pointer, an empty string and a byte count above IPV6_STRING_SIZE are refused with their diagnostic, and exactly then the address is left alone. |
| Ipv6Accepts.QuadFills | contrib/ipv6-parse/ipv6.c:288-320 | Four octets in range mean two components behind the groups, 256 times the first and the second, 256 times the third and the fourth. |
| Ipv6Refusals.TwoAbbreviationsAreRefused | contrib/ipv6-parse/ipv6.c:492-500 | Groups, "::", groups and a second "::", with anything behind it and any byte count that shows it: refused, and the one diagnostic is IPV6_DIAG_INVALID_ABBREV at the second colon of the second "::". |
| Ipv6Refusals.OneAbbreviationAtMost | contrib/ipv6-parse/ipv6.c:492-500 | No accepted text has two double colons in its addresses, whatever else stands in it. |
| Ipv6Refusals.ThreeColonsAreRefused | contrib/ipv6-parse/test.c:274 | "0:::" is refused at its last colon. |
| Ipv6Refusals.SameComplaints | contrib/ipv6-parse/ipv6.c:657-722 | What is complained of at a character does not depend on the text behind it. |
| Ipv6Parser.ReaderState.Digits | contrib/ipv6-parse/ipv6.c:206-224 | The digit loop tells whether the token is numeric in its base and computes its wrapped value. |
| Ipv6Parser.ReaderState.ReadNumber | contrib/ipv6-parse/ipv6.c:198-261 | In place, the token readers do what ReadToken says. |
| Ipv6Parser.ReaderState.ParseV6 | contrib/ipv6-parse/ipv6.c:265-285 | In place, a component is stored as ParseV6Component says. |
| Ipv6Parser.ReaderState.ParseV4 | contrib/ipv6-parse/ipv6.c:288-320 | In place, an octet is stored as ParseV4Component says. |
| Ipv6Parser.ReaderState.ParseX | contrib/ipv6-parse/ipv6.c:323-329 | In place, the token goes to the reader of octets or of components. |
| Ipv6Parser.ReaderState.ParseMask | contrib/ipv6-parse/ipv6.c:332-342 | In place, a mask is stored as ParseCidr says. |
| Ipv6Parser.ReaderState.ParsePortNumber | contrib/ipv6-parse/ipv6.c:345-355 | In place, a port is stored as ParsePort says. |
| Ipv6Parser.ReaderState.TransitionAddrComponent | contrib/ipv6-parse/ipv6.c:411-487 | In place, the transitions within a component, with the start of an embedded address. |
| Ipv6Parser.ReaderState.TransitionV6Separator | contrib/ipv6-parse/ipv6.c:490-541 | In place, the transitions after a colon, with the zero run. |
| Ipv6Parser.ReaderState.Transition | contrib/ipv6-parse/ipv6.c:362-621 | The transition function updates state, token bounds, counters, flags and address as Step says, for every state and event class. |
| Ipv6Parser.ReaderState.ConsumeInput | contrib/ipv6-parse/ipv6.c:650-722 | The loop over the input, left at the first error, is Run over the visible characters. |
| Ipv6Parser.ReaderState.ExpandZerorun | contrib/ipv6-parse/ipv6.c:759-783 | The two block copies through a zeroed temporary leave the address expanded; they are in range and do not overlap. |
| Ipv6Parser.ReaderState.Complete | contrib/ipv6-parse/ipv6.c:724-783 | The final checks and the expansion in place are Finish. |
| Ipv6Parser.FromStrDiag | contrib/ipv6-parse/ipv6.c:624-784 | ipv6_from_str_diag on the heap answers, reports and writes what FromStr says, leaves the caller's address alone when it refuses the call, and takes null for the input and the address. |
| Ipv6Text.LongestIsLeftmostLongest | contrib/ipv6-parse/ipv6.c:858-879 | The run to abbreviate is a run of zeros of maximal length and the leftmost of those, for all components. |
| Ipv6Text.LeftmostLongestIsUnique | contrib/ipv6-parse/ipv6.c:858-879 | There is only one leftmost longest run. |
| Ipv6Text.EmitLength | contrib/ipv6-parse/ipv6.c:887-944 | The printed components take at most 45 characters. |
| Ipv6Text.TextFits | contrib/ipv6-parse/ipv6.c:34-35 | Every text has at most 64 characters, and any buffer of the published size gets it whole. |
| Ipv6Canonical.EmitDoubleColons | contrib/ipv6-parse/ipv6.c:887-944 | From every component on, the text holds the double colons that the abbreviation puts there and no other. |
| Ipv6Canonical.OneAbbreviation | contrib/ipv6-parse/ipv6.c:887-944 | The printed components hold exactly one "::" when a run of two or more zeros is abbreviated and none otherwise; there is such a run iff two neighbouring components are zero. |
| Ipv6Canonical.TidyEmit | contrib/ipv6-parse/ipv6.c:887-944 | From every component on, the printed components hold no number with a leading zero and no upper-case letter. |
| Ipv6Canonical.TextIsTidy | contrib/ipv6-parse/ipv6.c:811-965 | No printed text, whole or cut by a small buffer, with its mask and port, holds a number with a leading zero or an upper-case letter (sections 4.1 and 4.3 of RFC 5952). |
| Ipv6Canonical.PrintExactly | contrib/ipv6-parse/ipv6.c:811-965 | For every address and size from 4 on: the buffer gets the text, cut to size - 1 characters, unless the components and their bracket leave less than two characters of room (three if they end with a colon and are not those of the address of zeros); then the answer is null. A compatible address is never refused. |
| Ipv6Canonical.EmitEnds | contrib/ipv6-parse/ipv6.c:887-944 | The printed components end with a colon exactly when the abbreviation reaches the last component. |
| Ipv6Printer.FindLongestSpan | contrib/ipv6-parse/ipv6.c:858-879 | The span scan over the array of counts finds the leftmost longest run. |
| Ipv6Printer.EmitComponent | contrib/ipv6-parse/ipv6.c:887-944 | One turn of the emit loop appends its piece of the text, or finds that it does not fit. |
| Ipv6Printer.EmitComponents | contrib/ipv6-parse/ipv6.c:887-944 | The emit loop writes the text of all components through the write pointer, or answers that it was cut off. |
| Ipv6Printer.PrintCompat | contrib/ipv6-parse/ipv6.c:831-856 | The shortcut for compatible addresses writes the text, cut by the token buffer and by the size, and terminates it. |
| Ipv6Printer.PrintFull | contrib/ipv6-parse/ipv6.c:858-964 | The long way writes the text, cut by the size after the components, or answers null with an empty string. |
| Ipv6Printer.ToStr | contrib/ipv6-parse/ipv6.c:811-965 | For every size and buffer: nothing outside the first size characters changes; a refused call changes nothing; otherwise the answer is null with an empty string, or a terminated prefix of Text, as Print says. |
| Ipv6Printer.CompareAddresses | contrib/ipv6-parse/ipv6.c:968-1005 | ipv6_compare, field by field, is Compare, and zero exactly for the same address. |
| Ipv6Walk.WalkComponent | contrib/ipv6-parse/ipv6.c:411-487 | Reading any hexadecimal numeral of a component and a colon stores its value in the next slot. |
| Ipv6Walk.WalkAbbreviation | contrib/ipv6-parse/ipv6.c:490-541 | Reading the colons of an abbreviation marks the zero run at the components read so far. |
| Ipv6Walk.WalkOctet | contrib/ipv6-parse/ipv6.c:446-470 | Reading any decimal numeral of an octet and a dot adds it to its pair. |
| Ipv6Walk.WalkOctets | contrib/ipv6-parse/ipv6.c:446-470 | Reading a dotted quad stores its first three octets and leaves the fourth as the token. |
| Ipv6Walk.QuadPends | contrib/ipv6-parse/ipv6.c:288-329 | That token, flushed, fills the pair with the two components that the quad stands for. |
| Ipv6Walk.WalkEmit | contrib/ipv6-parse/ipv6.c:362-621 | Running the state machine over the printed components ends, at any component to start from, in the state that holds them. |
| Ipv6Plain.SpliceExpands | contrib/ipv6-parse/ipv6.c:759-783 | Taking a run of zeros out of an address and expanding what is left gives the address back. |
| Ipv6Plain.WrittenExpands | contrib/ipv6-parse/ipv6.c:759-783 | Expanding the components that the printer writes, at the run it abbreviates, gives the address back. |
| Ipv6Plain.TextNoNul | contrib/ipv6-parse/ipv6.c:811-965 | The text holds no terminator. |
| Ipv6Plain.PlainReadsBack | contrib/ipv6-parse/ipv6.c:624-784 | The text of a non-compatible address is accepted iff no mask beyond 128 bits is shown, and read back as itself, unless six leading zeros before a quad make it compatible. |
| Ipv6Compat.CompatReadsBack | contrib/ipv6-parse/ipv6.c:429-470 | The text of a compatible address is always accepted, as the compatible address with the first two components and what is left of the port. |
| Ipv6Notation.NotationIsAccepted | contrib/ipv6-parse/ipv6.c:624-784 | Every text of the three forms of section 2.2 of RFC 4291 (groups of one to four digits of either case, "::" for one or more zero groups anywhere, a dotted quad at the end) is accepted without a diagnostic, as the address it denotes, with no port and mask. |
| Ipv6Notation.NotationIsReadExactly | contrib/ipv6-parse/ipv6.c:458-460 | The components read are those denoted if and only if the text is not "::" followed by a quad alone, or that quad is 0.0.0.0. |
| Ipv6Misread.LoneQuadIsMisread | contrib/ipv6-parse/ipv6.c:458-460 | "::1.2.3.4" denotes six zeros, 0x102 and 0x304, and is accepted as the compatible address with 0x102 and 0x304 in front. |
| Ipv6Misread.OneComponentIsAccepted | contrib/ipv6-parse/ipv6.c:265-285 | Hexadecimal digits followed by "::" are accepted as the component that the accumulator holds, as soon as that is one. |
| Ipv6Misread.HugeComponentIsAccepted | contrib/ipv6-parse/ipv6.c:265-285 | "100000001::", whose component is 2^32 + 1, is accepted without a diagnostic as the address of "1::". |
| Ipv6Notation.WalkLed | contrib/ipv6-parse/ipv6.c:411-541 | Groups with their colons are read into successive slots, for any group texts. |
| Ipv6Notation.WalkTail | contrib/ipv6-parse/ipv6.c:411-541 | Groups and a quad up to the end of the text are read and flushed in full. |
| Ipv6RoundTrip.PrintedTextIsAccepted | contrib/ipv6-parse/ipv6.h:25 | Printed text is accepted for every address, except exactly those that show a mask of more than 128 bits. |
| Ipv6RoundTrip.RoundTrip | contrib/ipv6-parse/ipv6.h:25 | For every address: the text is accepted and compares equal if and only if the address is one of RoundTrips: known flags; if compatible, with the mask flag set, mask 0, zero components behind the first two and a port that fits the token, if it has one; otherwise, if the mask flag is set, with a mask of at most 128 and not six zeros before a nonzero seventh component. |
| Ipv6RoundTrip.PortFitsExactly | contrib/ipv6-parse/ipv6.c:833-850 | A port of a compatible address is read back exactly when quad, colon and port fit fifteen characters, or the port is the single digit 0 that is cut off. |
| Ipv6RoundTrip.CompatRoundTrip | contrib/ipv6-parse/ipv6.c:831-856 | A compatible address comes back the same exactly when it has mask 0, nothing behind its first two components and a port that fits. |
| Ipv6RoundTrip.PrintingIsIdempotent | contrib/ipv6-parse/ipv6.h:25 | Printing what was read back from a printed address gives the same text. |
| Ipv6RoundTrip.MaskedLowAddressIsMisread | contrib/ipv6-parse/ipv6.c:458-460 | An address with mask flag 96 bits, six zeros and a nonzero seventh component does not come back. |
| Ipv6RoundTrip.ParsedAddress | contrib/ipv6-parse/ipv6.c:624-784 | Every parsed address has only known flags, a mask of at most 128 bits, and if compatible, the mask flag and zeros behind its first two components. |
| Ipv6RoundTrip.ParsedStringRoundTrip | contrib/ipv6-parse/ipv6.h:25 | For every accepted string, printing and parsing again is accepted; it gives the same address iff a compatible one has no mask and a port that fits, and another one is not six zeros before a quad. |
| Ipv6Bytes.AnyByteCount | contrib/ipv6-parse/ipv6.c:624-657 | For every string and every byte count from its length to IPV6_STRING_SIZE, the parser gives the same answer, address and diagnostics. |
| Ipv6Bytes.RoundTripAnyBytes | contrib/ipv6-parse/ipv6.h:25 | The round trip holds for exactly the same addresses with every byte count from the length of the text to IPV6_STRING_SIZE. |
| Ipv6Bytes.NotationAnyBytes | contrib/ipv6-parse/ipv6.c:624-784 | With every such byte count, every text of section 2.2 of RFC 4291 is accepted in the same way. |
| Ipv6SelfTest.PrintAndParse | contrib/ipv6-parse/test.c:219-230 | Through the real buffer of the published size, print, parse and compare answers equal exactly for the addresses of RoundTrips. |
| UnitPools.SlotIsRowMajor | src/sc2api/sc2_unit.cc:42-48 | The k-th allocation gets place k mod ENTRY_SIZE on page k / ENTRY_SIZE, for any page size. |
| UnitPools.SlotsDiffer | src/sc2api/sc2_unit.cc:42-48 | Different allocations get different slots. |
| UnitPools.RunKeepsSlots | src/sc2api/sc2_unit.cc:13-73 | Over any run of creations, deaths and clearings: existing tags are known, a tag keeps its place in the order of allocation, and exactly the created tags are known. |
| UnitPools.SlotsCountTags | src/sc2api/sc2_unit.cc:13-30 | From the empty pool, as many slots are handed out as different tags were created. |
| UnitPools.ExistsSinceCreated | src/sc2api/sc2_unit.cc:13-73 | After any run of creations, deaths and clearings a tag exists exactly if it was created, or existed to begin with, and was neither reported dead nor cleared since. |
| UnitPools.UnitPool.LookupsFindSlots | src/sc2api/sc2_unit.cc:32-40 | In a valid pool, GetUnit finds the unit in the k-th slot for the k-th tag to appear, and null exactly for tags that never appeared; GetExistingUnit finds the same unit for tags that exist now, and null for others. |
| UnitPools.UnitPool.GetExistingUnit | src/sc2api/sc2_unit.cc:37-40 | The unit that the index of existing units holds for the tag, null exactly for tags that do not exist now; in a valid pool it is the same unit as the other index holds. |
| UnitPools.UnitPool.IncrementIndex | src/sc2api/sc2_unit.cc:42-48 | The index moves to the next slot, to a new page at the end of one. |
| UnitPools.UnitPool.CreateUnit | src/sc2api/sc2_unit.cc:13-30 | A known tag gets its old unit, even after death; a new tag gets the next slot, in range and owned by nobody else; all pages stay, and both indexes agree. |
| UnitPools.UnitPool.AddPage | src/sc2api/sc2_unit.cc:20-22 | A page is added exactly when the index points behind the last one; the units there were stay where they are. |
| UnitPools.UnitPool.TakeSlot | src/sc2api/sc2_unit.cc:24-29 | The unit at the index is handed to a new tag and entered in both indexes, and the index moves on. |
| UnitPools.UnitPool.TagsOwnTheirUnits | src/sc2api/sc2_unit.cc:13-30 | Distinct tags own distinct units. |
| UnitPools.UnitPool.MarkDead | src/sc2api/sc2_unit.cc:50-58 | The unit keeps its slot and is marked; it leaves the index of existing units only. |
| UnitPools.UnitPool.ClearExisting | src/sc2api/sc2_unit.cc:67-69 | Nothing exists any more; everything stays known. |
| FrameDiff.IngestedTags | src/sc2api/sc2_proto_to_pods.cc:159-270 | After the units of a frame are taken in, the known tags are the old ones and those of the frame. |
| FrameDiff.TurnLeavesSurvivors | src/sc2api/sc2_client.cc:588-595 | After a complete frame the existing units are those it lists and does not report dead, whatever was there before. |
| FrameDiff.CreatedExactlyOnEntry | src/sc2api/sc2_client.cc:2039-2053 | In any run of complete frames OnUnitCreated fires at step k exactly once for each own tag that exists after it and not after step k-1, and for no other. |
| FrameDiff.GoneBetweenCreations | src/sc2api/sc2_client.cc:2039-2053 | Between two created events for one tag lies a step whose frame does not list the tag, or reports it dead. |
| FrameDiff.EveryUnitEntered | src/sc2api/sc2_client.cc:2039-2053 | From an empty start, every existing unit entered at some step and has existed at every step since; an own one was announced at that step. |
| FrameDiff.UpgradesExactlyWhenNew | src/sc2api/sc2_client.cc:2129-2140 | An upgrade listed at most once is announced at step k exactly when the frame lists it and the frame before does not. |
| FrameDiff.IngestedLatest | src/sc2api/sc2_proto_to_pods.cc:159-270 | Of several entries for a tag the last one is kept. |
| FrameDiff.IdleByFrames | src/sc2api/sc2_client.cc:2055-2108 | In any run of complete frames: OnUnitIdle fires at step k once for each own unit that rests in frame k and that frame k-1 does not show or shows busy, or that was given an order; completion once for each own unit that is finished in frame k and shown unfinished in frame k-1; for no others. |
| FrameDiff.IdleAgainExactly | src/sc2api/sc2_client.cc:2081-2089 | For a unit that rests in two frames running OnUnitIdle comes again if and only if it was given an order between them. |
| FrameDiff.IdleTwice | src/sc2api/sc2_client.cc:2081-2089 | A run of one own unit that rests in two frames running and is given an order between them: OnUnitIdle fires at both steps. |
| FrameDiff.VisionByFrames | src/sc2api/sc2_client.cc:2039-2047 | In any run of complete frames, after the first step OnUnitEnterVision fires at step k once for each enemy that frame k lists alive and shows visible, and that frame k-1 does not list alive in whatever way; for no others. |
| FrameDiff.VisionExactly | src/sc2api/sc2_client.cc:2039-2047 | The event fires as the interface says, for an enemy that is in view now and was not in the frame before, unless and only unless that frame listed the unit out of view: as a snapshot, hidden, or on another side. |
| FrameDiff.SnapshotNeverAnnounced | src/sc2api/sc2_client.cc:2039-2047 | A run of one enemy, first a snapshot and then visible, for which OnUnitEnterVision never fires. |
| FrameDiff.DestroyedByFrames | src/sc2api/sc2_client.cc:2018-2036 | In any run of complete frames OnUnitDestroyed fires at step k as often as frame k reports the unit dead, if any frame up to it listed the unit, of whatever side, and not at all otherwise. |
| FrameDiff.DestroyedExactly | src/sc2api/sc2_client.cc:2018-2036 | The event fires for the player's own units only, as the interface says, if and only if the unit reported is not a known unit of another side. |
| FrameDiff.EnemyDeathIsAnnounced | src/sc2api/sc2_client.cc:2018-2036 | A run of one enemy that is seen and dies, which is announced. |
| FrameDiff.KnownIsSeen | src/sc2api/sc2_proto_to_pods.cc:159-270 | In any run of complete frames the tags known are those known at the start and those that some frame listed. |
| FrameDiff.AliveByFrames | src/sc2api/sc2_client.cc:2018-2036 | In any run of complete frames a unit is marked alive exactly if some frame listed it, or it was alive before all, and no frame from then on reported it dead. |
| FrameDiff.AlertsByFrames | src/sc2api/sc2_client.cc:2110-2127 | In any run of complete frames each step fires OnNuclearLaunchDetected once for every index of its frame that holds a nuclear launch alert, OnNydusDetected once for every index with a nydus alert, neither without one, and OnStep exactly once. |
| FrameDiff.StepsExactly | src/sc2api/sc2_client.cc:2142-2163 | In any run of any frames a step fires OnStep once, or nothing at all when the loop counters are equal after it. |
| FrameDiff.LastScoreDecides | src/sc2api/sc2_client.cc:524-530 | In any run of any frames the loop counters are those of the last frame whose score converts and of the one before it. |
| FrameDiff.LastListDecides | src/sc2api/sc2_client.cc:582-595 | In any run of any frames the copy holds what existed before the last frame with raw data, as it was known then. |
| FrameDiff.LastEndDecides | src/sc2api/sc2_client.cc:606-634 | In any run of any frames the upgrades are those of the last frame with raw data, player and camera, and are compared with the ones from before it. |
| FrameDiff.EventsInOrder | src/sc2api/sc2_client.cc:2142-2163 | Deaths come first, then units that enter, then idle and completed units, upgrades, alerts, and OnStep at the very end. |
| FrameDiff.AnnouncesEntriesExactly | src/sc2api/sc2_client.cc:524-595 | For any state and any frame, from what is known before it: creations are announced rightly if and only if, units taken in, the loop moves or every own unit listed existed; units not taken in, the loop stands still (for a bad score: stood still before) or the old copy has every own unit that stays. |
| FrameDiff.MissingRawDataAnnouncesTwice | src/sc2api/sc2_client.cc:582-586 | A run in which a unit is announced at two steps in a row and exists between them. |
| FrameDiff.DestroyedOneMore | src/sc2api/sc2_client.cc:2018-2036 | Burying one more reported unit after the others is burying them all, and a tag reported twice is buried once. |
| FrameDiff.NextGroup | src/sc2api/sc2_client.cc:2142-2163 | Appending the next group of events keeps every count right and the groups in order. |
| ClientEvents.Control.UpdateObservation | src/sc2api/sc2_client.cc:524-635 | On the heap: loop counters, pool, copy of the units and upgrades become what Update says, on every early return too. |
| ClientEvents.Control.RememberUnits | src/sc2api/sc2_client.cc:588-591 | The copy holds the fields of exactly the units that existed, by tag. |
| ClientEvents.Control.TakeIn | src/sc2api/sc2_client.cc:588-595 | The copy is made before the units of the new frame replace the existing ones. |
| ClientEvents.Control.Convert | src/sc2api/sc2_proto_to_pods.cc:159-270 | Every unit of the frame is created or found in the pool and overwritten, a later entry for a tag winning; exactly these exist afterwards. |
| ClientEvents.Control.IssueUnitDestroyedEvents | src/sc2api/sc2_client.cc:2018-2036 | One destroyed event for each time a known tag is reported; the reported units are dead and exist no more. |
| ClientEvents.Control.IssueUnitAddedEvents | src/sc2api/sc2_client.cc:2039-2053 | Visible enemies and own units that are not in the copy, each once, whatever the order of the index. |
| ClientEvents.Control.OwnUnits | src/sc2api/sc2_client.cc:164-176 | The existing units of the client's own alliance, each once. |
| ClientEvents.Control.IssueIdleEvent | src/sc2api/sc2_client.cc:2055-2090 | Idle exactly when the unit is finished and without orders, and it was new, busy, unfinished, or ordered in vain. |
| ClientEvents.Control.IssueBuildingCompletedEvent | src/sc2api/sc2_client.cc:2092-2108 | Completed exactly when the unit is finished now and was in the copy unfinished. |
| ClientEvents.Control.IssueOwnUnitEvents | src/sc2api/sc2_client.cc:2150-2154 | The idle and completed events of all own units. |
| ClientEvents.Control.IssueUpgradeEvents | src/sc2api/sc2_client.cc:2129-2140 | Each listed upgrade that the previous list lacks, as often as it is listed. |
| ClientEvents.Control.IssueAlertEvents | src/sc2api/sc2_client.cc:2110-2127 | One event for each nuclear launch and each nydus alert. |
| ClientEvents.Control.IssueEvents | src/sc2api/sc2_client.cc:2142-2163 | Nothing unless the loop moved; otherwise every event is called back exactly as often as Fires says, deaths first, OnStep last, and the state becomes Issue of the old one. |
| ClientEvents.Control.TakeTurn | src/sc2api/sc2_coordinator.cc:120-138 | An observation taken in and its events issued is one Turn. |
| ClientEvents.Control.Play | src/sc2api/sc2_coordinator.cc:285-330 | Over a whole run on the heap the state is After, and step k calls back every event as often as FiresAt says. |
| Connections.Connection.PushResponse | src/sc2api/sc2_connection.cc:192-197 | The response goes to the end of the queue, and the flag says so. |
| Connections.Connection.PopResponse | src/sc2api/sc2_connection.cc:199-207 | The oldest response is taken, nothing when the queue is empty; the flag still says whether something is left. |
| Connections.Connection.Receive | src/sc2api/sc2_connection.cc:161-190 | The oldest response when there is one, otherwise a timeout that drops the connection. |
| Connections.Connection.PollResponse | src/sc2api/sc2_connection.cc:226-228 | The flag answers whether the queue holds something. |
| Connections.RunKeepsInv | src/sc2api/sc2_connection.cc:161-207 | The invariant of the lock, the flag, the queue and the waiting client holds after every interleaving of any number of producers and the client. |
| Connections.QueueUnderThreads | src/sc2api/sc2_connection.cc:161-207 | In every interleaving: what was taken and what is queued is what was pushed, in that order; with the lock free the flag is true iff the queue is not empty; the test outside the lock and the pop never meet an empty queue; no wake-up is lost. |
| Connections.ReceiverCanMove | src/sc2api/sc2_connection.cc:170-177 | With the lock free and a response there, the client inside Receive is never stuck. |
| Connections.HolderCanMove | src/sc2api/sc2_connection.cc:161-207 | Whoever holds the lock can go on, so the lock is given back. |
| Connections.AloneReturns | src/sc2api/sc2_connection.cc:161-190 | From wherever it is inside Receive, with a response there and no other thread holding the lock, the client left alone returns with exactly one response. |
| Connections.NotifiedReceives | src/sc2api/sc2_connection.cc:170-178 | A client that was notified in its wait takes the oldest response and returns. |
| Connections.LateResponseIsReceived | src/sc2api/sc2_connection.cc:161-197 | A client that waits on an empty queue while a thread pushes is notified, takes that response and returns. |
| Connections.EachReceiveTakesOne | src/sc2api/sc2_connection.cc:161-190 | In every interleaving Receive returns exactly as often as a response was taken, and every call but one under way has returned. |
| Connections.ArrivalIsPushed | src/sc2api/sc2_connection.cc:192-197 | A message that reaches a thread at rest is pushed by it, and the flag set. |
| Connections.WakesForNothing | src/sc2api/sc2_connection.cc:170-177 | A client that wakes for no reason looks at the queue and, with nothing in it, waits on. |
| Connections.PushAlone | src/sc2api/sc2_connection.cc:192-197 | The steps of PushResponse without interruption do what the method of the class does. |
| Connections.ReceiveAlone | src/sc2api/sc2_connection.cc:161-207 | The steps of Receive without interruption do what the method of the class does. |
| ProtoInterfaces.SingleExactly | src/sc2api/sc2_proto_interface.cc:86-157 | From a state with one request at a time, an operation keeps it so if and only if it does not send a request of no kind, nor send while a response is pending and ignored. |
| ProtoInterfaces.NextKeepsMatched | src/sc2api/sc2_proto_interface.cc:123-157 | Every step keeps each response received with its own request. |
| ProtoInterfaces.OneRequestAtATime | src/sc2api/sc2_proto_interface.cc:86-157 | In every run of proper operations, with answers arriving at any time: requests and responses under way are one when a response is pending and none otherwise, the i-th response answers the i-th request, and ResponseMismatch is never reported. |
| ProtoInterfaces.IgnoringPendingMismatches | src/sc2api/sc2_proto_interface.cc:111-147 | From any matched link with a request in flight: sending another with that ignored, and waiting for the answer to the first, reports a mismatch if and only if that answer has no errors and another kind than the second request. |
| ProtoInterfaces.IgnoringAnsweredMismatches | src/sc2api/sc2_proto_interface.cc:111-147 | The same when the answer to the first was on its way to the client already. |
| ProtoInterfaces.RunReports | src/sc2api/sc2_proto_interface.cc:108-147 | In any run, ResponseNotConsumed is reported once for each send that has a connection and meets a pending response that counts, ResponseMismatch once for each wait that takes a response without errors and of another kind, and nothing else. |
| ProtoInterfaces.RunHears | src/sc2api/sc2_proto_interface.cc:123-157 | In any run responses are taken in the order in which they came, the status is that of the last one taken, unknown if it names none, and what is in flight is the end of what was sent. |
| ProtoInterfaces.RunSends | src/sc2api/sc2_proto_interface.cc:86-121 | In any run the connection is there once a send could reconnect, and exactly the sends that have one and are not refused are sent. |
| ProtoInterfaces.ProtoInterface.CountUse | src/sc2api/sc2_proto_interface.cc:86-95 | The counters grow to hold the kind, its counter goes up by one modulo 2^32, and the others stay. |
| ProtoInterfaces.ProtoInterface.SendRequest | src/sc2api/sc2_proto_interface.cc:86-121 | The request is sent iff there is a connection, old or new, and nothing is pending, or pending is ignored. Without a connection nothing changes and nothing is reported; a refusal for a pending response is reported, and may have reconnected. |
| ProtoInterfaces.ProtoInterface.WaitForResponseInternal | src/sc2api/sc2_proto_interface.cc:123-157 | The oldest response is taken, its status remembered, a mismatch reported unless the response has errors, and nothing is pending; on a timeout the status is forgotten and the request stays pending. |
| GameEnds.AgentFollowsLink | src/sc2api/sc2_proto_interface.cc:86-157 | What requests and responses do to an agent is what they do to the client's end of a link. |
| GameEnds.AwaitedSettles | src/sc2api/sc2_client.cc:1800-1878 | Waiting ends with nothing pending, or with the application given up. |
| GameEnds.ExchangesSettle | src/sc2api/sc2_client.cc:1800-1878 | Any number of requests made by callbacks leave nothing pending, or the application given up. |
| GameEnds.StepSettles | src/sc2api/sc2_client.cc:1745-1765 | Stepping and observing leave nothing pending, or the application given up, and end no game. |
| GameEnds.EndsExactly | src/sc2api/sc2_coordinator.cc:285-376 | In multi-threaded and realtime stepping OnGameEnd is called by a turn exactly when it begins in the game with nothing pending and finds itself outside; between turns at most a request to leave is pending. |
| GameEnds.SteppedExactly | src/sc2api/sc2_client.cc:1896-1916 | A turn lets an agent through to be stepped if and only if it is in a game with nothing pending; a finished agent of a game without other players is left as it is. |
| GameEnds.EndsAtMostOnce | src/sc2api/sc2_coordinator.cc:120-138 | In those modes OnGameEnd is called at most once in any run in which nothing after it reports a game, whether or not the leave request can be sent. |
| GameEnds.SmoothTurn | src/sc2api/sc2_coordinator.cc:120-138 | In all three modes, for a turn in which whatever is sent is answered: what the agent is afterwards, from the responses alone. It heeds the last one before it looks; OnGameEnd is called exactly if that is neither in_game nor in_replay (never in single-threaded multiplayer), and then the leave request is pending in multiplayer. |
| GameEnds.RealtimeHeedsObservation | src/sc2api/sc2_coordinator.cc:358-369 | A realtime turn without callbacks calls OnGameEnd exactly if the status of the answered observation is neither in_game nor in_replay; the agent keeps that status. |
| GameEnds.SilentTurn | src/sc2api/sc2_client.cc:1800-1878 | A turn whose first request meets silence: crashed, timed out, zombie or saved by a ping, what stays pending, and OnGameEnd called unless the ping reports a game. |
| GameEnds.LeavingIsPolled | src/sc2api/sc2_client.cc:1723-1743 | With a request to leave pending an agent only takes its answer, once it is there. |
| GameEnds.GivenUpIsLeft | src/sc2api/sc2_coordinator.cc:287-291 | An agent whose application is given up is left as it is, in every mode. |
| GameEnds.NeverAgain | src/sc2api/sc2_client.cc:1723-1743 | An agent outside a game is only polled from then on. |
| GameEnds.SingleThreadedEndsExactly | src/sc2api/sc2_coordinator.cc:313-330 | In single-threaded stepping OnGameEnd is called exactly by the turns of a game without other players that find it over with the application working; never in multiplayer. |
| GameEnds.SingleThreadedMultiplayerNeverEnds | src/sc2api/sc2_coordinator.cc:320-324 | In single-threaded multiplayer no run ever calls OnGameEnd. |
| GameEnds.SingleThreadedSoloEndsAgain | src/sc2api/sc2_coordinator.cc:313-330 | After a single-threaded game without other players each further turn calls OnGameEnd again. |
| GameEnds.Control.WaitForResponse | src/sc2api/sc2_client.cc:1800-1878 | Response, crash, ping and kill leave application state, status and pending request as Awaited says. |
| GameEnds.Control.PollLeaveGame | src/sc2api/sc2_client.cc:1723-1743 | Never true for one player; otherwise true out of the game or while leaving, and a response that is there is taken. |
| GameEnds.Control.WaitStep | src/sc2api/sc2_client.cc:1759-1766 | An observation is asked for only after a step response without errors. |
| GameEnds.Control.CallOnStep | src/sc2api/sc2_coordinator.cc:120-138 | In the game the callbacks run; outside it OnGameEnd is called and leaving requested. |
| GameEnds.Control.StepAgents | src/sc2api/sc2_coordinator.cc:285-330 | The two passes over an agent, in place, are one Turned of their mode. |
| GameEnds.Control.StepAgentsRealtime | src/sc2api/sc2_coordinator.cc:332-376 | The realtime step, in place, is one Turned of its mode. |
| Search.Nearest | src/sc2lib/sc2_search.cc:42-51 | The cluster found has the least distance of all, the first of several, and there is none only if all are beyond the largest float. |
| Search.NearestIsUnique | src/sc2lib/sc2_search.cc:42-51 | No other answer is that. |
| Search.JoinedIsMean | src/sc2lib/sc2_search.cc:59-62 | The incremental centre of mass is the mean of the members, with the new one. |
| Search.JoiningMovesCenter | src/sc2lib/sc2_search.cc:59-62 | The centre moves by exactly the distance to the new unit divided by the new size. |
| Search.ClustersPartition | src/sc2lib/sc2_search.cc:35-65 | After any units no cluster is empty, each centre is the mean of its members, and the members together are the units, as a multiset. |
| Search.EachUnitJoinsTheNearest | src/sc2lib/sc2_search.cc:38-62 | Wherever no null target is followed, each unit founds a cluster iff it is farther than the distance apart from every centre there is; otherwise exactly one cluster, the first of the nearest, takes it in, the others stay, and its centre moves by at most apart / size. |
| Search.ClusterUnits | src/sc2lib/sc2_search.cc:35-65 | The loops over units and clusters compute Clustered, for every distance apart, except that a null target is followed exactly when there are units and the square of the distance reaches the largest float. |
| Search.KeptCoversCells | src/sc2lib/sc2_search.cc:14-30 | The cell of every sampled point of the circle is asked for. |
| Search.KeptDiffer | src/sc2lib/sc2_search.cc:22-28 | Queries are points of the circle, and neighbouring queries lie in different cells. |
| Search.CalculateQueries | src/sc2lib/sc2_search.cc:9-33 | The queries are appended to those there are, and their number is answered. |
| Search.Placement | src/sc2api/sc2_client.cc:826-865 | One result for each query on every branch; true exactly for a success in an answer of the right length. |
| Search.SliceIsOwn | src/sc2lib/sc2_search.cc:83-99 | The counts add up to where each cluster begins, and its slice of all queries is exactly its own queries. |
| Search.AllRadiusesAreAsked | src/sc2lib/sc2_search.cc:81-84 | The queries around a centre are, for one radius after the other, exactly the kept points of its circle. |
| Search.ExpansionIsNearest | src/sc2lib/sc2_search.cc:104-123 | The location of a cluster is a buildable point of one of the circles of all radii, none of those is nearer, and it is the origin when there is none. |
| Search.NearestValid | src/sc2lib/sc2_search.cc:104-123 | The place chosen is the first of the nearest valid places of the slice, and the origin when none is valid. |
| Search.CalculateExpansionLocations | src/sc2lib/sc2_search.cc:68-137 | Unless the clustering fails, one location for each cluster: the nearest valid place of its own slice of queries and results, at the height of its first resource. |
| AbilityRemap.InverseExactly | src/sc2api/sc2_client.cc:219-238 | For any response: j is listed under i iff j remaps to i, and all lists strictly ascend, if and only if every record that remaps carries its own place as id. |
| AbilityRemap.AscendingIsUnique | src/sc2api/sc2_client.cc:229-238 | A strictly ascending list is determined by its elements. |
| AbilityRemap.TargetsInRange | src/sc2api/sc2_client.cc:219-238 | A remapping that the game sent is kept if it points to an ability that is there, and dropped otherwise; the ability has the id sent, or that of its place. |
| AbilityRemap.ListedExactly | src/sc2api/sc2_client.cc:229-238 | For any response an id stands in the list of i exactly if a record with that id was sent with i, not zero, as its remapping. |
| AbilityRemap.InvalidCounts | src/sc2api/sc2_client.cc:229-236 | As many errors are reported as records were sent with a remapping out of range. |
| AbilityRemap.GeneralizedTwiceExactly | src/sc2api/sc2_data.cc:374-391 | Generalizing is idempotent, for all ids, if and only if no ability remaps to one that remaps on. |
| AbilityRemap.GeneralizedByLists | src/sc2api/sc2_data.cc:374-391 | An ability in the list of another is generalized to it, and one in no list stays. |
| AbilityRemap.Observation.LinkRemaps | src/sc2api/sc2_client.cc:229-238 | The second pass in place turns the records into both tables and reports one error for each target out of range. |
| AbilityRemap.Observation.GetAbilityData | src/sc2api/sc2_client.cc:188-241 | The cached tables are kept unless a refresh is forced or there are none; otherwise they are those of the answer, or empty when it fails. |

## Left out

- The rest of the library: image data, effects, scores, chat, actions, debug drawing, process launch, rendering, command lines and settings.
- Interface names in addresses: the payload after `%` is skipped, as the code does; the two fields for it are never stored and have no counterpart.
- Diagnostic messages: only the kind and the position of a diagnostic are modelled, and calls of the callback are the list of them.
- Signed overflow in the C token accumulators, and the shift of a component of 0x8000 and more into bit 31 in the printer, are undefined in C; the model takes two's complement.
- The flag word of the C reader is held as four booleans, and the flag word of an address by its bits.
- The reader field `separator` and the transitions' trace output, which nothing reads.
- The grammar of RFC 4291: the texts of section 2.2 are all accepted, but the parser takes more (brackets need not balance, white space may separate components). What it takes is exact in Ipv6Accepts; no equality with the grammar is claimed.
- The other fields of a unit, and the early return of the unit conversion at an enumerator it does not know; all enumerators here are known.
- The remapping of ability ids in orders while an observation is taken in: only whether orders are empty matters to the events; the request it may cause is one of the lookups of a turn.
- Callbacks that change the unit pool or take in an observation themselves; the events of a step are proved for callbacks that do not.
- The order in which hash maps are walked: the loops take the units in an arbitrary order, so nothing depends on it.
- Memory of the pages is a sequence of sequences of unit objects; ENTRY_SIZE is any positive number.
- Timeouts of Receive between threads: what the client does after it gave the lock back on a timeout depends on the socket library; the interleavings have no timeout.
- Reading a flag or a queue length without the lock is taken as one step; the memory model of C++ is not.
- Reconnecting: a new connection starts with whatever was under way; the sockets and the websocket handshake are not modelled.
- Connections.Connection.Receive: as a method of the class it times out at once on an empty queue, because no other thread runs meanwhile.
- Several agents of one coordinator: they share no state while they are stepped, so one agent is modelled.
- Replay observers: their stepping has no request to leave, and adds only easier cases.
- The error list of the control in the model of game ends, and the protocol errors' texts.
- Search.ClusterUnits: over real numbers; rounding and overflow of floats are not modelled.
- Search.CalculateExpansionLocations: the points of a circle are given, since sine and cosine are not modelled; distances are compared by their squares; the filter of resource types and the debug spheres are left out.
- AbilityRemap.Generalized: in a debug build an id out of range stops the program; the model answers the id, as a release build does.
