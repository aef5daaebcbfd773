/** The round trip of contrib/ipv6-parse/test.c, through the buffer: print, parse, compare. */
module Ipv6SelfTest {
  import opened Wrappers
  import opened Ipv6Address
  import opened Ipv6Text
  import opened Ipv6Parser
  import opened Ipv6Printer
  import opened Ipv6RoundTrip

  /** strlen. */
  method Length(buffer: array<char>, ghost s: string) returns (n: nat)
    requires Holds(buffer[..], s) && forall i :: 0 <= i < |s| ==> s[i] != '\0'
    ensures n == |s| && buffer[..n] == s
  {
    n := 0;
    assert forall k :: 0 <= k < |s| ==> buffer[..|s|][k] == s[k] && buffer[k] != '\0';
    while buffer[n] != '\0'
      invariant n <= |s|
      decreases |s| - n
    {
      n := n + 1;
    }
  }

  /** The buffer of IPV6_STRING_SIZE characters always holds the text, and the address that is
      read back from it compares equal exactly for the addresses of RoundTrips. */
  method PrintAndParse(a: Address) returns (equal: bool)
    ensures equal <==> RoundTrips(a)
  {
    var tostr := new char[IPV6_STRING_SIZE];
    TextFits(a);
    Ipv6Plain.TextNoNul(a);
    RoundTrip(a);
    RereadAnswers(a);
    assert Print(a, IPV6_STRING_SIZE) == Some(Text(a));
    hide Ipv6Text.Text, Ipv6Text.Print, Ipv6Reader.FromStr, RoundTrips, Same, Compare, Ipv6Printer.Holds;
    var printed := ToStr(Some(a), tostr, IPV6_STRING_SIZE);
    assert tostr[..IPV6_STRING_SIZE] == tostr[..];
    var n := Length(tostr, Text(a));
    var parsed := new AddressFull();
    var ok, diags := FromStrDiag(Some(tostr[..n]), n, parsed);
    if !ok {
      return false;
    }
    var compare := CompareAddresses(a, Address(parsed.components[..], parsed.port, parsed.mask, parsed.flags));
    return compare == 0;
  }
}
