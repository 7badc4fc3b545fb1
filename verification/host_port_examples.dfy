/** Worked examples of the joiner and of the splitter on the endpoint shapes it distinguishes. */
module HostPortExamples {
  import opened Wrappers
  import opened Decimal
  import opened HostPort
  import opened HostPortLemmas

  lemma DecimalExamples()
    ensures Dec(80) == "80"
    ensures Dec(443) == "443"
    ensures Dec(-7) == "-7"
  {
  }

  lemma JoinIPv6Example()
    ensures JoinHostPort("::1", 80) == "[::1]:80"
    ensures JoinHostPort("[::1]", 80) == "[::1]:80"
  {
  }

  lemma JoinHostnameExample()
    ensures JoinHostPort("localhost", 443) == "localhost:443"
  {
  }

  lemma JoinEmptyHostExample()
    ensures JoinHostPort("", -7) == ":-7"
  {
  }

  lemma BracketedNoPortExample()
    ensures Split("[::1]") == Success(Parts("::1", false, ""))
  {
    var name := "[::1]";
    assert IsFirstClose(name, 4);
    assert name[1..4] == "::1" && name[1] == ':';
    SplitBracketedShape(name, 4);
  }

  lemma BracketedPortExample()
    ensures Split("[::1]:80") == Success(Parts("::1", true, "80"))
    ensures Split("[::1]:") == Success(Parts("::1", true, ""))
  {
    var name := "[::1]:80";
    assert IsFirstClose(name, 4);
    assert name[1..4] == "::1" && name[1] == ':';
    assert name[6..] == "80";
    SplitBracketedShape(name, 4);
    var empty := "[::1]:";
    assert IsFirstClose(empty, 4);
    assert empty[1..4] == "::1" && empty[1] == ':';
    assert empty[6..] == "";
    SplitBracketedShape(empty, 4);
  }

  lemma HostnamePortExample()
    ensures Split("host.example.com:80") == Success(Parts("host.example.com", true, "80"))
  {
    var name := "host.example.com:80";
    assert name[..16] == "host.example.com";
    assert name[17..] == "80";
    SplitUnbracketedOneColon(name, 16);
  }

  lemma BareIPv6Example()
    ensures Split("2001:db8::1") == Success(Parts("2001:db8::1", false, ""))
  {
  }

  lemma TwoColonsExample()
    ensures Split("a:b:c") == Success(Parts("a:b:c", false, ""))
  {
  }

  lemma EmptyNameExample()
    ensures Split("") == Success(Parts("", false, ""))
  {
  }

  lemma RejectedExamples()
    ensures Split("[bad") == Failure(UnmatchedBracket)
    ensures Split("[::1]x") == Failure(InvalidAfterBracket)
    ensures Split("[nocolonhost]") == Failure(BracketedHostWithoutColon(""))
  {
    assert ']' !in "[bad"[1..];
    assert IsFirstClose("[::1]x", 4);
    SplitInvalidAfterBracket("[::1]x", 4);
    var name := "[nocolonhost]";
    assert IsFirstClose(name, 12);
    assert ':' !in name[1..12];
    SplitBracketedHostWithoutColon(name, 12, "", "");
  }

  /**
   * `h` and `h:` look the same through the zero-copy overload, but the owning
   * overload leaves the port null for the first and sets it empty for the second.
   */
  lemma PortPresenceExample()
    ensures SplitHostPortView("h", "", "") == SplitHostPortView("h:", "", "") == ViewOutputs(true, "h", "")
    ensures SplitHostPortOwned("h", None, None) == OwnedOutputs(true, Some("h"), None)
    ensures SplitHostPortOwned("h:", None, None) == OwnedOutputs(true, Some("h"), Some(""))
  {
  }
}
