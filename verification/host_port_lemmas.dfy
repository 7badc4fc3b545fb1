/**
 * Properties of the host/port codec: one lemma per branch of the splitter,
 * the join/split round trip, and what each public wrapper reports.
 */
module HostPortLemmas {
  import opened Wrappers
  import opened Decimal
  import opened HostPort

  /** The port text that follows a closing bracket at `rb`, or empty when the bracket ends `name`. */
  function PortAfter(name: string, rb: nat): string
    requires rb < |name|
  {
    if rb + 1 == |name| then "" else name[rb + 2..]
  }

  /** `[host]x...` with `x` not a colon is rejected. */
  lemma SplitInvalidAfterBracket(name: string, rb: nat)
    requires Bracketed(name) && IsFirstClose(name, rb)
    requires rb + 1 < |name| && name[rb + 1] != ':'
    ensures Split(name) == Failure(InvalidAfterBracket)
  {
  }

  /**
   * A bracketed host without a colon is rejected; the zero-copy overload is
   * left with an empty host and the port text it had already extracted.
   */
  lemma SplitBracketedHostWithoutColon(name: string, rb: nat, host0: string, port0: string)
    requires Bracketed(name) && IsFirstClose(name, rb)
    requires rb + 1 == |name| || name[rb + 1] == ':'
    requires ':' !in name[1..rb]
    ensures Split(name) == Failure(BracketedHostWithoutColon(PortAfter(name, rb)))
    ensures SplitHostPortView(name, host0, port0) == ViewOutputs(false, "", PortAfter(name, rb))
  {
  }

  /**
   * An accepted bracketed name: the host is everything strictly between the
   * brackets, and a port is present exactly when the `]` is not last, in
   * which case it is everything after the `]:` (possibly empty).
   */
  lemma SplitBracketedShape(name: string, rb: nat)
    requires Bracketed(name) && IsFirstClose(name, rb)
    requires rb + 1 == |name| || name[rb + 1] == ':'
    requires ':' in name[1..rb]
    ensures Split(name) == Success(Parts(name[1..rb], rb + 1 < |name|, PortAfter(name, rb)))
  {
  }

  /** An unbracketed name whose only colon is at `c` splits there. */
  lemma SplitUnbracketedOneColon(name: string, c: nat)
    requires !Bracketed(name)
    requires c < |name| && name[c] == ':'
    requires forall k | 0 <= k < |name| && k != c :: name[k] != ':'
    ensures Split(name) == Success(Parts(name[..c], true, name[c + 1..]))
  {
  }

  /** An unbracketed name with no colon or several (a bare IPv6 literal) is all host. */
  lemma SplitUnbracketedNotOneColon(name: string)
    requires !Bracketed(name) && multiset(name)[':'] != 1
    ensures Split(name) == Success(Parts(name, false, ""))
  {
  }

  /**
   * The joiner never builds an ambiguous endpoint: its result is bracketed
   * or has exactly one colon, and a host with a colon always ends up inside
   * brackets.
   */
  lemma JoinUnambiguous(host: CString, port: Int32)
    ensures Bracketed(JoinHostPort(host, port)) || multiset(JoinHostPort(host, port))[':'] == 1
    ensures ':' in host ==> Bracketed(JoinHostPort(host, port))
  {
  }

  /**
   * Splitting what the joiner built gives back the host and the rendered
   * port exactly when the host is not already bracketed and, if it has a
   * colon (so it gets bracketed), it has no `]` that would close the
   * brackets early.
   */
  lemma JoinSplitRoundTrip(host: CString, port: Int32)
    ensures Split(JoinHostPort(host, port)) == Success(Parts(host, true, Dec(port)))
            <==> !Bracketed(host) && (':' in host ==> ']' !in host)
  {
    if Bracketed(host) {
      RoundTripAlreadyBracketed(host, port);
    } else if ':' !in host {
      RoundTripPlain(host, port);
    } else if ']' !in host {
      RoundTripBracketed(host, port);
    } else {
      RoundTripEarlyClose(host, port);
    }
  }

  /** A host that already starts with `[` loses that bracket when split again. */
  lemma RoundTripAlreadyBracketed(host: CString, port: Int32)
    requires Bracketed(host)
    ensures Split(JoinHostPort(host, port)) != Success(Parts(host, true, Dec(port)))
  {
  }

  /** A host without a colon comes back from `host:port` unchanged. */
  lemma RoundTripPlain(host: CString, port: Int32)
    requires !Bracketed(host) && ':' !in host
    ensures Split(JoinHostPort(host, port)) == Success(Parts(host, true, Dec(port)))
  {
  }

  /**
   * A colon-free host that starts with `[` is joined unbracketed and then
   * always rejected: either no `]` closes it, or the text its first `]`
   * closes has no colon, or that `]` is followed by something else.
   */
  lemma JoinColonFreeBracketedRejected(host: CString, port: Int32)
    requires Bracketed(host) && ':' !in host
    ensures Split(JoinHostPort(host, port)).Failure?
  {
    assert JoinHostPort(host, port) == host + ":" + Dec(port);
  }

  /** A colon-bearing host without `]` comes back from `[host]:port` unchanged. */
  lemma RoundTripBracketed(host: CString, port: Int32)
    requires NeedsBrackets(host) && ']' !in host
    ensures Split(JoinHostPort(host, port)) == Success(Parts(host, true, Dec(port)))
  {
    var name := JoinHostPort(host, port);
    var d := Dec(port);
    var rb := |host| + 1;
    assert name == "[" + host + "]:" + d;
    forall k | 1 <= k < rb
      ensures name[k] != ']'
    {
      assert name[k] == host[k - 1];
    }
    assert name[1..rb] == host;
    assert name[rb + 1] == ':';
    assert name[rb + 2..] == d;
    SplitBracketedShape(name, rb);
  }

  /** A colon-bearing host with a `]` closes its own brackets too early. */
  lemma RoundTripEarlyClose(host: CString, port: Int32)
    requires NeedsBrackets(host) && ']' in host
    ensures Split(JoinHostPort(host, port)) != Success(Parts(host, true, Dec(port)))
  {
  }

  /**
   * A host the caller already bracketed is passed through by the joiner and
   * unbracketed again by the splitter.
   */
  lemma JoinBracketedHostRoundTrip(inner: CString, port: Int32)
    requires ':' in inner && ']' !in inner
    ensures Split(JoinHostPort("[" + inner + "]", port)) == Success(Parts(inner, true, Dec(port)))
  {
    var host: CString := "[" + inner + "]";
    var name := JoinHostPort(host, port);
    var d := Dec(port);
    var rb := |inner| + 1;
    assert name == "[" + inner + "]:" + d;
    forall k | 1 <= k < rb
      ensures name[k] != ']'
    {
      assert name[k] == inner[k - 1];
    }
    assert name[1..rb] == inner;
    assert name[rb + 1] == ':';
    assert name[rb + 2..] == d;
    SplitBracketedShape(name, rb);
  }

  /**
   * With null outputs, as the source expects, the owning overload sets the
   * port exactly when a port was present, and always sets the host on success.
   */
  lemma OwnedPortPresence(name: string)
    ensures SplitHostPortOwned(name, None, None).port.Some?
            <==> Split(name).Success? && Split(name).value.hasPort
    ensures SplitHostPortOwned(name, None, None).ok ==> SplitHostPortOwned(name, None, None).host.Some?
  {
  }
}
