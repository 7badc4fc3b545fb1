/**
 * The host/port codec of gRPC core (`grpc_core::JoinHostPort` and
 * `grpc_core::SplitHostPort`): building an endpoint string such as
 * `example.com:443` or `[::1]:80` from a host and a port, and breaking such a
 * string back into its host, whether a port was present, and the port text.
 *
 * Parsing looks only at brackets and colons; it never validates that a host
 * is an IP address or a DNS name, nor that a port is numeric.
 */
module HostPort {
  import opened Wrappers
  import opened Decimal
  import opened StringView

  /** A NUL-terminated C string, seen as the characters before its terminator. */
  type CString = s: string | '\0' !in s

  /** The pieces a successful split yields. `port` is empty when `hasPort` is false. */
  datatype Parts = Parts(host: string, hasPort: bool, port: string)

  /** The three ways a split can fail; the source reports all of them as `false`. */
  datatype SplitError =
    | UnmatchedBracket
      /** A `[` with no `]` after it. */
    | InvalidAfterBracket
      /** The first `]` is followed by something other than `:`. */
    | BracketedHostWithoutColon(port: string)
      /** The text between the brackets has no colon. By the time this is
          detected the port output has already been written with `port`
          (empty when there was none) and the host output is cleared. */

  /** Whether `name` takes the bracketed branch of the splitter. */
  predicate Bracketed(name: string) {
    |name| > 0 && name[0] == '['
  }

  /** `rb` is where `name.find(']', 1)` stops: the first `]` after the opening bracket. */
  predicate IsFirstClose(name: string, rb: int) {
    1 <= rb < |name| && name[rb] == ']' && forall k | 1 <= k < rb :: name[k] != ']'
  }

  /** Whether the joiner wraps `host` in brackets: it contains a colon and is not already bracketed. */
  predicate NeedsBrackets(host: string) {
    |host| > 0 && host[0] != '[' && ':' in host
  }

  /** The endpoint text that the parts of a split describe. */
  function Reassemble(p: Parts, bracketed: bool): string {
    (if bracketed then "[" + p.host + "]" else p.host) + (if p.hasPort then ":" + p.port else "")
  }

  /**
   * `JoinHostPort(&out, host, port)`: `[host]:port` for a host that contains
   * a colon and is not already bracketed, `host:port` otherwise.
   */
  function JoinHostPort(host: CString, port: Int32): (r: string)
    ensures r == Reassemble(Parts(host, true, Dec(port)), NeedsBrackets(host))
  {
    if NeedsBrackets(host) then
      "[" + host + "]:" + Dec(port)
    else
      host + ":" + Dec(port)
  }

  /**
   * `DoSplitHostPort`: the bracket/colon decision procedure.
   *  - `[host]` and `[host]:port` (port possibly empty) when `name` starts
   *    with `[`; the host must contain a colon.
   *  - otherwise `host:port` when `name` has exactly one colon, and the whole
   *    of `name` as host, with no port, when it has none or several.
   */
  function Split(name: string): (r: Result<Parts, SplitError>)
    ensures r.Failure? ==> Bracketed(name)
    ensures r == Failure(UnmatchedBracket) <==> Bracketed(name) && ']' !in name[1..]
    ensures r.Success? ==> Reassemble(r.value, Bracketed(name)) == name
    ensures r.Success? && !r.value.hasPort ==> r.value.port == ""
    ensures r.Success? && Bracketed(name) ==> ':' in r.value.host && ']' !in r.value.host
    ensures r.Success? && !Bracketed(name) ==> (r.value.hasPort <==> multiset(name)[':'] == 1)
    ensures Bracketed(name) ==> forall rb | IsFirstClose(name, rb) ::
              r == Failure(InvalidAfterBracket) <==> rb + 1 < |name| && name[rb + 1] != ':'
    ensures Bracketed(name) ==> forall rb | IsFirstClose(name, rb) ::
              r.Success? <==> (rb + 1 == |name| || name[rb + 1] == ':') && ':' in name[1..rb]
  {
    if Bracketed(name) then SplitBracketed(name) else Success(SplitUnbracketed(name))
  }

  /** The bracketed branch of the splitter: a `[` followed by a host, `]`, and an optional `:port`. */
  function SplitBracketed(name: string): (r: Result<Parts, SplitError>)
    requires Bracketed(name)
    ensures r == Failure(UnmatchedBracket) <==> ']' !in name[1..]
    ensures r.Success? ==> Reassemble(r.value, true) == name
    ensures r.Success? && !r.value.hasPort ==> r.value.port == ""
    ensures r.Success? ==> ':' in r.value.host && ']' !in r.value.host
    ensures forall rb | IsFirstClose(name, rb) ::
              r == Failure(InvalidAfterBracket) <==> rb + 1 < |name| && name[rb + 1] != ':'
    ensures forall rb | IsFirstClose(name, rb) ::
              r.Success? <==> (rb + 1 == |name| || name[rb + 1] == ':') && ':' in name[1..rb]
  {
    match Find(name, ']', 1)
    case None => Failure(UnmatchedBracket)
    case Some(rb) =>
      FirstCloseIsFound(name, rb);
      if rb == |name| - 1 || name[rb + 1] == ':' then
        var hasPort := rb < |name| - 1;
        var port := if hasPort then name[rb + 2..] else "";
        var host := name[1..rb];
        if Find(host, ':', 0).None? then Failure(BracketedHostWithoutColon(port))
        else Success(Parts(host, hasPort, port))
      else
        Failure(InvalidAfterBracket)
  }

  /** The unbracketed branch of the splitter, which always succeeds. */
  function SplitUnbracketed(name: string): (p: Parts)
    ensures Reassemble(p, false) == name
    ensures !p.hasPort ==> p.port == ""
    ensures p.hasPort <==> multiset(name)[':'] == 1
  {
    match Find(name, ':', 0)
    case None => Parts(name, false, "")
    case Some(colon) =>
      match Find(name, ':', colon + 1)
      case None =>
        ColonCountOne(name, colon);
        Parts(name[..colon], true, name[colon + 1..])
      case Some(other) =>
        ColonCountTwo(name, colon, other);
        Parts(name, false, "")
  }

  /** The outputs of the zero-copy `SplitHostPort(name, &host, &port)`. */
  datatype ViewOutputs = ViewOutputs(ok: bool, host: string, port: string)

  /**
   * The zero-copy overload. It hands the caller's output views straight to
   * the splitter, so `host0` and `port0` are what they held before the call:
   * they survive the failures detected before anything is written, and are
   * overwritten when a bracketed host turns out to have no colon. Whether a
   * port was present is not reported.
   */
  function SplitHostPortView(name: string, host0: string, port0: string): (r: ViewOutputs)
    ensures r.ok <==> Split(name).Success?
    ensures r.ok ==> r.host == Split(name).value.host && r.port == Split(name).value.port
    ensures Split(name) == Failure(UnmatchedBracket) || Split(name) == Failure(InvalidAfterBracket) ==>
              r.host == host0 && r.port == port0
    ensures Split(name).Failure? && Split(name).error.BracketedHostWithoutColon? ==>
              r.host == "" && r.port == Split(name).error.port
              && |r.port| < |name| && name[|name| - |r.port|..] == r.port
  {
    match Split(name)
    case Success(p) => ViewOutputs(true, p.host, p.port)
    case Failure(BracketedHostWithoutColon(port)) => ViewOutputs(false, "", port)
    case Failure(_) => ViewOutputs(false, host0, port0)
  }

  /** The outputs of the owning `SplitHostPort(name, &host, &port)`; `None` is a null pointer. */
  datatype OwnedOutputs = OwnedOutputs(ok: bool, host: Option<string>, port: Option<string>)

  /**
   * The owning overload. On success the host is always set, but the port is
   * set only when one was present, so "no port" stays distinguishable from
   * "empty port"; on failure neither output is touched. `host0` and `port0`
   * are the outputs' values before the call (the source debug-asserts that
   * both are null).
   */
  function SplitHostPortOwned(name: string, host0: Option<string>, port0: Option<string>): (r: OwnedOutputs)
    ensures r.ok == SplitHostPortView(name, "", "").ok
    ensures !r.ok ==> r.host == host0 && r.port == port0
    ensures r.ok ==> r.host == Some(SplitHostPortView(name, "", "").host)
    ensures r.ok ==> r.port == if Split(name).value.hasPort then Some(SplitHostPortView(name, "", "").port) else port0
  {
    match Split(name)
    case Success(p) => OwnedOutputs(true, Some(p.host), if p.hasPort then Some(p.port) else port0)
    case Failure(_) => OwnedOutputs(false, host0, port0)
  }

  /** The `]` that `find(']', 1)` reports is the only first closing bracket. */
  lemma FirstCloseIsFound(name: string, rb: nat)
    requires Find(name, ']', 1) == Some(rb)
    ensures IsFirstClose(name, rb)
    ensures forall other | IsFirstClose(name, other) :: other == rb
  {
  }

  /** A string whose only colon is at `c` has exactly one colon. */
  lemma ColonCountOne(s: string, c: nat)
    requires c < |s| && s[c] == ':'
    requires forall k | 0 <= k < |s| && k != c :: s[k] != ':'
    ensures multiset(s)[':'] == 1
  {
    assert s == s[..c] + [s[c]] + s[c + 1..];
    assert ':' !in s[..c];
    assert ':' !in s[c + 1..];
  }

  /** A string with colons at two distinct positions has at least two colons. */
  lemma ColonCountTwo(s: string, c1: nat, c2: nat)
    requires c1 < c2 < |s| && s[c1] == ':' && s[c2] == ':'
    ensures multiset(s)[':'] >= 2
  {
    assert s == s[..c1 + 1] + s[c1 + 1..];
    assert s[..c1 + 1][c1] == ':';
    assert s[c1 + 1..][c2 - c1 - 1] == ':';
  }
}
