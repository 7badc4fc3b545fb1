# gRPC core host/port codec in Dafny

A model of `grpc_core::JoinHostPort` and the two `grpc_core::SplitHostPort`
overloads from `src/core/lib/gprpp/host_port.cc`, with proofs about them.

- **Joining** turns a host and a C `int` port into an endpoint string:
  `[host]:port` when the host contains a colon and does not already start
  with `[` (an unbracketed IPv6 literal), `host:port` otherwise.
- **Splitting** (`DoSplitHostPort`) turns an endpoint string into a host,
  a has-port flag and the port text, looking only at brackets and colons:
  a name starting with `[` must have a `]`, followed by end-of-string or
  `:`, around a host that contains a colon; any other name is split at its
  colon when it has exactly one, and is all host otherwise (bare hostnames
  and bare IPv6 literals).
- The **zero-copy overload** of `SplitHostPort` returns views and drops the
  has-port flag; the **owning overload** copies the host and sets the port
  output only when a port was present.

Files:

- `wrappers.dfy` — `Option` and `Result`.
- `decimal.dfy` — `Int32` (the C `int`) and `Dec`, what `%d` prints.
- `string_view.dfy` — `Find`, the `absl::string_view::find(c, pos)` the splitter uses.
- `host_port.dfy` — the joiner, the splitter and both overloads.
- `host_port_lemmas.dfy` — one lemma per branch of the splitter, the join/split round trip, port presence.
- `host_port_examples.dfy` — worked examples of each endpoint shape.

Strings are `seq<char>`. The splitter returns `Result<Parts, SplitError>`:
`Parts(host, hasPort, port)` on success (the source's `true` plus its output
views), and one of three error kinds for the three `return false` sites of
the source, which reports them all as plain `false`. The contract of `Split`
states host and port as slices of the name: a successful split reassembles
to exactly the name it came from. The source's output parameters become the
fields of `ViewOutputs` and `OwnedOutputs`; the value an output held before
the call is an argument, because the source leaves it in place on some paths.

Two consequences of the code that are easy to miss:

- Join-then-split does not give back every host. `JoinSplitRoundTrip`
  proves exactly when it does: the host does not start with `[` and, if it
  contains a colon, contains no `]`. A colon-free host starting with `[`
  (such as `[abc`) is joined unbracketed and then always rejected by the
  splitter (`JoinColonFreeBracketedRejected`).
- On a colon-less bracketed host the zero-copy overload empties the
  caller's host view and also overwrites its port view, because the port is
  extracted before the colon test. `SplitHostPortView` models both writes.

## Model

| member | source | states |
|---|---|---|
| Decimal.Dec | src/core/lib/gprpp/host_port.cc:40-43 | the `%d` rendering of the port is non-empty, starts with `-` exactly for a negative port, is otherwise all digits, and contains neither `:` nor `]` |
| StringView.Find | src/core/lib/gprpp/host_port.cc:55-56 | `find(c, pos)` yields the first index at or after `pos` holding `c`, or none when no such index exists, including when `pos` is past the end |
| HostPort.JoinHostPort | src/core/lib/gprpp/host_port.cc:35-47 | the result is `[host]:port` when the host has a colon and does not start with `[`, and `host:port` otherwise (an empty host included); it is the reassembly of a split whose port is the `%d` rendering |
| HostPort.Split | src/core/lib/gprpp/host_port.cc:50-93 | only bracketed names can fail; it fails as unmatched exactly when no `]` follows the `[`; given the first `]` after the `[`, it fails on a bad trailing character exactly when that `]` is followed by something other than `:`, and succeeds exactly when it is last or followed by `:` and the text between the brackets has a colon; a successful split reassembles to the name; a bracketed host contains a colon and no `]`; an unbracketed name has a port exactly when it has exactly one colon; "no port" comes with empty port text |
| HostPort.SplitBracketed | src/core/lib/gprpp/host_port.cc:53-77 | the bracketed branch: unmatched exactly when no `]` follows the `[`; the verdict given the first `]`; a success reassembles to `[host]` plus the optional `:port`, with a host containing a colon and no `]` |
| HostPort.SplitUnbracketed | src/core/lib/gprpp/host_port.cc:78-91 | the unbracketed branch: the parts reassemble to the name, and a port is present exactly when the name has exactly one colon |
| HostPort.FirstCloseIsFound | src/core/lib/gprpp/host_port.cc:55 | the index `find(']', 1)` reports is the one and only first `]` after the opening bracket |
| HostPort.SplitHostPortView | src/core/lib/gprpp/host_port.cc:96-100 | succeeds exactly when the splitter does and then yields the splitter's host and port; the caller's views survive the unmatched-bracket and bad-trailing-character failures; on a colon-less bracketed host the host view is emptied and the port view holds the port text the splitter extracted, a suffix of the name |
| HostPort.SplitHostPortOwned | src/core/lib/gprpp/host_port.cc:102-120 | returns the same verdict as the zero-copy overload; on success the host output is always set and the port output is set only when a port was present; on failure neither output changes |
| HostPortLemmas.SplitInvalidAfterBracket | src/core/lib/gprpp/host_port.cc:63-70 | a bracketed name whose first `]` is followed by a character other than `:` is rejected |
| HostPortLemmas.SplitBracketedHostWithoutColon | src/core/lib/gprpp/host_port.cc:71-77 | when the text between the brackets has no colon the split fails; the zero-copy overload is left with an empty host and the port text after `]:` |
| HostPortLemmas.SplitBracketedShape | src/core/lib/gprpp/host_port.cc:53-71 | an accepted bracketed name yields the text strictly between `[` and the first `]` as host; a port is present exactly when that `]` is not last, and is then everything after `]:`, possibly empty |
| HostPortLemmas.SplitUnbracketedOneColon | src/core/lib/gprpp/host_port.cc:79-85 | an unbracketed name whose only colon is at `c` yields host `name[..c]`, a port, and port text `name[c+1..]` |
| HostPortLemmas.SplitUnbracketedNotOneColon | src/core/lib/gprpp/host_port.cc:86-90 | an unbracketed name with zero or two-plus colons, the empty name included, is all host with no port |
| HostPortLemmas.JoinUnambiguous | src/core/lib/gprpp/host_port.cc:38-44 | the joined string is bracketed or has exactly one colon, and a host with a colon always ends up bracketed |
| HostPortLemmas.JoinSplitRoundTrip | src/core/lib/gprpp/host_port.cc:35-93 | splitting the joined string gives back the host, a port, and the rendered port exactly when the host does not start with `[` and, if it has a colon, has no `]` |
| HostPortLemmas.RoundTripAlreadyBracketed | src/core/lib/gprpp/host_port.cc:41-43 | a host already starting with `[` never comes back unchanged from join-then-split |
| HostPortLemmas.RoundTripPlain | src/core/lib/gprpp/host_port.cc:79-85 | a colon-free host not starting with `[` comes back unchanged, with the rendered port |
| HostPortLemmas.JoinColonFreeBracketedRejected | src/core/lib/gprpp/host_port.cc:41-77 | a colon-free host starting with `[` is joined unbracketed and the result is always rejected by the splitter |
| HostPortLemmas.RoundTripBracketed | src/core/lib/gprpp/host_port.cc:38-40 | a colon-bearing host without `]` comes back unchanged from `[host]:port` |
| HostPortLemmas.RoundTripEarlyClose | src/core/lib/gprpp/host_port.cc:55-71 | a colon-bearing host containing `]` does not come back unchanged, because its own `]` closes the brackets |
| HostPortLemmas.JoinBracketedHostRoundTrip | src/core/lib/gprpp/host_port.cc:41-43 | a host the caller already bracketed, `[inner]` with a colon and no `]` inside, passes through the joiner and splits back to `inner` and the rendered port |
| HostPortLemmas.OwnedPortPresence | src/core/lib/gprpp/host_port.cc:110-117 | starting from null outputs, the owning overload sets the port exactly when the split found a port, and always sets the host on success |
| HostPortExamples.DecimalExamples | src/core/lib/gprpp/host_port.cc:43 | `%d` renders 80, 443 and -7 as `80`, `443` and `-7` |
| HostPortExamples.JoinIPv6Example | src/core/lib/gprpp/host_port.cc:38-43 | `::1` and `[::1]` with port 80 both join to `[::1]:80` |
| HostPortExamples.JoinHostnameExample | src/core/lib/gprpp/host_port.cc:41-43 | `localhost` with port 443 joins to `localhost:443` |
| HostPortExamples.JoinEmptyHostExample | src/core/lib/gprpp/host_port.cc:41-43 | the empty host with port -7 joins to `:-7` |
| HostPortExamples.BracketedNoPortExample | src/core/lib/gprpp/host_port.cc:60-62 | `[::1]` splits to host `::1` with no port |
| HostPortExamples.BracketedPortExample | src/core/lib/gprpp/host_port.cc:63-66 | `[::1]:80` splits to `::1` and port `80`; `[::1]:` has a port that is empty |
| HostPortExamples.HostnamePortExample | src/core/lib/gprpp/host_port.cc:79-85 | `host.example.com:80` splits to `host.example.com` and port `80` |
| HostPortExamples.BareIPv6Example | src/core/lib/gprpp/host_port.cc:86-90 | the bare literal `2001:db8::1` is all host with no port |
| HostPortExamples.TwoColonsExample | src/core/lib/gprpp/host_port.cc:86-90 | `a:b:c` is all host with no port |
| HostPortExamples.EmptyNameExample | src/core/lib/gprpp/host_port.cc:86-90 | the empty name splits to the empty host with no port |
| HostPortExamples.RejectedExamples | src/core/lib/gprpp/host_port.cc:56-76 | `[bad`, `[::1]x` and `[nocolonhost]` are rejected, each for its own reason |
| HostPortExamples.PortPresenceExample | src/core/lib/gprpp/host_port.cc:96-119 | `h` and `h:` give the same zero-copy outputs, but the owning overload leaves the port null for `h` and sets it to the empty string for `h:` |

## Left out

- The byte count `JoinHostPort` returns from `gpr_asprintf`, and allocation failure: the model returns the string only.
- `UniquePtr` ownership and release, and `StringViewToCString` copying: owned outputs are plain values. A view containing a NUL character would be cut short by C-string consumers of the copy; that is not modelled.
- The `GPR_DEBUG_ASSERT` checks that the owning overload's outputs start out null: debug-only pointer checks. The initial outputs are arguments instead, and `OwnedPortPresence` states the case the asserts expect.
- The C library's `printf` machinery: `%d` is modelled by `Decimal.Dec`, and only its character shape is proved.
- The difference between a null `absl::string_view()` and an empty view into the name: both are the empty string here.
- The `has_port` flag `DoSplitHostPort` leaves behind on failure: neither overload reads it then.
- Header includes, platform macros and logging.
