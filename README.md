# OpenVPN management interface: event parser and listener

A Dafny model of two parts of the Go library `malyshevhen/openvpn`, which talks
to an OpenVPN process over its management interface.

- **The notification parser** (`pkg/events/event.go`). A real-time notification
  from OpenVPN is a line `>KEYWORD:body`. `UpgradeEvent` turns the payload after
  the `>` into a typed event: state, hold, echo, byte count (with or without a
  client id), password, fatal, unknown or malformed. Every event renders itself
  as a string. State and byte-count events split their body into comma-separated
  fields on first use, pad a short split with empty fields, and cache the result
  in `bodyParts`.
- **The listener** (`pkg/server/server.go`). `Listen` opens a Unix socket for an
  absolute path and a TCP socket otherwise. `Serve` accepts connections from
  OpenVPN processes and hands each one to a handler. After a temporary accept
  error it waits 5 ms, doubling the wait on each further temporary error up to
  1 s, and resets the wait after a success. The first permanent error ends the
  loop; the listener is closed and the error returned.

Files:

- `bytes.dfy` (module `Bytes`): byte strings, and the `bytes.Index` and
  `bytes.SplitN` operations for a one-byte separator. Also the shape of what
  SplitN returns, that the shape determines the pieces, and the `make`+`copy`
  padding.
- `numbers.dfy` (module `Numbers`): `strconv.Atoi` with its error discarded,
  and `%d`.
- `quote.dfy` (module `Quoting`): `%q` on a byte slice, with its inverse.
- `events.dfy` (module `Events`): the event datatype, `UpgradeEvent`, every
  accessor and rendering as a function, and the properties of each.
- `eventobjects.dfy` (module `EventObjects`): the two event objects with the
  `bodyParts` cache, as classes. Their methods are proved to return what the
  functions of `Events` define.
- `server.dfy` (module `Server`): the transport choice, `Listen`, the listener
  class with `Accept`, `Close` and the `Serve` loop, and `ListenAndServe`. It
  also has a function `ServeRun` giving the loop's run for a sequence of accept
  outcomes, and lemmas about that run.
- `wrappers.dfy` (module `Wrappers`): `Option`.

How the Go program is represented:

- Byte slices and strings are both `seq<char>` (`Bytes`). Only `%q` looks at
  byte values, and the lemmas about it require every element below 256.
- The socket is an input. A listener holds the sequence of outcomes its
  `Accept` calls will see. `net.Listen` is a function parameter from transport
  and address to an outcome.
- `Serve` does not sleep or start goroutines. It returns the waits it would
  sleep, in nanoseconds, and the connections it dispatched, in order.
- When the given outcomes run out, `Serve` stops with `StillServing`; the Go
  loop would block in `Accept` at that point.

Facts about the code that the model makes explicit:

- A malformed event is rendered with `%q` (`pkg/events/event.go:95`). For an
  ASCII payload, the rendering shows the payload verbatim between quotes when
  every byte is printable and neither `"` nor `\`; other bytes appear
  escaped. `Events.RenderMalformed` states both halves: the rendering always
  determines the payload, and it is verbatim in the plain case.
- The per-client byte-count rendering is `Client <id>: <in> in, <out> out`
  (`pkg/events/event.go:326`).
- `CLIENT:CONNECT,...` splits at its first `:`, so its keyword is `CLIENT`,
  which is not dispatched, and it becomes an unknown event
  (`Events.ClientConnectIsUnknown`).

## Model

| member | source | states |
|---|---|---|
| Bytes.Index | pkg/events/event.go:389 | `bytes.Index` with a one-byte separator: -1 or a position in range that holds the separator |
| Bytes.IndexSpec | pkg/events/event.go:389-393 | Index is -1 exactly when the separator is absent, and no earlier position holds it |
| Bytes.SplitN | pkg/events/event.go:204 | `bytes.SplitN` with limit n ≥ 1 returns between 1 and n pieces |
| Bytes.SplitNShape | pkg/events/event.go:204 | no piece but the last holds the separator; the last holds none unless the limit was reached |
| Bytes.SplitNJoinBack | pkg/events/event.go:334 | the pieces joined with the separator give back the input |
| Bytes.SplitNCount | pkg/events/event.go:204 | the number of pieces is the number of separators plus one, capped at the limit |
| Bytes.SplitNJoin | pkg/events/event.go:334 | any list with SplitN's shape is what SplitN returns for its join, so the shape determines the split |
| Bytes.Pad | pkg/events/event.go:209-213 | `make` and `copy`: the list extended with empty entries to the wanted length; a list that is long enough is unchanged |
| Numbers.Atoi | pkg/events/event.go:305-306 | `strconv.Atoi` with its error ignored: 0 for anything that is not sign-and-digits; sign of the result follows the leading sign |
| Numbers.Decimal | pkg/events/event.go:326-328 | `%d` of an integer is decimal syntax that Atoi reads back as the same integer, in canonical form: no `+`, a `-` exactly for negatives, no leading zero except `0` itself |
| Numbers.AtoiPlus | pkg/events/event.go:306 | a leading `+` before digits does not change the value Atoi reads |
| Numbers.AtoiMinus | pkg/events/event.go:306 | a leading `-` before digits negates the value Atoi reads |
| Numbers.AtoiLeadingZero | pkg/events/event.go:306 | a leading zero does not change the value Atoi reads |
| Quoting.Escape | pkg/events/event.go:95 | `%q` writes a byte as itself exactly when it is printable and not a quote or backslash, else as a printable escape of 2 to 4 bytes |
| Quoting.Quote | pkg/events/event.go:95 | `%q`: the escapes of the bytes between double quotes; at least two longer than the payload |
| Quoting.UnquoteQuote | pkg/events/event.go:95 | the `%q` rendering of any byte string reads back to that string |
| Quoting.QuotePlain | pkg/events/event.go:95 | a byte string needing no escapes is rendered verbatim between double quotes |
| Quoting.QuotePrintable | pkg/events/event.go:95 | the `%q` rendering is printable ASCII throughout |
| Events.Dispatch | pkg/events/event.go:398-415 | the keyword switch: the event carries the body and the keyword; it is unknown exactly when the keyword is none of the seven known ones |
| Events.DispatchKeyword | pkg/events/event.go:398-415 | dispatching an event's own keyword and body rebuilds the event |
| Events.Upgrade | pkg/events/event.go:388-416 | malformed exactly when the payload has no `:`, and then holds the payload unchanged; every result is well formed and serializes back to the payload |
| Events.UpgradeSplit | pkg/events/event.go:389-396 | with a `:` present, the keyword is exactly the bytes before the first `:` (so it holds none) and the body everything after |
| Events.UpgradeSerialize | pkg/events/event.go:388-416 | Upgrade inverts serialization on every well-formed event |
| Events.UpgradeUnknown | pkg/events/event.go:413-414 | unknown exactly when the keyword before the first `:` is not a known one; then Type() is that keyword and Body() the rest |
| Events.ClientConnectIsUnknown | pkg/events/event.go:20-23 | `CLIENT:CONNECT,0,1` is an unknown event with keyword `CLIENT` and body `CONNECT,0,1` |
| Events.StateParts | pkg/events/event.go:202-216 | the cached state parts number 8 or 9, so fields 0 to 4 are always in range |
| Events.StatePartsCommaFree | pkg/events/event.go:204 | the first eight state parts hold no comma; only the ninth part of the extended form can |
| Events.StateRawTimestamp | pkg/events/event.go:157-160 | part 0 of the state parts, a comma-free field |
| Events.StateNewState | pkg/events/event.go:162-165 | part 1 of the state parts, a comma-free field |
| Events.StateDescription | pkg/events/event.go:167-170 | part 2 of the state parts, a comma-free field |
| Events.StateLocalTunnelAddr | pkg/events/event.go:172-178 | part 8 in the extended form, part 3 otherwise; it holds a comma only when the body has at least 8 commas |
| Events.StateRemoteAddr | pkg/events/event.go:180-183 | part 4 of the state parts, a comma-free field |
| Events.StateString | pkg/events/event.go:185-200 | the new state, followed either by nothing or by `: ` and a detail |
| Events.StatePartsOfFields | pkg/events/event.go:202-216 | for a body of comma-free fields: parts 0 to 7 are the fields (empty when missing); a ninth part exists exactly with more than 8 fields and is the rest, commas included |
| Events.StateAccessors | pkg/events/event.go:157-183 | timestamp, state, description and remote address are fields 0, 1, 2 and 4; the local tunnel address is field 8 onwards in the extended form, field 3 otherwise |
| Events.StateExtendedForm | pkg/events/event.go:172-178 | there are more than 8 parts exactly when the body has at least 8 commas |
| Events.StateStringCases | pkg/events/event.go:185-200 | the rendering is `ASSIGN_IP: <local addr>`, `CONNECTED: <remote addr>`, `<state>: <desc>`, or the bare state when the description is empty |
| Events.EchoRawTimestamp | pkg/events/event.go:241-247 | the bytes before the first comma, or empty: a comma-free prefix of the body |
| Events.EchoMessage | pkg/events/event.go:249-255 | the bytes after the first comma, or empty: a suffix of the body that, with a comma present, follows the timestamp and that comma |
| Events.EchoString | pkg/events/event.go:257-259 | `ECHO: ` followed by the message |
| Events.EchoFields | pkg/events/event.go:241-255 | echo splits at the first comma only: a comma-free timestamp and any message, commas included, read back unchanged |
| Events.EchoWithoutComma | pkg/events/event.go:241-259 | without a comma, timestamp and message are empty and the rendering is `ECHO: ` |
| Events.EchoExample | pkg/events/event.go:403-404 | `ECHO:42,hello,world` is an echo event with timestamp `42` and message `hello,world`, rendered `ECHO: hello,world` |
| Events.ByteCountParts | pkg/events/event.go:332-351 | the cached byte-count parts number from 3 (per-client) or 2 up to 4 |
| Events.ByteCountPartsCommaFree | pkg/events/event.go:334 | the first three byte-count parts hold no comma; only a fourth part can |
| Events.ByteCountClientId | pkg/events/event.go:292-298 | empty unless per-client, else part 0; always comma-free |
| Events.ByteCountBytesIn | pkg/events/event.go:300-310 | Atoi of part 0, or of part 1 in the per-client form |
| Events.ByteCountBytesOut | pkg/events/event.go:312-322 | Atoi of part 1, or of part 2 in the per-client form |
| Events.ByteCountString | pkg/events/event.go:324-330 | the two counts with `%d` as `<in> in, <out> out`, prefixed with `Client <id>: ` in the per-client form |
| Events.ByteCountPartsOfFields | pkg/events/event.go:332-351 | for comma-free fields: up to four are padded with empty entries to 3 (per-client) or 2; with more, the parts are the first three and the rest joined back, commas included |
| Events.ByteCountRoundTrip | pkg/events/event.go:300-322 | a body `<in>,<out>` written with `%d` reads back both counts, and the client id is empty |
| Events.ByteCountCliRoundTrip | pkg/events/event.go:292-322 | a per-client body `<id>,<in>,<out>` with a comma-free id reads back the id and both counts |
| Events.ByteCountStringOfCounts | pkg/events/event.go:328 | a body `<in>,<out>` written with `%d` renders as `<in> in, <out> out` with the same counts |
| Events.ByteCountCliStringOfCounts | pkg/events/event.go:326 | a per-client body `<id>,<in>,<out>` renders as `Client <id>: <in> in, <out> out` with the same id and counts |
| Events.DecimalNoComma | pkg/events/event.go:326-328 | a `%d` rendering holds no comma |
| Events.ByteCountMissingField | pkg/events/event.go:341-348 | missing fields read as empty, so a comma-free body gives 0 for every missing count and is the client id in the per-client form |
| Events.Render | pkg/events/event.go:69-386 | every event's `String()`: unknown as keyword, `: `, body; `Malformed Event ` and `%q` of the payload; hold as its body; the state, echo and byte-count renderings; `PASSWORD: ` or `FATAL: ` and the body |
| Events.RenderKeyword | pkg/events/event.go:69-71 | unknown, password and fatal events render as keyword, `: `, body |
| Events.RenderKeywordBody | pkg/events/event.go:367-386 | for those three kinds the rendering is the payload with a space inserted after the first `:` |
| Events.RenderHold | pkg/events/event.go:113-115 | a hold event renders as its bare body, without the keyword |
| Events.RenderMalformed | pkg/events/event.go:94-96 | the malformed rendering is `Malformed Event ` and a quoted literal that reads back to the payload; verbatim between quotes when no byte needs escaping |
| EventObjects.Expand | pkg/events/event.go:210-212 | `make` then `copy` builds the padded list `Pad` defines |
| EventObjects.StateEvent.constructor | pkg/events/event.go:142-146 | a new state event has its body and an empty cache |
| EventObjects.StateEvent.Parts | pkg/events/event.go:202-216 | returns the state parts of the body and leaves them in the cache; a filled cache is reused and always equals a fresh split |
| EventObjects.StateEvent.RawTimestamp | pkg/events/event.go:157-160 | returns the state timestamp field and keeps the cache valid |
| EventObjects.StateEvent.NewState | pkg/events/event.go:162-165 | returns the new-state field and keeps the cache valid |
| EventObjects.StateEvent.Description | pkg/events/event.go:167-170 | returns the description field and keeps the cache valid |
| EventObjects.StateEvent.LocalTunnelAddr | pkg/events/event.go:172-178 | returns field 8 in the extended form and field 3 otherwise |
| EventObjects.StateEvent.RemoteAddr | pkg/events/event.go:180-183 | returns the remote-address field and keeps the cache valid |
| EventObjects.StateEvent.String | pkg/events/event.go:185-200 | returns the state rendering |
| EventObjects.ByteCountEvent.constructor | pkg/events/event.go:277-282 | a new byte-count event has its flag, its body and an empty cache |
| EventObjects.ByteCountEvent.Parts | pkg/events/event.go:332-351 | returns the byte-count parts of the body and leaves them in the cache; a filled cache is reused |
| EventObjects.ByteCountEvent.ClientId | pkg/events/event.go:292-298 | empty without touching the cache unless per-client, else field 0 |
| EventObjects.ByteCountEvent.BytesIn | pkg/events/event.go:300-310 | Atoi of field 0, or of field 1 in the per-client form |
| EventObjects.ByteCountEvent.BytesOut | pkg/events/event.go:312-322 | Atoi of field 1, or of field 2 in the per-client form |
| EventObjects.ByteCountEvent.String | pkg/events/event.go:324-330 | returns the byte-count rendering, with the `Client <id>: ` prefix only in the per-client form |
| Server.Proto | pkg/server/server.go:58-61 | the transport is `unix` exactly when the address is non-empty and starts with `/`, and `tcp` otherwise |
| Server.ProtoExamples | pkg/server/server.go:52-61 | a socket path gives `unix`; a host and port, or the empty address, gives `tcp` |
| Server.Listen | pkg/server/server.go:57-68 | opens on the transport `Proto` chooses; on failure no listener and the error, else a fresh listener over the socket and no error |
| Server.IsTemporary | pkg/server/server.go:99 | the error is a `net.Error` and reports itself temporary |
| Server.NextDelay | pkg/server/server.go:100-107 | the loop's update of `tempDelay`: always in (0, 1 s], never below a previous value within the cap, strictly above a positive one below the cap |
| Server.Backoff | pkg/server/server.go:105-107 | every wait is positive and at most one second |
| Server.NextDelayBackoff | pkg/server/server.go:99-107 | one step of "5 ms if zero, else double, then cap at 1 s" turns the wait after k errors in a row into min(5 ms·2^k, 1 s) |
| Server.BackoffValues | pkg/server/server.go:100-107 | the waits are 5, 10, 20, 40, 80, 160, 320, 640 ms, then 1 s from the ninth consecutive error on |
| Server.ServeRun | pkg/server/server.go:91-124 | the loop's run over given accept outcomes: a returned error is never temporary, and there is at most one sleep or dispatch per outcome |
| Server.Live | pkg/server/server.go:112-116 | the accept outcomes before the first permanent error, which the loop gets through |
| Server.ServeOutcome | pkg/server/server.go:112-116 | the loop returns exactly when some accept fails permanently, and returns the first such error |
| Server.ServeHandled | pkg/server/server.go:119-122 | every connection accepted before the first permanent error is dispatched once, in accept order, and no other |
| Server.ServeSleeps | pkg/server/server.go:99-120 | one wait per temporary error before termination, min(5 ms·2^k, 1 s) after k errors in a row, with k reset to 0 by each success |
| Server.ScheduleBounds | pkg/server/server.go:105-110 | every wait the loop sleeps is positive and at most one second |
| Server.MgmtListener.constructor | pkg/server/server.go:34-36 | wraps a socket; nothing accepted or closed yet |
| Server.MgmtListener.Accept | pkg/server/server.go:74-81 | consumes one socket outcome: a wrapped connection and no error, or no connection and the socket's error |
| Server.MgmtListener.Close | pkg/server/server.go:83-85 | closes the socket once more and changes nothing else |
| Server.MgmtListener.Serve | pkg/server/server.go:91-124 | the loop's waits, dispatches and returned error are the run `ServeRun` gives from a zero delay; the listener is closed exactly once on return and not while serving; on return every outcome up to and including the first permanent error has been consumed, and nothing after it |
| Server.ListenAndServe | pkg/server/server.go:149-156 | the listen error, or the run of the accept loop on the new listener and the error that ended it |

## Left out

- Quoting.Escape: bytes from 0x80 up are always written `\xNN`. Go's `%q` keeps a valid, printable UTF-8 sequence as it is and writes other runes as `\u`/`\U` escapes. The model is exact for ASCII payloads.
- Numbers.Atoi: integers are unbounded. Go's `strconv.Atoi` returns the clamped value and a range error for numbers outside 64 bits; that case is not modelled.
- Server.MgmtListener.Accept: requires a pending outcome. The Go call blocks until the socket yields one, and a run of the model ends when its outcomes run out.
- Server.MgmtListener.Serve: when the given outcomes run out, it stops with `StillServing`; the Go loop would block in `Accept` instead.
- Server.MgmtListener.Close: always succeeds. The error `net.Listener.Close` can return is discarded by the deferred call in `Serve` and is not modelled.
- EventObjects.Expand: requires the split to be shorter than the wanted length, as at both call sites.
- `time.Sleep` and the `go` statement in `Serve`: concurrency and timing. The model records the waits and the dispatched connections instead.
- `mgmtListener.Addr`: it only forwards to the socket's address.
- `IncomingConnHandlerFunc`: an adapter that calls a function. The model records dispatched connections rather than calling a handler.
- `pkg/server/connection.go` and the client protocol engine it calls are not part of this model.
- The keyword constants marked not implemented (`CLIENT:CONNECT`, `INFO`, `LOG` and others) are never used by the parser, so they do not appear.
- The `Event`, `StateEvent` and other Go interfaces are represented by the one `Event` datatype and the two classes.
- Integer widths: byte counts are mathematical integers, and durations are nanoseconds as unbounded naturals. The doubling computes at most 2 s before the cap at 1 s, so Go's int64 nanoseconds cannot overflow.
- Server.MgmtListener.Accept: it does not look at `closes`, so a closed listener still yields its remaining outcomes. On a real socket, an `Accept` after `Close` fails; `Serve` never calls `Accept` after closing.
