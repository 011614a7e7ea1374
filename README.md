# RTSP-over-WebTransport proxy: a verified model of its core

The proxy lets a browser watch an RTSP camera. The browser opens a
WebSocket pair (or a WebTransport session) to the proxy server and speaks
RTSP on a control stream. The proxy relays each request to the camera
over TCP, and relays each response back to the browser. Along the way it
does three things:
- It binds a pair of UDP ports for every SETUP. When the SETUP carries a
  `Transport` header, it rewrites that header so the camera streams
  RTP/RTCP to those ports.
- It tags the camera's SETUP reply with the pair of channel ids
  (`x-wt-channel-id=<rtp>-<rtcp>`) under which the proxy will forward
  those UDP packets to the browser as datagrams.
- It remembers the RTSP session id, so that it can send a TEARDOWN when
  either side goes away.

This project models that core in Dafny, in five modules:

- `Common`: bytes (`u8`, `u16`), `Option`/`Result`, and UTF-8 encoding,
  including the lossy decoding of ASCII text.
- `Strings`: the parts of Rust's `str` that the message parser relies on.
  These are `find`, `split_once`, `trim`, `split_whitespace`, `lines`,
  `join(" ")`, and integer formatting and parsing.
- `Rtsp`: `RtspRequest`/`RtspResponse`, meaning the incremental parser
  (`parse`) and the serialiser (`to_bytes`). Each is given as a
  specification function and as an imperative method proved equal to it.
- `Proxy`: the state machine of `handle_connection`, meaning the
  interception of SETUP requests and responses, session capture, the
  drain loops over the two buffers, the select loop, and the cleanup
  TEARDOWN. The mutable per-connection state is the class `Connection`.
  The datagram framing of `forward_udp` is modelled as well.
- `Server`: the query parameters of the WebSocket handshake, the
  session registry that pairs a control socket with its data socket, and
  `extract_rtsp_url`.

The properties proved are:
- The parser inverts the serialiser for every well-formed message, in
  every header iteration order and whatever bytes follow.
- A parsed message consumes exactly its own extent, and further bytes
  never change a verdict.
- Channel ids are handed out in even/odd pairs, in SETUP order, and
  distinct up to 128 SETUPs. The 129th wraps onto the first.
- Each confirmed SETUP pops the oldest pending allocation.
- The first session id seen sticks.
- Every input the connection loop processes keeps its invariant, and
  outputs only ever grow.
- A connection that closes with a session id ends its TCP output with
  the TEARDOWN text. That text parses back to the intended request when
  the camera URL is a whitespace-free ASCII token and the session id is a
  valid header value: ASCII, with no CR or LF, and no leading or trailing
  whitespace. A captured id such as `abc ` (from `abc ;timeout=60`) is
  sent as is, and it reads back trimmed.
- A control and a data WebSocket arriving in either order are paired
  once, with the registry left as it was.

## Model

| member | source | states |
|---|---|---|
| Common.AsciiDecodeUtf8 | proxy-server/src/rtsp.rs:24 | lossy decoding of the bytes of an ASCII string gives that string back |
| Common.Utf8Append | proxy-server/src/rtsp.rs:80-87 | `as_bytes` of a concatenation is the concatenation of the encodings, so appending formatted pieces equals encoding the whole text |
| Strings.IndexOfSpec | proxy-server/src/rtsp.rs:27 | `find` returns the first occurrence (the char is there and not before it), and nothing exactly when the char is absent |
| Strings.SplitOnceSpec | proxy-server/src/rtsp.rs:49 | `split_once(':')` is None iff there is no `:`, and otherwise cuts at the first one |
| Strings.BeforeFirstSpec | proxy-server/src/proxy.rs:147 | `split(';').next()` is the longest prefix without `;`, followed by `;` when shorter than the string |
| Strings.TrimSpec | proxy-server/src/rtsp.rs:50 | `trim` gives a contiguous slice with no leading or trailing whitespace, and everything cut off on either side is whitespace |
| Strings.TrimStartSpec | proxy-server/src/rtsp.rs:50 | the removed prefix is all whitespace and the result starts with a non-whitespace char or is empty |
| Strings.TrimEndSpec | proxy-server/src/rtsp.rs:50 | the removed suffix is all whitespace and the result ends with a non-whitespace char or is empty |
| Strings.WordEndSpec | proxy-server/src/rtsp.rs:38 | the scan for the end of a token stops exactly at the first whitespace |
| Strings.SplitWhitespaceWords | proxy-server/src/rtsp.rs:38 | every token of `split_whitespace` is non-empty and whitespace-free |
| Strings.SplitWhitespaceWord | proxy-server/src/rtsp.rs:38 | a word followed by whitespace or the end is the first token |
| Strings.JoinSpaceNoCrLf | proxy-server/src/rtsp.rs:114 | joining tokens with a space never introduces CR or LF |
| Strings.LinesEmpty | proxy-server/src/rtsp.rs:35-36 | `lines()` yields nothing iff the text is empty (the "Empty request" case) |
| Strings.ParseUnsigned | proxy-server/src/rtsp.rs:57 | an integer parsed with a bound is below that bound (`usize`, `u16`) |
| Strings.ParseUnsignedSpec | proxy-server/src/rtsp.rs:55-58 | a string is accepted iff it is an optional `+` then one or more digits whose value fits the type, and the result is that value |
| Strings.ParseUnsignedRejects | proxy-server/src/rtsp.rs:113 | the empty string, a lone `+` and any non-digit text fail to parse |
| Strings.DecimalRoundTrip | proxy-server/src/rtsp.rs:148 | formatting a number and parsing it back gives the number when it fits the type, and fails otherwise |
| Rtsp.FindTerminatorIs | proxy-server/src/rtsp.rs:27-30 | the search for CRLFCRLF returns the first occurrence |
| Rtsp.FindTerminatorAbsent | proxy-server/src/rtsp.rs:27-30 | with no CRLFCRLF the search returns None |
| Rtsp.FieldSpec | proxy-server/src/rtsp.rs:49-50 | a header line yields an entry iff it has a `:`, and the entry is both sides of the first `:`, trimmed |
| Rtsp.HeaderMapLastWins | proxy-server/src/rtsp.rs:47-52 | the header keys are exactly those of lines with a `:`, and each key holds the value of its last line |
| Rtsp.CollectHeaders | proxy-server/src/rtsp.rs:47-52 | the header loop builds `HeaderMap` of the lines after the start line |
| Rtsp.ParseRequest | proxy-server/src/rtsp.rs:23-76 | no terminator gives Incomplete; a parsed request consumes between 4 and all of the bytes; its body is exactly the announced length right after the head |
| Rtsp.ParseResponse | proxy-server/src/rtsp.rs:93-144 | the same for responses |
| Rtsp.RequestVerdicts | proxy-server/src/rtsp.rs:27-62 | each verdict in both directions: EmptyMessage iff the head is empty, InvalidStartLine iff fewer than 3 tokens, Incomplete iff no terminator or the body is short |
| Rtsp.StatusCodeExamples | proxy-server/src/rtsp.rs:113 | a status of `70000` is refused as out of `u16` range, and `007` and `+200` are read as 7 and 200 |
| Rtsp.ResponseVerdicts | proxy-server/src/rtsp.rs:96-130 | as for requests, plus InvalidStatusCode iff the second token is not a `u16` |
| Rtsp.RequestFields | proxy-server/src/rtsp.rs:38-52 | a parsed request's method, path and version are the first three tokens and its headers are the map of the later lines |
| Rtsp.ResponseFields | proxy-server/src/rtsp.rs:107-121 | the version is the first token, the status is the second token parsed, the reason is the rest joined by spaces, and the headers come from the later lines |
| Rtsp.RequestWithoutLength | proxy-server/src/rtsp.rs:55-58 | without a numeric `Content-Length` the request body is empty and the request ends right after the blank line |
| Rtsp.ResponseWithoutLength | proxy-server/src/rtsp.rs:123-126 | the same for responses |
| Rtsp.ReadRequest | proxy-server/src/rtsp.rs:23-76 | the statements of `parse`, header loop included, compute `ParseRequest` |
| Rtsp.ReadRequestAt | proxy-server/src/rtsp.rs:32-76 | once the blank line is found, the rest of `parse` computes `RequestAt` on the head's lines |
| Rtsp.ReadResponse | proxy-server/src/rtsp.rs:93-144 | the statements of `parse` compute `ParseResponse` |
| Rtsp.ReadResponseAt | proxy-server/src/rtsp.rs:101-144 | once the blank line is found, the rest of `parse` computes `ResponseAt` on the head's lines |
| Rtsp.WriteMessage | proxy-server/src/rtsp.rs:79-88 | the loop writes the start line, one `k: v` line per key in iteration order, a blank line and the body |
| Rtsp.WriteRequest | proxy-server/src/rtsp.rs:78-89 | `to_bytes` of a request equals `SerializeRequest` for the map's iteration order |
| Rtsp.WriteResponse | proxy-server/src/rtsp.rs:146-157 | `to_bytes` of a response equals `SerializeResponse` |
| Rtsp.RequestRoundTrip | proxy-server/src/rtsp.rs:23-89 | parsing what `to_bytes` wrote, followed by anything, gives back the request and consumes exactly the written bytes, in any iteration order |
| Rtsp.ResponseRoundTrip | proxy-server/src/rtsp.rs:93-157 | the same for responses |
| Rtsp.RequestBoundary | proxy-server/src/rtsp.rs:60-74 | every prefix shorter than the consumed count is Incomplete, and the prefix of that length parses to the same request |
| Rtsp.ResponseBoundary | proxy-server/src/rtsp.rs:128-142 | the same for responses |
| Rtsp.RequestStable | proxy-server/src/rtsp.rs:23-76 | once a buffer parses or fails, appending bytes does not change the verdict |
| Rtsp.ResponseStable | proxy-server/src/rtsp.rs:93-144 | the same for responses |
| Proxy.OnRequestSpec | proxy-server/src/proxy.rs:88-115 | a non-SETUP request passes unchanged and leaves the state alone; a SETUP enqueues ids `(next, next+1)` with its ports, advances the counter by 2 mod 256, rewrites `Transport` to the client ports only if it was present, and keeps the invariant |
| Proxy.OnRequestWellFormed | proxy-server/src/proxy.rs:100-102 | the rewritten request still serialises to bytes that parse back |
| Proxy.SessionCaptureSpec | proxy-server/src/proxy.rs:144-152 | the session id is taken, cut at the first `;`, only when none is held yet |
| Proxy.OnResponseSpec | proxy-server/src/proxy.rs:144-191 | a forwarder pair is spawned iff the status is 200, `Transport` is present and a SETUP is pending; it is the oldest pending one, `Transport` gets its channel ids appended, and otherwise the response and the queue are untouched |
| Proxy.OnResponseWellFormed | proxy-server/src/proxy.rs:159-162 | the tagged response still serialises to bytes that parse back |
| Proxy.RunInv | proxy-server/src/proxy.rs:56-58 | any run of requests and responses keeps the counter even and every pending pair `(2k, 2k+1)` |
| Proxy.StepAllocation | proxy-server/src/proxy.rs:105-114 | one request or response keeps the invariant, advances the counter by 2 per SETUP mod 256, and moves the queue like a FIFO: what it confirms followed by the new queue is the old queue followed by what it allocates |
| Proxy.RunCounter | proxy-server/src/proxy.rs:105-107 | after a run, the counter is the start plus twice the number of SETUPs, mod 256 |
| Proxy.RunAllocation | proxy-server/src/proxy.rs:105-114 | the announced allocations followed by what is still pending are the old queue plus one consecutive id pair per SETUP, in order, with that SETUP's ports |
| Proxy.AllocationsDistinct | proxy-server/src/proxy.rs:105-107 | up to 128 SETUPs from an even start never reuse a channel id |
| Proxy.AllocationsWrap | proxy-server/src/proxy.rs:107 | the 129th SETUP reuses the first SETUP's ids (the `u8` counter wraps) |
| Proxy.RunPreservesSession | proxy-server/src/proxy.rs:148-151 | a single request or response leaves a held session id unchanged |
| Proxy.SessionSticks | proxy-server/src/proxy.rs:148-151 | once captured, the session id survives any run of requests and responses |
| Proxy.FirstSessionWins | proxy-server/src/proxy.rs:145-151 | the session id after a run is the one from the first response carrying `Session` |
| Proxy.TeardownSerialized | proxy-server/src/proxy.rs:215-218 | the TEARDOWN text is exactly what `to_bytes` writes for the TEARDOWN request with `CSeq` before `Session` |
| Proxy.TeardownParses | proxy-server/src/proxy.rs:213-221 | the TEARDOWN text is ASCII and parses as `TEARDOWN <url> RTSP/1.0` with `CSeq: 99` and the session, consuming all of it |
| Proxy.TeardownWellFormed | proxy-server/src/proxy.rs:215-218 | the TEARDOWN request is well-formed when the URL is a token and the session a valid field value |
| Proxy.DrainRequestsSpec | proxy-server/src/proxy.rs:84-122 | draining the browser buffer keeps the connection invariant and only appends to the output; unless aborted, what is left is an incomplete request; a held session id is kept |
| Proxy.DrainResponsesSpec | proxy-server/src/proxy.rs:140-198 | the same for the server buffer, with forwarders added in even/odd pairs |
| Proxy.ServeKeeps | proxy-server/src/proxy.rs:67-206 | along any sequence of reads the invariant holds, both outputs only grow, and a captured session id is kept |
| Proxy.ServeTearsDown | proxy-server/src/proxy.rs:208-222 | a loop left by a close or a read error with a session id ends the TCP output with exactly the TEARDOWN text |
| Proxy.Connection.constructor | proxy-server/src/proxy.rs:56-65 | a fresh connection: counter 0, nothing pending, no session, empty buffers and outputs |
| Proxy.Connection.InterceptSetup | proxy-server/src/proxy.rs:88-115 | the fields change exactly as `OnRequest` says |
| Proxy.Connection.SendToServer | proxy-server/src/proxy.rs:118 | appends the serialised request to the TCP output and changes nothing else |
| Proxy.Connection.InterceptResponse | proxy-server/src/proxy.rs:144-188 | the fields change as `OnResponse` says, and the confirmed setup's two forwarders are recorded |
| Proxy.Connection.SendToBrowser | proxy-server/src/proxy.rs:194 | appends the serialised response to the browser output |
| Proxy.Connection.ReadFromBrowser | proxy-server/src/proxy.rs:84-122 | the while-let loop ends in the state `DrainRequests` describes |
| Proxy.Connection.ReadFromServer | proxy-server/src/proxy.rs:140-198 | the while-let loop ends in the state `DrainResponses` describes |
| Proxy.Connection.Close | proxy-server/src/proxy.rs:208-222 | the TEARDOWN bytes are written iff a session id is held, and nothing else changes |
| Proxy.Connection.Serve | proxy-server/src/proxy.rs:67-224 | the select loop and cleanup end in the state and outcome `ServeSpec` describes |
| Proxy.FrameDatagram | proxy-server/src/proxy.rs:244-246 | the datagram is the channel id followed by the first `n` received bytes, and the inverse of the framing gives both back |
| Proxy.UnframeFrame | proxy-server/src/proxy.rs:244-246 | any datagram the inverse of the framing accepts is a channel id followed by its packet |
| Server.CollectParams | proxy-server/src/server.rs:116-119 | the loop over the query pairs builds `ParamMap` |
| Server.ParamMapLastWins | proxy-server/src/server.rs:116-119 | a key is a parameter iff some pair has it, and its value is the last such pair's |
| Server.ExtractRtspUrlSpec | proxy-server/src/server.rs:185-191 | `extract_rtsp_url` fails iff no pair is keyed `rtsp`, and otherwise returns the first one's value |
| Server.RtspUrlPaths | proxy-server/src/server.rs:157 | with two `rtsp` pairs, the WebTransport path takes the first and the WebSocket path the last |
| Server.ArriveFrame | proxy-server/src/server.rs:125-174 | each error holds exactly in its case (a path that did not parse, no `session_id`, a control socket without `rtsp`), those errors leave the registry alone, and entries under other session ids never change |
| Server.NoQueryArrival | proxy-server/src/server.rs:114-130 | a path without a query string gives an empty parameter map, so the arrival fails for its missing `session_id` and the registry is unchanged |
| Server.ArriveOutcome | proxy-server/src/server.rs:135-172 | a socket finding its opposite half is paired and the entry removed; one finding its own kind is a duplicate and the entry is still removed; one finding nothing waits under its id |
| Server.ControlThenData | proxy-server/src/server.rs:135-174 | a control socket then a data socket with a new id are paired with the control's URL, and the registry returns to its old value |
| Server.DataThenControl | proxy-server/src/server.rs:135-174 | the same with the data socket first |
| Server.Registry.HandleArrival | proxy-server/src/server.rs:135-172 | the registry update and result are those of `Arrive` |

## Left out

- I/O is not modelled. Reads are a sequence of `Input` events, and writes are appends to the `toServer`/`toBrowser` fields.
- `tokio::select!` scheduling is not modelled. The model takes one interleaving of reads as its input.
- Write failures are not modelled: writes are assumed to succeed. In the source, a failed `write_all` to the server or `write_control` to the browser (proxy.rs:118-121 and 194-197) breaks only out of the inner `while let`, not the select loop. That message is dropped and the connection stays open with no TEARDOWN. Any further complete messages in the buffer wait for the next read.
- Spawned forwarder tasks and their cancellation are not modelled. A confirmed SETUP records two `Forwarder(channelId, port)` values. The datagram framing is modelled on its own in `FrameDatagram`.
- UDP sockets are not modelled. Each SETUP consumes the next `Ports` from a supplied list. Running out of that list stands for a failed `bind`, which returns early like the source's `?`.
- TCP connect and the parsing of the camera URL (proxy.rs:37-45) are not modelled.
- The WebSocket/WebTransport handshakes are not modelled, and neither is TLS. `handle_wt_connection` is only covered through `extract_rtsp_url`.
- URL percent-decoding is not modelled. Query pairs arrive already decoded.
- The registry mutex is not modelled. Each arrival runs its critical section atomically.
- `HashMap` iteration order is not modelled. `to_bytes` takes an enumeration of the keys; in the connection loop that enumeration is a function of the map (`Enumerates`), with no particular order.
- Proxy.DrainRequestsSpec: requires the whole browser buffer to be ASCII. Non-ASCII bytes in a message body are handled by the single-message parser, which needs only the head to be ASCII. Lossy decoding of non-ASCII heads is not modelled.
- Proxy.DrainResponsesSpec: requires the whole server buffer to be ASCII, so responses with non-ASCII bodies (an SDP with UTF-8 text, say) are outside the connection-level model.
- Proxy.Connection.ReadFromBrowser: requires the buffered and the new bytes to be ASCII, for the same reason.
- Proxy.Connection.ReadFromServer: requires the buffered and the new bytes to be ASCII, for the same reason.
- Proxy.ServeSpec: admits only input sequences whose reads are all ASCII (`InputsAscii`). The same restriction applies to Proxy.Connection.Serve, Proxy.ServeKeeps and Proxy.ServeTearsDown.
- Rtsp.ParseRequest: `header_bytes + content_length` is an unbounded sum. A `usize` overflow with a `Content-Length` near 2^64 is not modelled.
- Proxy.RunCounter: `next_channel_id` wraps modulo 256, as in a release build. A debug build panics at the 128th SETUP instead. There, `next_channel_id += 2` overflows from 254, before that SETUP is queued or forwarded.
- An RTSP or bind error returns from `handle_connection` without the cleanup, as in the source. That means no TEARDOWN is sent and no forwarder is cancelled.
- `transport.rs`, the top-level `src/server.rs`, the test RTSP server and the browser client are not part of this model.
