/** The sequential state machine inside `RTSPProxy::handle_connection`: SETUP
    interception with channel-id allocation, the FIFO of pending setups,
    session capture, the TEARDOWN sent on exit, and the one-byte channel
    prefix that `forward_udp` puts in front of each datagram.

    Sockets, spawned tasks and the select loop are abstracted: the ports two
    fresh UDP binds obtain are inputs, a spawned forwarder is recorded as a
    `Forwarder` value, and bytes written to either peer are appended to a
    sequence. */
module Proxy {
  import opened Common
  import opened Strings
  import opened Rtsp

  // ---------------------------------------------------------------------------
  // State
  // ---------------------------------------------------------------------------

  /** The local ports of the RTP and the RTCP socket bound for one SETUP. */
  datatype Ports = Ports(rtp: u16, rtcp: u16)

  /** A SETUP forwarded to the server whose reply has not come back yet. */
  datatype PendingSetup = PendingSetup(rtpChannelId: u8, rtcpChannelId: u8, sockets: Ports)

  /** A spawned `forward_udp` task: the socket it reads and the channel id
      it prefixes. */
  datatype Forwarder = Forwarder(channelId: u8, port: u16)

  /** The mutable locals of `handle_connection`: `next_channel_id`,
      `pending_setups` (front first) and `session_id`. */
  datatype Session = Session(nextChannelId: u8, pending: seq<PendingSetup>, sessionId: Option<string>)

  const Initial: Session := Session(0, [], None)

  /** Channel ids come in pairs: an even RTP id and the RTCP id right after it. */
  predicate PairOk(p: PendingSetup)
  {
    p.rtpChannelId % 2 == 0 && p.rtcpChannelId == p.rtpChannelId + 1
  }

  /** What every reachable state satisfies: the next id is even and every
      pending setup holds a well-formed pair. */
  predicate Inv(s: Session)
  {
    s.nextChannelId % 2 == 0 && forall i :: 0 <= i < |s.pending| ==> PairOk(s.pending[i])
  }

  // ---------------------------------------------------------------------------
  // Requests from the browser
  // ---------------------------------------------------------------------------

  /** The `Transport` value a SETUP is rewritten to. */
  function ClientPortTransport(p: Ports): string
  {
    "RTP/AVP;unicast;client_port=" + Decimal(p.rtp) + "-" + Decimal(p.rtcp)
  }

  /** `next_channel_id` and `next_channel_id + 1` as `u8` values, and
      `next_channel_id += 2` with the wrap-around of a release build. */
  function Allocate(next: u8, ports: Ports): PendingSetup
  {
    PendingSetup(next, (next + 1) % 0x100, ports)
  }

  function Advance(next: u8): u8
  {
    (next + 2) % 0x100
  }

  /** One request taken from the browser's buffer: the new state and the
      request forwarded to the server. `ports` are the ports the two UDP
      binds obtained; only a SETUP binds sockets. */
  function OnRequest(s: Session, req: Request, ports: Ports): (Session, Request)
  {
    if req.methodName != "SETUP" then (s, req)
    else
      var out :=
        if "Transport" in req.headers
        then req.(headers := req.headers["Transport" := ClientPortTransport(ports)])
        else req;
      (s.(nextChannelId := Advance(s.nextChannelId),
          pending := s.pending + [Allocate(s.nextChannelId, ports)]), out)
  }

  /** Exactly the SETUP requests change the state; they enqueue the next
      channel-id pair with the bound ports, advance the counter past it, and their `Transport` header,
      when present and only then, names the bound ports. Every other request
      is forwarded unchanged. */
  lemma OnRequestSpec(s: Session, req: Request, ports: Ports)
    requires Inv(s)
    ensures var (s', out) := OnRequest(s, req, ports);
      && (s' == s <==> req.methodName != "SETUP")
      && (req.methodName != "SETUP" ==> out == req)
      && Inv(s')
      && out.headers.Keys == req.headers.Keys
      && (req.methodName == "SETUP" ==>
            && s'.nextChannelId == Advance(s.nextChannelId)
            && s'.pending == s.pending + [PendingSetup(s.nextChannelId, s.nextChannelId + 1, ports)]
            && s'.sessionId == s.sessionId
            && out == req.(headers := out.headers)
            && forall k :: k in out.headers ==>
                 out.headers[k] == if k == "Transport" then ClientPortTransport(ports) else req.headers[k])
  {
    if req.methodName == "SETUP" {
      assert |OnRequest(s, req, ports).0.pending| != |s.pending|;
    }
  }

  /** The rewritten SETUP is still a request that the server parses back
      from its bytes: the new `Transport` value is a plain ASCII field. */
  lemma OnRequestWellFormed(s: Session, req: Request, ports: Ports)
    requires RequestWellFormed(req)
    ensures RequestWellFormed(OnRequest(s, req, ports).1)
  {
    if req.methodName == "SETUP" && "Transport" in req.headers {
      TransportFieldOk(ports);
      var h := req.headers["Transport" := ClientPortTransport(ports)];
      assert ContentLength(h) == ContentLength(req.headers);
    }
  }

  /** Text that can sit inside one header line. */
  predicate Plain(s: string)
  {
    AsciiString(s) && NoCrLf(s)
  }

  lemma PlainConcat(a: string, b: string)
    requires Plain(a) && Plain(b)
    ensures Plain(a + b)
  {
    assert forall i :: 0 <= i < |a + b| ==> (a + b)[i] == if i < |a| then a[i] else b[i - |a|];
  }

  lemma DecimalPlain(n: nat)
    ensures Plain(Decimal(n)) && |Decimal(n)| > 0
    ensures !IsWhitespace(Decimal(n)[|Decimal(n)| - 1])
  {
    DecimalDigits(n);
  }

  /** `<text>-<n>`: a plain value ending in a digit. */
  lemma NumberedPlain(text: string, n: nat)
    requires Plain(text)
    ensures Plain(text + Decimal(n)) && |text + Decimal(n)| > 0
    ensures !IsWhitespace((text + Decimal(n))[|text + Decimal(n)| - 1])
  {
    DecimalPlain(n);
    PlainConcat(text, Decimal(n));
  }

  lemma TransportFieldOk(p: Ports)
    ensures FieldOk("Transport", ClientPortTransport(p))
  {
    var head := "RTP/AVP;unicast;client_port=";
    LiteralsPlain();
    TransportKeyOk();
    NumberedPlain(head, p.rtp);
    assert Plain("-");
    PlainConcat(head + Decimal(p.rtp), "-");
    NumberedPlain(head + Decimal(p.rtp) + "-", p.rtcp);
  }

  lemma LiteralsPlain()
    ensures Plain("RTP/AVP;unicast;client_port=") && Plain("-")
  {
    assert Plain("RTP/AVP;") && Plain("unicast;") && Plain("client_port=");
    PlainConcat("RTP/AVP;", "unicast;");
    assert "RTP/AVP;" + "unicast;" == "RTP/AVP;unicast;";
    PlainConcat("RTP/AVP;unicast;", "client_port=");
    assert "RTP/AVP;unicast;" + "client_port=" == "RTP/AVP;unicast;client_port=";
  }

  lemma TransportKeyOk()
    ensures Plain("Transport") && Without("Transport", ':') && Trimmed("Transport")
  {
  }

  // ---------------------------------------------------------------------------
  // Responses from the server
  // ---------------------------------------------------------------------------

  /** `sid.split(';').next()`: the session identifier without its
      `;timeout=` parameter. */
  function SessionIdOf(value: string): string
  {
    BeforeFirst(value, ';')
  }

  /** The suffix that tells the browser which datagram channels carry the
      stream just set up. */
  function ChannelSuffix(p: PendingSetup): string
  {
    ";x-wt-channel-id=" + Decimal(p.rtpChannelId) + "-" + Decimal(p.rtcpChannelId)
  }

  /** The first `Session` value seen is kept; later ones are ignored. */
  function CaptureSession(sid: Option<string>, resp: Response): Option<string>
  {
    if "Session" in resp.headers && sid.None? then Some(SessionIdOf(resp.headers["Session"])) else sid
  }

  /** A successful reply to a SETUP: status 200 with a `Transport` header,
      while a setup is pending. */
  predicate AnswersSetup(s: Session, resp: Response)
  {
    resp.statusCode == 200 && "Transport" in resp.headers && |s.pending| > 0
  }

  /** One response taken from the server's buffer: the new state, the
      response forwarded to the browser, and the setup whose two forwarders
      are spawned. */
  function OnResponse(s: Session, resp: Response): (Session, Response, Option<PendingSetup>)
  {
    var sid := CaptureSession(s.sessionId, resp);
    if AnswersSetup(s, resp) then
      var p := s.pending[0];
      var transport := resp.headers["Transport"] + ChannelSuffix(p);
      (s.(sessionId := sid, pending := s.pending[1..]),
       resp.(headers := resp.headers["Transport" := transport]),
       Some(p))
    else (s.(sessionId := sid), resp, None)
  }

  /** A reply to a SETUP takes the OLDEST pending setup and announces its
      channel ids in `Transport`; any other response leaves the queue and
      the response itself untouched. The channel counter never moves here. */
  lemma OnResponseSpec(s: Session, resp: Response)
    requires Inv(s)
    ensures var (s', out, spawned) := OnResponse(s, resp);
      && Inv(s')
      && s'.nextChannelId == s.nextChannelId
      && (spawned.Some? <==> AnswersSetup(s, resp))
      && (out == resp <==> !AnswersSetup(s, resp))
      && (!AnswersSetup(s, resp) ==> s'.pending == s.pending)
      && (AnswersSetup(s, resp) ==>
            && spawned == Some(s.pending[0]) && PairOk(s.pending[0])
            && s.pending == [s.pending[0]] + s'.pending
            && out == resp.(headers := out.headers)
            && out.headers.Keys == resp.headers.Keys
            && forall k :: k in out.headers ==>
                 out.headers[k] == resp.headers[k] + (if k == "Transport" then ChannelSuffix(s.pending[0]) else ""))
  {
    if AnswersSetup(s, resp) {
      var out := OnResponse(s, resp).1;
      assert |out.headers["Transport"]| > |resp.headers["Transport"]|;
    }
  }

  /** The session id is set once, from the first response that carries a
      `Session` header, cut at its first `;`; afterwards it never changes. */
  lemma SessionCaptureSpec(s: Session, resp: Response)
    ensures var sid := OnResponse(s, resp).0.sessionId;
      && (s.sessionId.Some? ==> sid == s.sessionId)
      && (s.sessionId.None? && "Session" in resp.headers ==>
            sid.Some? && resp.headers["Session"][..|sid.value|] == sid.value && Without(sid.value, ';')
            && (|sid.value| < |resp.headers["Session"]| ==> resp.headers["Session"][|sid.value|] == ';'))
      && (s.sessionId.None? && "Session" !in resp.headers ==> sid.None?)
  {
    if "Session" in resp.headers {
      BeforeFirstSpec(resp.headers["Session"], ';');
    }
  }

  /** The rewritten reply is still a response the browser parses back
      from its bytes: the suffix keeps the `Transport` value a plain field. */
  lemma OnResponseWellFormed(s: Session, resp: Response)
    requires ResponseWellFormed(resp)
    ensures ResponseWellFormed(OnResponse(s, resp).1)
  {
    if AnswersSetup(s, resp) {
      var p := s.pending[0];
      var given := resp.headers["Transport"];
      SuffixPlain(p);
      assert FieldOk("Transport", given);
      PlainConcat(given, ChannelSuffix(p));
      var v := given + ChannelSuffix(p);
      assert v[|v| - 1] == ChannelSuffix(p)[|ChannelSuffix(p)| - 1];
      assert |given| > 0 ==> v[0] == given[0];
      var h := resp.headers["Transport" := v];
      assert ContentLength(h) == ContentLength(resp.headers);
    }
  }

  /** The channel suffix is plain text that starts with `;` and ends in a digit. */
  lemma SuffixPlain(p: PendingSetup)
    ensures var x := ChannelSuffix(p);
      Plain(x) && x[0] == ';' && !IsWhitespace(x[|x| - 1])
  {
    var head := ";x-wt-channel-id=";
    assert Plain(head) && Plain("-");
    NumberedPlain(head, p.rtpChannelId);
    PlainConcat(head + Decimal(p.rtpChannelId), "-");
    NumberedPlain(head + Decimal(p.rtpChannelId) + "-", p.rtcpChannelId);
  }

  // ---------------------------------------------------------------------------
  // Runs of messages
  // ---------------------------------------------------------------------------

  /** What reaches the state machine: a request from the browser together
      with the ports its SETUP would bind, or a response from the server. */
  datatype Event = FromBrowser(req: Request, ports: Ports) | FromServer(resp: Response)

  function Step(s: Session, e: Event): Session
  {
    match e
    case FromBrowser(req, ports) => OnRequest(s, req, ports).0
    case FromServer(resp) => OnResponse(s, resp).0
  }

  function Run(s: Session, events: seq<Event>): Session
    decreases |events|
  {
    if |events| == 0 then s else Run(Step(s, events[0]), events[1..])
  }

  /** The setup a single event confirms, if any. */
  function Confirmed(s: Session, e: Event): seq<PendingSetup>
  {
    if e.FromServer? && AnswersSetup(s, e.resp) then [s.pending[0]] else []
  }

  /** The ports a single event binds, if it is a SETUP. */
  function BoundPorts(e: Event): seq<Ports>
  {
    if e.FromBrowser? && e.req.methodName == "SETUP" then [e.ports] else []
  }

  /** The setups the server has confirmed during a run, oldest first. */
  function Announced(s: Session, events: seq<Event>): seq<PendingSetup>
    decreases |events|
  {
    if |events| == 0 then [] else Confirmed(s, events[0]) + Announced(Step(s, events[0]), events[1..])
  }

  /** The ports bound for the SETUP requests of a run, in arrival order. */
  function SetupPorts(events: seq<Event>): seq<Ports>
    decreases |events|
  {
    if |events| == 0 then [] else BoundPorts(events[0]) + SetupPorts(events[1..])
  }

  /** The reference allocation: the i-th SETUP after a state whose counter
      is `next` gets the ids `next + 2i` and `next + 2i + 1`, modulo 256. */
  function Allocations(next: u8, ports: seq<Ports>): (r: seq<PendingSetup>)
    requires next % 2 == 0
    ensures |r| == |ports|
  {
    seq(|ports|, i requires 0 <= i < |ports| =>
      PendingSetup((next + 2 * i) % 0x100, (next + 2 * i) % 0x100 + 1, ports[i]))
  }

  /** Adding modulo 256 in two steps or in one gives the same `u8`. */
  lemma WrapAdd(x: nat, a: nat, b: nat)
    ensures ((x + a) % 0x100 + b) % 0x100 == (x + a + b) % 0x100
  {
    var q := (x + a) / 0x100;
    assert x + a == q * 0x100 + (x + a) % 0x100;
    assert x + a + b == q * 0x100 + ((x + a) % 0x100 + b);
  }

  lemma AllocationsAppend(next: u8, p: seq<Ports>, q: seq<Ports>)
    requires next % 2 == 0
    ensures Allocations(next, p + q) == Allocations(next, p) + Allocations((next + 2 * |p|) % 0x100, q)
  {
    var a := Allocations(next, p + q);
    var b := Allocations(next, p) + Allocations((next + 2 * |p|) % 0x100, q);
    forall i | |p| <= i < |a|
      ensures a[i] == b[i]
    {
      WrapAdd(next, 2 * |p|, 2 * (i - |p|));
    }
  }

  /** One event keeps the invariant and moves the queue like a FIFO: what it
      confirms followed by the new queue is the old queue followed by what
      it allocates. */
  lemma StepAllocation(s: Session, e: Event)
    requires Inv(s)
    ensures var s1 := Step(s, e);
      && Inv(s1)
      && Confirmed(s, e) + s1.pending == s.pending + Allocations(s.nextChannelId, BoundPorts(e))
      && s1.nextChannelId == (s.nextChannelId + 2 * |BoundPorts(e)|) % 0x100
  {
    match e {
      case FromBrowser(req, ports) =>
        OnRequestSpec(s, req, ports);
        if req.methodName == "SETUP" {
          assert Allocations(s.nextChannelId, [ports]) == [Allocate(s.nextChannelId, ports)];
        } else {
          assert Allocations(s.nextChannelId, []) == [];
        }
      case FromServer(resp) =>
        OnResponseSpec(s, resp);
        assert Allocations(s.nextChannelId, []) == [];
    }
  }

  lemma ConcatShift<T>(c: seq<T>, mid: seq<T>, later: seq<T>, fin: seq<T>, pend: seq<T>, a: seq<T>, b: seq<T>)
    requires c + mid == pend + a
    requires later + fin == mid + b
    ensures c + later + fin == pend + (a + b)
  {
    calc {
      c + later + fin;
      c + (later + fin);
      c + (mid + b);
      (c + mid) + b;
      pend + a + b;
    }
  }

  /** Every state reached from one satisfying `Inv` satisfies it. */
  lemma {:induction false} RunInv(s: Session, events: seq<Event>)
    requires Inv(s)
    ensures Inv(Run(s, events))
    decreases |events|
  {
    if |events| > 0 {
      StepAllocation(s, events[0]);
      RunInv(Step(s, events[0]), events[1..]);
    }
  }

  /** After a run the counter has moved on by two for every SETUP, modulo 256. */
  lemma {:induction false} RunCounter(s: Session, events: seq<Event>)
    requires Inv(s)
    ensures Run(s, events).nextChannelId == (s.nextChannelId + 2 * |SetupPorts(events)|) % 0x100
    decreases |events|
  {
    if |events| > 0 {
      var e := events[0];
      var rest := events[1..];
      StepAllocation(s, e);
      RunCounter(Step(s, e), rest);
      assert |SetupPorts(events)| == |BoundPorts(e)| + |SetupPorts(rest)|;
      WrapAdd(s.nextChannelId, 2 * |BoundPorts(e)|, 2 * |SetupPorts(rest)|);
    }
  }

  /** The pending queue is a FIFO: over any run, the setups confirmed so far
      followed by those still pending are exactly the setups allocated, in
      the order their SETUP requests arrived, each with the next even
      channel id. */
  lemma {:induction false} RunAllocation(s: Session, events: seq<Event>)
    requires Inv(s)
    ensures Announced(s, events) + Run(s, events).pending
         == s.pending + Allocations(s.nextChannelId, SetupPorts(events))
    decreases |events|
  {
    if |events| > 0 {
      var e := events[0];
      var s1 := Step(s, e);
      var rest := events[1..];
      StepAllocation(s, e);
      RunAllocation(s1, rest);
      AllocationsAppend(s.nextChannelId, BoundPorts(e), SetupPorts(rest));
      assert SetupPorts(events) == BoundPorts(e) + SetupPorts(rest);
      ConcatShift(Confirmed(s, e), s1.pending, Announced(s1, rest), Run(s1, rest).pending,
        s.pending, Allocations(s.nextChannelId, BoundPorts(e)), Allocations(s1.nextChannelId, SetupPorts(rest)));
    }
  }

  /** Within 128 consecutive SETUPs no channel id is handed out twice. */
  lemma AllocationsDistinct(next: u8, ports: seq<Ports>)
    requires next % 2 == 0 && |ports| <= 128
    ensures var a := Allocations(next, ports);
      forall i, j :: 0 <= i < j < |a| ==>
        && a[i].rtpChannelId != a[j].rtpChannelId
        && a[i].rtpChannelId != a[j].rtcpChannelId
        && a[i].rtcpChannelId != a[j].rtpChannelId
        && a[i].rtcpChannelId != a[j].rtcpChannelId
  {
    var a := Allocations(next, ports);
    forall i, j | 0 <= i < j < |a|
      ensures a[i].rtpChannelId != a[j].rtpChannelId
    {
      var x := next + 2 * i;
      var y := next + 2 * j;
      assert 0 < y - x < 0x100;
    }
  }

  /** The 129th SETUP reuses the ids of the first: `u8` wrap-around. */
  lemma AllocationsWrap(next: u8, ports: seq<Ports>)
    requires next % 2 == 0 && |ports| > 128
    ensures Allocations(next, ports)[128].rtpChannelId == Allocations(next, ports)[0].rtpChannelId
  {
  }

  /** Once captured, the session id survives every later message. */
  lemma {:induction false} SessionSticks(s: Session, events: seq<Event>)
    requires s.sessionId.Some?
    ensures Run(s, events).sessionId == s.sessionId
    decreases |events|
  {
    if |events| > 0 {
      RunPreservesSession(s, events[0]);
      SessionSticks(Step(s, events[0]), events[1..]);
    }
  }

  lemma RunPreservesSession(s: Session, e: Event)
    requires s.sessionId.Some?
    ensures Step(s, e).sessionId == s.sessionId
  {
  }

  /** A response carrying `Session`. */
  predicate CarriesSession(e: Event)
  {
    e.FromServer? && "Session" in e.resp.headers
  }

  /** The first response of a run that carries `Session` fixes the session
      id for the rest of the connection. */
  lemma {:induction false} FirstSessionWins(s: Session, events: seq<Event>, i: nat)
    requires s.sessionId.None?
    requires i < |events| && CarriesSession(events[i])
    requires forall j :: 0 <= j < i ==> !CarriesSession(events[j])
    ensures Run(s, events).sessionId == Some(SessionIdOf(events[i].resp.headers["Session"]))
    decreases i
  {
    var s1 := Step(s, events[0]);
    if i == 0 {
      SessionSticks(s1, events[1..]);
    } else {
      assert !CarriesSession(events[0]);
      assert s1.sessionId.None?;
      FirstSessionWins(s1, events[1..], i - 1);
    }
  }

  // ---------------------------------------------------------------------------
  // Teardown
  // ---------------------------------------------------------------------------

  /** The text of the TEARDOWN written to the server on exit. */
  function TeardownText(url: string, sid: string): string
  {
    "TEARDOWN " + url + " RTSP/1.0\r\nCSeq: 99\r\nSession: " + sid + "\r\n\r\n"
  }

  /** The request the TEARDOWN text stands for. */
  function TeardownRequest(url: string, sid: string): Request
  {
    Request("TEARDOWN", url, "RTSP/1.0", map["CSeq" := "99", "Session" := sid], [])
  }

  /** The bytes written on exit: a TEARDOWN exactly when a session id was
      captured. */
  function Teardown(url: string, sid: Option<string>): (r: Option<seq<u8>>)
  {
    match sid
    case None => None
    case Some(id) => Some(Utf8(TeardownText(url, id)))
  }

  /** The TEARDOWN text is what `to_bytes` writes for the request it stands
      for, with `CSeq` iterated before `Session`. */
  lemma TeardownSerialized(url: string, sid: string)
    ensures IsEnumeration(["CSeq", "Session"], TeardownRequest(url, sid).headers)
    ensures SerializeRequest(TeardownRequest(url, sid), ["CSeq", "Session"]) == Utf8(TeardownText(url, sid))
  {
    var m := TeardownRequest(url, sid);
    TeardownHeaderBlock(sid);
    TeardownTextShape(url, sid);
    assert RequestLine(m) == "TEARDOWN " + url + " RTSP/1.0";
    assert SerializeRequest(m, ["CSeq", "Session"]) == Utf8(TeardownText(url, sid)) + [];
  }

  lemma TeardownHeaderBlock(sid: string)
    ensures Terminated(FieldLines(map["CSeq" := "99", "Session" := sid], ["CSeq", "Session"]))
         == "CSeq: 99" + "\r\n" + ("Session: " + sid + "\r\n" + "")
  {
    var fields := FieldLines(map["CSeq" := "99", "Session" := sid], ["CSeq", "Session"]);
    assert fields[0] == "CSeq: 99" && fields[1] == "Session: " + sid;
    var tail := fields[1..];
    assert tail[0] == fields[1] && tail[1..] == [];
    assert Terminated(tail) == fields[1] + "\r\n" + "";
    assert Terminated(fields) == fields[0] + "\r\n" + Terminated(tail);
  }

  lemma TeardownTextShape(url: string, sid: string)
    ensures "TEARDOWN " + url + " RTSP/1.0" + "\r\n" + ("CSeq: 99" + "\r\n" + ("Session: " + sid + "\r\n" + "")) + "\r\n"
         == TeardownText(url, sid)
  {
    TeardownLiterals();
    var a := "TEARDOWN " + url;
    var b := " RTSP/1.0" + "\r\n" + "CSeq: 99" + "\r\n" + "Session: ";
    calc {
      a + " RTSP/1.0" + "\r\n" + ("CSeq: 99" + "\r\n" + ("Session: " + sid + "\r\n" + "")) + "\r\n";
      a + b + sid + ("\r\n" + "" + "\r\n");
      TeardownText(url, sid);
    }
  }

  lemma TeardownLiterals()
    ensures " RTSP/1.0" + "\r\n" + "CSeq: 99" + "\r\n" + "Session: " == " RTSP/1.0\r\nCSeq: 99\r\nSession: "
    ensures "\r\n" + "" + "\r\n" == "\r\n\r\n"
  {
  }

  lemma TeardownWellFormed(url: string, sid: string)
    requires Token(url) && FieldOk("Session", sid)
    ensures RequestWellFormed(TeardownRequest(url, sid))
  {
    assert Token("TEARDOWN") && Token("RTSP/1.0");
    assert FieldOk("CSeq", "99");
    assert "Content-Length" !in TeardownRequest(url, sid).headers;
  }

  /** The TEARDOWN is an RTSP request the server parses in full: the URL as
      its target, `CSeq: 99`, the captured session, and nothing else. */
  lemma TeardownParses(url: string, sid: string)
    requires Token(url) && FieldOk("Session", sid)
    ensures var bytes := Utf8(TeardownText(url, sid));
      AsciiHead(bytes) && ParseRequest(bytes) == Parsed(TeardownRequest(url, sid), |bytes|)
  {
    var m := TeardownRequest(url, sid);
    TeardownSerialized(url, sid);
    TeardownWellFormed(url, sid);
    RequestRoundTrip(m, ["CSeq", "Session"], []);
    assert SerializeRequest(m, ["CSeq", "Session"]) + [] == Utf8(TeardownText(url, sid));
  }

  // ---------------------------------------------------------------------------
  // The connection loop
  // ---------------------------------------------------------------------------

  /** Every header map is iterated in some enumeration of its keys; which
      one is left open. */
  ghost predicate Enumerates(enumerate: map<string, string> -> seq<string>)
  {
    forall h :: IsEnumeration(enumerate(h), h)
  }

  /** Everything `handle_connection` keeps between two reads: the state
      machine, the two receive buffers, the bytes written to the server and
      to the browser, and the forwarders spawned so far. */
  datatype Snapshot = Snapshot(
    session: Session, wtBuf: seq<u8>, tcpBuf: seq<u8>,
    toServer: seq<u8>, toBrowser: seq<u8>, forwarders: seq<Forwarder>)

  /** Why `handle_connection` returns early with an error: a message that
      does not parse, or a UDP bind that fails. Both skip the cleanup. */
  datatype Abort = Malformed(error: ParseError) | BindFailed

  /** The outcome of a `while let` loop over one buffer: the new snapshot,
      the binds not used yet, and the early return, if any. */
  datatype Drained = Drained(conn: Snapshot, binds: seq<Ports>, abort: Option<Abort>)

  /** The two forwarders spawned for a confirmed setup. */
  function Spawn(p: PendingSetup): seq<Forwarder>
  {
    [Forwarder(p.rtpChannelId, p.sockets.rtp), Forwarder(p.rtcpChannelId, p.sockets.rtcp)]
  }

  /** Bytes of a buffer past a prefix of an ASCII buffer are ASCII. */
  lemma AsciiSuffix(buf: seq<u8>, c: nat)
    requires IsAscii(buf) && c <= |buf|
    ensures IsAscii(buf[c..])
  {
    assert forall i :: 0 <= i < |buf| - c ==> buf[c..][i] == buf[c + i];
  }

  /** The `while let` loop over the browser's buffer: every complete request
      is taken off the front, a SETUP binds the next two sockets from
      `binds`, and the request is written to the server. */
  function DrainRequests(c: Snapshot, binds: seq<Ports>, enumerate: map<string, string> -> seq<string>): Drained
    requires IsAscii(c.wtBuf) && Enumerates(enumerate)
    decreases |c.wtBuf|
  {
    AsciiHeadOfAscii(c.wtBuf);
    match ParseRequest(c.wtBuf)
    case Incomplete => Drained(c, binds, None)
    case Failed(e) => Drained(c, binds, Some(Malformed(e)))
    case Parsed(req, n) =>
      AsciiSuffix(c.wtBuf, n);
      var c1 := c.(wtBuf := c.wtBuf[n..]);
      if req.methodName != "SETUP" then
        DrainRequests(c1.(toServer := c.toServer + SerializeRequest(req, enumerate(req.headers))), binds, enumerate)
      else if |binds| == 0 then Drained(c1, binds, Some(BindFailed))
      else
        var (s', out) := OnRequest(c.session, req, binds[0]);
        DrainRequests(c1.(session := s', toServer := c.toServer + SerializeRequest(out, enumerate(out.headers))),
                      binds[1..], enumerate)
  }

  /** The `while let` loop over the server's buffer: every complete response
      is taken off the front, handled, and written to the browser. */
  function DrainResponses(c: Snapshot, enumerate: map<string, string> -> seq<string>): Drained
    requires IsAscii(c.tcpBuf) && Enumerates(enumerate)
    decreases |c.tcpBuf|
  {
    AsciiHeadOfAscii(c.tcpBuf);
    match ParseResponse(c.tcpBuf)
    case Incomplete => Drained(c, [], None)
    case Failed(e) => Drained(c, [], Some(Malformed(e)))
    case Parsed(resp, n) =>
      AsciiSuffix(c.tcpBuf, n);
      var (s', out, confirmed) := OnResponse(c.session, resp);
      DrainResponses(c.(session := s', tcpBuf := c.tcpBuf[n..],
                        toBrowser := c.toBrowser + SerializeResponse(out, enumerate(out.headers)),
                        forwarders := c.forwarders + (if confirmed.Some? then Spawn(confirmed.value) else [])),
                     enumerate)
  }

  /** A snapshot every reachable one satisfies: ASCII buffers, a state
      satisfying `Inv`, and forwarders in channel pairs. */
  predicate SnapshotOk(c: Snapshot)
  {
    && IsAscii(c.wtBuf) && IsAscii(c.tcpBuf) && Inv(c.session)
    && |c.forwarders| % 2 == 0
    && forall i :: 0 <= i < |c.forwarders| / 2 ==>
         && c.forwarders[2 * i].channelId % 2 == 0
         && c.forwarders[2 * i + 1].channelId == c.forwarders[2 * i].channelId + 1
  }

  /** Draining the browser's buffer keeps the snapshot invariant, only ever
      appends to what was written to the server, touches neither the
      server's buffer nor the browser's side, and, unless it stops early,
      leaves no complete request behind. */
  lemma {:induction false} DrainRequestsSpec(c: Snapshot, binds: seq<Ports>, enumerate: map<string, string> -> seq<string>)
    requires SnapshotOk(c) && Enumerates(enumerate)
    ensures var d := DrainRequests(c, binds, enumerate);
      && SnapshotOk(d.conn)
      && c.toServer <= d.conn.toServer
      && d.conn.tcpBuf == c.tcpBuf && d.conn.toBrowser == c.toBrowser && d.conn.forwarders == c.forwarders
      && d.conn.session.sessionId == c.session.sessionId
      && (d.abort.None? ==> AsciiHead(d.conn.wtBuf) && ParseRequest(d.conn.wtBuf).Incomplete?)
    decreases |c.wtBuf|
  {
    AsciiHeadOfAscii(c.wtBuf);
    match ParseRequest(c.wtBuf) {
      case Incomplete =>
      case Failed(e) =>
      case Parsed(req, n) =>
        AsciiSuffix(c.wtBuf, n);
        var c1 := c.(wtBuf := c.wtBuf[n..]);
        if req.methodName != "SETUP" {
          var c2 := c1.(toServer := c.toServer + SerializeRequest(req, enumerate(req.headers)));
          DrainRequestsSpec(c2, binds, enumerate);
          PrefixOfAppend(c.toServer, SerializeRequest(req, enumerate(req.headers)), DrainRequests(c2, binds, enumerate).conn.toServer);
        } else if |binds| > 0 {
          var (s', out) := OnRequest(c.session, req, binds[0]);
          OnRequestSpec(c.session, req, binds[0]);
          var c2 := c1.(session := s', toServer := c.toServer + SerializeRequest(out, enumerate(out.headers)));
          DrainRequestsSpec(c2, binds[1..], enumerate);
          PrefixOfAppend(c.toServer, SerializeRequest(out, enumerate(out.headers)), DrainRequests(c2, binds[1..], enumerate).conn.toServer);
        }
    }
  }

  /** Draining the server's buffer keeps the snapshot invariant, only ever
      appends to what was written to the browser and to the forwarders,
      touches neither the browser's buffer nor the server's side, and,
      unless it stops early, leaves no complete response behind. */
  lemma {:induction false} DrainResponsesSpec(c: Snapshot, enumerate: map<string, string> -> seq<string>)
    requires SnapshotOk(c) && Enumerates(enumerate)
    ensures var d := DrainResponses(c, enumerate);
      && SnapshotOk(d.conn)
      && c.toBrowser <= d.conn.toBrowser
      && c.forwarders <= d.conn.forwarders
      && d.conn.wtBuf == c.wtBuf && d.conn.toServer == c.toServer
      && d.conn.session.nextChannelId == c.session.nextChannelId
      && (c.session.sessionId.Some? ==> d.conn.session.sessionId == c.session.sessionId)
      && (d.abort.None? ==> AsciiHead(d.conn.tcpBuf) && ParseResponse(d.conn.tcpBuf).Incomplete?)
    decreases |c.tcpBuf|
  {
    AsciiHeadOfAscii(c.tcpBuf);
    match ParseResponse(c.tcpBuf) {
      case Incomplete =>
      case Failed(e) =>
      case Parsed(resp, n) =>
        AsciiSuffix(c.tcpBuf, n);
        var (s', out, confirmed) := OnResponse(c.session, resp);
        OnResponseSpec(c.session, resp);
        var more := if confirmed.Some? then Spawn(confirmed.value) else [];
        var c2 := c.(session := s', tcpBuf := c.tcpBuf[n..],
                     toBrowser := c.toBrowser + SerializeResponse(out, enumerate(out.headers)),
                     forwarders := c.forwarders + more);
        SpawnKeepsPairs(c.forwarders, more);
        DrainResponsesSpec(c2, enumerate);
        var d := DrainResponses(c2, enumerate);
        PrefixOfAppend(c.toBrowser, SerializeResponse(out, enumerate(out.headers)), d.conn.toBrowser);
        PrefixOfAppend(c.forwarders, more, d.conn.forwarders);
    }
  }

  lemma PrefixOfAppend<T>(a: seq<T>, b: seq<T>, c: seq<T>)
    requires a + b <= c
    ensures a <= c
  {
    assert c[..|a|] == (a + b)[..|a|];
  }

  lemma SpawnKeepsPairs(fs: seq<Forwarder>, more: seq<Forwarder>)
    requires |fs| % 2 == 0
    requires forall i :: 0 <= i < |fs| / 2 ==>
      fs[2 * i].channelId % 2 == 0 && fs[2 * i + 1].channelId == fs[2 * i].channelId + 1
    requires more == [] || (|more| == 2 && more[0].channelId % 2 == 0 && more[1].channelId == more[0].channelId + 1)
    ensures var all := fs + more;
      |all| % 2 == 0 &&
      forall i :: 0 <= i < |all| / 2 ==>
        all[2 * i].channelId % 2 == 0 && all[2 * i + 1].channelId == all[2 * i].channelId + 1
  {
    var all := fs + more;
    forall i | 0 <= i < |all| / 2
      ensures all[2 * i].channelId % 2 == 0 && all[2 * i + 1].channelId == all[2 * i].channelId + 1
    {
      if i < |fs| / 2 {
        assert all[2 * i] == fs[2 * i] && all[2 * i + 1] == fs[2 * i + 1];
      } else {
        assert all[2 * i] == more[0] && all[2 * i + 1] == more[1];
      }
    }
  }

  lemma AsciiAppend(a: seq<u8>, b: seq<u8>)
    requires IsAscii(a) && IsAscii(b)
    ensures IsAscii(a + b)
  {
    assert forall i :: 0 <= i < |a + b| ==> (a + b)[i] == if i < |a| then a[i] else b[i - |a|];
  }

  /** What one turn of the select loop can deliver: bytes read from the
      browser's control stream or from the server's socket (none at all
      means that side closed), or a read error on either. */
  datatype Input = BrowserRead(bytes: seq<u8>) | ServerRead(bytes: seq<u8>) | BrowserReadError | ServerReadError

  predicate InputsAscii(inputs: seq<Input>)
  {
    forall i :: 0 <= i < |inputs| && !inputs[i].BrowserReadError? && !inputs[i].ServerReadError? ==>
      IsAscii(inputs[i].bytes)
  }

  /** How a run of the select loop ends: still open when the inputs run out,
      closed by a read that ends the loop, or aborted by an early return. */
  datatype Outcome = Open | Closed | Aborted(cause: Abort)

  datatype Served = Served(conn: Snapshot, binds: seq<Ports>, outcome: Outcome)

  /** The cleanup after the loop: the TEARDOWN, when a session id was captured. */
  function Cleanup(c: Snapshot, url: string): Snapshot
  {
    match Teardown(url, c.session.sessionId)
    case None => c
    case Some(bytes) => c.(toServer := c.toServer + bytes)
  }

  /** `handle_connection` from the point the server is connected: each input
      is handled in turn; a closed side or a read error ends the loop and
      runs the cleanup, a parse or bind error returns at once without it. */
  function ServeSpec(c: Snapshot, inputs: seq<Input>, binds: seq<Ports>, url: string,
                     enumerate: map<string, string> -> seq<string>): Served
    requires SnapshotOk(c) && InputsAscii(inputs) && Enumerates(enumerate)
    decreases |inputs|
  {
    if |inputs| == 0 then Served(c, binds, Open)
    else
      assert InputsAscii(inputs[1..]) by {
        assert forall i :: 0 <= i < |inputs| - 1 ==> inputs[1..][i] == inputs[i + 1];
      }
      match inputs[0]
      case BrowserReadError => Served(Cleanup(c, url), binds, Closed)
      case ServerReadError => Served(Cleanup(c, url), binds, Closed)
      case BrowserRead(b) =>
        if |b| == 0 then Served(Cleanup(c, url), binds, Closed)
        else
          AsciiAppend(c.wtBuf, b);
          var c1 := c.(wtBuf := c.wtBuf + b);
          DrainRequestsSpec(c1, binds, enumerate);
          var d := DrainRequests(c1, binds, enumerate);
          if d.abort.Some? then Served(d.conn, d.binds, Aborted(d.abort.value))
          else ServeSpec(d.conn, inputs[1..], d.binds, url, enumerate)
      case ServerRead(b) =>
        if |b| == 0 then Served(Cleanup(c, url), binds, Closed)
        else
          AsciiAppend(c.tcpBuf, b);
          var c1 := c.(tcpBuf := c.tcpBuf + b);
          DrainResponsesSpec(c1, enumerate);
          var d := DrainResponses(c1, enumerate);
          if d.abort.Some? then Served(d.conn, binds, Aborted(d.abort.value))
          else ServeSpec(d.conn, inputs[1..], binds, url, enumerate)
  }

  /** Whatever happens on a connection, the snapshot invariant holds,
      nothing written to either peer is ever taken back, no spawned
      forwarder disappears, and a captured session id never changes. */
  lemma {:induction false} ServeKeeps(c: Snapshot, inputs: seq<Input>, binds: seq<Ports>, url: string,
                                      enumerate: map<string, string> -> seq<string>)
    requires SnapshotOk(c) && InputsAscii(inputs) && Enumerates(enumerate)
    ensures var r := ServeSpec(c, inputs, binds, url, enumerate);
      && SnapshotOk(r.conn)
      && c.toServer <= r.conn.toServer && c.toBrowser <= r.conn.toBrowser && c.forwarders <= r.conn.forwarders
      && (c.session.sessionId.Some? ==> r.conn.session.sessionId == c.session.sessionId)
    decreases |inputs|
  {
    if |inputs| > 0 {
      assert InputsAscii(inputs[1..]) by {
        assert forall i :: 0 <= i < |inputs| - 1 ==> inputs[1..][i] == inputs[i + 1];
      }
      match inputs[0] {
        case BrowserReadError => CleanupOk(c, url);
        case ServerReadError => CleanupOk(c, url);
        case BrowserRead(b) =>
          if |b| == 0 {
            CleanupOk(c, url);
          } else {
            AsciiAppend(c.wtBuf, b);
            var c1 := c.(wtBuf := c.wtBuf + b);
            DrainRequestsSpec(c1, binds, enumerate);
            var d := DrainRequests(c1, binds, enumerate);
            if d.abort.None? {
              ServeKeeps(d.conn, inputs[1..], d.binds, url, enumerate);
            }
          }
        case ServerRead(b) =>
          if |b| == 0 {
            CleanupOk(c, url);
          } else {
            AsciiAppend(c.tcpBuf, b);
            var c1 := c.(tcpBuf := c.tcpBuf + b);
            DrainResponsesSpec(c1, enumerate);
            var d := DrainResponses(c1, enumerate);
            if d.abort.None? {
              ServeKeeps(d.conn, inputs[1..], binds, url, enumerate);
            }
          }
      }
    }
  }

  /** A connection that ends by a close or a read error while a session id
      is captured has written the TEARDOWN for exactly that session last. */
  lemma {:induction false} ServeTearsDown(c: Snapshot, inputs: seq<Input>, binds: seq<Ports>, url: string,
                                          enumerate: map<string, string> -> seq<string>)
    requires SnapshotOk(c) && InputsAscii(inputs) && Enumerates(enumerate)
    ensures var r := ServeSpec(c, inputs, binds, url, enumerate);
      r.outcome.Closed? && r.conn.session.sessionId.Some? ==>
        EndsWith(r.conn.toServer, Utf8(TeardownText(url, r.conn.session.sessionId.value)))
    decreases |inputs|
  {
    if |inputs| > 0 {
      assert InputsAscii(inputs[1..]) by {
        assert forall i :: 0 <= i < |inputs| - 1 ==> inputs[1..][i] == inputs[i + 1];
      }
      match inputs[0] {
        case BrowserReadError => CleanupEndsWith(c, url);
        case ServerReadError => CleanupEndsWith(c, url);
        case BrowserRead(b) =>
          if |b| == 0 {
            CleanupEndsWith(c, url);
          } else {
            AsciiAppend(c.wtBuf, b);
            var c1 := c.(wtBuf := c.wtBuf + b);
            DrainRequestsSpec(c1, binds, enumerate);
            var d := DrainRequests(c1, binds, enumerate);
            if d.abort.None? {
              ServeTearsDown(d.conn, inputs[1..], d.binds, url, enumerate);
            }
          }
        case ServerRead(b) =>
          if |b| == 0 {
            CleanupEndsWith(c, url);
          } else {
            AsciiAppend(c.tcpBuf, b);
            var c1 := c.(tcpBuf := c.tcpBuf + b);
            DrainResponsesSpec(c1, enumerate);
            var d := DrainResponses(c1, enumerate);
            if d.abort.None? {
              ServeTearsDown(d.conn, inputs[1..], binds, url, enumerate);
            }
          }
      }
    }
  }

  /** The cleanup appends the TEARDOWN and changes nothing else. */
  lemma CleanupOk(c: Snapshot, url: string)
    requires SnapshotOk(c)
    ensures var r := Cleanup(c, url);
      && SnapshotOk(r) && r.session == c.session
      && c.toServer <= r.toServer && r.toBrowser == c.toBrowser && r.forwarders == c.forwarders
  {
  }

  /** `t` is the tail of `a`. */
  predicate EndsWith(a: seq<u8>, t: seq<u8>)
  {
    |t| <= |a| && a[|a| - |t|..] == t
  }

  lemma CleanupEndsWith(c: Snapshot, url: string)
    ensures var r := Cleanup(c, url);
      r.session == c.session &&
      (c.session.sessionId.Some? ==> EndsWith(r.toServer, Utf8(TeardownText(url, c.session.sessionId.value))))
  {
    if c.session.sessionId.Some? {
      var t := Utf8(TeardownText(url, c.session.sessionId.value));
      assert (c.toServer + t)[|c.toServer|..] == t;
    }
  }

  /** The state of one `handle_connection` call. */
  class Connection {
    const rtspUrl: string
    var nextChannelId: u8
    var pending: seq<PendingSetup>
    var sessionId: Option<string>
    var wtBuf: seq<u8>
    var tcpBuf: seq<u8>
    var toServer: seq<u8>
    var toBrowser: seq<u8>
    var forwarders: seq<Forwarder>

    function Snap(): Snapshot
      reads this
    {
      Snapshot(Session(nextChannelId, pending, sessionId), wtBuf, tcpBuf, toServer, toBrowser, forwarders)
    }

    /** The locals of `handle_connection` once the server is connected. */
    constructor(rtspUrl: string)
      ensures this.rtspUrl == rtspUrl
      ensures Snap() == Snapshot(Initial, [], [], [], [], [])
      ensures SnapshotOk(Snap())
    {
      this.rtspUrl := rtspUrl;
      nextChannelId := 0;
      pending := [];
      sessionId := None;
      wtBuf := [];
      tcpBuf := [];
      toServer := [];
      toBrowser := [];
      forwarders := [];
    }

    /** Rewrites the SETUP's `Transport` and enqueues its channel ids. */
    method InterceptSetup(req: Request, ports: Ports) returns (out: Request)
      requires req.methodName == "SETUP"
      modifies this
      ensures (Snap().session, out) == OnRequest(old(Snap()).session, req, ports)
      ensures Snap() == old(Snap()).(session := Snap().session)
    {
      out := req;
      if "Transport" in out.headers {
        out := out.(headers := out.headers["Transport" := ClientPortTransport(ports)]);
      }
      var rtpId := nextChannelId;
      var rtcpId := (nextChannelId + 1) % 0x100;
      nextChannelId := (nextChannelId + 2) % 0x100;
      pending := pending + [PendingSetup(rtpId, rtcpId, ports)];
    }

    /** `tcp_write.write_all(&req.to_bytes())`. */
    method SendToServer(req: Request, enumerate: map<string, string> -> seq<string>)
      requires Enumerates(enumerate)
      modifies this
      ensures Snap() == old(Snap()).(toServer := old(toServer) + SerializeRequest(req, enumerate(req.headers)))
    {
      var bytes := WriteRequest(req, enumerate(req.headers));
      toServer := toServer + bytes;
    }

    /** Captures the session id, and for a reply to a SETUP pops the oldest
      pending setup, announces its channels and spawns its forwarders. */
    method InterceptResponse(resp: Response) returns (out: Response, confirmed: Option<PendingSetup>)
      modifies this
      ensures (Snap().session, out, confirmed) == OnResponse(old(Snap()).session, resp)
      ensures Snap() == old(Snap()).(session := Snap().session,
        forwarders := old(forwarders) + if confirmed.Some? then Spawn(confirmed.value) else [])
    {
      out := resp;
      if "Session" in resp.headers {
        var clean := SessionIdOf(resp.headers["Session"]);
        if sessionId.None? {
          sessionId := Some(clean);
        }
      }
      confirmed := None;
      if resp.statusCode == 200 && "Transport" in resp.headers && |pending| > 0 {
        var setup := pending[0];
        pending := pending[1..];
        confirmed := Some(setup);
        out := out.(headers := out.headers["Transport" := out.headers["Transport"] + ChannelSuffix(setup)]);
        forwarders := forwarders + [Forwarder(setup.rtpChannelId, setup.sockets.rtp)];
        forwarders := forwarders + [Forwarder(setup.rtcpChannelId, setup.sockets.rtcp)];
      }
    }

    /** `transport.write_control(&resp.to_bytes())`. */
    method SendToBrowser(resp: Response, enumerate: map<string, string> -> seq<string>)
      requires Enumerates(enumerate)
      modifies this
      ensures Snap() == old(Snap()).(toBrowser := old(toBrowser) + SerializeResponse(resp, enumerate(resp.headers)))
    {
      var bytes := WriteResponse(resp, enumerate(resp.headers));
      toBrowser := toBrowser + bytes;
    }

    /** The `read_control` arm of the select loop: appends what the browser sent and handles every
      complete request in the buffer. */
    method ReadFromBrowser(chunk: seq<u8>, binds: seq<Ports>, enumerate: map<string, string> -> seq<string>)
      returns (unused: seq<Ports>, abort: Option<Abort>)
      requires IsAscii(wtBuf) && IsAscii(chunk) && Enumerates(enumerate)
      modifies this
      ensures var d := DrainRequests(old(Snap()).(wtBuf := old(wtBuf) + chunk), binds, enumerate);
        Snap() == d.conn && unused == d.binds && abort == d.abort
    {
      AsciiAppend(wtBuf, chunk);
      wtBuf := wtBuf + chunk;
      unused := binds;
      while true
        invariant IsAscii(wtBuf)
        invariant DrainRequests(Snap(), unused, enumerate)
               == DrainRequests(old(Snap()).(wtBuf := old(wtBuf) + chunk), binds, enumerate)
        decreases |wtBuf|
      {
        AsciiHeadOfAscii(wtBuf);
        var r := ReadRequest(wtBuf);
        match r {
          case Incomplete =>
            abort := None;
            return;
          case Failed(e) =>
            abort := Some(Malformed(e));
            return;
          case Parsed(req, n) =>
            AsciiSuffix(wtBuf, n);
            wtBuf := wtBuf[n..];
            var out := req;
            if req.methodName == "SETUP" {
              if |unused| == 0 {
                abort := Some(BindFailed);
                return;
              }
              out := InterceptSetup(req, unused[0]);
              unused := unused[1..];
            }
            SendToServer(out, enumerate);
        }
      }
    }

    /** The `read_buf` arm of the select loop: appends what the server sent and handles every
      complete response in the buffer. */
    method ReadFromServer(chunk: seq<u8>, enumerate: map<string, string> -> seq<string>)
      returns (abort: Option<Abort>)
      requires IsAscii(tcpBuf) && IsAscii(chunk) && Enumerates(enumerate)
      modifies this
      ensures var d := DrainResponses(old(Snap()).(tcpBuf := old(tcpBuf) + chunk), enumerate);
        Snap() == d.conn && abort == d.abort
    {
      AsciiAppend(tcpBuf, chunk);
      tcpBuf := tcpBuf + chunk;
      while true
        invariant IsAscii(tcpBuf)
        invariant DrainResponses(Snap(), enumerate)
               == DrainResponses(old(Snap()).(tcpBuf := old(tcpBuf) + chunk), enumerate)
        decreases |tcpBuf|
      {
        AsciiHeadOfAscii(tcpBuf);
        var r := ReadResponse(tcpBuf);
        match r {
          case Incomplete =>
            abort := None;
            return;
          case Failed(e) =>
            abort := Some(Malformed(e));
            return;
          case Parsed(resp, n) =>
            AsciiSuffix(tcpBuf, n);
            tcpBuf := tcpBuf[n..];
            var out, confirmed := InterceptResponse(resp);
            SendToBrowser(out, enumerate);
        }
      }
    }

    /** The cleanup after the select loop: the TEARDOWN written on the way out, exactly when a
      session id was captured. */
    method Close() returns (teardown: Option<seq<u8>>)
      modifies this
      ensures teardown == Teardown(rtspUrl, old(sessionId))
      ensures Snap() == Cleanup(old(Snap()), rtspUrl)
    {
      teardown := None;
      match sessionId {
        case Some(sid) =>
          var text := "TEARDOWN " + rtspUrl + " RTSP/1.0\r\nCSeq: 99\r\nSession: " + sid + "\r\n\r\n";
          var bytes := Utf8(text);
          teardown := Some(bytes);
          toServer := toServer + bytes;
        case None =>
      }
    }

    /** `handle_connection` from its select loop on: the select loop over `inputs`, then the cleanup. */
    method Serve(inputs: seq<Input>, binds: seq<Ports>, enumerate: map<string, string> -> seq<string>)
      returns (unused: seq<Ports>, outcome: Outcome)
      requires SnapshotOk(Snap()) && InputsAscii(inputs) && Enumerates(enumerate)
      modifies this
      ensures var r := ServeSpec(old(Snap()), inputs, binds, rtspUrl, enumerate);
        Snap() == r.conn && unused == r.binds && outcome == r.outcome
    {
      unused := binds;
      var i := 0;
      while i < |inputs|
        invariant 0 <= i <= |inputs| && InputsAscii(inputs[i..])
        invariant SnapshotOk(Snap())
        invariant ServeSpec(Snap(), inputs[i..], unused, rtspUrl, enumerate)
               == ServeSpec(old(Snap()), inputs, binds, rtspUrl, enumerate)
        decreases |inputs| - i
      {
        assert inputs[i..][1..] == inputs[i + 1..];
        match inputs[i] {
          case BrowserReadError =>
            break;
          case ServerReadError =>
            break;
          case BrowserRead(b) =>
            if |b| == 0 {
              break;
            }
            AsciiAppend(wtBuf, b);
            DrainRequestsSpec(Snap().(wtBuf := wtBuf + b), unused, enumerate);
            var abort;
            unused, abort := ReadFromBrowser(b, unused, enumerate);
            if abort.Some? {
              outcome := Aborted(abort.value);
              return;
            }
          case ServerRead(b) =>
            if |b| == 0 {
              break;
            }
            AsciiAppend(tcpBuf, b);
            DrainResponsesSpec(Snap().(tcpBuf := tcpBuf + b), enumerate);
            var abort := ReadFromServer(b, enumerate);
            if abort.Some? {
              outcome := Aborted(abort.value);
              return;
            }
        }
        i := i + 1;
      }
      if i == |inputs| {
        outcome := Open;
        return;
      }
      var _ := Close();
      outcome := Closed;
    }
  }

  // ---------------------------------------------------------------------------
  // Datagram framing
  // ---------------------------------------------------------------------------

  /** The datagram `forward_udp` sends for a packet of `n` bytes received in
      `buf`: the channel id, then the packet. */
  method FrameDatagram(channelId: u8, buf: array<u8>, n: nat) returns (payload: seq<u8>)
    requires n <= buf.Length
    ensures |payload| == n + 1 && payload[0] == channelId && payload[1..] == buf[..n]
    ensures Unframe(payload) == Some((channelId, buf[..n]))
  {
    payload := [channelId];
    for i := 0 to n
      invariant payload == [channelId] + buf[..i]
    {
      payload := payload + [buf[i]];
    }
  }

  /** The inverse of the framing: the channel id, then the packet. */
  function Unframe(d: seq<u8>): Option<(u8, seq<u8>)>
  {
    if |d| == 0 then None else Some((d[0], d[1..]))
  }

  /** Every datagram the inverse of the framing accepts is a channel id
      followed by its packet, so framing is injective. */
  lemma UnframeFrame(d: seq<u8>, c: u8, packet: seq<u8>)
    requires Unframe(d) == Some((c, packet))
    ensures d == [c] + packet
  {
  }
}
