/** The WebSocket entry point of the proxy server: query parameters of the
    handshake, the registry that pairs a browser's control socket with its
    data socket under one `session_id`, and `extract_rtsp_url`.

    Sockets are opaque identities, the handshake and URL decoding are
    abstracted to the list of decoded query pairs, and the registry's mutex
    is reduced to the one critical section it guards. */
module Server {
  import opened Common

  /** A WebSocket stream, known only by its identity. */
  type Socket = nat

  /** What the registry holds for a session id while one half waits. */
  datatype SessionState = WaitingForData(control: Socket, rtspUrl: string) | WaitingForControl(data: Socket)

  /** A control socket, a data socket and the camera URL handed to the proxy. */
  datatype Pair = Pair(control: Socket, data: Socket, rtspUrl: string)

  datatype WsError =
    | MissingQueryParameters
    | MissingSessionId
    | MissingRtsp
    | DuplicateData(sessionId: string)
    | DuplicateControl(sessionId: string)

  // ---------------------------------------------------------------------------
  // Query parameters
  // ---------------------------------------------------------------------------

  /** The map the handshake callback builds from the query pairs, in order:
      a later pair with the same key overwrites an earlier one. */
  function ParamMap(pairs: seq<(string, string)>): map<string, string>
  {
    if |pairs| == 0 then map[]
    else ParamMap(pairs[..|pairs| - 1])[pairs[|pairs| - 1].0 := pairs[|pairs| - 1].1]
  }

  /** The handshake callback's loop over `url.query_pairs()` that fills `params`. */
  method CollectParams(pairs: seq<(string, string)>) returns (params: map<string, string>)
    ensures params == ParamMap(pairs)
  {
    params := map[];
    for i := 0 to |pairs|
      invariant params == ParamMap(pairs[..i])
    {
      assert pairs[..i + 1][..i] == pairs[..i];
      var (key, value) := pairs[i];
      params := params[key := value];
    }
    assert pairs[..|pairs|] == pairs;
  }

  /** A key is a parameter exactly when some pair carries it, and its value
      is the one of the last such pair. */
  lemma {:induction false} ParamMapLastWins(pairs: seq<(string, string)>, k: string)
    ensures k in ParamMap(pairs) <==> exists i :: 0 <= i < |pairs| && pairs[i].0 == k
    ensures forall i ::
      (0 <= i < |pairs| && pairs[i].0 == k && forall j :: i < j < |pairs| ==> pairs[j].0 != k) ==>
        k in ParamMap(pairs) && ParamMap(pairs)[k] == pairs[i].1
  {
    if |pairs| > 0 {
      var n := |pairs| - 1;
      var init := pairs[..n];
      ParamMapLastWins(init, k);
      assert forall i :: 0 <= i < n ==> init[i] == pairs[i];
      if pairs[n].0 != k {
        assert (exists i :: 0 <= i < |pairs| && pairs[i].0 == k) ==> exists i :: 0 <= i < n && init[i].0 == k;
      }
    }
  }

  /** `extract_rtsp_url`: the value of the first pair whose key is `rtsp`. */
  function ExtractRtspUrl(pairs: seq<(string, string)>): (r: Result<string, WsError>)
  {
    if |pairs| == 0 then Err(MissingRtsp)
    else if pairs[0].0 == "rtsp" then Ok(pairs[0].1)
    else ExtractRtspUrl(pairs[1..])
  }

  /** `extract_rtsp_url` fails exactly when no pair is keyed `rtsp`, and
      otherwise returns the value of the first one. */
  lemma {:induction false} ExtractRtspUrlSpec(pairs: seq<(string, string)>)
    ensures ExtractRtspUrl(pairs).Err? <==> forall i :: 0 <= i < |pairs| ==> pairs[i].0 != "rtsp"
    ensures ExtractRtspUrl(pairs).Ok? ==>
      exists i :: (0 <= i < |pairs| && pairs[i].0 == "rtsp" && ExtractRtspUrl(pairs).value == pairs[i].1 &&
        forall j :: 0 <= j < i ==> pairs[j].0 != "rtsp")
  {
    if |pairs| > 0 && pairs[0].0 != "rtsp" {
      var rest := pairs[1..];
      ExtractRtspUrlSpec(rest);
      assert forall i :: 0 <= i < |rest| ==> rest[i] == pairs[i + 1];
      if ExtractRtspUrl(rest).Ok? {
        var i :| 0 <= i < |rest| && rest[i].0 == "rtsp" &&
          ExtractRtspUrl(rest).value == rest[i].1 && forall j :: 0 <= j < i ==> rest[j].0 != "rtsp";
        assert pairs[i + 1].0 == "rtsp";
      } else {
        assert forall i :: 1 <= i < |pairs| ==> pairs[i] == rest[i - 1];
      }
    }
  }

  /** The two ways the server reads `rtsp` disagree on repeated keys: the
      WebTransport path takes the first value, the WebSocket path the last. */
  lemma RtspUrlPaths(a: string, b: string)
    ensures ExtractRtspUrl([("rtsp", a), ("rtsp", b)]) == Ok(a)
    ensures ParamMap([("rtsp", a), ("rtsp", b)])["rtsp"] == b
  {
    assert [("rtsp", a), ("rtsp", b)][..1] == [("rtsp", a)];
    assert [("rtsp", a), ("rtsp", b)][1..] == [("rtsp", b)];
  }

  // ---------------------------------------------------------------------------
  // Pairing
  // ---------------------------------------------------------------------------

  /** `type`, defaulting to `control`; anything but `data` is a control socket. */
  function ConnType(params: map<string, string>): string
  {
    if "type" in params then params["type"] else "control"
  }

  /** `handle_ws_connection` after the handshake: one WebSocket arrival with the query parameters its
      handshake produced (`None` when its path did not parse). Gives the
      pair to hand to the proxy, if this arrival completes one, and the
      new registry. */
  function Arrive(reg: map<string, SessionState>, params: Option<map<string, string>>, socket: Socket)
    : (Result<Option<Pair>, WsError>, map<string, SessionState>)
  {
    match params
    case None => (Err(MissingQueryParameters), reg)
    case Some(p) =>
      if "session_id" !in p then (Err(MissingSessionId), reg)
      else
        var id := p["session_id"];
        if ConnType(p) == "data" then
          if id !in reg then (Ok(None), reg[id := WaitingForControl(socket)])
          else match reg[id]
            case WaitingForData(control, url) => (Ok(Some(Pair(control, socket, url))), reg - {id})
            case WaitingForControl(_) => (Err(DuplicateData(id)), reg - {id})
        else if "rtsp" !in p then (Err(MissingRtsp), reg)
        else
          var url := p["rtsp"];
          if id !in reg then (Ok(None), reg[id := WaitingForData(socket, url)])
          else match reg[id]
            case WaitingForControl(data) => (Ok(Some(Pair(socket, data, url))), reg - {id})
            case WaitingForData(_, _) => (Err(DuplicateControl(id)), reg - {id})
  }

  /** The arrival's session id, when it has one. */
  function ArrivalId(params: Option<map<string, string>>): Option<string>
  {
    if params.Some? && "session_id" in params.value then Some(params.value["session_id"]) else None
  }

  /** The registry only ever changes at the arrival's own session id: every
      other entry stays as it was. A rejected arrival without a usable
      session id or, for a control socket, without `rtsp`, leaves the
      registry unchanged. */
  lemma ArriveFrame(reg: map<string, SessionState>, params: Option<map<string, string>>, socket: Socket)
    ensures var (r, reg') := Arrive(reg, params, socket);
      && (forall k :: Some(k) != ArrivalId(params) ==> (k in reg' <==> k in reg) && (k in reg ==> reg'[k] == reg[k]))
      && (r == Err(MissingQueryParameters) <==> params.None?)
      && (r == Err(MissingSessionId) <==> params.Some? && "session_id" !in params.value)
      && (r == Err(MissingRtsp) <==>
            params.Some? && "session_id" in params.value && ConnType(params.value) != "data" && "rtsp" !in params.value)
      && (r in {Err(MissingQueryParameters), Err(MissingSessionId), Err(MissingRtsp)} ==> reg' == reg)
  {
  }

  /** A path that parsed but carries no query string still yields a
      parameter map, the empty one, so the arrival is refused for its
      missing `session_id` and not for missing query parameters. */
  lemma NoQueryArrival(reg: map<string, SessionState>, socket: Socket)
    ensures Arrive(reg, Some(ParamMap([])), socket) == (Err(MissingSessionId), reg)
  {
  }

  /** An arrival finding the opposite half waiting completes the pair and
      takes the entry out; one finding its own kind waiting is rejected as
      a duplicate, and the entry is gone as well; one finding nothing
      waits under its session id. */
  lemma ArriveOutcome(reg: map<string, SessionState>, p: map<string, string>, socket: Socket)
    requires "session_id" in p && (ConnType(p) == "data" || "rtsp" in p)
    ensures var id := p["session_id"];
      var (r, reg') := Arrive(reg, Some(p), socket);
      var data := ConnType(p) == "data";
      && (id !in reg ==>
            r == Ok(None) && id in reg' &&
            reg'[id] == if data then WaitingForControl(socket) else WaitingForData(socket, p["rtsp"]))
      && (id in reg ==> id !in reg')
      && (id in reg && data && reg[id].WaitingForData? ==>
            r == Ok(Some(Pair(reg[id].control, socket, reg[id].rtspUrl))))
      && (id in reg && !data && reg[id].WaitingForControl? ==>
            r == Ok(Some(Pair(socket, reg[id].data, p["rtsp"]))))
      && (id in reg && data && reg[id].WaitingForControl? ==> r == Err(DuplicateData(id)))
      && (id in reg && !data && reg[id].WaitingForData? ==> r == Err(DuplicateControl(id)))
  {
  }

  /** A control socket and then a data socket with the same fresh session
      id are paired with the control socket's `rtsp` URL, and the registry
      is left as it was before either arrived. */
  lemma ControlThenData(reg: map<string, SessionState>, id: string, url: string, control: Socket, data: Socket,
                        first: map<string, string>, second: map<string, string>)
    requires id !in reg
    requires "session_id" in first && first["session_id"] == id && ConnType(first) != "data"
    requires "rtsp" in first && first["rtsp"] == url
    requires "session_id" in second && second["session_id"] == id && ConnType(second) == "data"
    ensures var (r1, reg1) := Arrive(reg, Some(first), control);
      var (r2, reg2) := Arrive(reg1, Some(second), data);
      r1 == Ok(None) && r2 == Ok(Some(Pair(control, data, url))) && reg2 == reg
  {
    var reg1 := Arrive(reg, Some(first), control).1;
    assert reg1 - {id} == reg;
  }

  /** A data socket and then a control socket with the same fresh session
      id are paired too, in the same roles. */
  lemma DataThenControl(reg: map<string, SessionState>, id: string, url: string, control: Socket, data: Socket,
                        first: map<string, string>, second: map<string, string>)
    requires id !in reg
    requires "session_id" in first && first["session_id"] == id && ConnType(first) == "data"
    requires "session_id" in second && second["session_id"] == id && ConnType(second) != "data"
    requires "rtsp" in second && second["rtsp"] == url
    ensures var (r1, reg1) := Arrive(reg, Some(first), data);
      var (r2, reg2) := Arrive(reg1, Some(second), control);
      r1 == Ok(None) && r2 == Ok(Some(Pair(control, data, url))) && reg2 == reg
  {
    var reg1 := Arrive(reg, Some(first), data).1;
    assert reg1 - {id} == reg;
  }

  /** The shared `SessionRegistry`. */
  class Registry {
    var sessions: map<string, SessionState>

    constructor()
      ensures sessions == map[]
    {
      sessions := map[];
    }

    /** The critical section of `handle_ws_connection` for one arrival. */
    method HandleArrival(params: Option<map<string, string>>, socket: Socket)
      returns (r: Result<Option<Pair>, WsError>)
      modifies this
      ensures (r, sessions) == Arrive(old(sessions), params, socket)
    {
      if params.None? {
        return Err(MissingQueryParameters);
      }
      var p := params.value;
      if "session_id" !in p {
        return Err(MissingSessionId);
      }
      var id := p["session_id"];
      var connType := if "type" in p then p["type"] else "control";
      if connType == "data" {
        var entry := if id in sessions then Some(sessions[id]) else None;
        sessions := sessions - {id};
        match entry {
          case Some(WaitingForData(control, url)) =>
            r := Ok(Some(Pair(control, socket, url)));
          case Some(WaitingForControl(_)) =>
            r := Err(DuplicateData(id));
          case None =>
            assert sessions[id := WaitingForControl(socket)] == old(sessions)[id := WaitingForControl(socket)];
            sessions := sessions[id := WaitingForControl(socket)];
            r := Ok(None);
        }
      } else {
        if "rtsp" !in p {
          return Err(MissingRtsp);
        }
        var url := p["rtsp"];
        var entry := if id in sessions then Some(sessions[id]) else None;
        sessions := sessions - {id};
        match entry {
          case Some(WaitingForControl(data)) =>
            r := Ok(Some(Pair(socket, data, url)));
          case Some(WaitingForData(_, _)) =>
            r := Err(DuplicateControl(id));
          case None =>
            assert sessions[id := WaitingForData(socket, url)] == old(sessions)[id := WaitingForData(socket, url)];
            sessions := sessions[id := WaitingForData(socket, url)];
            r := Ok(None);
        }
      }
    }
  }
}
