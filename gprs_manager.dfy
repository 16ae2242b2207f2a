/**
 * `GPRSManager`: the cellular transport.  It owns the connection state machine's fields,
 * the fields of the one asynchronous HTTP request it runs at a time and the TCP client,
 * and mirrors four of its values into the shared device record.  Each poll method is
 * proved to follow the step functions of modules `GprsLink` and `GprsHttp`; the
 * byte loops of the HTTP machine are methods proved against the functions of
 * `GprsResponse`.
 */
module Gprs {
  import opened Clock
  import opened Text
  import opened Wrappers
  import opened DeviceStateModel
  import opened GprsLink
  import opened GprsUrl
  import opened GprsRequest
  import opened GprsResponse
  import opened HttpRetry
  import opened GprsHttp

  // ----- The byte loops of the HTTP machine -----

  /** The header loop: one byte at a time until the size limit, the blank line, or no more bytes. */
  method ReadHeaderBytes(buffer: string, rx: string) returns (scan: HeaderScan)
    ensures scan == ScanHeaders(buffer, rx)
  {
    var buf := buffer;
    var rest := rx;
    while |rest| > 0
      invariant ScanHeaders(buf, rest) == ScanHeaders(buffer, rx)
      decreases |rest|
    {
      buf := buf + [rest[0]];
      rest := rest[1..];
      if |buf| >= GPRS_MAX_HEADER_SIZE {
        return TooLong(buf, rest);
      }
      if EndsWith(buf, BlankLine) {
        return HeadersEnd(buf, rest);
      }
    }
    return Drained(buf);
  }

  /** The body loop: append and count while the buffer has room, then discard the rest. */
  method ReadBodyBytes(buffer: string, read: nat, rx: string) returns (b: string, n: nat)
    ensures (b, n) == ReadBody(buffer, read, rx)
  {
    b, n := buffer, read;
    var rest := rx;
    while |rest| > 0
      invariant ReadBody(b, n, rest) == ReadBody(buffer, read, rx)
      decreases |rest|
    {
      if |b| < GPRS_BODY_BUFFER_SIZE - 1 {
        b := b + [rest[0]];
        n := n + 1;
        rest := rest[1..];
      } else {
        rest := "";
      }
    }
  }

  /** The chunk loop, one `NextChunk` turn per iteration, appending each chunk's data. */
  method DechunkLoop(buf: string) returns (complete: bool, body: string)
    requires |buf| < WRAP / 2
    ensures Dechunked(complete, body) == Dechunk(buf, 0)
  {
    DechunkAccSpec(buf, 0, "");
    assert "" + Dechunk(buf, 0).body == Dechunk(buf, 0).body;
    var pos: nat := 0;
    body := "";
    complete := false;
    while true
      invariant DechunkAcc(buf, pos, body) == Dechunk(buf, 0)
      decreases |buf| - pos
    {
      var turn := NextChunk(buf, pos);
      match turn
      case Stop =>
        return;
      case Done =>
        complete := true;
        return;
      case Next(p, piece) =>
        body := body + piece;
        pos := p;
    }
  }

  // ----- The shared record -----

  /** The four mirrored fields: state, transition time, connected flag, signal quality. */
  datatype Mirror = Mirror(state: GprsState, since: Millis, connected: bool, signal: Int16)

  /** `transitionToState` copies state and time into the record only on a real change. */
  function Mirrored(before: Link, after: Link, m: Mirror): Mirror
  {
    if after.state != before.state then m.(state := after.state, since := after.since) else m
  }

  class GprsManager {
    const deviceState: DeviceState?
    const simPin: string
    var authToken: string
    /** The connection machine: `_currentGprsState`, its transition time and the three counters. */
    var link: Link
    /** The asynchronous HTTP request: its state, timer, retries, target, request and response fields. */
    var request: Exchange
    /** `_gprsClient`. */
    var client: Client

    /** The mirrored fields of the record (meaningful only when there is one). */
    function RecordMirror(): Mirror
      reads this, deviceState
    {
      if deviceState == null then Mirror(Disabled, 0, false, 0)
      else Mirror(deviceState.currentGprsState, deviceState.lastGprsStateTransitionTime,
                  deviceState.isGprsConnected, deviceState.gprsSignalQuality)
    }

    /** Both state machines' invariants. */
    predicate Valid()
      reads this
    {
      GprsLink.Inv(link) && GprsHttp.Inv(request)
    }

    /**
     * The constructor: the connection machine DISABLED with all counters 0, no request
     * active, the HTTP machine IDLE with its response fields cleared, and the client closed.
     */
    constructor (deviceState: DeviceState?, simPin: string, authToken: string)
      ensures this.deviceState == deviceState && this.simPin == simPin && this.authToken == authToken
      ensures link == FreshLink && request == IdleExchange && client == Closed
      ensures Valid()
    {
      this.deviceState := deviceState;
      this.simPin := simPin;
      this.authToken := authToken;
      link := Link(Disabled, 0, 0, 0, 0);
      request := Exchange(Idle, false, 0, 0, Target("", 0, ""), "", "", false, false, "", 0, 0, false, 0);
      client := Client(false, "");
    }

    /** `setAuthToken`: only the token changes. */
    method SetAuthToken(token: string)
      modifies this
      ensures authToken == token
      ensures link == old(link) && request == old(request) && client == old(client)
    {
      authToken := token;
    }

    /** `isConnected`: exactly when the connection machine is OPERATIONAL. */
    predicate IsConnected()
      reads this
    {
      link.state == Operational
    }

    /**
     * `transitionToState`: a real change stamps the time, zeroes the reconnect counter
     * unless the target is RECONNECTING, zeroes the reset and attach counters for
     * INIT_START, and copies state and time into the record; the current state is a no-op.
     */
    method TransitionToState(target: GprsState, now: Millis)
      modifies this, deviceState
      ensures link == Enter(old(link), target, now)
      ensures request == old(request) && client == old(client) && authToken == old(authToken)
      ensures deviceState != null ==>
        RecordMirror() == Mirrored(old(link), link, old(RecordMirror())) &&
        deviceState.Unmirrored() == old(deviceState.Unmirrored())
    {
      if link.state != target {
        link := link.(state := target, since := now);
        if target != Reconnecting {
          link := link.(reconnectAttempt := 0);
        }
        if target == InitStart {
          link := link.(resetCount := 0, attachFailCount := 0);
        }
        if deviceState != null {
          deviceState.currentGprsState := link.state;
          deviceState.lastGprsStateTransitionTime := link.since;
        }
      }
    }

    /** `connect`: starts the machine from DISABLED and reports success whatever the state. */
    method Connect(now: Millis) returns (ok: bool)
      requires Valid()
      modifies this, deviceState
      ensures ok
      ensures link == GprsLink.Connect(old(link), now)
      ensures link.state != Disabled && (old(link.state) == Disabled ==> !IsConnected())
      ensures request == old(request) && client == old(client) && authToken == old(authToken)
      ensures Valid()
      ensures deviceState != null ==>
        RecordMirror() == Mirrored(old(link), link, old(RecordMirror())) &&
        deviceState.Unmirrored() == old(deviceState.Unmirrored())
    {
      ConnectKeepsInv(link, now);
      if link.state == Disabled {
        TransitionToState(InitStart, now);
      }
      return true;
    }

    /**
     * `disconnect`: only asks the modem to drop its data context; no field changes, so the
     * connection machine still reports OPERATIONAL until its next probe notices.
     */
    method Disconnect()
      ensures IsConnected() == old(IsConnected())
    {
    }

    /**
     * `updateFSM`: the record receives the signal quality and whether the machine was
     * OPERATIONAL before this poll, then the handler of the current state runs; the HTTP
     * fields are untouched and the client is stopped where the handler stops it.
     */
    method UpdateFsm(m: ModemReplies, now: Millis)
      requires Valid()
      modifies this, deviceState
      ensures var p := Poll(old(link), |simPin| > 0, m, now);
        link == p.link && client == (if p.stopsClient then Closed else old(client))
      ensures request == old(request) && authToken == old(authToken)
      ensures Valid()
      ensures deviceState != null ==>
        RecordMirror() ==
          Mirrored(old(link), link,
                   old(RecordMirror()).(connected := old(link.state) == Operational, signal := m.signalQuality)) &&
        deviceState.Unmirrored() == old(deviceState.Unmirrored())
    {
      RecordPollStart(m.signalQuality);
      var before := link;
      var p := Poll(before, |simPin| > 0, m, now);
      GprsLink.PollKeepsInv(before, |simPin| > 0, m, now);
      if p.stopsClient {
        client := Closed;
      }
      link := p.link;
      MirrorTransition(before);
    }

    /** The start of `updateFSM`: signal quality and connected flag into the record. */
    method RecordPollStart(signal: Int16)
      modifies deviceState
      ensures deviceState != null ==>
        RecordMirror() == old(RecordMirror()).(connected := link.state == Operational, signal := signal) &&
        deviceState.Unmirrored() == old(deviceState.Unmirrored())
    {
      if deviceState != null {
        deviceState.gprsSignalQuality := signal;
        deviceState.isGprsConnected := IsConnected();
      }
    }

    /** The end of `updateFSM`: state and time into the record when the state changed since `before`. */
    method MirrorTransition(before: Link)
      modifies deviceState
      ensures deviceState != null ==>
        RecordMirror() == Mirrored(before, link, old(RecordMirror())) &&
        deviceState.Unmirrored() == old(deviceState.Unmirrored())
    {
      if deviceState != null && link.state != before.state {
        deviceState.currentGprsState := link.state;
        deviceState.lastGprsStateTransitionTime := link.since;
      }
    }

    /**
     * `startAsyncHttpRequest`: refused while busy, while not connected, or when the URL does
     * not split; otherwise the request is stored and the machine starts at CLIENT_CONNECT.
     */
    method StartAsyncHttpRequest(url: string, verb: string, payload: string, hasCallback: bool, needsAuth: bool,
                                 now: Millis) returns (ok: bool)
      requires Valid()
      modifies this
      ensures var r := StartRequest(old(request), old(IsConnected()), url, verb, payload, hasCallback, needsAuth, now);
        ok == r.Some? && request == (if ok then r.value else old(request))
      ensures link == old(link) && client == old(client) && authToken == old(authToken)
      ensures Valid()
    {
      StartRequestSpec(request, IsConnected(), url, verb, payload, hasCallback, needsAuth, now);
      if request.active {
        return false;
      }
      if !IsConnected() {
        return false;
      }
      match SplitUrl(url)
      case None =>
        return false;
      case Some(t) =>
        request := request.(target := t, verb := verb, payload := payload, hasCallback := hasCallback,
                            needsAuth := needsAuth, start := now, active := true, retries := 0);
        request := request.(buffer := "", status := 0, contentLength := 0, chunked := false, bodyRead := 0);
        request := request.(state := ClientConnect);
        return true;
    }

    /**
     * `updateHttpOperations`: nothing without an active operation; while the connection is
     * not OPERATIONAL an unsettled request is aborted to ERROR; otherwise the overall
     * timeout applies first and then the handler of the current state runs.  The returned
     * text is what was written to the client in this poll.
     */
    method UpdateHttpOperations(a: Answers, now: Millis) returns (sent: string)
      requires Valid()
      modifies this, deviceState
      ensures var p := HttpPoll(old(link), old(request), old(client), old(authToken), a, now);
        request == p.x && client == p.client && link == p.link && sent == p.sent
      ensures authToken == old(authToken)
      ensures Valid()
      ensures deviceState != null ==>
        RecordMirror() == Mirrored(old(link), link, old(RecordMirror())) &&
        deviceState.Unmirrored() == old(deviceState.Unmirrored())
    {
      GprsHttp.PollKeepsInv(link, request, client, authToken, a, now);
      if link.state == Operational {
        LinkLossKeepsInv(link, now);
      }
      sent := "";
      if !request.active {
        return;
      }
      if link.state != Operational {
        if !Settled(request.state) {
          client := StopIfOpen(client);
          request := request.(state := Error);
        }
        return;
      }
      if !Settled(request.state) && Elapsed(now, request.start) > GPRS_HTTP_TOTAL_TIMEOUT_MS {
        client := StopIfOpen(client);
        request := request.(state := Error);
      }
      sent := RunHandler(a, now);
    }

    /** The `switch` on the HTTP state: `Dispatch`. */
    method RunHandler(a: Answers, now: Millis) returns (sent: string)
      requires request.state == BodyReceiving ==> |request.buffer| < GPRS_BODY_BUFFER_SIZE
      requires link.state == Operational
      modifies this, deviceState
      ensures var p := Dispatch(old(link), old(request), old(client), old(authToken), a, now);
        request == p.x && client == p.client && link == p.link && sent == p.sent
      ensures authToken == old(authToken)
      ensures deviceState != null ==>
        RecordMirror() == Mirrored(old(link), link, old(RecordMirror())) &&
        deviceState.Unmirrored() == old(deviceState.Unmirrored())
    {
      sent := "";
      match request.state
      case Idle =>
        request := request.(active := false);
      case ClientConnect =>
        OpenClient(a, now);
      case SendingRequest =>
        sent := SendRequest(a, now);
      case HeadersReceiving =>
        ReceiveHeaders(now);
      case BodyReceiving =>
        ReceiveBody(now);
      case ProcessingResponse =>
        ProcessResponse(a);
      case Complete =>
        client := StopIfOpen(client);
        request := request.(active := false, state := Idle);
      case Error =>
        HandleError(now);
      case RetryWait =>
        WaitForRetry(now);
    }

    /** PROCESSING_RESPONSE: `ProcessStep`. */
    method ProcessResponse(a: Answers)
      modifies this
      ensures (request, client) == ProcessStep(old(request), old(client), a)
      ensures link == old(link) && authToken == old(authToken)
    {
      var ok := false;
      if Is2xx(request.status) {
        if request.hasCallback {
          ok := a.jsonOk && a.callbackOk;
        } else {
          ok := true;
        }
      }
      client := StopIfOpen(client);
      request := request.(state := if ok then Complete else Error);
    }

    /** ERROR: `ErrorStep`. */
    method HandleError(now: Millis)
      modifies this
      ensures (request, client) == ErrorStep(old(request), old(client), now)
      ensures link == old(link) && authToken == old(authToken)
    {
      client := StopIfOpen(client);
      if IsRetryableError(request.status) && request.retries < MAX_HTTP_RETRIES {
        request := request.(retries := request.retries + 1, start := Add(now, HTTP_RETRY_DELAY_MS),
                            state := RetryWait);
      } else {
        request := request.(active := false, state := Idle);
      }
    }

    /** RETRY_WAIT: `RetryStep`. */
    method WaitForRetry(now: Millis)
      modifies this
      ensures request == RetryStep(old(request), now)
      ensures link == old(link) && client == old(client) && authToken == old(authToken)
    {
      if now >= request.start {
        request := request.(buffer := "", status := 0, contentLength := 0, chunked := false, bodyRead := 0);
        request := request.(start := now, state := ClientConnect);
      }
    }

    /** CLIENT_CONNECT: `ConnectStep`, with the drop of the connection through `transitionToState`. */
    method OpenClient(a: Answers, now: Millis)
      requires request.state == ClientConnect && link.state == Operational
      modifies this, deviceState
      ensures var p := ConnectStep(old(link), old(request), old(client), a, now);
        request == p.x && client == p.client && link == p.link
      ensures authToken == old(authToken)
      ensures deviceState != null ==>
        RecordMirror() == Mirrored(old(link), link, old(RecordMirror())) &&
        deviceState.Unmirrored() == old(deviceState.Unmirrored())
    {
      if Elapsed(now, request.start) > GPRS_HTTP_CONNECT_TIMEOUT_MS {
        request := request.(state := Error);
        return;
      }
      if a.connectOk {
        client := Client(true, "");
        request := request.(state := SendingRequest, start := now);
      } else {
        client := Closed;
        TransitionToState(ConnectionLost, now);
        request := request.(state := Error);
      }
    }

    /** SENDING_REQUEST: `SendStep`; returns the bytes written. */
    method SendRequest(a: Answers, now: Millis) returns (sent: string)
      requires request.state == SendingRequest && link.state == Operational
      modifies this, deviceState
      ensures var p := SendStep(old(link), old(request), old(client), old(authToken), a, now);
        request == p.x && client == p.client && link == p.link && sent == p.sent
      ensures authToken == old(authToken)
      ensures deviceState != null ==>
        RecordMirror() == Mirrored(old(link), link, old(RecordMirror())) &&
        deviceState.Unmirrored() == old(deviceState.Unmirrored())
    {
      sent := "";
      if Elapsed(now, request.start) > HTTP_RESPONSE_TIMEOUT_MS {
        client := StopIfOpen(client);
        request := request.(state := Error);
        return;
      }
      match Assemble(request.verb, request.target.path, request.target.host, request.needsAuth, authToken,
                     request.payload)
      case HeadersTooLarge =>
        request := request.(state := Error);
        client := StopIfOpen(client);
      case PayloadTooLarge =>
        request := request.(state := Error);
        client := StopIfOpen(client);
      case Sent(text) =>
        sent := text;
        if !a.sentAll {
          request := request.(state := Error);
          client := StopIfOpen(client);
          TransitionToState(ConnectionLost, now);
          return;
        }
        request := request.(buffer := "", start := now, state := HeadersReceiving);
    }

    /** HEADERS_RECEIVING: `HeadersStep`, reading the bytes one at a time. */
    method ReceiveHeaders(now: Millis)
      requires request.state == HeadersReceiving
      modifies this
      ensures (request, client) == HeadersStep(old(request), old(client), now)
      ensures link == old(link) && authToken == old(authToken)
    {
      ghost var x, c := request, client;
      if !client.open {
        request := request.(state := Error);
        assert HeadersStep(x, c, now) == (request, client);
        return;
      }
      var scan := ReadHeaderBytes(request.buffer, client.rx);
      match scan {
        case TooLong(b, rest) =>
          request := request.(buffer := b, state := Error);
          client := StopIfOpen(Client(client.open, rest));
        case HeadersEnd(b, rest) =>
          client := Client(client.open, rest);
          TakeHeaders(b, now);
        case Drained(b) =>
          request := request.(buffer := b);
          client := Client(client.open, "");
      }
      CheckHeaderWait(now);
    }

    /** After the header loop: `AfterHeaderLoop`, the header timeout and the peer's close. */
    method CheckHeaderWait(now: Millis)
      modifies this
      ensures (request, client) == AfterHeaderLoop(old(request), old(client), now)
      ensures link == old(link) && authToken == old(authToken)
    {
      if request.state == HeadersReceiving {
        if Elapsed(now, request.start) > GPRS_HTTP_HEADER_TIMEOUT_MS {
          request := request.(state := Error);
          client := StopIfOpen(client);
        } else if !client.open {
          request := request.(state := Error);
        }
      }
    }

    /** The blank line has arrived: `HeadersDone` on the accumulated header text. */
    method TakeHeaders(b: string, now: Millis)
      modifies this
      ensures (request, client) == HeadersDone(old(request), b, old(client), now)
      ensures link == old(link) && authToken == old(authToken)
    {
      var parsed := ParseHead(b);
      match parsed
      case None =>
        request := request.(buffer := b, status := 0, state := Error);
        client := StopIfOpen(client);
      case Some(h) =>
        AcceptHead(h, now);
    }

    /** A status line was found: `TakeHead` decides where the request goes next. */
    method AcceptHead(h: Head, now: Millis)
      modifies this
      ensures (request, client) == TakeHead(old(request), h, old(client), now)
      ensures link == old(link) && authToken == old(authToken)
    {
      request := request.(status := h.status, contentLength := h.contentLength, chunked := h.chunked,
                          buffer := h.body, bodyRead := |h.body|);
      if Is2xx(h.status) {
        if !h.chunked && h.contentLength == 0 && |h.body| == 0 {
          request := request.(state := ProcessingResponse);
        } else {
          request := request.(state := BodyReceiving, start := now);
        }
      } else if h.status == 0 {
        client := StopIfOpen(client);
      } else {
        request := request.(state := BodyReceiving, start := now);
      }
    }

    /** The completion check after the body loop: `BodyCheck`, decoding a chunked body in place. */
    method CheckBody(open: bool) returns (complete: bool)
      requires |request.buffer| < WRAP / 2
      modifies this
      ensures (complete, request) == BodyCheck(old(request), open)
      ensures link == old(link) && client == old(client) && authToken == old(authToken)
    {
      complete := false;
      if request.chunked {
        if Contains(request.buffer, EndMarker) {
          var body;
          complete, body := DechunkLoop(request.buffer);
          if complete {
            request := request.(buffer := body);
          }
        } else if !open && request.bodyRead > 0 {
          complete := true;
        }
      } else if request.contentLength > 0 && request.bodyRead >= request.contentLength {
        complete := true;
      } else if request.contentLength == 0 && !open {
        complete := true;
      }
    }

    /** BODY_RECEIVING: `BodyStep`, reading the bytes and decoding a chunked body with the loops above. */
    method ReceiveBody(now: Millis)
      requires request.state == BodyReceiving && |request.buffer| < GPRS_BODY_BUFFER_SIZE
      modifies this
      ensures (request, client) == BodyStep(old(request), old(client), now)
      ensures link == old(link) && authToken == old(authToken)
    {
      if !client.open && !request.chunked && (request.contentLength == 0 || request.bodyRead < request.contentLength) {
        request := request.(state := ClosedBodyTarget(request));
        return;
      }
      var start := request.start;
      var b, n := ReadBodyBytes(request.buffer, request.bodyRead, client.rx);
      ReadBodySpec(request.buffer, request.bodyRead, client.rx);
      request := request.(buffer := b, bodyRead := n);
      client := Client(client.open, "");
      ghost var read := request;
      var complete := CheckBody(client.open);
      assert (complete, request) == BodyCheck(read, client.open);
      SettleBody(complete, start, now);
    }

    /** The end of BODY_RECEIVING: completion, then the body timeout, then an early close. */
    method SettleBody(complete: bool, start: Millis, now: Millis)
      modifies this
      ensures request ==
        if complete then old(request).(state := ProcessingResponse)
        else if Elapsed(now, start) > GPRS_HTTP_BODY_TIMEOUT_MS then
          old(request).(state := if old(request).bodyRead > 0 && Is2xx(old(request).status) then ProcessingResponse else Error)
        else if !client.open then old(request).(state := ClosedBodyTarget(old(request)))
        else old(request)
      ensures link == old(link) && client == old(client) && authToken == old(authToken)
    {
      if complete {
        request := request.(state := ProcessingResponse);
      } else if Elapsed(now, start) > GPRS_HTTP_BODY_TIMEOUT_MS {
        request := request.(state := if request.bodyRead > 0 && Is2xx(request.status) then ProcessingResponse else Error);
      } else if !client.open {
        request := request.(state := ClosedBodyTarget(request));
      }
    }
  }
}
