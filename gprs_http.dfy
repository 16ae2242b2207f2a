/**
 * The asynchronous HTTP request machine of the cellular manager as a step function: one
 * call of `updateHttpOperations` maps the request fields, the TCP client, the connection
 * state machine's fields, what the network and the callback answer during that poll and
 * the current time to their new values and to the bytes written to the client.
 */
module GprsHttp {
  import opened Clock
  import opened Text
  import opened Wrappers
  import opened DeviceStateModel
  import opened GprsLink
  import opened GprsUrl
  import opened GprsRequest
  import opened GprsResponse
  import opened HttpRetry

  const GPRS_HTTP_TOTAL_TIMEOUT_MS: int := 60000
  const GPRS_HTTP_CONNECT_TIMEOUT_MS: int := 20000
  const GPRS_HTTP_HEADER_TIMEOUT_MS: int := 20000
  const GPRS_HTTP_BODY_TIMEOUT_MS: int := 30000
  /** The sending state borrows the general response timeout. */
  const HTTP_RESPONSE_TIMEOUT_MS: int := 20000

  /** The end of a chunked body: the last chunk and the blank line after it. */
  const EndMarker: string := "\r\n0\r\n\r\n"

  datatype HttpState =
    | Idle
    | ClientConnect
    | SendingRequest
    | HeadersReceiving
    | BodyReceiving
    | ProcessingResponse
    | Complete
    | RetryWait
    | Error

  /** The TCP client: whether it is connected, and the received bytes not read yet. */
  datatype Client = Client(open: bool, rx: string)

  const Closed: Client := Client(false, "")

  /** `if (client.connected()) client.stop();`: stopping drops the unread bytes. */
  function StopIfOpen(c: Client): (r: Client)
    ensures !r.open
  {
    if c.open then Closed else c
  }

  /** The fields of one request, its progress and its retry bookkeeping. */
  datatype Exchange = Exchange(
    state: HttpState,
    active: bool,
    start: Millis,        // `_asyncRequestStartTime`, a deadline while in RETRY_WAIT
    retries: Byte,
    target: Target,       // `_gprsHost`, `_gprsPort`, `_gprsPath`
    verb: string,
    payload: string,
    needsAuth: bool,
    hasCallback: bool,
    buffer: string,       // `_gprsResponseBuffer`
    status: int,
    contentLength: Millis,
    chunked: bool,
    bodyRead: nat)

  /** The fields of a freshly constructed manager. */
  const IdleExchange: Exchange :=
    Exchange(Idle, false, 0, 0, Target("", 0, ""), "", "", false, false, "", 0, 0, false, 0)

  /** What the outside world answers during one poll. */
  datatype Answers = Answers(
    connectOk: bool,   // `client.connect(host, port)`
    sentAll: bool,     // `client.write` wrote the whole request
    jsonOk: bool,      // the body deserialises as JSON
    callbackOk: bool)  // the callback's result on that document

  /** The outcome of one poll. */
  datatype HttpPolled = HttpPolled(x: Exchange, client: Client, link: Link, sent: string)

  predicate Is2xx(status: int)
  {
    200 <= status < 300
  }

  /** States the overall timeout and the loss of the connection leave alone. */
  predicate Settled(s: HttpState)
  {
    s == Idle || s == Complete || s == Error
  }

  /**
   * The invariant kept between polls: an operation is active exactly when the machine is
   * not IDLE, at most three retries are spent, the header buffer holds no blank line yet
   * and is below the header limit, and the body buffer holds exactly the body bytes read,
   * below the body buffer size.
   */
  predicate Inv(x: Exchange)
  {
    (x.active <==> x.state != Idle) &&
    x.retries <= MAX_HTTP_RETRIES &&
    (x.state == HeadersReceiving ==> NoBlankLine(x.buffer) && |x.buffer| < GPRS_MAX_HEADER_SIZE) &&
    (x.state == BodyReceiving ==> x.bodyRead == |x.buffer| < GPRS_BODY_BUFFER_SIZE)
  }

  // ----- Starting a request -----

  /**
   * `startAsyncHttpRequest`: refused while an operation is active, while the connection
   * is down, or when the URL does not split; otherwise the request is stored with its
   * response fields and retry counter cleared, and the machine starts connecting.
   */
  function StartRequest(x: Exchange, connected: bool, url: string, verb: string, payload: string,
                        hasCallback: bool, needsAuth: bool, now: Millis): Option<Exchange>
  {
    if x.active || !connected then None
    else match SplitUrl(url)
      case None => None
      case Some(t) =>
        Some(Exchange(ClientConnect, true, now, 0, t, verb, payload, needsAuth, hasCallback,
                      "", 0, 0, false, 0))
  }

  /** A request starts exactly when the manager is free, connected and the URL splits; it then keeps the invariant. */
  lemma StartRequestSpec(x: Exchange, connected: bool, url: string, verb: string, payload: string,
                         hasCallback: bool, needsAuth: bool, now: Millis)
    ensures var r := StartRequest(x, connected, url, verb, payload, hasCallback, needsAuth, now);
      (r.Some? <==> !x.active && connected && SplitUrl(url).Some?) &&
      (r.Some? ==>
        r.value.state == ClientConnect && r.value.active && r.value.start == now &&
        r.value.retries == 0 && r.value.target == SplitUrl(url).value &&
        r.value.verb == verb && r.value.payload == payload &&
        r.value.hasCallback == hasCallback && r.value.needsAuth == needsAuth &&
        r.value.buffer == "" && r.value.status == 0 && r.value.contentLength == 0 &&
        !r.value.chunked && r.value.bodyRead == 0 &&
        |r.value.target.host| < GPRS_MAX_HOST_LEN && |r.value.target.path| < GPRS_MAX_PATH_LEN &&
        Inv(r.value))
  {
    if !x.active && connected && SplitUrl(url).Some? {
      SplitUrlShape(url);
    }
  }

  // ----- One poll -----

  /** `transitionToState(GPRS_STATE_CONNECTION_LOST)` when the link is operational. */
  function LoseLink(l: Link, now: Millis): Link
  {
    if l.state == Operational then Enter(l, ConnectionLost, now) else l
  }

  /** CLIENT_CONNECT: time out, or connect and start sending, or report the link lost. */
  function ConnectStep(l: Link, x: Exchange, c: Client, a: Answers, now: Millis): HttpPolled
  {
    if Elapsed(now, x.start) > GPRS_HTTP_CONNECT_TIMEOUT_MS then HttpPolled(x.(state := Error), c, l, "")
    else if a.connectOk then HttpPolled(x.(state := SendingRequest, start := now), Client(true, ""), l, "")
    else HttpPolled(x.(state := Error), Closed, LoseLink(l, now), "")
  }

  /** SENDING_REQUEST: time out, refuse a request that does not fit, or write it. */
  function SendStep(l: Link, x: Exchange, c: Client, token: string, a: Answers, now: Millis): HttpPolled
  {
    if Elapsed(now, x.start) > HTTP_RESPONSE_TIMEOUT_MS then HttpPolled(x.(state := Error), StopIfOpen(c), l, "")
    else match Assemble(x.verb, x.target.path, x.target.host, x.needsAuth, token, x.payload)
      case HeadersTooLarge => HttpPolled(x.(state := Error), StopIfOpen(c), l, "")
      case PayloadTooLarge => HttpPolled(x.(state := Error), StopIfOpen(c), l, "")
      case Sent(text) =>
        if !a.sentAll then HttpPolled(x.(state := Error), StopIfOpen(c), LoseLink(l, now), text)
        else HttpPolled(x.(buffer := "", start := now, state := HeadersReceiving), c, l, text)
  }

  /** After the header loop, a request still waiting for headers times out or notices the peer has gone. */
  function AfterHeaderLoop(x: Exchange, c: Client, now: Millis): (Exchange, Client)
  {
    if x.state != HeadersReceiving then (x, c)
    else if Elapsed(now, x.start) > GPRS_HTTP_HEADER_TIMEOUT_MS then (x.(state := Error), StopIfOpen(c))
    else if !c.open then (x.(state := Error), c)
    else (x, c)
  }

  /** The parse at the blank line: no status line is an error, otherwise the head is taken. */
  function HeadersDone(x: Exchange, b: string, c: Client, now: Millis): (Exchange, Client)
  {
    match ParseHead(b)
    case None => (x.(buffer := b, status := 0, state := Error), StopIfOpen(c))
    case Some(h) => TakeHead(x, h, c, now)
  }

  /**
   * A parsed head: a 2xx response without a body to read goes straight to processing, any
   * other status with a number reads the body, and status 0 stops the client and stays
   * waiting for headers.
   */
  function TakeHead(x: Exchange, h: Head, c: Client, now: Millis): (Exchange, Client)
  {
    var x1 := x.(status := h.status, contentLength := h.contentLength, chunked := h.chunked,
                 buffer := h.body, bodyRead := |h.body|);
    if Is2xx(h.status) then
      if !h.chunked && h.contentLength == 0 && |h.body| == 0 then (x1.(state := ProcessingResponse), c)
      else (x1.(state := BodyReceiving, start := now), c)
    else if h.status == 0 then (x1, StopIfOpen(c))
    else (x1.(state := BodyReceiving, start := now), c)
  }

  /** HEADERS_RECEIVING: read header bytes until the blank line or the size limit. */
  function HeadersStep(x: Exchange, c: Client, now: Millis): (Exchange, Client)
  {
    if !c.open then (x.(state := Error), c)
    else
      var (x1, c1) := match ScanHeaders(x.buffer, c.rx)
        case TooLong(b, rest) => (x.(buffer := b, state := Error), StopIfOpen(Client(c.open, rest)))
        case HeadersEnd(b, rest) => HeadersDone(x, b, Client(c.open, rest), now)
        case Drained(b) => (x.(buffer := b), Client(c.open, ""));
      AfterHeaderLoop(x1, c1, now)
  }

  /** Where a body that is neither complete nor timed out goes when the peer has closed. */
  function ClosedBodyTarget(x: Exchange): HttpState
  {
    if x.bodyRead > 0 || (Is2xx(x.status) && x.contentLength == 0) then ProcessingResponse else Error
  }

  /**
   * The completion check after the body loop: a chunked body is complete once it holds
   * the end marker and decodes completely (its buffer is then the decoded data), or when
   * the peer has closed after some bytes; a plain body follows `PlainBodyComplete`.
   */
  function BodyCheck(x: Exchange, open: bool): (r: (bool, Exchange))
    requires |x.buffer| < WRAP / 2
    ensures !r.0 ==> r.1 == x
    ensures r.1 == x.(buffer := r.1.buffer)
  {
    if x.chunked then
      if Contains(x.buffer, EndMarker) then
        var d := Dechunk(x.buffer, 0);
        (d.complete, if d.complete then x.(buffer := d.body) else x)
      else (!open && x.bodyRead > 0, x)
    else (PlainBodyComplete(x.contentLength, x.bodyRead, open), x)
  }

  /** BODY_RECEIVING: read body bytes, then decide completion, timeout or an early close. */
  function BodyStep(x: Exchange, c: Client, now: Millis): (Exchange, Client)
    requires |x.buffer| < GPRS_BODY_BUFFER_SIZE
  {
    if !c.open && !x.chunked && (x.contentLength == 0 || x.bodyRead < x.contentLength) then
      (x.(state := ClosedBodyTarget(x)), c)
    else
      var (b, n) := ReadBody(x.buffer, x.bodyRead, c.rx);
      ReadBodySpec(x.buffer, x.bodyRead, c.rx);
      var (complete, x1) := BodyCheck(x.(buffer := b, bodyRead := n), c.open);
      var c1 := Client(c.open, "");
      if complete then (x1.(state := ProcessingResponse), c1)
      else if Elapsed(now, x.start) > GPRS_HTTP_BODY_TIMEOUT_MS then
        (x1.(state := if n > 0 && Is2xx(x1.status) then ProcessingResponse else Error), c1)
      else if !c.open then (x1.(state := ClosedBodyTarget(x1)), c1)
      else (x1, c1)
  }

  /**
   * PROCESSING_RESPONSE: a 2xx response succeeds without a callback, or when the body
   * parses and the callback accepts it; the client is stopped either way.
   */
  function ProcessStep(x: Exchange, c: Client, a: Answers): (Exchange, Client)
  {
    var ok := Is2xx(x.status) && (!x.hasCallback || (a.jsonOk && a.callbackOk));
    (x.(state := if ok then Complete else Error), StopIfOpen(c))
  }

  /** ERROR: a retryable status with retries left waits for a retry; anything else ends the operation. */
  function ErrorStep(x: Exchange, c: Client, now: Millis): (Exchange, Client)
  {
    if IsRetryableError(x.status) && x.retries < MAX_HTTP_RETRIES then
      (x.(retries := x.retries + 1, start := Add(now, HTTP_RETRY_DELAY_MS), state := RetryWait), StopIfOpen(c))
    else (x.(active := false, state := Idle), StopIfOpen(c))
  }

  /** RETRY_WAIT: once the deadline is reached (plain comparison), clear the response and connect again. */
  function RetryStep(x: Exchange, now: Millis): Exchange
  {
    if now >= x.start then
      x.(buffer := "", status := 0, contentLength := 0, chunked := false, bodyRead := 0,
         start := now, state := ClientConnect)
    else x
  }

  /** The handler of the current state, once the link is operational and the overall timeout applied. */
  function Dispatch(l: Link, x: Exchange, c: Client, token: string, a: Answers, now: Millis): HttpPolled
    requires x.state == BodyReceiving ==> |x.buffer| < GPRS_BODY_BUFFER_SIZE
  {
    match x.state
    case Idle => HttpPolled(x.(active := false), c, l, "")
    case ClientConnect => ConnectStep(l, x, c, a, now)
    case SendingRequest => SendStep(l, x, c, token, a, now)
    case HeadersReceiving => var (x1, c1) := HeadersStep(x, c, now); HttpPolled(x1, c1, l, "")
    case BodyReceiving => var (x1, c1) := BodyStep(x, c, now); HttpPolled(x1, c1, l, "")
    case ProcessingResponse => var (x1, c1) := ProcessStep(x, c, a); HttpPolled(x1, c1, l, "")
    case Complete => HttpPolled(x.(active := false, state := Idle), StopIfOpen(c), l, "")
    case Error => var (x1, c1) := ErrorStep(x, c, now); HttpPolled(x1, c1, l, "")
    case RetryWait => HttpPolled(RetryStep(x, now), c, l, "")
  }

  /**
   * One call of `updateHttpOperations`: nothing without an active operation; while the
   * link is not operational an unsettled request is aborted to ERROR and nothing else
   * runs; otherwise an unsettled request past the overall timeout becomes ERROR first,
   * and then the handler of the (possibly new) state runs.
   */
  function HttpPoll(l: Link, x: Exchange, c: Client, token: string, a: Answers, now: Millis): HttpPolled
    requires x.state == BodyReceiving ==> |x.buffer| < GPRS_BODY_BUFFER_SIZE
  {
    if !x.active then HttpPolled(x, c, l, "")
    else if l.state != Operational then
      if Settled(x.state) then HttpPolled(x, c, l, "")
      else HttpPolled(x.(state := Error), StopIfOpen(c), l, "")
    else if !Settled(x.state) && Elapsed(now, x.start) > GPRS_HTTP_TOTAL_TIMEOUT_MS then
      Dispatch(l, x.(state := Error), StopIfOpen(c), token, a, now)
    else Dispatch(l, x, c, token, a, now)
  }

  // ----- Properties -----

  /** Without an active operation a poll changes nothing and sends nothing. */
  lemma InactiveUnchanged(l: Link, x: Exchange, c: Client, token: string, a: Answers, now: Millis)
    requires !x.active
    requires x.state == BodyReceiving ==> |x.buffer| < GPRS_BODY_BUFFER_SIZE
    ensures HttpPoll(l, x, c, token, a, now) == HttpPolled(x, c, l, "")
  {
  }

  /**
   * While the link is not operational, an unsettled request is aborted to ERROR with its
   * client stopped, the operation stays active (so new requests are refused), and the
   * next poll changes nothing at all: the request is frozen until the link comes back.
   */
  lemma FrozenWhileLinkDown(l: Link, x: Exchange, c: Client, token: string, a: Answers, now: Millis,
                            now2: Millis)
    requires x.active && l.state != Operational
    requires x.state == BodyReceiving ==> |x.buffer| < GPRS_BODY_BUFFER_SIZE
    ensures var p := HttpPoll(l, x, c, token, a, now);
      p.link == l && p.x.active && p.sent == "" && p.x.retries == x.retries &&
      p.x.state == (if Settled(x.state) then x.state else Error) &&
      (!Settled(x.state) ==> !p.client.open) &&
      HttpPoll(l, p.x, p.client, token, a, now2) == p
  {
  }

  /**
   * Every unsettled state is subject to the overall timeout: past it, the poll runs the
   * ERROR handler at once, so the request either waits for a retry or ends.
   */
  lemma OverallTimeout(l: Link, x: Exchange, c: Client, token: string, a: Answers, now: Millis)
    requires x.active && l.state == Operational && !Settled(x.state)
    requires Elapsed(now, x.start) > GPRS_HTTP_TOTAL_TIMEOUT_MS
    requires x.state == BodyReceiving ==> |x.buffer| < GPRS_BODY_BUFFER_SIZE
    ensures var p := HttpPoll(l, x, c, token, a, now);
      p.link == l && p.sent == "" && !p.client.open &&
      (p.x.state == RetryWait || p.x.state == Idle) &&
      (p.x.state == RetryWait <==> IsRetryableError(x.status) && x.retries < MAX_HTTP_RETRIES)
  {
  }

  /**
   * ERROR retries only a retryable status with retries left: the counter goes up by one
   * and the start field becomes a deadline `HTTP_RETRY_DELAY_MS` ahead; otherwise the
   * operation ends IDLE and inactive.  The client is stopped either way.
   */
  lemma ErrorRetryRule(l: Link, x: Exchange, c: Client, token: string, a: Answers, now: Millis)
    requires x.active && l.state == Operational && x.state == Error
    ensures var p := HttpPoll(l, x, c, token, a, now);
      !p.client.open && p.link == l &&
      (if IsRetryableError(x.status) && x.retries < MAX_HTTP_RETRIES
       then p.x == x.(retries := x.retries + 1, start := Add(now, HTTP_RETRY_DELAY_MS), state := RetryWait) &&
            Elapsed(Add(now, HTTP_RETRY_DELAY_MS), now) == HTTP_RETRY_DELAY_MS
       else p.x == x.(active := false, state := Idle))
  {
    ElapsedAfterAdd(now, HTTP_RETRY_DELAY_MS);
  }

  /**
   * The retry delay is not waited out: a poll made `k < HTTP_RETRY_DELAY_MS` milliseconds
   * after entering RETRY_WAIT computes the elapsed time against the future deadline,
   * which wraps to more than the overall timeout, so the request goes through ERROR again
   * in that very poll and spends another retry (or ends) without ever connecting.
   */
  lemma EarlyRetryPollSpendsRetry(l: Link, x: Exchange, c: Client, token: string, a: Answers, t: Millis, k: nat)
    requires x.active && l.state == Operational && x.state == RetryWait
    requires x.start == Add(t, HTTP_RETRY_DELAY_MS) && k < HTTP_RETRY_DELAY_MS
    ensures var p := HttpPoll(l, x, c, token, Answers(true, true, true, true), Add(t, k));
      p.x.state != ClientConnect &&
      (if IsRetryableError(x.status) && x.retries < MAX_HTTP_RETRIES
       then p.x.state == RetryWait && p.x.retries == x.retries + 1
       else p.x.state == Idle && !p.x.active)
  {
    ElapsedToFutureDeadline(t, HTTP_RETRY_DELAY_MS, k);
  }

  /**
   * A poll between the deadline and the overall timeout after it (without a wrap of the
   * counter) clears the response fields and connects again, keeping the retry count.
   */
  lemma RetryAfterDelay(l: Link, x: Exchange, c: Client, token: string, a: Answers, t: Millis, k: nat)
    requires x.active && l.state == Operational && x.state == RetryWait
    requires x.start == Add(t, HTTP_RETRY_DELAY_MS)
    requires HTTP_RETRY_DELAY_MS <= k <= HTTP_RETRY_DELAY_MS + GPRS_HTTP_TOTAL_TIMEOUT_MS && t + k < WRAP
    ensures var now := Add(t, k);
      var p := HttpPoll(l, x, c, token, a, now);
      p.x == x.(buffer := "", status := 0, contentLength := 0, chunked := false, bodyRead := 0,
                start := now, state := ClientConnect) &&
      p.client == c && p.link == l
  {
  }

  /**
   * PROCESSING_RESPONSE ends in COMPLETE exactly when the status is 2xx and either there is
   * no callback or the body parses and the callback accepts it; otherwise in ERROR.
   */
  lemma ProcessingOutcome(l: Link, x: Exchange, c: Client, token: string, a: Answers, now: Millis)
    requires x.active && l.state == Operational && x.state == ProcessingResponse
    requires Elapsed(now, x.start) <= GPRS_HTTP_TOTAL_TIMEOUT_MS
    ensures var p := HttpPoll(l, x, c, token, a, now);
      !p.client.open && p.x.active &&
      (p.x.state == Complete <==> Is2xx(x.status) && (!x.hasCallback || (a.jsonOk && a.callbackOk))) &&
      (p.x.state == Complete || p.x.state == Error)
  {
  }

  /**
   * A request that fits is written whole: what is sent is the headers and then the payload;
   * the machine waits for headers only when every byte went out, and a short write reports
   * the link lost.  A request that does not fit is never written.
   */
  lemma SendOutcome(l: Link, x: Exchange, c: Client, token: string, a: Answers, now: Millis)
    requires l.state == Operational
    requires Elapsed(now, x.start) <= HTTP_RESPONSE_TIMEOUT_MS
    ensures var headers := Concat(HeaderPieces(x.verb, x.target.path, x.target.host, x.needsAuth, token, x.payload));
      var p := SendStep(l, x, c, token, a, now);
      (p.x.state == HeadersReceiving <==> |headers| + |x.payload| < GPRS_REQUEST_BUFFER_SIZE && a.sentAll) &&
      (p.x.state != HeadersReceiving ==> p.x.state == Error && !p.client.open) &&
      (p.sent != "" ==> p.sent == headers + x.payload) &&
      (|headers| + |x.payload| < GPRS_REQUEST_BUFFER_SIZE ==> p.sent == headers + x.payload) &&
      (p.link != l <==> p.sent != "" && !a.sentAll) &&
      (p.x.state == HeadersReceiving ==> p.x.buffer == "" && p.x.start == now)
  {
    AssembleSpec(x.verb, x.target.path, x.target.host, x.needsAuth, token, x.payload);
    HeadersShape(x.verb, x.target.path, x.target.host, x.needsAuth, token, x.payload);
  }

  /**
   * At the blank line: a response whose status cannot be read, or reads as 0, is an error;
   * a 2xx response without chunking or length goes straight to processing; any other
   * status reads the body, which starts empty with nothing counted.
   */
  lemma HeadersOutcome(x: Exchange, c: Client, now: Millis, b: string, rest: string)
    requires x.state == HeadersReceiving && NoBlankLine(x.buffer) && |x.buffer| < GPRS_MAX_HEADER_SIZE
    requires c.open && ScanHeaders(x.buffer, c.rx) == HeadersEnd(b, rest)
    ensures var (y, d) := HeadersStep(x, c, now);
      match ParseHead(b)
      case None => y.state == Error && y.status == 0 && !d.open
      case Some(h) =>
        y.status == h.status && y.chunked == h.chunked && y.contentLength == h.contentLength &&
        (h.chunked ==> h.contentLength == 0) && y.buffer == "" && y.bodyRead == 0 &&
        (h.status == 0 ==> y.state == Error && !d.open) &&
        (Is2xx(h.status) && !h.chunked && h.contentLength == 0 ==> y.state == ProcessingResponse) &&
        (h.status != 0 && !(Is2xx(h.status) && !h.chunked && h.contentLength == 0) ==>
           y.state == BodyReceiving && y.start == now && d == Client(true, rest))
  {
    ScanHeadersSpec(x.buffer, c.rx);
    HeadBodyEmpty(b);
    var (x1, c1) := HeadersDone(x, b, Client(true, rest), now);
    assert HeadersStep(x, c, now) == AfterHeaderLoop(x1, c1, now);
    match ParseHead(b)
    case None =>
    case Some(h) =>
      TakeHeadOutcome(x, h, Client(true, rest), now);
  }

  lemma TakeHeadOutcome(x: Exchange, h: Head, c: Client, now: Millis)
    requires x.state == HeadersReceiving && c.open && h.body == ""
    ensures var (x1, c1) := TakeHead(x, h, c, now);
      var (y, d) := AfterHeaderLoop(x1, c1, now);
      y.status == h.status && y.chunked == h.chunked && y.contentLength == h.contentLength &&
      y.buffer == "" && y.bodyRead == 0 &&
      (h.status == 0 ==> y.state == Error && !d.open) &&
      (Is2xx(h.status) && !h.chunked && h.contentLength == 0 ==> y.state == ProcessingResponse) &&
      (h.status != 0 && !(Is2xx(h.status) && !h.chunked && h.contentLength == 0) ==>
         y.state == BodyReceiving && y.start == now && d == c)
  {
  }

  /**
   * A complete chunked body that arrives in one piece is decoded: the poll goes on to
   * processing with the data of the chunks in the buffer.
   */
  lemma ChunkedBodyDecoded(x: Exchange, c: Client, now: Millis, chunks: seq<string>)
    requires x.state == BodyReceiving && x.chunked && x.buffer == "" && x.bodyRead == 0
    requires c.open && c.rx == Encode(chunks)
    requires |chunks| > 0 && NonEmptyChunks(chunks) && |Encode(chunks)| < GPRS_BODY_BUFFER_SIZE - 1
    ensures var (y, d) := BodyStep(x, c, now);
      y.state == ProcessingResponse && y.buffer == Flatten(chunks) && y.bodyRead == |Encode(chunks)|
  {
    ReadBodySpec(x.buffer, x.bodyRead, c.rx);
    assert ReadBody(x.buffer, x.bodyRead, c.rx) == (Encode(chunks), |Encode(chunks)|) by {
      assert c.rx[..|c.rx|] == c.rx;
      assert "" + Encode(chunks) == Encode(chunks);
    }
    EncodedBodyIsDecoded(chunks);
  }

  /**
   * A plain body with a length is complete once that many bytes have been read, while the
   * peer is still connected.
   */
  lemma PlainBodyByLength(x: Exchange, c: Client, now: Millis)
    requires x.state == BodyReceiving && !x.chunked && x.bodyRead == |x.buffer| < GPRS_BODY_BUFFER_SIZE
    requires c.open && 0 < x.contentLength <= |x.buffer| + |c.rx| < GPRS_BODY_BUFFER_SIZE - 1
    ensures var (y, d) := BodyStep(x, c, now);
      y.state == ProcessingResponse && y.buffer == x.buffer + c.rx && d == Client(true, "")
  {
    ReadBodySpec(x.buffer, x.bodyRead, c.rx);
    assert c.rx[..|c.rx|] == c.rx;
  }

  /** Every poll keeps the invariant. */
  lemma PollKeepsInv(l: Link, x: Exchange, c: Client, token: string, a: Answers, now: Millis)
    requires Inv(x)
    ensures Inv(HttpPoll(l, x, c, token, a, now).x)
  {
    if x.active && l.state == Operational {
      var timedOut := !Settled(x.state) && Elapsed(now, x.start) > GPRS_HTTP_TOTAL_TIMEOUT_MS;
      var x0 := if timedOut then x.(state := Error) else x;
      var c0 := if timedOut then StopIfOpen(c) else c;
      assert HttpPoll(l, x, c, token, a, now) == Dispatch(l, x0, c0, token, a, now);
      DispatchKeepsInv(l, x0, c0, token, a, now);
    }
  }

  lemma DispatchKeepsInv(l: Link, x: Exchange, c: Client, token: string, a: Answers, now: Millis)
    requires Inv(x)
    ensures Inv(Dispatch(l, x, c, token, a, now).x)
  {
    match x.state
    case Idle =>
    case ClientConnect => ConnectStepKeepsInv(l, x, c, a, now);
    case SendingRequest => SendStepKeepsInv(l, x, c, token, a, now);
    case HeadersReceiving => HeadersKeepInv(x, c, now);
    case BodyReceiving => BodyKeepsInv(x, c, now);
    case ProcessingResponse => assert Inv(ProcessStep(x, c, a).0);
    case Complete =>
    case Error => assert Inv(ErrorStep(x, c, now).0);
    case RetryWait => assert Inv(RetryStep(x, now));
  }

  lemma ConnectStepKeepsInv(l: Link, x: Exchange, c: Client, a: Answers, now: Millis)
    requires Inv(x) && x.state == ClientConnect
    ensures Inv(ConnectStep(l, x, c, a, now).x)
  {
  }

  lemma SendStepKeepsInv(l: Link, x: Exchange, c: Client, token: string, a: Answers, now: Millis)
    requires Inv(x) && x.state == SendingRequest
    ensures Inv(SendStep(l, x, c, token, a, now).x)
  {
  }

  lemma HeadersKeepInv(x: Exchange, c: Client, now: Millis)
    requires Inv(x) && x.state == HeadersReceiving
    ensures Inv(HeadersStep(x, c, now).0)
  {
    if c.open {
      ScanHeadersSpec(x.buffer, c.rx);
      match ScanHeaders(x.buffer, c.rx)
      case TooLong(b, rest) =>
      case HeadersEnd(b, rest) =>
        HeadersDoneKeepsInv(x, b, Client(c.open, rest), now);
        assert NoBlankLine("");
      case Drained(b) =>
    }
  }

  lemma HeadersDoneKeepsInv(x: Exchange, b: string, c: Client, now: Millis)
    requires Inv(x) && x.state == HeadersReceiving && |b| < GPRS_MAX_HEADER_SIZE
    requires EndsWith(b, BlankLine) && IndexOf(b, BlankLine, 0) == |b| - 4
    ensures var (y, d) := HeadersDone(x, b, c, now);
      Inv(y) && (y.state == HeadersReceiving ==> !d.open)
  {
    HeadBodyEmpty(b);
    match ParseHead(b)
    case None =>
    case Some(h) =>
      TakeHeadKeepsInv(x, h, c, now);
  }

  lemma TakeHeadKeepsInv(x: Exchange, h: Head, c: Client, now: Millis)
    requires Inv(x) && x.state == HeadersReceiving && h.body == ""
    ensures var (y, d) := TakeHead(x, h, c, now);
      Inv(y) && (y.state == HeadersReceiving ==> !d.open)
  {
  }

  lemma BodyKeepsInv(x: Exchange, c: Client, now: Millis)
    requires Inv(x) && x.state == BodyReceiving
    ensures Inv(BodyStep(x, c, now).0)
  {
    if !(!c.open && !x.chunked && (x.contentLength == 0 || x.bodyRead < x.contentLength)) {
      var (b, n) := ReadBody(x.buffer, x.bodyRead, c.rx);
      ReadBodySpec(x.buffer, x.bodyRead, c.rx);
      assert n == |b| < GPRS_BODY_BUFFER_SIZE;
      var x0 := x.(buffer := b, bodyRead := n);
      var (complete, x1) := BodyCheck(x0, c.open);
      BodySettles(x0, complete, x1, c.open, now);
    }
  }

  /** The decision after the body loop keeps the invariant of a body still being received. */
  lemma BodySettles(x0: Exchange, complete: bool, x1: Exchange, open: bool, now: Millis)
    requires Inv(x0) && x0.state == BodyReceiving
    requires x1 == x0.(buffer := x1.buffer) && (!complete ==> x1 == x0)
    ensures var y :=
      if complete then x1.(state := ProcessingResponse)
      else if Elapsed(now, x0.start) > GPRS_HTTP_BODY_TIMEOUT_MS then
        x1.(state := if x0.bodyRead > 0 && Is2xx(x1.status) then ProcessingResponse else Error)
      else if !open then x1.(state := ClosedBodyTarget(x1))
      else x1;
      Inv(y)
  {
  }
}

