/**
 * `WiFiManager`: the local-network transport.  Its HTTP requests go through the ESP32
 * `HTTPClient`, whose calls block until the status code is known, so its request machine
 * has fewer states than the cellular one: begin, send, process, and the same retry
 * policy.  What `HTTPClient`, the JSON parser and the callback answer during a poll are
 * parameters; the radio's association is a field set by `connect` and `disconnect`.
 */
module Wifi {
  import opened Clock
  import opened Text
  import opened Wrappers
  import opened HttpRetry

  /** The overall timeout of one attempt, written as a literal in `updateHttpOperations`. */
  const WIFI_HTTP_TOTAL_TIMEOUT_MS: int := 30000
  /** The `char[128]` buffer the `Authorization` value is printed into. */
  const AUTH_HEADER_BUFFER_SIZE: nat := 128

  datatype WifiHttpState =
    | Idle
    | BeginRequest
    | SendingRequest
    | ProcessingResponse
    | RetryWait
    | Complete
    | Error

  /** The fields of one request: state, activity flag, timer, retries and what to send. */
  datatype WifiRequest = WifiRequest(
    state: WifiHttpState,
    active: bool,
    start: Millis,      // `_asyncRequestStartTime`, a deadline while in RETRY_WAIT
    retries: Byte,
    url: string,
    verb: string,
    payload: string,
    needsAuth: bool,
    hasCallback: bool,
    status: int)        // `_httpStatusCode`

  /** A header added with `addHeader`. */
  datatype Header = Header(name: string, value: string)

  /** What `HTTPClient`, the JSON parser and the callback answer during one poll. */
  datatype WifiAnswers = WifiAnswers(
    beginOk: bool,          // `_httpClient.begin(...)`
    code: int,              // the result of `GET()` / `POST(payload)`
    jsonOk: bool,           // the body deserialises as JSON
    callbackOk: bool,       // the callback's result on that document
    clientConnected: bool)  // `_httpClient.connected()` where it is asked

  /** The outcome of one poll: the new fields, the headers added, and whether `end()` was called. */
  datatype WifiPolled = WifiPolled(x: WifiRequest, headers: seq<Header>, ended: bool)

  predicate Is2xx(status: int)
  {
    200 <= status < 300
  }

  /**
   * The invariant kept between polls: an operation is active exactly when the machine is
   * not IDLE, an active operation has spent at most three retries, a processed response
   * has a status code, and a completed one a 2xx code.
   */
  predicate Inv(x: WifiRequest)
  {
    (x.active <==> x.state != Idle) &&
    (x.active ==> x.retries <= MAX_HTTP_RETRIES) &&
    (x.state == ProcessingResponse ==> x.status > 0) &&
    (x.state == Complete ==> Is2xx(x.status))
  }

  // ----- Starting a request -----

  /**
   * `startAsyncHttpRequest`: refused while an operation is active or while the radio is
   * not associated; otherwise the request is stored with status and retries 0.
   */
  function WifiStart(x: WifiRequest, connected: bool, url: string, verb: string, payload: string,
                     hasCallback: bool, needsAuth: bool, now: Millis): Option<WifiRequest>
  {
    if x.active || !connected then None
    else Some(WifiRequest(BeginRequest, true, now, 0, url, verb, payload, needsAuth, hasCallback, 0))
  }

  /** A request starts exactly when the manager is free and associated; it then keeps the invariant. */
  lemma WifiStartSpec(x: WifiRequest, connected: bool, url: string, verb: string, payload: string,
                      hasCallback: bool, needsAuth: bool, now: Millis)
    ensures var r := WifiStart(x, connected, url, verb, payload, hasCallback, needsAuth, now);
      (r.Some? <==> !x.active && connected) &&
      (r.Some? ==>
        r.value.state == BeginRequest && r.value.active && r.value.start == now &&
        r.value.retries == 0 && r.value.status == 0 &&
        r.value.url == url && r.value.verb == verb && r.value.payload == payload &&
        r.value.hasCallback == hasCallback && r.value.needsAuth == needsAuth &&
        Inv(r.value))
  {
  }

  // ----- One poll -----

  /**
   * The headers BEGIN_REQUEST adds: `Authorization` only when the request needs it and a
   * token is set (its value printed into a 128-byte buffer), and `Content-Type` only for a
   * non-empty payload sent with POST, PUT or PATCH.
   */
  function RequestHeaders(x: WifiRequest, token: string): seq<Header>
  {
    (if x.needsAuth && |token| > 0
     then [Header("Authorization", Truncate("Bearer " + token, AUTH_HEADER_BUFFER_SIZE - 1))] else []) +
    (if |x.payload| > 0 && (x.verb == "POST" || x.verb == "PUT" || x.verb == "PATCH")
     then [Header("Content-Type", "application/json")] else [])
  }

  /** BEGIN_REQUEST: a failed `begin` is an error; otherwise the headers are added and the request is sent next. */
  function BeginStep(x: WifiRequest, token: string, a: WifiAnswers): (WifiRequest, seq<Header>)
  {
    if a.beginOk then (x.(state := SendingRequest), RequestHeaders(x, token))
    else (x.(state := Error), [])
  }

  /**
   * SENDING_REQUEST: only GET and POST are sent; a positive code is processed, a negative
   * one is an error, and 0 leaves the state as it is.
   */
  function SendStep(x: WifiRequest, a: WifiAnswers): WifiRequest
  {
    if x.verb != "GET" && x.verb != "POST" then x.(state := Error)
    else
      var y := x.(status := a.code);
      if a.code > 0 then y.(state := ProcessingResponse)
      else if a.code < 0 then y.(state := Error)
      else y
  }

  /** PROCESSING_RESPONSE: success needs a 2xx status and, with a callback, a parsed body it accepts. */
  function ProcessStep(x: WifiRequest, a: WifiAnswers): WifiRequest
  {
    var ok := Is2xx(x.status) && (!x.hasCallback || (a.jsonOk && a.callbackOk));
    x.(state := if ok then Complete else Error)
  }

  /** ERROR: a retryable status with retries left waits for a retry; anything else ends the operation. */
  function ErrorStep(x: WifiRequest, now: Millis): WifiRequest
  {
    if IsRetryableError(x.status) && x.retries < MAX_HTTP_RETRIES then
      x.(retries := x.retries + 1, start := Add(now, HTTP_RETRY_DELAY_MS), state := RetryWait)
    else x.(active := false, state := Idle)
  }

  /** RETRY_WAIT: once the deadline is reached (plain comparison), clear the status and begin again. */
  function RetryStep(x: WifiRequest, now: Millis): WifiRequest
  {
    if now >= x.start then x.(status := 0, start := now, state := BeginRequest) else x
  }

  /** The `switch` on the state; `ended` says whether `end()` was already called in this poll. */
  function WifiDispatch(x: WifiRequest, ended: bool, token: string, a: WifiAnswers, now: Millis): WifiPolled
  {
    match x.state
    case Idle => WifiPolled(x.(active := false), [], ended)
    case BeginRequest => var (y, headers) := BeginStep(x, token, a); WifiPolled(y, headers, ended)
    case SendingRequest => WifiPolled(SendStep(x, a), [], ended)
    case ProcessingResponse => WifiPolled(ProcessStep(x, a), [], true)
    case RetryWait => WifiPolled(RetryStep(x, now), [], ended)
    case Complete => WifiPolled(x.(active := false, state := Idle), [], ended || a.clientConnected)
    case Error => WifiPolled(ErrorStep(x, now), [], ended || a.clientConnected)
  }

  /**
   * One call of `updateHttpOperations`: nothing without an active operation; otherwise,
   * in every state, an attempt older than 30 s becomes ERROR (ending the client if it is
   * connected) before the handler of the (possibly new) state runs.
   */
  function WifiPoll(x: WifiRequest, token: string, a: WifiAnswers, now: Millis): WifiPolled
  {
    if !x.active then WifiPolled(x, [], false)
    else if Elapsed(now, x.start) > WIFI_HTTP_TOTAL_TIMEOUT_MS then
      WifiDispatch(x.(state := Error), a.clientConnected, token, a, now)
    else WifiDispatch(x, false, token, a, now)
  }

  // ----- Properties -----

  /** Without an active operation a poll changes nothing; an active operation found IDLE is only marked inactive. */
  lemma WifiInactiveOrIdle(x: WifiRequest, token: string, a: WifiAnswers, now: Millis)
    ensures !x.active ==> WifiPoll(x, token, a, now) == WifiPolled(x, [], false)
    ensures x.active && x.state == Idle && Elapsed(now, x.start) <= WIFI_HTTP_TOTAL_TIMEOUT_MS ==>
              WifiPoll(x, token, a, now) == WifiPolled(x.(active := false), [], false)
  {
  }

  /**
   * The overall timeout applies in every state: past 30 s the ERROR handler runs in the
   * same poll, so the operation either waits for a retry or ends, and nothing is sent.
   */
  lemma WifiOverallTimeout(x: WifiRequest, token: string, a: WifiAnswers, now: Millis)
    requires x.active && Elapsed(now, x.start) > WIFI_HTTP_TOTAL_TIMEOUT_MS
    ensures var p := WifiPoll(x, token, a, now);
      p.x == ErrorStep(x.(state := Error), now) && p.headers == [] && p.ended == a.clientConnected &&
      (p.x.state == RetryWait <==> IsRetryableError(x.status) && x.retries < MAX_HTTP_RETRIES) &&
      (p.x.state != RetryWait ==> p.x.state == Idle && !p.x.active)
  {
  }

  /** A completed operation ends IDLE and inactive in its next poll, whether or not the overall timeout fired first. */
  lemma CompleteEndsEitherWay(x: WifiRequest, token: string, a: WifiAnswers, now: Millis)
    requires Inv(x) && x.state == Complete
    ensures var p := WifiPoll(x, token, a, now);
      p.x.state == Idle && !p.x.active && p.x.retries == x.retries && p.x.status == x.status
  {
  }

  /** BEGIN_REQUEST: which headers are added, and a failed `begin` is an error. */
  lemma BeginHeaders(x: WifiRequest, token: string, a: WifiAnswers)
    ensures var (y, headers) := BeginStep(x, token, a);
      (!a.beginOk ==> y == x.(state := Error) && headers == []) &&
      (a.beginOk ==>
        y == x.(state := SendingRequest) &&
        ((exists h :: h in headers && h.name == "Authorization") <==> x.needsAuth && |token| > 0) &&
        (Header("Content-Type", "application/json") in headers <==>
           |x.payload| > 0 && (x.verb == "POST" || x.verb == "PUT" || x.verb == "PATCH")) &&
        (x.needsAuth && |token| > 0 && |token| <= 120 ==> headers[0] == Header("Authorization", "Bearer " + token)))
  {
    if a.beginOk && x.needsAuth && |token| > 0 {
      assert RequestHeaders(x, token)[0].name == "Authorization";
    }
  }

  /** SENDING_REQUEST: unsupported verbs fail; the code decides between processing, error and waiting. */
  lemma SendOutcome(x: WifiRequest, a: WifiAnswers)
    ensures var y := SendStep(x, a);
      (x.verb != "GET" && x.verb != "POST" ==> y == x.(state := Error)) &&
      (x.verb == "GET" || x.verb == "POST" ==>
        y.status == a.code &&
        y.state == (if a.code > 0 then ProcessingResponse else if a.code < 0 then Error else x.state))
  {
  }

  /** PROCESSING_RESPONSE always ends the client, and completes exactly on a 2xx status the callback (if any) accepts. */
  lemma WifiProcessingOutcome(x: WifiRequest, token: string, a: WifiAnswers, now: Millis)
    requires x.active && x.state == ProcessingResponse && Elapsed(now, x.start) <= WIFI_HTTP_TOTAL_TIMEOUT_MS
    ensures var p := WifiPoll(x, token, a, now);
      p.ended &&
      (p.x.state == Complete <==> Is2xx(x.status) && (!x.hasCallback || (a.jsonOk && a.callbackOk))) &&
      (p.x.state != Complete ==> p.x.state == Error)
  {
  }

  /**
   * ERROR retries only a retryable status with retries left (counter + 1, a deadline
   * `HTTP_RETRY_DELAY_MS` ahead); otherwise the operation ends IDLE and inactive.
   */
  lemma WifiErrorRetryRule(x: WifiRequest, now: Millis)
    ensures var y := ErrorStep(x, now);
      if IsRetryableError(x.status) && x.retries < MAX_HTTP_RETRIES
      then y == x.(retries := x.retries + 1, start := Add(now, HTTP_RETRY_DELAY_MS), state := RetryWait) &&
           Elapsed(y.start, now) == HTTP_RETRY_DELAY_MS
      else y == x.(active := false, state := Idle)
  {
    ElapsedAfterAdd(now, HTTP_RETRY_DELAY_MS);
  }

  /**
   * As in the cellular machine, the retry delay is not waited out: a poll `k` ms after
   * entering RETRY_WAIT, before the deadline, sees a wrapped elapsed time above the
   * overall timeout and goes through ERROR again, spending a retry or ending.
   */
  lemma WifiEarlyRetryPollSpendsRetry(x: WifiRequest, token: string, a: WifiAnswers, t: Millis, k: nat)
    requires x.active && x.state == RetryWait
    requires x.start == Add(t, HTTP_RETRY_DELAY_MS) && k < HTTP_RETRY_DELAY_MS
    ensures var p := WifiPoll(x, token, a, Add(t, k));
      p.x.state != BeginRequest &&
      (if IsRetryableError(x.status) && x.retries < MAX_HTTP_RETRIES
       then p.x.state == RetryWait && p.x.retries == x.retries + 1
       else p.x.state == Idle && !p.x.active)
  {
    ElapsedToFutureDeadline(t, HTTP_RETRY_DELAY_MS, k);
  }

  /** A poll at or after the deadline (within the overall timeout, without a wrap) begins the request again. */
  lemma WifiRetryAfterDelay(x: WifiRequest, token: string, a: WifiAnswers, t: Millis, k: nat)
    requires x.active && x.state == RetryWait
    requires x.start == Add(t, HTTP_RETRY_DELAY_MS)
    requires HTTP_RETRY_DELAY_MS <= k <= HTTP_RETRY_DELAY_MS + WIFI_HTTP_TOTAL_TIMEOUT_MS && t + k < WRAP
    ensures var now := Add(t, k);
      WifiPoll(x, token, a, now).x == x.(status := 0, start := now, state := BeginRequest)
  {
  }

  /** Every poll keeps the invariant; in particular retries never exceed three. */
  lemma WifiPollKeepsInv(x: WifiRequest, token: string, a: WifiAnswers, now: Millis)
    requires Inv(x)
    ensures Inv(WifiPoll(x, token, a, now).x)
  {
  }

  // ----- The manager -----

  class WifiManager {
    var ssid: string
    var password: string
    var authToken: string
    /** `WiFi.status() == WL_CONNECTED`, as left by the last `connect` or `disconnect`. */
    var associated: bool
    /** The asynchronous request: `_currentHttpState`, `_asyncOperationActive`, its timer, retries and fields. */
    var request: WifiRequest

    predicate Valid()
      reads this
    {
      Inv(request)
    }

    /**
     * The constructor stores the credentials and token and initialises only the state
     * (IDLE), the activity flag (false) and the status code (0).
     */
    constructor (ssid: string, password: string, authToken: string)
      ensures this.ssid == ssid && this.password == password && this.authToken == authToken
      ensures request.state == Idle && !request.active && request.status == 0 && !associated
      ensures Valid()
    {
      this.ssid := ssid;
      this.password := password;
      this.authToken := authToken;
      associated := false;
      request := WifiRequest(Idle, false, 0, 0, "", "", "", false, false, 0);
    }

    /** `setCredentials`: only the credentials change. */
    method SetCredentials(ssid: string, password: string)
      modifies this
      ensures this.ssid == ssid && this.password == password
      ensures authToken == old(authToken) && associated == old(associated) && request == old(request)
    {
      this.ssid := ssid;
      this.password := password;
    }

    /** `setAuthToken`: only the token changes. */
    method SetAuthToken(token: string)
      modifies this
      ensures authToken == token
      ensures ssid == old(ssid) && password == old(password) && associated == old(associated)
      ensures request == old(request)
    {
      authToken := token;
    }

    /** `isConnected`: the radio is associated. */
    predicate IsConnected()
      reads this
    {
      associated
    }

    /**
     * `connect`: fails at once without an SSID; otherwise the association attempts (given
     * by `joined`) decide the result, and a failure leaves the radio disconnected.
     */
    method Connect(joined: bool) returns (ok: bool)
      modifies this
      ensures |ssid| == 0 ==> !ok && associated == old(associated)
      ensures |ssid| > 0 ==> ok == joined && associated == joined
      ensures ssid == old(ssid) && password == old(password) && authToken == old(authToken)
      ensures request == old(request)
    {
      if |ssid| == 0 {
        return false;
      }
      associated := joined;
      return joined;
    }

    /** `disconnect`: the radio is dropped. */
    method Disconnect()
      modifies this
      ensures !IsConnected()
      ensures ssid == old(ssid) && password == old(password) && authToken == old(authToken)
      ensures request == old(request)
    {
      associated := false;
    }

    /** `startAsyncHttpRequest`: `WifiStart`. */
    method StartAsyncHttpRequest(url: string, verb: string, payload: string, hasCallback: bool, needsAuth: bool,
                                 now: Millis) returns (ok: bool)
      requires Valid()
      modifies this
      ensures var r := WifiStart(old(request), old(associated), url, verb, payload, hasCallback, needsAuth, now);
        ok == r.Some? && request == (if ok then r.value else old(request))
      ensures ssid == old(ssid) && password == old(password) && authToken == old(authToken)
      ensures associated == old(associated)
      ensures Valid()
    {
      WifiStartSpec(request, associated, url, verb, payload, hasCallback, needsAuth, now);
      if request.active {
        return false;
      }
      if !IsConnected() {
        return false;
      }
      request := request.(url := url, verb := verb, payload := payload, hasCallback := hasCallback,
                          needsAuth := needsAuth, start := now, active := true, status := 0, retries := 0);
      request := request.(state := BeginRequest);
      return true;
    }

    /**
     * `updateHttpOperations`: `WifiPoll`, returning the headers added to the client and
     * whether the client was ended.
     */
    method UpdateHttpOperations(a: WifiAnswers, now: Millis) returns (headers: seq<Header>, ended: bool)
      modifies this
      ensures var p := WifiPoll(old(request), old(authToken), a, now);
        request == p.x && headers == p.headers && ended == p.ended
      ensures ssid == old(ssid) && password == old(password) && authToken == old(authToken)
      ensures associated == old(associated)
      ensures old(Valid()) ==> Valid()
    {
      if Valid() {
        WifiPollKeepsInv(request, authToken, a, now);
      }
      headers, ended := [], false;
      if !request.active {
        return;
      }
      if Elapsed(now, request.start) > WIFI_HTTP_TOTAL_TIMEOUT_MS {
        ended := a.clientConnected;
        request := request.(state := Error);
      }
      headers, ended := RunHandler(ended, a, now);
    }

    /** The `switch` on the state: `WifiDispatch`. */
    method RunHandler(endedBefore: bool, a: WifiAnswers, now: Millis) returns (headers: seq<Header>, ended: bool)
      modifies this
      ensures var p := WifiDispatch(old(request), endedBefore, old(authToken), a, now);
        request == p.x && headers == p.headers && ended == p.ended
      ensures ssid == old(ssid) && password == old(password) && authToken == old(authToken)
      ensures associated == old(associated)
    {
      headers, ended := [], endedBefore;
      match request.state
      case Idle =>
        request := request.(active := false);
      case BeginRequest =>
        headers := BeginHttp(a);
      case SendingRequest =>
        SendHttp(a);
      case ProcessingResponse =>
        ProcessResponse(a);
        ended := true;
      case RetryWait =>
        if now >= request.start {
          request := request.(status := 0, start := now, state := BeginRequest);
        }
      case Complete =>
        ended := ended || a.clientConnected;
        request := request.(active := false, state := Idle);
      case Error =>
        ended := ended || a.clientConnected;
        HandleError(now);
    }

    /** BEGIN_REQUEST: `BeginStep`, adding the headers one by one. */
    method BeginHttp(a: WifiAnswers) returns (headers: seq<Header>)
      modifies this
      ensures (request, headers) == BeginStep(old(request), old(authToken), a)
      ensures ssid == old(ssid) && password == old(password) && authToken == old(authToken)
      ensures associated == old(associated)
    {
      headers := [];
      if !a.beginOk {
        request := request.(state := Error);
        return;
      }
      if request.needsAuth && |authToken| > 0 {
        headers := headers + [Header("Authorization", Truncate("Bearer " + authToken, AUTH_HEADER_BUFFER_SIZE - 1))];
      }
      if |request.payload| > 0 && (request.verb == "POST" || request.verb == "PUT" || request.verb == "PATCH") {
        headers := headers + [Header("Content-Type", "application/json")];
      }
      assert headers == RequestHeaders(request, authToken);
      request := request.(state := SendingRequest);
    }

    /** SENDING_REQUEST: `SendStep`. */
    method SendHttp(a: WifiAnswers)
      modifies this
      ensures request == SendStep(old(request), a)
      ensures ssid == old(ssid) && password == old(password) && authToken == old(authToken)
      ensures associated == old(associated)
    {
      if request.verb == "GET" || request.verb == "POST" {
        request := request.(status := a.code);
        if a.code > 0 {
          request := request.(state := ProcessingResponse);
        } else if a.code < 0 {
          request := request.(state := Error);
        }
      } else {
        request := request.(state := Error);
      }
    }

    /** PROCESSING_RESPONSE: `ProcessStep`. */
    method ProcessResponse(a: WifiAnswers)
      modifies this
      ensures request == ProcessStep(old(request), a)
      ensures ssid == old(ssid) && password == old(password) && authToken == old(authToken)
      ensures associated == old(associated)
    {
      var ok := false;
      if Is2xx(request.status) {
        if request.hasCallback {
          ok := a.jsonOk && a.callbackOk;
        } else {
          ok := true;
        }
      }
      request := request.(state := if ok then Complete else Error);
    }

    /** ERROR: `ErrorStep`. */
    method HandleError(now: Millis)
      modifies this
      ensures request == ErrorStep(old(request), now)
      ensures ssid == old(ssid) && password == old(password) && authToken == old(authToken)
      ensures associated == old(associated)
    {
      if IsRetryableError(request.status) && request.retries < MAX_HTTP_RETRIES {
        request := request.(retries := request.retries + 1, start := Add(now, HTTP_RETRY_DELAY_MS),
                            state := RetryWait);
      } else {
        request := request.(active := false, state := Idle);
      }
    }
  }
}
