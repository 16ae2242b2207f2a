/**
 * `NetworkFacade`: the single network interface the rest of the firmware talks to.  It
 * holds an optional WiFi manager and an optional GPRS manager, a preference strategy and
 * the "active interface" it forwards HTTP work to.  Every method is proved to follow a
 * step function over a `FacadeView`, a snapshot of the facade and of the fields of both
 * managers; the lemmas about the step functions state what the facade promises and what
 * it does not (GPRS `connect` always reports success, GPRS `disconnect` changes nothing).
 */
module Facade {
  import opened Clock
  import opened Wrappers
  import opened DeviceStateModel
  import GprsLink
  import GprsHttp
  import Gprs
  import Wifi

  /** `NetworkFacade::NetworkPreference`. */
  datatype NetworkPreference = WifiOnly | GprsOnly | WifiPreferred | GprsPreferred

  /** What `_activeInterface` points to. */
  datatype Iface = NoIface | WifiIface | GprsIface

  /** The fields of a `WiFiManager` the facade's operations read or change. */
  datatype WifiView = WifiView(ssid: string, associated: bool, token: string, request: Wifi.WifiRequest)

  /** The fields of a `GPRSManager` the facade's operations read or change. */
  datatype GprsView = GprsView(link: GprsLink.Link, request: GprsHttp.Exchange, client: GprsHttp.Client,
                               token: string)

  /** The facade together with the managers it holds (`None` for a missing manager). */
  datatype FacadeView = FacadeView(preference: NetworkPreference, active: Iface,
                                   wifi: Option<WifiView>, gprs: Option<GprsView>)

  /** `wm && wm->isConnected()`. */
  predicate WifiUp(v: FacadeView)
  {
    v.wifi.Some? && v.wifi.value.associated
  }

  /** `gm && gm->isConnected()`. */
  predicate GprsUp(v: FacadeView)
  {
    v.gprs.Some? && v.gprs.value.link.state == Operational
  }

  /** The active interface points at a manager that exists, and both managers keep their invariants. */
  predicate ViewInv(v: FacadeView)
  {
    (v.active == WifiIface ==> v.wifi.Some?) &&
    (v.active == GprsIface ==> v.gprs.Some?) &&
    (v.wifi.Some? ==> Wifi.Inv(v.wifi.value.request)) &&
    (v.gprs.Some? ==> GprsLink.Inv(v.gprs.value.link) && GprsHttp.Inv(v.gprs.value.request))
  }

  // ----- determineActiveInterface -----

  /**
   * The choice of `determineActiveInterface`: an ONLY preference takes its manager when it
   * exists; a PREFERRED one takes, in order, the preferred manager if connected, the other
   * if connected, the preferred if present, the other if present.
   */
  function Choose(pref: NetworkPreference, hasWifi: bool, wifiUp: bool, hasGprs: bool, gprsUp: bool): Iface
  {
    match pref
    case WifiOnly => if hasWifi then WifiIface else NoIface
    case GprsOnly => if hasGprs then GprsIface else NoIface
    case WifiPreferred =>
      if hasWifi && wifiUp then WifiIface
      else if hasGprs && gprsUp then GprsIface
      else if hasWifi then WifiIface
      else if hasGprs then GprsIface
      else NoIface
    case GprsPreferred =>
      if hasGprs && gprsUp then GprsIface
      else if hasWifi && wifiUp then WifiIface
      else if hasGprs then GprsIface
      else if hasWifi then WifiIface
      else NoIface
  }

  /** `determineActiveInterface` on a snapshot: only the active interface changes. */
  function Determine(v: FacadeView): FacadeView
  {
    v.(active := Choose(v.preference, v.wifi.Some?, WifiUp(v), v.gprs.Some?, GprsUp(v)))
  }

  /** Exchanging the roles of the two managers. */
  function Swap(i: Iface): Iface
  {
    match i
    case NoIface => NoIface
    case WifiIface => GprsIface
    case GprsIface => WifiIface
  }

  /**
   * What the choice guarantees: it never names a missing manager; an ONLY preference
   * never names the other manager; a PREFERRED preference names some manager whenever
   * one exists, names a connected one whenever one is connected, and the preferred one
   * when it is connected or the other is not.
   */
  lemma ChooseSpec(pref: NetworkPreference, hasWifi: bool, wifiUp: bool, hasGprs: bool, gprsUp: bool)
    ensures var r := Choose(pref, hasWifi, wifiUp, hasGprs, gprsUp);
      (r == WifiIface ==> hasWifi) && (r == GprsIface ==> hasGprs) &&
      (pref == WifiOnly ==> (r == WifiIface <==> hasWifi) && r != GprsIface) &&
      (pref == GprsOnly ==> (r == GprsIface <==> hasGprs) && r != WifiIface) &&
      (pref in {WifiPreferred, GprsPreferred} ==>
        (r == NoIface <==> !hasWifi && !hasGprs) &&
        ((hasWifi && wifiUp) || (hasGprs && gprsUp) ==>
          (r == WifiIface && wifiUp) || (r == GprsIface && gprsUp))) &&
      (pref == WifiPreferred ==>
        (r == WifiIface <==> hasWifi && (wifiUp || !(hasGprs && gprsUp)))) &&
      (pref == GprsPreferred ==>
        (r == GprsIface <==> hasGprs && (gprsUp || !(hasWifi && wifiUp))))
  {
  }

  /** The two PREFERRED strategies are mirror images of each other. */
  lemma PreferredMirror(hasWifi: bool, wifiUp: bool, hasGprs: bool, gprsUp: bool)
    ensures Choose(GprsPreferred, hasWifi, wifiUp, hasGprs, gprsUp) ==
            Swap(Choose(WifiPreferred, hasGprs, gprsUp, hasWifi, wifiUp))
  {
  }

  // ----- isConnected -----

  /**
   * `isConnected`: the active interface's own answer; with no active interface, whether
   * either manager is connected.
   */
  predicate Connected(v: FacadeView)
  {
    match v.active
    case WifiIface => WifiUp(v)
    case GprsIface => GprsUp(v)
    case NoIface => WifiUp(v) || GprsUp(v)
  }

  /**
   * Once the active interface has been determined, the facade is connected exactly when
   * the manager its preference allows is: under an ONLY preference that manager, under a
   * PREFERRED one either manager.  An ONLY preference whose manager is missing leaves no
   * active interface, and `isConnected` then falls back to the other manager.
   */
  lemma ConnectedAfterDetermine(v: FacadeView)
    ensures var d := Determine(v);
      (v.preference == WifiOnly ==> (Connected(d) <==> WifiUp(v) || (v.wifi.None? && GprsUp(v)))) &&
      (v.preference == GprsOnly ==> (Connected(d) <==> GprsUp(v) || (v.gprs.None? && WifiUp(v)))) &&
      (v.preference in {WifiPreferred, GprsPreferred} ==> (Connected(d) <==> WifiUp(v) || GprsUp(v)))
  {
    ChooseSpec(v.preference, v.wifi.Some?, WifiUp(v), v.gprs.Some?, GprsUp(v));
  }

  // ----- connect -----

  /** `WiFiManager::connect`: refused with an empty SSID, otherwise associated exactly when the network is joined. */
  function WifiJoin(w: WifiView, joined: bool): (bool, WifiView)
  {
    if |w.ssid| == 0 then (false, w) else (joined, w.(associated := joined))
  }

  /** `GPRSManager::connect`: starts the connection machine when DISABLED, and always reports success. */
  function GprsJoin(g: GprsView, now: Millis): (bool, GprsView)
  {
    (true, g.(link := GprsLink.Connect(g.link, now)))
  }

  /** `wm && wm->connect()`. */
  function TryWifi(v: FacadeView, joined: bool): (bool, FacadeView)
  {
    if v.wifi.None? then (false, v)
    else var (ok, w) := WifiJoin(v.wifi.value, joined); (ok, v.(wifi := Some(w)))
  }

  /** `gm && gm->connect()`. */
  function TryGprs(v: FacadeView, now: Millis): (bool, FacadeView)
  {
    if v.gprs.None? then (false, v)
    else var (ok, g) := GprsJoin(v.gprs.value, now); (ok, v.(gprs := Some(g)))
  }

  /** `if (wm && wm->isConnected()) wm->disconnect();`. */
  function DropWifi(v: FacadeView): FacadeView
  {
    if WifiUp(v) then v.(wifi := Some(v.wifi.value.(associated := false))) else v
  }

  /**
   * `connect`: an ONLY preference connects its manager; a PREFERRED one connects the
   * preferred manager and, when that fails and the other exists, first takes the
   * preferred one down if it is connected and then connects the other.  The active
   * interface is determined afterwards.  (`GPRSManager::disconnect` changes no field, so
   * the GPRS branch that takes GPRS down is the identity on the snapshot.)
   */
  function ConnectStep(v: FacadeView, joined: bool, now: Millis): (bool, FacadeView)
  {
    var (ok, v') :=
      match v.preference
      case WifiOnly => TryWifi(v, joined)
      case GprsOnly => TryGprs(v, now)
      case WifiPreferred =>
        var (wok, v1) := TryWifi(v, joined);
        if wok then (true, v1)
        else if v1.gprs.Some? then TryGprs(DropWifi(v1), now)
        else (false, v1)
      case GprsPreferred =>
        var (gok, v1) := TryGprs(v, now);
        if gok then (true, v1)
        else if v1.wifi.Some? then TryWifi(v1, joined)
        else (false, v1);
    (ok, Determine(v'))
  }

  /** Whether WiFi's `connect` would succeed: a manager with an SSID that joins the network. */
  predicate WifiJoins(v: FacadeView, joined: bool)
  {
    v.wifi.Some? && |v.wifi.value.ssid| > 0 && joined
  }

  /** The GPRS snapshot after its `connect`. */
  function GprsStarted(v: FacadeView, now: Millis): Option<GprsView>
  {
    if v.gprs.None? then None else Some(v.gprs.value.(link := GprsLink.Connect(v.gprs.value.link, now)))
  }

  /** The WiFi snapshot after its `connect`. */
  function WifiTried(v: FacadeView, joined: bool): Option<WifiView>
  {
    if v.wifi.None? then None else Some(WifiJoin(v.wifi.value, joined).1)
  }

  /**
   * What `connect` does to each manager and what it reports.  Because GPRS `connect`
   * always succeeds, GPRS_PREFERRED never touches WiFi when a GPRS manager exists, and
   * WIFI_PREFERRED reports success whenever a GPRS manager exists, after taking WiFi down.
   */
  lemma ConnectOutcome(v: FacadeView, joined: bool, now: Millis)
    ensures var (ok, v') := ConnectStep(v, joined, now);
      v'.preference == v.preference &&
      v' == Determine(v') &&
      (v.preference == WifiOnly ==>
        ok == WifiJoins(v, joined) && v'.wifi == WifiTried(v, joined) && v'.gprs == v.gprs) &&
      (v.preference == GprsOnly ==>
        ok == v.gprs.Some? && v'.gprs == GprsStarted(v, now) && v'.wifi == v.wifi) &&
      (v.preference == WifiPreferred ==>
        ok == (WifiJoins(v, joined) || v.gprs.Some?) &&
        (WifiJoins(v, joined) ==> v'.wifi == WifiTried(v, joined) && v'.gprs == v.gprs) &&
        (!WifiJoins(v, joined) && v.gprs.Some? ==> !WifiUp(v') && v'.gprs == GprsStarted(v, now))) &&
      (v.preference == GprsPreferred ==>
        ok == (v.gprs.Some? || WifiJoins(v, joined)) &&
        (v.gprs.Some? ==> v'.wifi == v.wifi && v'.gprs == GprsStarted(v, now)) &&
        (v.gprs.None? ==> v'.wifi == WifiTried(v, joined)))
  {
  }

  /**
   * Success of `connect` does not mean connected: with GPRS only and its machine DISABLED,
   * `connect` reports success while the facade is still not connected.
   */
  lemma ConnectSuccessIsNotConnection(v: FacadeView, joined: bool, now: Millis)
    requires v.preference == GprsOnly && v.gprs.Some? && v.gprs.value.link.state == Disabled
    ensures ConnectStep(v, joined, now).0 && !Connected(ConnectStep(v, joined, now).1)
  {
  }

  /** `connect` keeps the snapshot invariant and changes neither request nor token. */
  lemma ConnectKeepsInv(v: FacadeView, joined: bool, now: Millis)
    requires ViewInv(v)
    ensures var v' := ConnectStep(v, joined, now).1;
      ViewInv(v') &&
      (v.wifi.Some? ==> v'.wifi.Some? && v'.wifi.value.request == v.wifi.value.request &&
                        v'.wifi.value.ssid == v.wifi.value.ssid && v'.wifi.value.token == v.wifi.value.token) &&
      (v.gprs.Some? ==> v'.gprs.Some? && v'.gprs.value.request == v.gprs.value.request &&
                        v'.gprs.value.client == v.gprs.value.client && v'.gprs.value.token == v.gprs.value.token)
  {
    if v.gprs.Some? {
      GprsLink.ConnectKeepsInv(v.gprs.value.link, now);
    }
    match v.preference {
      case WifiOnly =>
      case GprsOnly =>
      case WifiPreferred =>
        var v1 := TryWifi(v, joined).1;
        assert ViewInv(v1) && ViewInv(DropWifi(v1));
      case GprsPreferred =>
        var v1 := TryGprs(v, now).1;
        assert ViewInv(v1);
    }
  }

  // ----- disconnect -----

  /** `disconnect`: each connected manager is told to disconnect, and no interface is active. */
  function DisconnectStep(v: FacadeView): FacadeView
  {
    DropWifi(v).(active := NoIface)
  }

  /**
   * After `disconnect` WiFi is down, but GPRS is as it was, because its `disconnect`
   * changes no field; the facade therefore still reports connected exactly when GPRS was
   * OPERATIONAL.
   */
  lemma DisconnectOutcome(v: FacadeView)
    ensures var v' := DisconnectStep(v);
      v'.active == NoIface && !WifiUp(v') && v'.gprs == v.gprs && v'.preference == v.preference &&
      (v.wifi.Some? ==> v'.wifi.Some? && v'.wifi.value.request == v.wifi.value.request) &&
      (Connected(v') <==> GprsUp(v))
  {
  }

  // ----- startAsyncHttpRequest -----

  /**
   * `startAsyncHttpRequest`: when not connected, `connect` runs first and its failure
   * refuses the request; the request then goes to the active interface when that one is
   * connected, and is refused otherwise.
   */
  function StartStep(v: FacadeView, joined: bool, url: string, verb: string, payload: string,
                     hasCallback: bool, needsAuth: bool, now: Millis): (bool, FacadeView)
  {
    var (cok, v1) := if Connected(v) then (true, v) else ConnectStep(v, joined, now);
    if !cok then (false, v1)
    else Forward(v1, url, verb, payload, hasCallback, needsAuth, now)
  }

  /** The second half of `startAsyncHttpRequest`: the request goes to the active interface if that one is connected. */
  function Forward(v1: FacadeView, url: string, verb: string, payload: string,
                   hasCallback: bool, needsAuth: bool, now: Millis): (bool, FacadeView)
  {
    if v1.active == WifiIface && WifiUp(v1) then
      var w := v1.wifi.value;
      var r := Wifi.WifiStart(w.request, w.associated, url, verb, payload, hasCallback, needsAuth, now);
      if r.Some? then (true, v1.(wifi := Some(w.(request := r.value)))) else (false, v1)
    else if v1.active == GprsIface && GprsUp(v1) then
      var g := v1.gprs.value;
      var r := GprsHttp.StartRequest(g.request, true, url, verb, payload, hasCallback, needsAuth, now);
      if r.Some? then (true, v1.(gprs := Some(g.(request := r.value)))) else (false, v1)
    else (false, v1)
  }

  /**
   * Forwarding starts a request only on the active interface, which is connected and was
   * free, and leaves the other manager untouched.
   */
  lemma ForwardToActive(v1: FacadeView, url: string, verb: string, payload: string,
                        hasCallback: bool, needsAuth: bool, now: Millis)
    requires ViewInv(v1)
    ensures var (ok, v') := Forward(v1, url, verb, payload, hasCallback, needsAuth, now);
      v'.active == v1.active && v'.preference == v1.preference &&
      (ok ==> Connected(v')) &&
      (ok && v'.active == WifiIface ==>
        !v1.wifi.value.request.active && v'.gprs == v1.gprs &&
        v'.wifi.value.request.state == Wifi.BeginRequest && v'.wifi.value.request.url == url &&
        v'.wifi.value.request.verb == verb && v'.wifi.value.request.payload == payload) &&
      (ok && v'.active == GprsIface ==>
        !v1.gprs.value.request.active && v'.wifi == v1.wifi &&
        v'.gprs.value.request.state == GprsHttp.ClientConnect && v'.gprs.value.request.verb == verb &&
        v'.gprs.value.request.payload == payload) &&
      (!ok ==> v' == v1)
  {
    if v1.wifi.Some? {
      var w := v1.wifi.value;
      Wifi.WifiStartSpec(w.request, w.associated, url, verb, payload, hasCallback, needsAuth, now);
    }
    if v1.gprs.Some? {
      GprsHttp.StartRequestSpec(v1.gprs.value.request, true, url, verb, payload, hasCallback, needsAuth, now);
    }
  }

  /**
   * A started request goes to exactly one manager: the active one, which is connected and
   * was free; the other manager's request is untouched.  A facade that was connected is
   * not reconnected.
   */
  lemma StartForwardsToActive(v: FacadeView, joined: bool, url: string, verb: string, payload: string,
                              hasCallback: bool, needsAuth: bool, now: Millis)
    requires ViewInv(v)
    ensures var (ok, v') := StartStep(v, joined, url, verb, payload, hasCallback, needsAuth, now);
      var v1 := if Connected(v) then v else ConnectStep(v, joined, now).1;
      v'.active == v1.active && v'.preference == v.preference &&
      (Connected(v) ==> v1 == v) &&
      (ok ==> Connected(v')) &&
      (ok && v'.active == WifiIface ==>
        !v1.wifi.value.request.active && v'.gprs == v1.gprs &&
        v'.wifi.value.request.state == Wifi.BeginRequest && v'.wifi.value.request.url == url &&
        v'.wifi.value.request.verb == verb && v'.wifi.value.request.payload == payload) &&
      (ok && v'.active == GprsIface ==>
        !v1.gprs.value.request.active && v'.wifi == v1.wifi &&
        v'.gprs.value.request.state == GprsHttp.ClientConnect && v'.gprs.value.request.verb == verb &&
        v'.gprs.value.request.payload == payload) &&
      (!ok ==> v' == v1)
  {
    if !Connected(v) {
      ConnectKeepsInv(v, joined, now);
    }
    var v1 := if Connected(v) then v else ConnectStep(v, joined, now).1;
    ForwardToActive(v1, url, verb, payload, hasCallback, needsAuth, now);
  }

  /**
   * GPRS only, with the connection machine not yet OPERATIONAL: the request is refused
   * even though the implicit `connect` reports success.
   */
  lemma GprsOnlyRefusesUntilOperational(v: FacadeView, joined: bool, url: string, verb: string, payload: string,
                                        hasCallback: bool, needsAuth: bool, now: Millis)
    requires v.preference == GprsOnly && v.gprs.Some? && v.gprs.value.link.state != Operational
    requires v == Determine(v)
    ensures !StartStep(v, joined, url, verb, payload, hasCallback, needsAuth, now).0
  {
  }

  // ----- updateHttpOperations -----

  /** `updateHttpOperations`: only the active interface's request machine is polled. */
  function UpdateStep(v: FacadeView, wa: Wifi.WifiAnswers, ga: GprsHttp.Answers, now: Millis): FacadeView
    requires ViewInv(v)
  {
    match v.active
    case NoIface => v
    case WifiIface =>
      var w := v.wifi.value;
      v.(wifi := Some(w.(request := Wifi.WifiPoll(w.request, w.token, wa, now).x)))
    case GprsIface =>
      var g := v.gprs.value;
      var p := GprsHttp.HttpPoll(g.link, g.request, g.client, g.token, ga, now);
      v.(gprs := Some(g.(link := p.link, request := p.x, client := p.client)))
  }

  /**
   * A request on the manager that is not active is not advanced: its whole snapshot is
   * unchanged, so a request left behind by a change of active interface stays where it is.
   * The poll keeps the invariant.
   */
  lemma UpdateOnlyActive(v: FacadeView, wa: Wifi.WifiAnswers, ga: GprsHttp.Answers, now: Millis)
    requires ViewInv(v)
    ensures var v' := UpdateStep(v, wa, ga, now);
      ViewInv(v') && v'.active == v.active && v'.preference == v.preference &&
      (v.active != WifiIface ==> v'.wifi == v.wifi) &&
      (v.active != GprsIface ==> v'.gprs == v.gprs) &&
      (v.active == WifiIface ==> v'.wifi.value.request == Wifi.WifiPoll(v.wifi.value.request, v.wifi.value.token, wa, now).x)
  {
    match v.active
    case NoIface =>
    case WifiIface =>
      var w := v.wifi.value;
      Wifi.WifiPollKeepsInv(w.request, w.token, wa, now);
    case GprsIface =>
      var g := v.gprs.value;
      GprsHttp.PollKeepsInv(g.link, g.request, g.client, g.token, ga, now);
      if g.link.state == Operational {
        GprsLink.LinkLossKeepsInv(g.link, now);
      }
  }

  // ----- switchToWiFi, switchToGPRS, setPreference -----

  /**
   * `switchToWiFi`: refused without a WiFi manager (the active interface is left as it
   * is); otherwise WiFi connects, GPRS is told to disconnect on success, and the active
   * interface is determined again either way.
   */
  function SwitchWifiStep(v: FacadeView, joined: bool): (bool, FacadeView)
  {
    if v.wifi.None? then (false, v)
    else
      var (ok, v1) := TryWifi(v, joined);
      (ok, Determine(v1))
  }

  /**
   * `switchToGPRS`: refused without a GPRS manager; otherwise GPRS connects (always with
   * success), WiFi is taken down if connected, and the active interface is determined.
   */
  function SwitchGprsStep(v: FacadeView, now: Millis): (bool, FacadeView)
  {
    if v.gprs.None? then (false, v)
    else
      var (ok, v1) := TryGprs(v, now);
      if ok then (true, Determine(DropWifi(v1))) else (false, Determine(v1))
  }

  /**
   * A switch does not override the preference: after a successful switch to WiFi, a
   * GPRS_PREFERRED facade whose GPRS is OPERATIONAL keeps GPRS active, and a GPRS_ONLY
   * facade never makes WiFi active.
   */
  lemma SwitchToWifiOutcome(v: FacadeView, joined: bool)
    ensures var (ok, v') := SwitchWifiStep(v, joined);
      (ok <==> WifiJoins(v, joined)) &&
      (v.wifi.None? ==> v' == v) &&
      (v.wifi.Some? ==> v'.wifi == WifiTried(v, joined) && v'.gprs == v.gprs && v' == Determine(v')) &&
      (ok ==> WifiUp(v')) &&
      (ok && v.preference == GprsPreferred && GprsUp(v) ==> v'.active == GprsIface) &&
      (v.preference == GprsOnly ==> v'.active != WifiIface || v == v')
  {
  }

  /**
   * With a GPRS manager, `switchToGPRS` always reports success and WiFi ends down; under
   * WIFI_ONLY WiFi stays the active interface, so the facade is then not connected.
   */
  lemma SwitchToGprsOutcome(v: FacadeView, now: Millis)
    ensures var (ok, v') := SwitchGprsStep(v, now);
      (ok <==> v.gprs.Some?) &&
      (v.gprs.None? ==> v' == v) &&
      (v.gprs.Some? ==> !WifiUp(v') && v'.gprs == GprsStarted(v, now) && v' == Determine(v')) &&
      (ok && v.preference == WifiOnly && v.wifi.Some? ==> !Connected(v'))
  {
  }

  /** `setPreference`: the preference is replaced and the active interface determined again. */
  function PreferenceStep(v: FacadeView, p: NetworkPreference): FacadeView
  {
    Determine(v.(preference := p))
  }

  /** `getPreference` returns what `setPreference` stored; the managers are untouched. */
  lemma PreferenceOutcome(v: FacadeView, p: NetworkPreference)
    ensures var v' := PreferenceStep(v, p);
      v'.preference == p && v'.wifi == v.wifi && v'.gprs == v.gprs &&
      v'.active == Choose(p, v.wifi.Some?, WifiUp(v), v.gprs.Some?, GprsUp(v))
  {
  }

  // ----- The facade -----

  /** The snapshot of a WiFi manager reference. */
  function WifiViewOf(w: Wifi.WifiManager?): Option<WifiView>
    reads w
  {
    if w == null then None else Some(WifiView(w.ssid, w.associated, w.authToken, w.request))
  }

  /** The snapshot of a GPRS manager reference. */
  function GprsViewOf(g: Gprs.GprsManager?): Option<GprsView>
    reads g
  {
    if g == null then None else Some(GprsView(g.link, g.request, g.client, g.authToken))
  }

  class NetworkFacade {
    var preference: NetworkPreference
    /** `_wifiManagerRaw`; null when the facade was built without WiFi. */
    const wifi: Wifi.WifiManager?
    /** `_gprsManagerRaw`; null when the facade was built without GPRS. */
    const gprs: Gprs.GprsManager?
    /** `_activeInterface`. */
    var active: Iface

    /** The facade and its managers as one snapshot. */
    function View(): FacadeView
      reads this, wifi, gprs
    {
      FacadeView(preference, active, WifiViewOf(wifi), GprsViewOf(gprs))
    }

    /** The device record the GPRS manager mirrors its state into. */
    function Record(): set<DeviceState?>
    {
      if gprs == null then {} else {gprs.deviceState}
    }

    predicate Valid()
      reads this, wifi, gprs
    {
      ViewInv(View())
    }

    /** Both constructors: the managers are stored and the active interface determined. */
    constructor (preference: NetworkPreference, wifi: Wifi.WifiManager?, gprs: Gprs.GprsManager?)
      requires wifi != null ==> wifi.Valid()
      requires gprs != null ==> gprs.Valid()
      ensures this.wifi == wifi && this.gprs == gprs
      ensures View() == Determine(FacadeView(preference, NoIface, WifiViewOf(wifi), GprsViewOf(gprs)))
      ensures Valid()
    {
      this.preference := preference;
      this.wifi := wifi;
      this.gprs := gprs;
      active := NoIface;
      new;
      DetermineActiveInterface();
    }

    /** `isConnected`. */
    predicate IsConnected()
      reads this, wifi, gprs
    {
      Connected(View())
    }

    /** `getPreference`. */
    function GetPreference(): NetworkPreference
      reads this
    {
      preference
    }

    method DetermineActiveInterface()
      modifies this
      ensures View() == Determine(old(View()))
      ensures old(Valid()) ==> Valid()
    {
      var wifiConnected := wifi != null && wifi.IsConnected();
      var gprsConnected := gprs != null && gprs.IsConnected();
      active := NoIface;
      match preference {
        case WifiOnly =>
          if wifi != null { active := WifiIface; }
        case GprsOnly =>
          if gprs != null { active := GprsIface; }
        case WifiPreferred =>
          if wifi != null && wifiConnected { active := WifiIface; }
          else if gprs != null && gprsConnected { active := GprsIface; }
          else if wifi != null { active := WifiIface; }
          else if gprs != null { active := GprsIface; }
        case GprsPreferred =>
          if gprs != null && gprsConnected { active := GprsIface; }
          else if wifi != null && wifiConnected { active := WifiIface; }
          else if gprs != null { active := GprsIface; }
          else if wifi != null { active := WifiIface; }
      }
    }

    method Connect(joined: bool, now: Millis) returns (ok: bool)
      requires Valid()
      modifies this, wifi, gprs, Record()
      ensures (ok, View()) == ConnectStep(old(View()), joined, now)
      ensures Valid()
    {
      ConnectKeepsInv(View(), joined, now);
      ok := false;
      match preference {
        case WifiOnly =>
          if wifi != null { ok := wifi.Connect(joined); }
        case GprsOnly =>
          if gprs != null { ok := gprs.Connect(now); }
        case WifiPreferred =>
          var wok := false;
          if wifi != null { wok := wifi.Connect(joined); }
          if wok {
            ok := true;
          } else if gprs != null {
            if wifi != null && wifi.IsConnected() { wifi.Disconnect(); }
            ok := gprs.Connect(now);
          }
        case GprsPreferred =>
          var gok := false;
          if gprs != null { gok := gprs.Connect(now); }
          if gok {
            ok := true;
          } else if wifi != null {
            ok := wifi.Connect(joined);
          }
      }
      DetermineActiveInterface();
    }

    method Disconnect()
      modifies wifi, this
      ensures View() == DisconnectStep(old(View()))
      ensures old(Valid()) ==> Valid()
    {
      if wifi != null && wifi.IsConnected() {
        wifi.Disconnect();
      }
      if gprs != null && gprs.IsConnected() {
        gprs.Disconnect();
      }
      active := NoIface;
    }

    method StartAsyncHttpRequest(joined: bool, url: string, verb: string, payload: string,
                                 hasCallback: bool, needsAuth: bool, now: Millis) returns (ok: bool)
      requires Valid()
      modifies this, wifi, gprs, Record()
      ensures (ok, View()) == StartStep(old(View()), joined, url, verb, payload, hasCallback, needsAuth, now)
      ensures Valid()
    {
      if !IsConnected() {
        var c := Connect(joined, now);
        if !c {
          return false;
        }
      }
      if active == WifiIface && wifi.IsConnected() {
        ok := wifi.StartAsyncHttpRequest(url, verb, payload, hasCallback, needsAuth, now);
      } else if active == GprsIface && gprs.IsConnected() {
        ok := gprs.StartAsyncHttpRequest(url, verb, payload, hasCallback, needsAuth, now);
      } else {
        ok := false;
      }
    }

    method UpdateHttpOperations(wa: Wifi.WifiAnswers, ga: GprsHttp.Answers, now: Millis)
      requires Valid()
      modifies wifi, gprs, Record()
      ensures View() == UpdateStep(old(View()), wa, ga, now)
      ensures Valid()
    {
      match active {
        case NoIface =>
        case WifiIface =>
          var _, _ := wifi.UpdateHttpOperations(wa, now);
        case GprsIface =>
          var _ := gprs.UpdateHttpOperations(ga, now);
      }
    }

    method SwitchToWifi(joined: bool) returns (ok: bool)
      requires Valid()
      modifies this, wifi
      ensures (ok, View()) == SwitchWifiStep(old(View()), joined)
      ensures Valid()
    {
      if wifi == null {
        return false;
      }
      ok := wifi.Connect(joined);
      if ok {
        if gprs != null && gprs.IsConnected() {
          gprs.Disconnect();
        }
      }
      DetermineActiveInterface();
    }

    method SwitchToGprs(now: Millis) returns (ok: bool)
      requires Valid()
      modifies this, wifi, gprs, Record()
      ensures (ok, View()) == SwitchGprsStep(old(View()), now)
      ensures Valid()
    {
      if gprs == null {
        return false;
      }
      GprsLink.ConnectKeepsInv(gprs.link, now);
      ok := gprs.Connect(now);
      if wifi != null && wifi.IsConnected() {
        wifi.Disconnect();
      }
      DetermineActiveInterface();
    }

    method SetPreference(p: NetworkPreference)
      modifies this
      ensures View() == PreferenceStep(old(View()), p)
      ensures GetPreference() == p
      ensures old(Valid()) ==> Valid()
    {
      preference := p;
      DetermineActiveInterface();
    }
  }
}
