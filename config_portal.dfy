/**
 * `ConfigPortalManager`: the request handlers of the configuration web portal.  The
 * root page is the page template with its five placeholders filled from the stored
 * configuration (the password field always empty); unknown URLs are redirected to the
 * access point, answered 204 for the operating systems' connectivity probes, or 404;
 * a form submission is validated, saved through `DeviceConfig`, and on success handed
 * on to the network managers.  The web server, DNS server, LCD and restart are not
 * modelled: each handler returns the status code it sends.
 */
module Portal {
  import opened Wrappers
  import opened Text
  import Config
  import NvsStore
  import Facade
  import Wifi
  import Gprs
  import GprsLink
  import GprsHttp

  // ----- processor and handleRoot -----

  /** `processor`: the text a placeholder name stands for. */
  function Processor(name: string, s: Config.Settings): string
  {
    if name == "SSID" then s.ssid
    else if name == "PASS" then ""
    else if name == "TOKEN" then s.apiToken
    else if name == "GH_ID_1_SELECTED" then (if s.ghId == 1 then "selected" else "")
    else if name == "GH_ID_2_SELECTED" then (if s.ghId == 2 then "selected" else "")
    else ""
  }

  /**
   * The placeholders: the SSID and token are filled in, the password field is always
   * empty, exactly the option of the stored id is marked selected, unknown names give
   * the empty string, and no placeholder depends on the stored password.
   */
  lemma ProcessorOutcome(name: string, s: Config.Settings, otherPassword: string)
    ensures Processor(name, s) == Processor(name, s.(password := otherPassword))
    ensures Processor("SSID", s) == s.ssid && Processor("TOKEN", s) == s.apiToken
    ensures Processor("PASS", s) == ""
    ensures Processor("GH_ID_1_SELECTED", s) == "selected" <==> s.ghId == 1
    ensures Processor("GH_ID_2_SELECTED", s) == "selected" <==> s.ghId == 2
    ensures Processor("GH_ID_1_SELECTED", s) == "" <==> s.ghId != 1
    ensures name !in {"SSID", "PASS", "TOKEN", "GH_ID_1_SELECTED", "GH_ID_2_SELECTED"} ==> Processor(name, s) == ""
  {
  }

  /** `handleRoot`: the five replacements, in the order the handler applies them. */
  function RootPage(template: string, s: Config.Settings): string
  {
    var p1 := StringReplace(template, "%GH_ID_1_SELECTED%", Processor("GH_ID_1_SELECTED", s));
    var p2 := StringReplace(p1, "%GH_ID_2_SELECTED%", Processor("GH_ID_2_SELECTED", s));
    var p3 := StringReplace(p2, "%SSID%", Processor("SSID", s));
    var p4 := StringReplace(p3, "%PASS%", Processor("PASS", s));
    StringReplace(p4, "%TOKEN%", Processor("TOKEN", s))
  }

  /** The page served is the same whatever password is stored: the password never reaches it. */
  lemma RootPageIgnoresPassword(template: string, s: Config.Settings, otherPassword: string)
    ensures RootPage(template, s) == RootPage(template, s.(password := otherPassword))
  {
    ProcessorOutcome("PASS", s, otherPassword);
  }

  /** `find` does not start at any index below `n` of `s`. */
  predicate NoneBefore(s: string, find: string, n: int)
  {
    forall i :: 0 <= i < n ==> !OccursAt(s, find, i)
  }

  /**
   * The left-to-right pass of `String::replace` (a replacement no longer than the pattern)
   * on text holding `find` after a prefix in which `find` does not start: the prefix is
   * kept, that occurrence becomes `repl`, and replacing goes on in the rest.
   */
  lemma {:induction false} ReplaceAfterPrefix(a: string, find: string, repl: string, b: string)
    requires |find| > 0
    requires NoneBefore(a + find + b, find, |a|)
    ensures ReplaceAll(a + find + b, find, repl) == a + repl + ReplaceAll(b, find, repl)
    decreases |a|
  {
    if |a| == 0 {
      assert a + find + b == find + b;
      ReplaceAtFront(find, repl, b);
    } else {
      assert !OccursAt(a + find + b, find, 0);
      NoneBeforeShifts(a, find, b);
      ReplaceAfterPrefix(a[1..], find, repl, b);
      ReplaceKeepsFirst(a, find, repl, b);
    }
  }

  /** One step of `ReplaceAfterPrefix`: the first character of the prefix is kept. */
  lemma ReplaceKeepsFirst(a: string, find: string, repl: string, b: string)
    requires |find| > 0 && |a| > 0
    requires !OccursAt(a + find + b, find, 0)
    requires ReplaceAll(a[1..] + find + b, find, repl) == a[1..] + repl + ReplaceAll(b, find, repl)
    ensures ReplaceAll(a + find + b, find, repl) == a + repl + ReplaceAll(b, find, repl)
  {
    var s := a + find + b;
    ReplaceSkipsFirst(s, find, repl);
    assert s[0] == a[0];
    assert s[1..] == a[1..] + find + b;
    ConsAppend(a, repl, ReplaceAll(b, find, repl));
  }

  lemma ConsAppend(a: string, u: string, v: string)
    requires |a| > 0
    ensures [a[0]] + (a[1..] + u + v) == a + u + v
  {
    assert [a[0]] + a[1..] == a;
  }

  /** An occurrence at the very front is replaced and replacing goes on after it. */
  lemma ReplaceAtFront(find: string, repl: string, b: string)
    requires |find| > 0
    ensures ReplaceAll(find + b, find, repl) == repl + ReplaceAll(b, find, repl)
  {
    var s := find + b;
    assert s[..|find|] == find;
    assert s[|find|..] == b;
  }

  /** Dropping the first character of the prefix keeps `find` out of the rest of the prefix. */
  lemma NoneBeforeShifts(a: string, find: string, b: string)
    requires |a| > 0 && NoneBefore(a + find + b, find, |a|)
    ensures NoneBefore(a[1..] + find + b, find, |a| - 1)
  {
    var s := a + find + b;
    var t := a[1..] + find + b;
    assert s[1..] == t;
    forall i | 0 <= i < |a| - 1
      ensures !OccursAt(t, find, i)
    {
      assert !OccursAt(s, find, i + 1);
      assert t[i..i + |find|] == s[i + 1..i + 1 + |find|];
    }
  }

  /** Where `find` does not start at 0, replacing keeps the first character and goes on after it. */
  lemma ReplaceSkipsFirst(s: string, find: string, repl: string)
    requires |find| > 0 && |s| > 0 && !OccursAt(s, find, 0)
    ensures ReplaceAll(s, find, repl) == [s[0]] + ReplaceAll(s[1..], find, repl)
  {
    if |s| < |find| {
      assert forall i :: !OccursAt(s, find, i);
      assert forall i :: !OccursAt(s[1..], find, i);
    } else {
      assert s[..|find|] != find;
    }
  }

  /**
   * In particular the password placeholder is emptied: wherever `%PASS%` first occurs
   * in the page being built, it is replaced by nothing.
   */
  lemma PasswordPlaceholderEmptied(a: string, b: string, s: Config.Settings)
    requires NoneBefore(a + "%PASS%" + b, "%PASS%", |a|)
    ensures StringReplace(a + "%PASS%" + b, "%PASS%", Processor("PASS", s)) == a + StringReplace(b, "%PASS%", "")
  {
    ProcessorOutcome("PASS", s, s.password);
    ReplaceAfterPrefix(a, "%PASS%", "", b);
    assert a + "" == a;
  }

  // ----- handleCaptivePortal and handleNotFound -----

  /** The connectivity-check paths that get an empty 204 answer. */
  const PROBE_PATHS: seq<string> :=
    ["generate_204", "success.html", "check_network_status.txt", "ncsi.txt", "hotspot-detect.html"]

  datatype CaptiveReply = Redirect(location: string) | NoContent | NotCaptive

  /** The `Location` header: `http://` and the access point's address in a 40-byte buffer. */
  function PortalLocation(apIp: string): string
  {
    Truncate("http://" + apIp, 39)
  }

  /**
   * `handleCaptivePortal`: a host that is not the access point's address and looks like
   * a domain name (it holds a dot) or is `localhost` is redirected; otherwise a URI
   * holding one of the probe paths gets 204; anything else is not handled here.
   */
  function Captive(host: string, apIp: string, uri: string): CaptiveReply
  {
    if host != apIp && (Contains(host, ".") || host == "localhost") then Redirect(PortalLocation(apIp))
    else if Contains(uri, PROBE_PATHS[0]) || Contains(uri, PROBE_PATHS[1]) || Contains(uri, PROBE_PATHS[2]) ||
            Contains(uri, PROBE_PATHS[3]) || Contains(uri, PROBE_PATHS[4]) then NoContent
    else NotCaptive
  }

  /** `handleNotFound`: the status code sent for a URL no route matches. */
  function NotFoundStatus(host: string, apIp: string, uri: string): int
  {
    match Captive(host, apIp, uri)
    case Redirect(_) => 302
    case NoContent => 204
    case NotCaptive => 404
  }

  /**
   * The unknown-URL answers: 302 exactly for a foreign host holding a dot or named
   * `localhost` (pointing at the access point when its address fits the buffer); for
   * every other host (the access point's own address, or a name with no dot such as
   * `myhost`), 204 exactly when the URI holds a probe path somewhere, and 404 otherwise.
   */
  lemma NotFoundOutcome(host: string, apIp: string, uri: string)
    ensures NotFoundStatus(host, apIp, uri) == 302 <==>
            host != apIp && ((exists i :: OccursAt(host, ".", i)) || host == "localhost")
    ensures NotFoundStatus(host, apIp, uri) == 302 && |apIp| <= 32 ==>
            Captive(host, apIp, uri) == Redirect("http://" + apIp)
    ensures NotFoundStatus(host, apIp, uri) != 302 ==>
            (NotFoundStatus(host, apIp, uri) == 204 <==>
              exists k, i :: 0 <= k < |PROBE_PATHS| && OccursAt(uri, PROBE_PATHS[k], i))
    ensures NotFoundStatus(host, apIp, uri) in {302, 204, 404}
  {
    ContainsIff(host, ".");
    forall k | 0 <= k < |PROBE_PATHS|
      ensures Contains(uri, PROBE_PATHS[k]) <==> exists i :: OccursAt(uri, PROBE_PATHS[k], i)
    {
      ContainsIff(uri, PROBE_PATHS[k]);
    }
  }

  // ----- handleSave -----

  /**
   * The form check of `handleSave`: the SSID, token and id fields must be non-empty and
   * the id field must read (as `String::toInt`) as 1 or 2; the id on success.
   */
  function FormGhId(ssid: string, token: string, ghField: string): Option<int>
  {
    if |ssid| == 0 || |token| == 0 || |ghField| == 0 then None
    else
      var gh := ToInt(ghField);
      if gh != 1 && gh != 2 then None else Some(gh)
  }

  /** The password `handleSave` saves: the submitted one, or the stored one when the field is empty. */
  function PasswordToSave(submitted: string, stored: string): string
  {
    if |submitted| > 0 then submitted else stored
  }

  /**
   * `handleSave` on the configuration: 400 with nothing saved for a rejected form;
   * otherwise `saveConfig` with the kept or submitted password, and 200 whatever the
   * save reports.
   */
  function SaveForm(s: Config.Settings, u: Config.ApiUrls, e: map<string, NvsStore.NvsValue>, opens: bool,
                    refused: set<string>, ssid: string, pass: string, token: string, ghField: string)
    : (int, bool, Config.Settings, Config.ApiUrls, map<string, NvsStore.NvsValue>)
  {
    match FormGhId(ssid, token, ghField)
    case None => (400, false, s, u, e)
    case Some(gh) =>
      var (ok, s', u', e') := Config.SaveSpec(s, u, e, opens, refused, gh, ssid, PasswordToSave(pass, s.password), token);
      (200, ok, s', u', e')
  }

  /**
   * A form missing the SSID, token or id, or with an id other than 1 or 2, is answered
   * 400 and changes nothing; the fields "1" and "2" are accepted; an accepted form whose
   * save opens the namespace stores the submitted SSID and token, and the submitted
   * password or, for an empty field, the one already stored.
   */
  lemma SaveFormOutcome(s: Config.Settings, u: Config.ApiUrls, e: map<string, NvsStore.NvsValue>, opens: bool,
                        refused: set<string>, ssid: string, pass: string, token: string, ghField: string)
    ensures FormGhId("x", "x", "1") == Some(1) && FormGhId("x", "x", "2") == Some(2)
    ensures var (status, ok, s', u', e') := SaveForm(s, u, e, opens, refused, ssid, pass, token, ghField);
      (status == 400 <==> |ssid| == 0 || |token| == 0 || |ghField| == 0 || ToInt(ghField) !in {1, 2}) &&
      (status == 400 ==> !ok && s' == s && u' == u && e' == e) &&
      (status != 400 ==> status == 200 && s'.ghId == (if opens then ToInt(ghField) else s.ghId)) &&
      (status == 200 && opens ==>
        s'.ssid == Truncate(ssid, 32) && s'.apiToken == Truncate(token, 128) &&
        s'.password == Truncate(if |pass| > 0 then pass else s.password, 64))
  {
    ToIntNumeral("1", 1, "");
    ToIntNumeral("2", 2, "");
  }

  /**
   * Save then load through the portal: after a form is accepted and every write
   * succeeds, the next load reads back the submitted SSID, token and id and the password
   * saved, provided each fits its buffer.
   */
  lemma SaveFormThenLoad(s: Config.Settings, u: Config.ApiUrls, e: map<string, NvsStore.NvsValue>,
                         refused: set<string>, ssid: string, pass: string, token: string, ghField: string)
    requires |ssid| < Config.WIFI_SSID_MAX_LEN && |token| < Config.API_TOKEN_MAX_LEN
    requires 0 < |PasswordToSave(pass, s.password)| < Config.WIFI_PWD_MAX_LEN
    requires SaveForm(s, u, e, true, refused, ssid, pass, token, ghField).1
    ensures Config.LoadSpec(SaveForm(s, u, e, true, refused, ssid, pass, token, ghField).4, true, refused).0 ==
            Config.Settings(ToInt(ghField), ssid, PasswordToSave(pass, s.password), token)
  {
    var gh := ToInt(ghField);
    Config.SaveThenLoad(s, u, e, refused, gh, ssid, PasswordToSave(pass, s.password), token);
  }

  /** The WiFi manager holds the given credentials and token, with its radio and request state as given. */
  predicate WifiHolds(w: Wifi.WifiManager, associated: bool, request: Wifi.WifiRequest, credentials: (string, string, string))
    reads w
  {
    w.associated == associated && w.request == request && (w.ssid, w.password, w.authToken) == credentials
  }

  /** The GPRS manager holds the given token, with its connection, request and client state as given. */
  predicate GprsHolds(g: Gprs.GprsManager, link: GprsLink.Link, request: GprsHttp.Exchange, client: GprsHttp.Client, token: string)
    reads g
  {
    g.link == link && g.request == request && g.client == client && g.authToken == token
  }

  class ConfigPortal {
    const config: Config.DeviceConfig
    /** `_networkFacade`; null when the portal was started without one. */
    const facade: Facade.NetworkFacade?

    constructor (config: Config.DeviceConfig, facade: Facade.NetworkFacade?)
      ensures this.config == config && this.facade == facade
    {
      this.config := config;
      this.facade := facade;
    }

    /** The managers `handleSave` may hand the new settings to. */
    function Managers(): set<object?>
    {
      if facade == null then {} else {facade.wifi, facade.gprs}
    }

    /** `handleRoot`: the page for the stored configuration, with status 200. */
    function HandleRoot(template: string): (int, string)
      reads config
    {
      (200, RootPage(template, config.settings))
    }

    /** `handleNotFound`. */
    function HandleNotFound(host: string, apIp: string, uri: string): int
    {
      NotFoundStatus(host, apIp, uri)
    }

    /**
     * `handleSave`: the configuration follows `SaveForm`; only when the save succeeded
     * and a facade is present, its WiFi manager gets the saved credentials and token and
     * its GPRS manager the token; nothing else in the managers changes.  `opens` is the
     * flash's answer to the save's `begin`.
     */
    method HandleSave(ssid: string, pass: string, token: string, ghField: string, opens: bool)
      returns (status: int, saved: bool)
      modifies config, config.prefs, Managers()
      ensures (status, saved, config.settings, config.urls, config.prefs.entries) ==
              SaveForm(old(config.settings), old(config.urls), old(config.prefs.entries), opens,
                       config.prefs.refused, ssid, pass, token, ghField)
      ensures old(config.Valid()) ==> config.Valid()
      ensures facade != null && facade.wifi != null ==>
        WifiHolds(facade.wifi, old(facade.wifi.associated), old(facade.wifi.request),
                  if saved then (config.settings.ssid, config.settings.password, config.settings.apiToken)
                  else old((facade.wifi.ssid, facade.wifi.password, facade.wifi.authToken)))
      ensures facade != null && facade.gprs != null ==>
        GprsHolds(facade.gprs, old(facade.gprs.link), old(facade.gprs.request), old(facade.gprs.client),
                  if saved then config.settings.apiToken else old(facade.gprs.authToken))
    {
      if |ssid| == 0 || |token| == 0 || |ghField| == 0 {
        return 400, false;
      }
      var gh := ToInt(ghField);
      if gh != 1 && gh != 2 {
        return 400, false;
      }
      var password := PasswordToSave(pass, config.settings.password);
      saved := config.SaveConfig(gh, ssid, password, token, opens);
      if saved && facade != null {
        HandOver(config.settings.ssid, config.settings.password, config.settings.apiToken);
      }
      status := 200;
    }

    /** The hand-over after a successful save: WiFi credentials and token, and the GPRS token. */
    method HandOver(ssid: string, password: string, token: string)
      requires facade != null
      modifies Managers()
      ensures facade.wifi != null ==>
        WifiHolds(facade.wifi, old(facade.wifi.associated), old(facade.wifi.request), (ssid, password, token))
      ensures facade.gprs != null ==>
        GprsHolds(facade.gprs, old(facade.gprs.link), old(facade.gprs.request), old(facade.gprs.client), token)
    {
      if facade.wifi != null {
        facade.wifi.SetCredentials(ssid, password);
        facade.wifi.SetAuthToken(token);
      }
      if facade.gprs != null {
        facade.gprs.SetAuthToken(token);
      }
    }

    /**
     * `handleFactoryReset`: the configuration is reset and reloaded, and 200 is sent;
     * `cleared` and `reloaded` are the flash's answers to the two `begin` calls.
     */
    method HandleFactoryReset(cleared: bool, reloaded: bool) returns (status: int)
      modifies config, config.prefs
      ensures (config.settings, config.prefs.entries) ==
              Config.ResetSpec(old(config.prefs.entries), cleared, reloaded, config.prefs.refused)
      ensures config.Valid() && status == 200
    {
      config.FactoryResetConfig(cleared, reloaded);
      status := 200;
    }
  }
}
