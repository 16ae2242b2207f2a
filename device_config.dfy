/**
 * `DeviceConfig`: the greenhouse id, WiFi credentials and API token kept in the
 * `Preferences` namespace, the GPRS settings taken from firmware constants, and the
 * API URLs built from base URLs and the greenhouse id.  Every fixed `char` buffer is a
 * string of at most its size minus one characters; a copy into it is `Truncate`.  The
 * methods are proved to follow the step functions `LoadSpec`, `SaveSpec` and
 * `ResetSpec` over the settings and the stored entries.
 */
module Config {
  import opened Text
  import opened NvsStore

  // ----- Buffer sizes, keys and firmware defaults -----

  const WIFI_SSID_MAX_LEN: nat := 33
  const WIFI_PWD_MAX_LEN: nat := 65
  const API_TOKEN_MAX_LEN: nat := 129
  const API_URL_MAX_LEN: nat := 257
  const GPRS_APN_MAX_LEN: nat := 101
  const GPRS_USER_MAX_LEN: nat := 65
  const GPRS_PWD_MAX_LEN: nat := 65
  const SIM_PIN_MAX_LEN: nat := 9
  /** The temporary `base_url_buffer` of `constructApiUrls`. */
  const BASE_URL_BUFFER_SIZE: nat := 100

  const NVS_KEY_GH_ID: string := "gh_id"
  const NVS_KEY_SSID: string := "wifi_ssid"
  const NVS_KEY_PWD: string := "wifi_pwd"
  const NVS_KEY_TOKEN: string := "api_token"
  const NVS_KEY_OLD_TH_URL: string := "th_url_old"
  const NVS_KEY_OLD_ND_URL: string := "nd_url_old"

  const GH_ID_FIRMWARE_DEFAULT: int := 1
  const DEFAULT_WIFI_SSID_GH1: string := "YOUR_WIFI_SSID_GH1"
  const DEFAULT_WIFI_PWD_GH1: string := "YOUR_WIFI_PASSWORD_GH1"
  const DEFAULT_WIFI_SSID_GH2: string := "YOUR_WIFI_SSID_GH2"
  const DEFAULT_WIFI_PWD_GH2: string := "YOUR_WIFI_PASSWORD_GH2"
  const GPRS_APN: string := "YOUR_GPRS_APN"
  const GPRS_USER: string := "YOUR_GPRS_USER"
  const GPRS_PASSWORD: string := "YOUR_GPRS_PASSWORD"
  const SIM_PIN: string := "YOUR_SIM_PIN"
  const DEFAULT_API_THD_BASE_URL: string := "YOUR_API_THD_BASE_URL_GH1"
  const DEFAULT_API_AVG_SENSOR_BASE_URL: string := "YOUR_API_AVG_SENSOR_BASE_URL_GH1"
  const DEFAULT_API_STATUS_GET_BASE_URL: string := "YOUR_API_STATUS_GET_BASE_URL_GH1"
  const DEFAULT_API_STATUS_POST_BASE_URL: string := "YOUR_API_STATUS_POST_BASE_URL_GH1"
  const WORLDTIME_URL: string := "YOUR_WORLDTIME_API_URL"
  const AUTH: string := "YOUR_API_TOKEN"

  /** `gh_id`, `ssid`, `password` and `api_token`. */
  datatype Settings = Settings(ghId: int, ssid: string, password: string, apiToken: string)

  /** `gprs_apn`, `gprs_user`, `gprs_password` and `sim_pin`. */
  datatype GprsSettings = GprsSettings(apn: string, user: string, password: string, simPin: string)

  /** `th_url`, `nd_url`, `device_status_post_url`, `device_status_get_url` and `worldtime_url`. */
  datatype ApiUrls = ApiUrls(th: string, nd: string, statusPost: string, statusGet: string, worldtime: string)

  /** `strncpy(buf, s, size - 1); buf[size - 1] = '\0';`. */
  function Copy(s: string, size: nat): string
    requires size > 0
  {
    Truncate(s, size - 1)
  }

  /** `%d`. */
  function Decimal(i: int): string
  {
    if i < 0 then "-" + Numeral(-i, 10) else Numeral(i, 10)
  }

  // ----- constructApiUrls -----

  /** One `snprintf(url, 257, "%s?gh_id=%d", base, gh_id)` after copying the base into 100 bytes. */
  function ApiUrl(base: string, ghId: int): string
  {
    Copy(Copy(base, BASE_URL_BUFFER_SIZE) + "?gh_id=" + Decimal(ghId), API_URL_MAX_LEN)
  }

  /** `constructApiUrls`: four URLs carry the greenhouse id, the world-time URL does not. */
  function UrlsFor(ghId: int): ApiUrls
  {
    ApiUrls(ApiUrl(DEFAULT_API_THD_BASE_URL, ghId), ApiUrl(DEFAULT_API_AVG_SENSOR_BASE_URL, ghId),
            ApiUrl(DEFAULT_API_STATUS_POST_BASE_URL, ghId), ApiUrl(DEFAULT_API_STATUS_GET_BASE_URL, ghId),
            Copy(WORLDTIME_URL, API_URL_MAX_LEN))
  }

  /**
   * For a valid greenhouse id nothing is cut: each of the four API URLs is its base URL
   * followed by `?gh_id=` and the id's digit, the world-time URL is the constant, and the
   * URLs of the two greenhouses differ.
   */
  lemma UrlsForValidId(ghId: int)
    requires ghId == 1 || ghId == 2
    ensures var u := UrlsFor(ghId); var d := [('0' as int + ghId) as char];
      u.th == DEFAULT_API_THD_BASE_URL + "?gh_id=" + d &&
      u.nd == DEFAULT_API_AVG_SENSOR_BASE_URL + "?gh_id=" + d &&
      u.statusPost == DEFAULT_API_STATUS_POST_BASE_URL + "?gh_id=" + d &&
      u.statusGet == DEFAULT_API_STATUS_GET_BASE_URL + "?gh_id=" + d &&
      u.worldtime == WORLDTIME_URL
    ensures UrlsFor(1).th != UrlsFor(2).th
  {
    assert Decimal(ghId) == [('0' as int + ghId) as char];
    var u1 := UrlsFor(1).th;
    var u2 := UrlsFor(2).th;
    assert u1[|u1| - 1] == '1' && u2[|u2| - 1] == '2';
  }

  /** The GPRS settings: always the firmware constants, copied into their buffers. */
  function FirmwareGprs(): GprsSettings
  {
    GprsSettings(Copy(GPRS_APN, GPRS_APN_MAX_LEN), Copy(GPRS_USER, GPRS_USER_MAX_LEN),
                 Copy(GPRS_PASSWORD, GPRS_PWD_MAX_LEN), Copy(SIM_PIN, SIM_PIN_MAX_LEN))
  }

  /**
   * What holds between operations: the greenhouse id is 1 or 2, every string fits its
   * buffer, the GPRS settings are the firmware's and the URLs are those of the id.
   */
  predicate ConfigInv(s: Settings, g: GprsSettings, u: ApiUrls)
  {
    (s.ghId == 1 || s.ghId == 2) &&
    |s.ssid| < WIFI_SSID_MAX_LEN && |s.password| < WIFI_PWD_MAX_LEN && |s.apiToken| < API_TOKEN_MAX_LEN &&
    g == FirmwareGprs() && u == UrlsFor(s.ghId)
  }

  // ----- loadConfigFromNvsOrDefaults -----

  function DefaultSsid(ghId: int): string
  {
    if ghId == 1 then DEFAULT_WIFI_SSID_GH1 else DEFAULT_WIFI_SSID_GH2
  }

  function DefaultPassword(ghId: int): string
  {
    if ghId == 1 then DEFAULT_WIFI_PWD_GH1 else DEFAULT_WIFI_PWD_GH2
  }

  /**
   * The greenhouse id on load: the stored integer, read as -1 when missing (or when the
   * namespace did not open) and then 1; anything but 1 or 2 becomes 1.  The id is written
   * back when it was missing or invalid and the namespace is open.
   */
  function LoadGhId(e: map<string, NvsValue>, began: bool, refused: set<string>): (int, map<string, NvsValue>)
  {
    var raw := ReadInt(e, began, NVS_KEY_GH_ID, -1);
    var gh0 := if raw == -1 then GH_ID_FIRMWARE_DEFAULT else raw;
    var invalid := gh0 != 1 && gh0 != 2;
    var gh := if invalid then GH_ID_FIRMWARE_DEFAULT else gh0;
    (gh, if began && (raw == -1 || invalid) then Write(e, refused, NVS_KEY_GH_ID, IntValue(gh)) else e)
  }

  /**
   * One string setting on load: the stored string when it is non-empty and fits the
   * buffer, otherwise the default, which is then written back if the namespace is open.
   */
  function LoadText(e: map<string, NvsValue>, began: bool, refused: set<string>, key: string, size: nat,
                    fallback: string): (string, map<string, NvsValue>)
    requires size > 0
  {
    var stored := ReadString(e, began, key, "");
    if 0 < |stored| < size then (Copy(stored, size), e)
    else var v := Copy(fallback, size);
      (v, if began then Write(e, refused, key, StrValue(v)) else e)
  }

  /** `loadConfigFromNvsOrDefaults`: the four settings in order, each with its write-back. */
  function LoadSpec(e: map<string, NvsValue>, began: bool, refused: set<string>): (Settings, map<string, NvsValue>)
  {
    var (gh, e1) := LoadGhId(e, began, refused);
    var (ssid, e2) := LoadText(e1, began, refused, NVS_KEY_SSID, WIFI_SSID_MAX_LEN, DefaultSsid(gh));
    var (pwd, e3) := LoadText(e2, began, refused, NVS_KEY_PWD, WIFI_PWD_MAX_LEN, DefaultPassword(gh));
    var (token, e4) := LoadText(e3, began, refused, NVS_KEY_TOKEN, API_TOKEN_MAX_LEN, AUTH);
    (Settings(gh, ssid, pwd, token), e4)
  }

  /**
   * The greenhouse id on load is the stored one when it is 1 or 2 and 1 otherwise; it is
   * written back exactly when the namespace opened and the stored id was not 1 or 2.
   */
  lemma LoadGhIdOutcome(e: map<string, NvsValue>, began: bool, refused: set<string>)
    ensures var (gh, e') := LoadGhId(e, began, refused);
      var raw := ReadInt(e, began, NVS_KEY_GH_ID, -1);
      gh == (if raw == 1 || raw == 2 then raw else 1) &&
      e' == (if began && raw != 1 && raw != 2 then Write(e, refused, NVS_KEY_GH_ID, IntValue(1)) else e)
  {
  }

  /**
   * A string setting on load is the stored one when it is non-empty and fits its buffer,
   * and otherwise the default, written back exactly when the namespace opened; only its
   * own key can change.
   */
  lemma LoadTextOutcome(e: map<string, NvsValue>, began: bool, refused: set<string>, key: string, size: nat,
                        fallback: string)
    requires 0 < |fallback| < size
    ensures var (v, e') := LoadText(e, began, refused, key, size, fallback);
      var stored := ReadString(e, began, key, "");
      var kept := 0 < |stored| < size;
      v == (if kept then stored else fallback) &&
      e' == (if began && !kept then Write(e, refused, key, StrValue(fallback)) else e) &&
      (began && key !in refused ==> key in e' && e'[key] == StrValue(v))
  {
  }

  /**
   * What loading yields: the greenhouse id as `LoadGhIdOutcome` says, and each string the
   * stored one when non-empty and fitting, otherwise that greenhouse's default; nothing
   * is written when the namespace does not open.
   */
  lemma LoadOutcome(e: map<string, NvsValue>, began: bool, refused: set<string>)
    ensures var (s, e') := LoadSpec(e, began, refused);
      var raw := ReadInt(e, began, NVS_KEY_GH_ID, -1);
      var ssid := ReadString(e, began, NVS_KEY_SSID, "");
      var pwd := ReadString(e, began, NVS_KEY_PWD, "");
      var token := ReadString(e, began, NVS_KEY_TOKEN, "");
      s.ghId == (if raw == 1 || raw == 2 then raw else 1) &&
      s.ssid == (if 0 < |ssid| < WIFI_SSID_MAX_LEN then ssid else DefaultSsid(s.ghId)) &&
      s.password == (if 0 < |pwd| < WIFI_PWD_MAX_LEN then pwd else DefaultPassword(s.ghId)) &&
      s.apiToken == (if 0 < |token| < API_TOKEN_MAX_LEN then token else AUTH) &&
      (!began ==> e' == e)
  {
    var (gh, e1) := LoadGhId(e, began, refused);
    LoadGhIdOutcome(e, began, refused);
    assert ReadString(e1, began, NVS_KEY_SSID, "") == ReadString(e, began, NVS_KEY_SSID, "");
    LoadTextOutcome(e1, began, refused, NVS_KEY_SSID, WIFI_SSID_MAX_LEN, DefaultSsid(gh));
    var (ssid, e2) := LoadText(e1, began, refused, NVS_KEY_SSID, WIFI_SSID_MAX_LEN, DefaultSsid(gh));
    assert ReadString(e2, began, NVS_KEY_PWD, "") == ReadString(e, began, NVS_KEY_PWD, "");
    LoadTextOutcome(e2, began, refused, NVS_KEY_PWD, WIFI_PWD_MAX_LEN, DefaultPassword(gh));
    var (pwd, e3) := LoadText(e2, began, refused, NVS_KEY_PWD, WIFI_PWD_MAX_LEN, DefaultPassword(gh));
    assert ReadString(e3, began, NVS_KEY_TOKEN, "") == ReadString(e, began, NVS_KEY_TOKEN, "");
    LoadTextOutcome(e3, began, refused, NVS_KEY_TOKEN, API_TOKEN_MAX_LEN, AUTH);
  }

  /** Loading establishes the configuration invariant whatever the namespace holds. */
  lemma LoadEstablishesInv(e: map<string, NvsValue>, began: bool, refused: set<string>)
    ensures ConfigInv(LoadSpec(e, began, refused).0, FirmwareGprs(), UrlsFor(LoadSpec(e, began, refused).0.ghId))
  {
  }

  // ----- saveConfig -----

  /**
   * `saveConfig`: refused for an id other than 1 or 2 or when the namespace does not
   * open.  Otherwise the four settings are replaced in memory whether or not their writes
   * succeed, the result is whether all four writes succeeded, and the URLs are rebuilt
   * only when the id changed.
   */
  function SaveSpec(s: Settings, u: ApiUrls, e: map<string, NvsValue>, opens: bool, refused: set<string>,
                    ghId: int, ssid: string, password: string, token: string): (bool, Settings, ApiUrls, map<string, NvsValue>)
  {
    if ghId != 1 && ghId != 2 then (false, s, u, e)
    else if !opens then (false, s, u, e)
    else
      var s' := Settings(ghId, Copy(ssid, WIFI_SSID_MAX_LEN), Copy(password, WIFI_PWD_MAX_LEN),
                         Copy(token, API_TOKEN_MAX_LEN));
      var (ok, e') := SaveWrites(e, refused, s');
      (ok, s', if s.ghId != ghId then UrlsFor(ghId) else u, e')
  }

  /** The four writes of `saveConfig` on an open namespace, and whether all of them succeeded. */
  function SaveWrites(e: map<string, NvsValue>, refused: set<string>, s: Settings): (bool, map<string, NvsValue>)
  {
    var e1 := Write(e, refused, NVS_KEY_GH_ID, IntValue(s.ghId));
    var e2 := Write(e1, refused, NVS_KEY_SSID, StrValue(s.ssid));
    var e3 := Write(e2, refused, NVS_KEY_PWD, StrValue(s.password));
    var e4 := Write(e3, refused, NVS_KEY_TOKEN, StrValue(s.apiToken));
    (NVS_KEY_GH_ID !in refused && NVS_KEY_SSID !in refused &&
     NVS_KEY_PWD !in refused && NVS_KEY_TOKEN !in refused, e4)
  }

  /**
   * A refused save changes nothing; an accepted one replaces the settings even when a
   * write fails, reports success exactly when no key was refused, and keeps the
   * configuration invariant (the URLs always match the id).
   */
  lemma SaveOutcome(s: Settings, g: GprsSettings, u: ApiUrls, e: map<string, NvsValue>, opens: bool,
                    refused: set<string>, ghId: int, ssid: string, password: string, token: string)
    requires ConfigInv(s, g, u)
    ensures var (ok, s', u', e') := SaveSpec(s, u, e, opens, refused, ghId, ssid, password, token);
      ConfigInv(s', g, u') &&
      ((ghId != 1 && ghId != 2) || !opens ==> !ok && s' == s && u' == u && e' == e) &&
      ((ghId == 1 || ghId == 2) && opens ==>
        s' == Settings(ghId, Truncate(ssid, 32), Truncate(password, 64), Truncate(token, 128)) &&
        (ok <==> NVS_KEY_GH_ID !in refused && NVS_KEY_SSID !in refused &&
                 NVS_KEY_PWD !in refused && NVS_KEY_TOKEN !in refused))
  {
  }

  /**
   * Save then load: after a successful save of strings that are non-empty and fit their
   * buffers, the next load reads back exactly the saved settings.
   */
  lemma SaveThenLoad(s: Settings, u: ApiUrls, e: map<string, NvsValue>, refused: set<string>,
                     ghId: int, ssid: string, password: string, token: string)
    requires 0 < |ssid| < WIFI_SSID_MAX_LEN && 0 < |password| < WIFI_PWD_MAX_LEN && 0 < |token| < API_TOKEN_MAX_LEN
    requires SaveSpec(s, u, e, true, refused, ghId, ssid, password, token).0
    ensures LoadSpec(SaveSpec(s, u, e, true, refused, ghId, ssid, password, token).3, true, refused).0 ==
            Settings(ghId, ssid, password, token)
  {
    var saved := Settings(ghId, Copy(ssid, WIFI_SSID_MAX_LEN), Copy(password, WIFI_PWD_MAX_LEN),
                          Copy(token, API_TOKEN_MAX_LEN));
    assert saved == Settings(ghId, ssid, password, token);
    var e' := SaveWrites(e, refused, saved).1;
    assert ReadInt(e', true, NVS_KEY_GH_ID, -1) == ghId;
    assert ReadString(e', true, NVS_KEY_SSID, "") == ssid;
    assert ReadString(e', true, NVS_KEY_PWD, "") == password;
    assert ReadString(e', true, NVS_KEY_TOKEN, "") == token;
    LoadOutcome(e', true, refused);
  }

  // ----- factoryResetConfig -----

  /** The keys `factoryResetConfig` removes. */
  const RESET_KEYS: set<string> :=
    {NVS_KEY_GH_ID, NVS_KEY_SSID, NVS_KEY_PWD, NVS_KEY_TOKEN, NVS_KEY_OLD_TH_URL, NVS_KEY_OLD_ND_URL}

  /**
   * `factoryResetConfig`: the six keys are removed if its own `begin` opens the namespace
   * (`cleared`), then the configuration is loaded again under the reload's `begin` (`reloaded`).
   */
  function ResetSpec(e: map<string, NvsValue>, cleared: bool, reloaded: bool, refused: set<string>): (Settings, map<string, NvsValue>)
  {
    LoadSpec(if cleared then e - RESET_KEYS else e, reloaded, refused)
  }

  /** The GH1 firmware defaults. */
  function FactoryDefaults(): Settings
  {
    Settings(1, DEFAULT_WIFI_SSID_GH1, DEFAULT_WIFI_PWD_GH1, AUTH)
  }

  /**
   * A factory reset leaves the GH1 defaults in memory unless only the reload opens the
   * namespace: when the clear opens it, or when the reload does not (then every read gives
   * its default).  When the clear opens it the deprecated URL keys are gone; when both open
   * every key whose write is accepted holds its default; when neither opens nothing is written.
   */
  lemma ResetGivesDefaults(e: map<string, NvsValue>, cleared: bool, reloaded: bool, refused: set<string>)
    ensures var (s, e') := ResetSpec(e, cleared, reloaded, refused);
      (cleared || !reloaded ==> s == FactoryDefaults()) &&
      (cleared ==> NVS_KEY_OLD_TH_URL !in e' && NVS_KEY_OLD_ND_URL !in e') &&
      (cleared && !reloaded ==> e' == e - RESET_KEYS) &&
      (cleared && reloaded && NVS_KEY_GH_ID !in refused ==> NVS_KEY_GH_ID in e' && e'[NVS_KEY_GH_ID] == IntValue(1)) &&
      (cleared && reloaded && NVS_KEY_SSID !in refused ==> NVS_KEY_SSID in e' && e'[NVS_KEY_SSID] == StrValue(DEFAULT_WIFI_SSID_GH1)) &&
      (cleared && reloaded && NVS_KEY_PWD !in refused ==> NVS_KEY_PWD in e' && e'[NVS_KEY_PWD] == StrValue(DEFAULT_WIFI_PWD_GH1)) &&
      (cleared && reloaded && NVS_KEY_TOKEN !in refused ==> NVS_KEY_TOKEN in e' && e'[NVS_KEY_TOKEN] == StrValue(AUTH)) &&
      (!cleared && !reloaded ==> e' == e)
  {
  }

  /**
   * When the clear's `begin` fails and the reload's succeeds, nothing is removed: valid
   * stored settings are read back unchanged and nothing is written, so a reset of a
   * greenhouse 2 configuration leaves greenhouse 2 in memory.
   */
  lemma FailedClearKeepsStoredSettings(e: map<string, NvsValue>, refused: set<string>,
                                       gh: int, ssid: string, password: string, token: string)
    requires gh == 1 || gh == 2
    requires 0 < |ssid| < WIFI_SSID_MAX_LEN && 0 < |password| < WIFI_PWD_MAX_LEN && 0 < |token| < API_TOKEN_MAX_LEN
    requires NVS_KEY_GH_ID in e && e[NVS_KEY_GH_ID] == IntValue(gh)
    requires NVS_KEY_SSID in e && e[NVS_KEY_SSID] == StrValue(ssid)
    requires NVS_KEY_PWD in e && e[NVS_KEY_PWD] == StrValue(password)
    requires NVS_KEY_TOKEN in e && e[NVS_KEY_TOKEN] == StrValue(token)
    ensures ResetSpec(e, false, true, refused) == (Settings(gh, ssid, password, token), e)
    ensures gh == 2 ==> ResetSpec(e, false, true, refused).0 != FactoryDefaults()
  {
    LoadOutcome(e, true, refused);
  }

  // ----- The configuration object -----

  class DeviceConfig {
    /** `preferences`. */
    const prefs: Preferences
    var settings: Settings
    var gprs: GprsSettings
    var urls: ApiUrls

    predicate Valid()
      reads this
    {
      ConfigInv(settings, gprs, urls)
    }

    /** The constructor loads the configuration. */
    /** The constructor loads the configuration; `opens` is the flash's answer to its `begin`. */
    constructor (prefs: Preferences, opens: bool)
      modifies prefs
      ensures this.prefs == prefs
      ensures (settings, prefs.entries) == LoadSpec(old(prefs.entries), opens, prefs.refused)
      ensures !prefs.started
      ensures Valid()
    {
      this.prefs := prefs;
      new;
      LoadConfigFromNvsOrDefaults(opens);
    }

    method ConstructApiUrls()
      modifies this
      ensures urls == UrlsFor(settings.ghId)
      ensures settings == old(settings) && gprs == old(gprs)
    {
      var th := ApiUrl(DEFAULT_API_THD_BASE_URL, settings.ghId);
      var nd := ApiUrl(DEFAULT_API_AVG_SENSOR_BASE_URL, settings.ghId);
      var post := ApiUrl(DEFAULT_API_STATUS_POST_BASE_URL, settings.ghId);
      var get := ApiUrl(DEFAULT_API_STATUS_GET_BASE_URL, settings.ghId);
      urls := ApiUrls(th, nd, post, get, Copy(WORLDTIME_URL, API_URL_MAX_LEN));
    }

    /** One string setting: taken from the namespace or defaulted and written back. */
    method LoadTextSetting(began: bool, stored: string, key: string, size: nat, fallback: string)
      returns (value: string)
      requires size > 0 && prefs.started == began
      requires stored == prefs.GetString(key, "")
      modifies prefs
      ensures (value, prefs.entries) ==
              LoadText(old(prefs.entries), began, prefs.refused, key, size, fallback)
      ensures prefs.started == began
    {
      var defaulted := false;
      if 0 < |stored| < size {
        value := Copy(stored, size);
      } else {
        value := Copy(fallback, size);
        defaulted := true;
      }
      if began && defaulted {
        var _ := prefs.PutString(key, value);
      }
    }

    /** `loadConfigFromNvsOrDefaults`; `opens` is the flash's answer to its `begin`. */
    method LoadConfigFromNvsOrDefaults(opens: bool)
      modifies this, prefs
      ensures (settings, prefs.entries) == LoadSpec(old(prefs.entries), opens, prefs.refused)
      ensures !prefs.started
      ensures Valid()
    {
      ghost var e0 := prefs.entries;
      var began := prefs.Begin(opens);
      var raw := prefs.GetInt(NVS_KEY_GH_ID, -1);
      var gh := if raw == -1 then GH_ID_FIRMWARE_DEFAULT else raw;
      var invalid := gh != 1 && gh != 2;
      if invalid {
        gh := GH_ID_FIRMWARE_DEFAULT;
      }
      if began && (raw == -1 || invalid) {
        var _ := prefs.PutInt(NVS_KEY_GH_ID, gh);
      }
      assert (gh, prefs.entries) == LoadGhId(e0, began, prefs.refused);
      var nvsSsid := prefs.GetString(NVS_KEY_SSID, "");
      var nvsPwd := prefs.GetString(NVS_KEY_PWD, "");
      var ssid := LoadTextSetting(began, nvsSsid, NVS_KEY_SSID, WIFI_SSID_MAX_LEN, DefaultSsid(gh));
      assert nvsPwd == prefs.GetString(NVS_KEY_PWD, "");
      var pwd := LoadTextSetting(began, nvsPwd, NVS_KEY_PWD, WIFI_PWD_MAX_LEN, DefaultPassword(gh));
      var nvsToken := prefs.GetString(NVS_KEY_TOKEN, "");
      var token := LoadTextSetting(began, nvsToken, NVS_KEY_TOKEN, API_TOKEN_MAX_LEN, AUTH);
      settings := Settings(gh, ssid, pwd, token);
      gprs := FirmwareGprs();
      ConstructApiUrls();
      if began {
        prefs.End();
      }
      LoadEstablishesInv(e0, began, prefs.refused);
    }

    /** The four writes of `saveConfig`, accumulating `all_saves_successful`. */
    method StoreSettings() returns (ok: bool)
      requires prefs.started
      modifies prefs
      ensures (ok, prefs.entries) == SaveWrites(old(prefs.entries), prefs.refused, settings)
      ensures prefs.started
    {
      ok := true;
      var w := prefs.PutInt(NVS_KEY_GH_ID, settings.ghId);
      ok := ok && w;
      w := prefs.PutString(NVS_KEY_SSID, settings.ssid);
      ok := ok && w;
      w := prefs.PutString(NVS_KEY_PWD, settings.password);
      ok := ok && w;
      w := prefs.PutString(NVS_KEY_TOKEN, settings.apiToken);
      ok := ok && w;
    }

    /** `saveConfig`; `opens` is the flash's answer to its `begin`. */
    method SaveConfig(ghId: int, ssid: string, password: string, token: string, opens: bool) returns (ok: bool)
      modifies this, prefs
      ensures (ok, settings, urls, prefs.entries) ==
              SaveSpec(old(settings), old(urls), old(prefs.entries), opens, prefs.refused, ghId, ssid, password, token)
      ensures gprs == old(gprs) && ((ghId == 1 || ghId == 2) ==> !prefs.started)
      ensures old(Valid()) ==> Valid()
    {
      if ghId != 1 && ghId != 2 {
        return false;
      }
      var began := prefs.Begin(opens);
      if !began {
        return false;
      }
      var changed := settings.ghId != ghId;
      settings := Settings(ghId, Copy(ssid, WIFI_SSID_MAX_LEN), Copy(password, WIFI_PWD_MAX_LEN),
                           Copy(token, API_TOKEN_MAX_LEN));
      ok := StoreSettings();
      if changed {
        ConstructApiUrls();
      }
      prefs.End();
      if old(Valid()) {
        SaveOutcome(old(settings), gprs, old(urls), old(prefs.entries), opens, prefs.refused,
                    ghId, ssid, password, token);
      }
    }

    /**
     * `factoryResetConfig`: `cleared` is the flash's answer to its own `begin`, `reloaded`
     * the answer to the `begin` of the reload.
     */
    method FactoryResetConfig(cleared: bool, reloaded: bool)
      modifies this, prefs
      ensures (settings, prefs.entries) == ResetSpec(old(prefs.entries), cleared, reloaded, prefs.refused)
      ensures !prefs.started
      ensures Valid()
    {
      var began := prefs.Begin(cleared);
      RemoveResetKeys();
      if began {
        prefs.End();
      }
      LoadConfigFromNvsOrDefaults(reloaded);
    }

    /** The six `remove` calls of `factoryResetConfig`, which change nothing unless the namespace is open. */
    method RemoveResetKeys()
      modifies prefs
      ensures prefs.entries == if prefs.started then old(prefs.entries) - RESET_KEYS else old(prefs.entries)
      ensures prefs.started == old(prefs.started)
    {
      var removed := prefs.Remove(NVS_KEY_GH_ID);
      removed := prefs.Remove(NVS_KEY_SSID);
      removed := prefs.Remove(NVS_KEY_PWD);
      removed := prefs.Remove(NVS_KEY_TOKEN);
      removed := prefs.Remove(NVS_KEY_OLD_TH_URL);
      removed := prefs.Remove(NVS_KEY_OLD_ND_URL);
    }
  }
}
