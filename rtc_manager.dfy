/**
 * `RTCManager`: the battery-backed real-time clock and how it is set from the network.
 * The clock is set from NTP when the active interface is a connected WiFi manager, and
 * otherwise through an asynchronous HTTP request to a world-time service whose reply
 * sets it from a callback; epochs not after 2023-01-01 are never written to the chip.
 * The chip's answers, the NTP client's answers and the JSON reply are parameters; the
 * writes to the chip are recorded in `adjustments`; the HTTP request goes through the
 * network facade.  Every method is proved to follow a step function over the manager's
 * state and the facade's snapshot.
 */
module Rtc {
  import opened Wrappers
  import opened Text
  import opened Clock
  import opened Facade

  type Uint32 = x: int | 0 <= x < 0x1_0000_0000

  /** 2023-01-01 00:00:00 UTC: only later epochs are taken as valid. */
  const MIN_VALID_EPOCH: int := 1672531200
  /** A clock reporting a year before this one is taken as never set. */
  const MIN_VALID_YEAR: int := 2023
  /** `RTC_DRIFT_THRESHOLD_SECONDS`, the default drift tolerance. */
  const RTC_DRIFT_THRESHOLD_SECONDS: Uint32 := 60

  /** `_rtcOk` and the epochs written to the chip with `adjust`, oldest first. */
  datatype RtcState = RtcState(ok: bool, adjustments: seq<Uint32>)

  /** What the NTP client reports: whether `forceUpdate` succeeded, and `getEpochTime` (offset applied). */
  datatype NtpReply = NtpReply(updated: bool, epoch: Uint32)

  /** The broken-down time `_rtc.now()` returns. */
  datatype DateTime = DateTime(year: nat, month: nat, day: nat, hour: nat, minute: nat, second: nat)

  /** Every epoch written to the chip is after 2023-01-01. */
  predicate OnlyValidWrites(r: RtcState)
  {
    forall i :: 0 <= i < |r.adjustments| ==> r.adjustments[i] > MIN_VALID_EPOCH
  }

  // ----- adjustTime -----

  /** `adjustTime`: ignored when the chip is not working; otherwise writes the epoch only when it is after 2023-01-01. */
  function Adjust(r: RtcState, epoch: Uint32): RtcState
  {
    if r.ok && epoch > MIN_VALID_EPOCH then r.(adjustments := r.adjustments + [epoch]) else r
  }

  /** Adjusting appends exactly the valid epochs, only while the chip works, and keeps every write valid. */
  lemma AdjustOutcome(r: RtcState, epoch: Uint32)
    ensures var r' := Adjust(r, epoch);
      r'.ok == r.ok &&
      (r'.adjustments == r.adjustments + [epoch] <==> r.ok && epoch > MIN_VALID_EPOCH) &&
      (r'.adjustments != r.adjustments ==> r'.adjustments == r.adjustments + [epoch]) &&
      (OnlyValidWrites(r) ==> OnlyValidWrites(r'))
  {
    assert |r.adjustments + [epoch]| != |r.adjustments|;
  }

  // ----- Network time -----

  /** `wifiMgr && getCurrentInterface() == wifiMgr && wifiMgr->isConnected()`. */
  predicate OnWifi(v: FacadeView)
  {
    v.active == WifiIface && WifiUp(v)
  }

  /** `triggerHttpTimeSync`: nothing when the facade is disconnected; otherwise an unauthenticated GET with a callback. */
  function TriggerStep(v: FacadeView, url: string, now: Millis): FacadeView
  {
    if !Connected(v) then v else StartStep(v, false, url, "GET", "", true, false, now).1
  }

  /** A time request never reconnects the facade: the preference and the active interface stay as they were. */
  lemma TriggerKeepsInterface(v: FacadeView, url: string, now: Millis)
    requires ViewInv(v)
    ensures TriggerStep(v, url, now).active == v.active && TriggerStep(v, url, now).preference == v.preference
    ensures ViewInv(TriggerStep(v, url, now))
    ensures !Connected(v) ==> TriggerStep(v, url, now) == v
  {
    if Connected(v) {
      ForwardToActive(v, url, "GET", "", true, false, now);
      StartForwardsToActive(v, false, url, "GET", "", true, false, now);
    }
  }

  /**
   * `syncNTP`: false at once when the chip is not working; off WiFi, a time request
   * (which does nothing while disconnected) and false; on WiFi, a successful NTP update
   * adjusts the clock and gives true, a failed one a time request and false.
   */
  function SyncNtpStep(r: RtcState, v: FacadeView, ntp: NtpReply, url: string, now: Millis): (bool, RtcState, FacadeView)
  {
    if !r.ok then (false, r, v)
    else if !OnWifi(v) then (false, r, TriggerStep(v, url, now))
    else if ntp.updated then (true, Adjust(r, ntp.epoch), v)
    else (false, r, TriggerStep(v, url, now))
  }

  /**
   * `syncNTP` succeeds exactly when the chip works, the active interface is the connected
   * WiFi manager and NTP answers; then the clock is set if the epoch is valid and the
   * network is untouched.  Otherwise the clock is untouched, and a time request is started
   * exactly when the chip works and the facade is connected.
   */
  lemma SyncNtpOutcome(r: RtcState, v: FacadeView, ntp: NtpReply, url: string, now: Millis)
    requires ViewInv(v)
    ensures var (ok, r', v') := SyncNtpStep(r, v, ntp, url, now);
      (ok <==> r.ok && OnWifi(v) && ntp.updated) &&
      (ok ==> r' == Adjust(r, ntp.epoch) && v' == v) &&
      (!ok ==> r' == r && v' == (if r.ok then TriggerStep(v, url, now) else v)) &&
      v'.active == v.active && v'.preference == v.preference && ViewInv(v') &&
      (OnlyValidWrites(r) ==> OnlyValidWrites(r'))
  {
    TriggerKeepsInterface(v, url, now);
    AdjustOutcome(r, ntp.epoch);
  }

  /** `syncNITZ`: a time request when the chip works. */
  function SyncNitzStep(r: RtcState, v: FacadeView, url: string, now: Millis): FacadeView
  {
    if !r.ok then v else TriggerStep(v, url, now)
  }

  /**
   * `initialTimeSync`: nothing while the facade is disconnected; otherwise NTP when the
   * active interface is the connected WiFi manager, else the HTTP time request.
   */
  function InitialSyncStep(r: RtcState, v: FacadeView, ntp: NtpReply, url: string, now: Millis): (RtcState, FacadeView)
  {
    if !Connected(v) then (r, v)
    else if OnWifi(v) then
      var (_, r', v') := SyncNtpStep(r, v, ntp, url, now);
      (r', v')
    else (r, SyncNitzStep(r, v, url, now))
  }

  /**
   * The initial synchronisation does nothing while disconnected; otherwise it sets the
   * clock only from NTP over WiFi, and never changes the facade's interface choice.
   */
  lemma InitialSyncOutcome(r: RtcState, v: FacadeView, ntp: NtpReply, url: string, now: Millis)
    requires ViewInv(v)
    ensures var (r', v') := InitialSyncStep(r, v, ntp, url, now);
      (!Connected(v) ==> r' == r && v' == v) &&
      (r' == r || (r' == Adjust(r, ntp.epoch) && OnWifi(v) && ntp.updated)) &&
      v'.active == v.active && v'.preference == v.preference && ViewInv(v') &&
      (OnlyValidWrites(r) ==> OnlyValidWrites(r'))
  {
    SyncNtpOutcome(r, v, ntp, url, now);
    TriggerKeepsInterface(v, url, now);
  }

  // ----- begin -----

  /**
   * `begin`: a chip that does not answer leaves `_rtcOk` false and gives false; otherwise
   * `_rtcOk` is set, the clock is synchronised when it lost power or reports a year
   * before 2023, and the result is true.
   */
  function BeginStep(present: bool, lostPower: bool, year: int, r: RtcState, v: FacadeView,
                     ntp: NtpReply, url: string, now: Millis): (bool, RtcState, FacadeView)
  {
    if !present then (false, r.(ok := false), v)
    else
      var r1 := r.(ok := true);
      if lostPower || year < MIN_VALID_YEAR then
        var (r2, v2) := InitialSyncStep(r1, v, ntp, url, now);
        (true, r2, v2)
      else (true, r1, v)
  }

  /**
   * `begin` reports whether the chip answered, and `_rtcOk` then says the same; a chip
   * that kept its power and reports 2023 or later is left alone, and the network is
   * touched only for a synchronisation.
   */
  lemma BeginOutcome(present: bool, lostPower: bool, year: int, r: RtcState, v: FacadeView,
                     ntp: NtpReply, url: string, now: Millis)
    requires ViewInv(v)
    ensures var (ok, r', v') := BeginStep(present, lostPower, year, r, v, ntp, url, now);
      ok == present && r'.ok == present &&
      (!present || (!lostPower && year >= MIN_VALID_YEAR) ==> r'.adjustments == r.adjustments && v' == v) &&
      (present && (lostPower || year < MIN_VALID_YEAR) ==>
        (r', v') == InitialSyncStep(r.(ok := true), v, ntp, url, now)) &&
      ViewInv(v') && (OnlyValidWrites(r) ==> OnlyValidWrites(r'))
  {
    InitialSyncOutcome(r.(ok := true), v, ntp, url, now);
  }

  // ----- checkAndSyncOnDrift -----

  /** A 32-bit `long`: the value wrapped into -2^31 .. 2^31 - 1. */
  function Long(x: int): (r: int)
    ensures -0x8000_0000 <= r < 0x8000_0000
  {
    (x + 0x8000_0000) % 0x1_0000_0000 - 0x8000_0000
  }

  /**
   * `abs((long)rtc - (long)ntp)` in 32-bit arithmetic, as the unsigned value it is
   * compared with the threshold as.
   */
  function Drift(rtc: Uint32, ntp: Uint32): Uint32
  {
    var d := Long(Long(rtc) - Long(ntp));
    Long(if d < 0 then -d else d) % 0x1_0000_0000
  }

  /** The 32-bit drift is the true distance whenever the two epochs are less than 2^31 seconds apart. */
  lemma DriftExact(rtc: Uint32, ntp: Uint32)
    requires -0x8000_0000 < rtc - ntp < 0x8000_0000
    ensures Drift(rtc, ntp) == if rtc >= ntp then rtc - ntp else ntp - rtc
  {
    var d := Long(rtc) - Long(ntp);
    assert Long(d) == rtc - ntp by {
      assert d == rtc - ntp || d == rtc - ntp + 0x1_0000_0000 || d == rtc - ntp - 0x1_0000_0000;
    }
  }

  /** `_getNetworkDateTimeNTP`: an NTP time only over the connected active WiFi manager, and only after 2023-01-01. */
  function NtpTime(v: FacadeView, ntp: NtpReply): Option<Uint32>
  {
    if OnWifi(v) && ntp.updated && ntp.epoch > MIN_VALID_EPOCH then Some(ntp.epoch) else None
  }

  /**
   * `checkAndSyncOnDrift`: false when the chip is not working or no NTP time is
   * available; otherwise the clock is set to the NTP time, with true, exactly when the
   * drift exceeds the threshold.
   */
  function DriftStep(r: RtcState, v: FacadeView, threshold: Uint32, rtcNow: Uint32, ntp: NtpReply): (bool, RtcState)
  {
    if !r.ok then (false, r)
    else match NtpTime(v, ntp)
      case None => (false, r)
      case Some(e) => if Drift(rtcNow, e) > threshold then (true, Adjust(r, e)) else (false, r)
  }

  /**
   * The drift check: it reports a synchronisation exactly when the chip works, a valid
   * NTP time is available over WiFi and the clock is further from it than the threshold
   * (for clocks within 2^31 seconds of it), and the clock is then set to that time.
   */
  lemma DriftOutcome(r: RtcState, v: FacadeView, threshold: Uint32, rtcNow: Uint32, ntp: NtpReply)
    requires -0x8000_0000 < rtcNow - ntp.epoch < 0x8000_0000
    ensures var (synced, r') := DriftStep(r, v, threshold, rtcNow, ntp);
      (synced <==> r.ok && OnWifi(v) && ntp.updated && ntp.epoch > MIN_VALID_EPOCH &&
                   (if rtcNow >= ntp.epoch then rtcNow - ntp.epoch else ntp.epoch - rtcNow) > threshold) &&
      (synced ==> r'.adjustments == r.adjustments + [ntp.epoch]) &&
      (!synced ==> r' == r)
  {
    DriftExact(rtcNow, ntp.epoch);
  }

  // ----- The HTTP callback -----

  /**
   * The world-time callback: true exactly when the reply's `unixtime` is an unsigned
   * 32-bit integer, which is then passed to `adjustTime`.
   */
  function CallbackStep(r: RtcState, unixtime: Option<int>): (bool, RtcState)
  {
    match unixtime
    case Some(t) => if 0 <= t < 0x1_0000_0000 then (true, Adjust(r, t)) else (false, r)
    case None => (false, r)
  }

  /** A reply without a usable `unixtime` changes nothing; a usable one sets the clock only if it is after 2023-01-01. */
  lemma CallbackOutcome(r: RtcState, unixtime: Option<int>)
    requires OnlyValidWrites(r)
    ensures var (ok, r') := CallbackStep(r, unixtime);
      (ok <==> unixtime.Some? && 0 <= unixtime.value < 0x1_0000_0000) &&
      (!ok ==> r' == r) &&
      (ok && r.ok && unixtime.value > MIN_VALID_EPOCH ==> r'.adjustments == r.adjustments + [unixtime.value]) &&
      (ok && unixtime.value <= MIN_VALID_EPOCH ==> r' == r) &&
      OnlyValidWrites(r')
  {
  }

  // ----- getFormattedDateTime -----

  /** `%0<width>d` for a non-negative number. */
  function ZeroPad(n: nat, width: nat): (s: string)
    ensures |s| == if |Numeral(n, 10)| >= width then |Numeral(n, 10)| else width
  {
    var d := Numeral(n, 10);
    if |d| >= width then d else seq(width - |d|, _ => '0') + d
  }

  /** `getFormattedDateTime`: "RTC Error" without a working chip, else `YYYY-MM-DD HH:MM:SS` in a 20-byte buffer. */
  function Formatted(ok: bool, n: DateTime): string
  {
    if !ok then "RTC Error"
    else
      Truncate(ZeroPad(n.year, 4) + "-" + ZeroPad(n.month, 2) + "-" + ZeroPad(n.day, 2) + " " +
               ZeroPad(n.hour, 2) + ":" + ZeroPad(n.minute, 2) + ":" + ZeroPad(n.second, 2), 19)
  }

  function Pow10(k: nat): nat
  {
    if k == 0 then 1 else 10 * Pow10(k - 1)
  }

  /** A number below 10^k has at most k digits. */
  lemma {:induction false} NumeralLength(n: nat, k: nat)
    requires 0 < k && n < Pow10(k)
    ensures |Numeral(n, 10)| <= k
    decreases k
  {
    if n >= 10 {
      NumeralStep(n, 10);
      NumeralLength(n / 10, k - 1);
    }
  }

  /** Leading zeros do not change the value of a run of digits. */
  lemma {:induction false} ValueOfZeros(z: nat, d: string)
    ensures ValueOf(seq(z, _ => '0') + d, 10) == ValueOf(d, 10)
    decreases |d|
  {
    var zs: string := seq(z, _ => '0');
    if |d| == 0 {
      assert zs + d == zs;
      ZerosHaveNoValue(z);
    } else {
      var p := d[..|d| - 1];
      assert zs + d == (zs + p) + [d[|d| - 1]];
      assert d == p + [d[|d| - 1]];
      ValueOfSnoc(zs + p, d[|d| - 1], 10);
      ValueOfSnoc(p, d[|d| - 1], 10);
      ValueOfZeros(z, p);
    }
  }

  lemma {:induction false} ZerosHaveNoValue(z: nat)
    ensures ValueOf(seq(z, _ => '0'), 10) == 0
  {
    if z > 0 {
      var zs: string := seq(z, _ => '0');
      assert zs == seq(z - 1, _ => '0') + ['0'];
      ValueOfSnoc(seq(z - 1, _ => '0'), '0', 10);
      ZerosHaveNoValue(z - 1);
    }
  }

  /** A zero-padded field that fits its width is exactly `width` digits that read back as the number. */
  lemma ZeroPadReadsBack(n: nat, width: nat)
    requires 0 < width && n < Pow10(width)
    ensures |ZeroPad(n, width)| == width
    ensures forall i :: 0 <= i < width ==> IsDigitIn(ZeroPad(n, width)[i], 10)
    ensures ValueOf(ZeroPad(n, width), 10) == n
  {
    NumeralLength(n, width);
    ValueOfNumeral(n, 10);
    ValueOfZeros(width - |Numeral(n, 10)|, Numeral(n, 10));
  }

  /** Where the six fields and five separators of the date-time text sit. */
  lemma {:induction false} Layout(y: string, mo: string, d: string, h: string, mi: string, se: string)
    requires |y| == 4 && |mo| == 2 && |d| == 2 && |h| == 2 && |mi| == 2 && |se| == 2
    ensures var s := y + "-" + mo + "-" + d + " " + h + ":" + mi + ":" + se;
      |s| == 19 && s[4] == '-' && s[7] == '-' && s[10] == ' ' && s[13] == ':' && s[16] == ':' &&
      s[0..4] == y && s[5..7] == mo && s[8..10] == d && s[11..13] == h && s[14..16] == mi && s[17..19] == se
  {
    var s := y + "-" + mo + "-" + d + " " + h + ":" + mi + ":" + se;
    var t := y + "-" + mo + "-" + d + " " + h;
    assert s == t + ":" + mi + ":" + se;
    assert |t| == 13;
    assert t[0..4] == y && t[5..7] == mo && t[8..10] == d && t[11..13] == h;
    assert s[0..13] == t;
  }

  /**
   * Without a working chip the text is "RTC Error"; with one and fields in range, the
   * text is 19 characters with the separators in place, and each field reads back as
   * the number it was written from.
   */
  lemma FormattedReadsBack(n: DateTime)
    requires n.year < 10000 && n.month < 100 && n.day < 100 && n.hour < 100 && n.minute < 100 && n.second < 100
    ensures Formatted(false, n) == "RTC Error"
    ensures var s := Formatted(true, n);
      |s| == 19 && s[4] == '-' && s[7] == '-' && s[10] == ' ' && s[13] == ':' && s[16] == ':' &&
      ValueOf(s[0..4], 10) == n.year && ValueOf(s[5..7], 10) == n.month && ValueOf(s[8..10], 10) == n.day &&
      ValueOf(s[11..13], 10) == n.hour && ValueOf(s[14..16], 10) == n.minute && ValueOf(s[17..19], 10) == n.second
  {
    assert Pow10(2) == 100 && Pow10(4) == 10000;
    ZeroPadReadsBack(n.year, 4);
    ZeroPadReadsBack(n.month, 2);
    ZeroPadReadsBack(n.day, 2);
    ZeroPadReadsBack(n.hour, 2);
    ZeroPadReadsBack(n.minute, 2);
    ZeroPadReadsBack(n.second, 2);
    Layout(ZeroPad(n.year, 4), ZeroPad(n.month, 2), ZeroPad(n.day, 2),
           ZeroPad(n.hour, 2), ZeroPad(n.minute, 2), ZeroPad(n.second, 2));
  }

  // ----- The manager -----

  class RtcManager {
    const facade: Facade.NetworkFacade
    var rtcOk: bool
    /** The epochs written to the chip with `adjust`, oldest first. */
    var adjustments: seq<Uint32>

    function State(): RtcState
      reads this
    {
      RtcState(rtcOk, adjustments)
    }

    /** The facade keeps its invariant and every epoch written to the chip is after 2023-01-01. */
    predicate Valid()
      reads this, facade, facade.wifi, facade.gprs
    {
      facade.Valid() && OnlyValidWrites(State())
    }

    /** The constructor: the chip is not yet known to work. */
    constructor (facade: Facade.NetworkFacade)
      requires facade.Valid()
      ensures this.facade == facade && !rtcOk && adjustments == []
      ensures Valid()
    {
      this.facade := facade;
      rtcOk := false;
      adjustments := [];
    }

    /** `_rtc.adjust` as seen from outside: the epoch is appended to the writes. */
    method AdjustTime(epoch: Uint32)
      modifies this
      ensures State() == Adjust(old(State()), epoch)
      ensures OnlyValidWrites(old(State())) ==> OnlyValidWrites(State())
    {
      AdjustOutcome(State(), epoch);
      if !rtcOk {
        return;
      }
      if epoch > MIN_VALID_EPOCH {
        adjustments := adjustments + [epoch];
      }
    }

    method TriggerHttpTimeSync(url: string, now: Millis)
      requires Valid()
      modifies facade, facade.wifi, facade.gprs, facade.Record()
      ensures facade.View() == TriggerStep(old(facade.View()), url, now)
      ensures Valid()
    {
      if !facade.IsConnected() {
        return;
      }
      var _ := facade.StartAsyncHttpRequest(false, url, "GET", "", true, false, now);
    }

    method SyncNtp(ntp: NtpReply, url: string, now: Millis) returns (ok: bool)
      requires Valid()
      modifies this, facade, facade.wifi, facade.gprs, facade.Record()
      ensures (ok, State(), facade.View()) == SyncNtpStep(old(State()), old(facade.View()), ntp, url, now)
      ensures Valid()
    {
      if !rtcOk {
        return false;
      }
      var onWifi := facade.wifi != null && facade.active == WifiIface && facade.wifi.IsConnected();
      if !onWifi {
        if facade.IsConnected() {
          TriggerHttpTimeSync(url, now);
        }
        return false;
      }
      if ntp.updated {
        AdjustTime(ntp.epoch);
        return true;
      }
      TriggerHttpTimeSync(url, now);
      return false;
    }

    method SyncNitz(url: string, now: Millis)
      requires Valid()
      modifies facade, facade.wifi, facade.gprs, facade.Record()
      ensures facade.View() == SyncNitzStep(State(), old(facade.View()), url, now)
      ensures Valid()
    {
      if !rtcOk {
        return;
      }
      TriggerHttpTimeSync(url, now);
    }

    method InitialTimeSync(ntp: NtpReply, url: string, now: Millis)
      requires Valid()
      modifies this, facade, facade.wifi, facade.gprs, facade.Record()
      ensures (State(), facade.View()) == InitialSyncStep(old(State()), old(facade.View()), ntp, url, now)
      ensures Valid()
    {
      if facade.IsConnected() {
        if facade.wifi != null && facade.active == WifiIface && facade.wifi.IsConnected() {
          var _ := SyncNtp(ntp, url, now);
        } else {
          SyncNitz(url, now);
        }
      }
    }

    method Begin(present: bool, lostPower: bool, year: int, ntp: NtpReply, url: string, now: Millis) returns (ok: bool)
      requires Valid()
      modifies this, facade, facade.wifi, facade.gprs, facade.Record()
      ensures (ok, State(), facade.View()) ==
              BeginStep(present, lostPower, year, old(State()), old(facade.View()), ntp, url, now)
      ensures Valid()
    {
      if !present {
        rtcOk := false;
        return false;
      }
      rtcOk := true;
      if lostPower {
        InitialTimeSync(ntp, url, now);
      } else if year < MIN_VALID_YEAR {
        InitialTimeSync(ntp, url, now);
      }
      return true;
    }

    method CheckAndSyncOnDrift(threshold: Uint32, rtcNow: Uint32, ntp: NtpReply) returns (synced: bool)
      requires Valid()
      modifies this
      ensures (synced, State()) == DriftStep(old(State()), facade.View(), threshold, rtcNow, ntp)
      ensures Valid()
    {
      if !rtcOk {
        return false;
      }
      var available := false;
      var ntpTime: Uint32 := 0;
      if facade.wifi != null && facade.active == WifiIface && facade.wifi.IsConnected() {
        if ntp.updated {
          if ntp.epoch > MIN_VALID_EPOCH {
            available, ntpTime := true, ntp.epoch;
          }
        }
      }
      if available {
        if Drift(rtcNow, ntpTime) > threshold {
          AdjustTime(ntpTime);
          return true;
        }
      }
      return false;
    }

    /** The callback passed with the world-time request. */
    method TimeCallback(unixtime: Option<int>) returns (ok: bool)
      modifies this
      ensures (ok, State()) == CallbackStep(old(State()), unixtime)
      ensures OnlyValidWrites(old(State())) ==> OnlyValidWrites(State())
    {
      if unixtime.Some? && 0 <= unixtime.value < 0x1_0000_0000 {
        AdjustTime(unixtime.value);
        return true;
      }
      return false;
    }

    function GetFormattedDateTime(n: DateTime): string
      reads this
    {
      Formatted(rtcOk, n)
    }
  }
}
