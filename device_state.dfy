/**
 * The shared device record (`DeviceState`) and the cellular connection states it mirrors.
 */
module DeviceStateModel {
  import opened Clock

  /** The states of the cellular connection state machine. */
  datatype GprsState =
    | InitStart
    | InitWaitSerial
    | InitResetModem
    | InitAttachGprs
    | Operational
    | ConnectionLost
    | Reconnecting
    | ErrorRestartModem
    | ErrorModemFail
    | Disabled

  /** Initial general retry delay, 15 s. */
  const INITIAL_RETRY_DELAY_MS: int := 15 * 1000
  /** Ceiling of the general retry delay, 5 min. */
  const MAX_RETRY_DELAY_MS: int := 5 * 60 * 1000
  /** Initial delay before trying to switch back from cellular to WiFi, 15 min. */
  const WIFI_RETRY_WHEN_GPRS_MS: int := 15 * 60 * 1000
  /** Ceiling of that delay, 60 min. */
  const MAX_WIFI_RETRY_WHEN_GPRS_MS: int := 60 * 60 * 1000

  /** The mutable record shared by the main loop and the cellular manager. */
  class DeviceState {
    var lastLoopTime: Millis
    var lastApiAttemptTime: Millis
    var lastTimeSyncTime: Millis
    var lastSuccessfulApiUpdateTime: Millis
    var lastSdRetryTime: Millis
    var lastConnectionRetryTime: Millis
    var lastWiFiRetryWhenGprsTime: Millis
    var lastDeviceStatusCheckTime: Millis
    var isInFailSafeMode: bool
    var currentConnectionRetryDelayMs: Millis
    var currentWiFiSwitchBackoffDelayMs: Millis
    var currentGprsState: GprsState
    var lastGprsStateTransitionTime: Millis
    var gprsModemResetCount: Byte
    var gprsAttachFailCount: Byte
    var isGprsConnected: bool
    /** `int16_t`: the CSQ value, 0-31, or 99 when unknown. */
    var gprsSignalQuality: Int16
    var webExhaustTargetState: bool
    var webDehumidifierTargetState: bool
    var webBlowerTargetState: bool
    var lastWebExhaustTargetState: bool
    var lastWebDehumidifierTargetState: bool
    var lastWebBlowerTargetState: bool

    /** The eight timestamps of the record. */
    function Timestamps(): seq<Millis>
      reads this
    {
      [lastLoopTime, lastApiAttemptTime, lastTimeSyncTime, lastSuccessfulApiUpdateTime,
       lastSdRetryTime, lastConnectionRetryTime, lastWiFiRetryWhenGprsTime, lastDeviceStatusCheckTime]
    }

    /** The six web-override flags: three targets and three last-seen targets. */
    function WebFlags(): seq<bool>
      reads this
    {
      [webExhaustTargetState, webDehumidifierTargetState, webBlowerTargetState,
       lastWebExhaustTargetState, lastWebDehumidifierTargetState, lastWebBlowerTargetState]
    }

    /**
     * Every field except the four the cellular manager mirrors (state, transition time,
     * connected flag and signal quality).
     */
    function Unmirrored(): (seq<Millis>, bool, Millis, Millis, Byte, Byte, seq<bool>)
      reads this
    {
      (Timestamps(), isInFailSafeMode, currentConnectionRetryDelayMs, currentWiFiSwitchBackoffDelayMs,
       gprsModemResetCount, gprsAttachFailCount, WebFlags())
    }

    /** Both backoff delays lie between their floor and their ceiling. */
    predicate BackoffInRange()
      reads this
    {
      INITIAL_RETRY_DELAY_MS <= currentConnectionRetryDelayMs <= MAX_RETRY_DELAY_MS &&
      WIFI_RETRY_WHEN_GPRS_MS <= currentWiFiSwitchBackoffDelayMs <= MAX_WIFI_RETRY_WHEN_GPRS_MS
    }

    /** The initial values of a fresh record. */
    constructor ()
      ensures forall i :: 0 <= i < |Timestamps()| ==> Timestamps()[i] == 0
      ensures !isInFailSafeMode
      ensures currentConnectionRetryDelayMs == INITIAL_RETRY_DELAY_MS
      ensures currentWiFiSwitchBackoffDelayMs == WIFI_RETRY_WHEN_GPRS_MS
      ensures BackoffInRange()
      ensures forall i :: 0 <= i < |WebFlags()| ==> !WebFlags()[i]
      ensures currentGprsState == InitStart && lastGprsStateTransitionTime == 0
      ensures gprsModemResetCount == 0 && gprsAttachFailCount == 0
      ensures !isGprsConnected && gprsSignalQuality == 99
    {
      lastLoopTime := 0;
      lastApiAttemptTime := 0;
      lastTimeSyncTime := 0;
      lastSuccessfulApiUpdateTime := 0;
      lastSdRetryTime := 0;
      lastConnectionRetryTime := 0;
      lastWiFiRetryWhenGprsTime := 0;
      lastDeviceStatusCheckTime := 0;
      isInFailSafeMode := false;
      currentConnectionRetryDelayMs := INITIAL_RETRY_DELAY_MS;
      currentWiFiSwitchBackoffDelayMs := WIFI_RETRY_WHEN_GPRS_MS;
      webExhaustTargetState := false;
      webDehumidifierTargetState := false;
      webBlowerTargetState := false;
      lastWebExhaustTargetState := false;
      lastWebDehumidifierTargetState := false;
      lastWebBlowerTargetState := false;
      currentGprsState := InitStart;
      lastGprsStateTransitionTime := 0;
      gprsModemResetCount := 0;
      gprsAttachFailCount := 0;
      isGprsConnected := false;
      gprsSignalQuality := 99;
    }
  }
}
