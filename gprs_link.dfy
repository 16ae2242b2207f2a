/**
 * The cellular connection state machine of `GPRSManager` as a step function: one call of
 * `updateFSM` maps the FSM fields, the modem's answers during that poll and the current
 * time to the new FSM fields.  The class in module `Gprs` is proved to follow it.
 */
module GprsLink {
  import opened Clock
  import opened DeviceStateModel

  const MODEM_SERIAL_WAIT_TIMEOUT_MS: int := 30000
  const GPRS_ATTACH_TIMEOUT_MS: int := 60000
  const GPRS_RECONNECT_DELAY_INITIAL_MS: int := 15000
  const GPRS_MAX_MODEM_RESETS: int := 3
  const GPRS_MAX_ATTACH_FAILURES: int := 5
  const GPRS_CONNECTION_CHECK_INTERVAL_MS: int := 30000
  const GPRS_MAX_RECONNECT_ATTEMPTS: int := 5
  const GPRS_MODEM_ERROR_RESTART_DELAY_MS: int := 60000
  const GPRS_MODEM_FAIL_RECOVERY_TIMEOUT_MS: int := 300000

  /**
   * The FSM fields: the state, the time of the last transition (restarted in place by
   * some handlers) and the three `uint8_t` counters.
   */
  datatype Link = Link(
    state: GprsState,
    since: Millis,
    reconnectAttempt: Byte,
    resetCount: Byte,
    attachFailCount: Byte)

  /** The fields of a freshly constructed manager: DISABLED, timer and counters at 0. */
  const FreshLink: Link := Link(Disabled, 0, 0, 0, 0)

  /** What the modem answers during one poll; each query kind answers once per poll. */
  datatype ModemReplies = ModemReplies(
    serialResponds: bool,     // AT test in checkModemSerial
    softResetOk: bool,        // performModemSoftReset
    hardResetOk: bool,        // performModemHardReset
    simLocked: bool,          // first getSimStatus() == SIM_LOCKED (asked only when a PIN is set)
    simUnlockOk: bool,        // simUnlock(pin)
    simReady: bool,           // getSimStatus() == SIM_READY
    networkRegistered: bool,  // isNetworkConnected()
    gprsAttached: bool,       // isGprsConnected()
    registrationOk: bool,     // getRegistrationStatus() is REG_OK_HOME or REG_OK_ROAMING
    gprsConnectOk: bool,      // gprsConnect(apn, user, password)
    signalQuality: Int16)     // getSignalQuality()

  /** The new FSM fields, and whether the handler stopped the TCP client. */
  datatype Polled = Polled(link: Link, stopsClient: bool)

  /** `transitionToState(target)` on the FSM fields. */
  function Enter(l: Link, target: GprsState, now: Millis): Link
  {
    if l.state == target then l
    else Link(
      target,
      now,
      if target != Reconnecting then 0 else l.reconnectAttempt,
      if target == InitStart then 0 else l.resetCount,
      if target == InitStart then 0 else l.attachFailCount)
  }

  /** `connect()`: starts the FSM when it is DISABLED; it reports success in every case. */
  function Connect(l: Link, now: Millis): Link
  {
    if l.state == Disabled then Enter(l, InitStart, now) else l
  }

  function InitStartStep(l: Link, m: ModemReplies, now: Millis): Link
  {
    var cleared := l.(resetCount := 0, attachFailCount := 0);
    Enter(cleared, if m.serialResponds then InitResetModem else InitWaitSerial, now)
  }

  function WaitSerialStep(l: Link, m: ModemReplies, now: Millis): Link
  {
    if m.serialResponds then Enter(l, InitResetModem, now)
    else if Elapsed(now, l.since) > MODEM_SERIAL_WAIT_TIMEOUT_MS then Enter(l, ErrorRestartModem, now)
    else l
  }

  /** The reset procedure the handler uses: soft on the first try of a cycle, hard after. */
  function ResetSucceeded(l: Link, m: ModemReplies): bool
  {
    if l.resetCount == 0 then m.softResetOk else m.hardResetOk
  }

  /** A counted reset failure: increment, then give up at `GPRS_MAX_MODEM_RESETS`. */
  function CountResetFailure(l: Link, now: Millis): Link
  {
    var counted := l.(resetCount := Inc8(l.resetCount));
    Enter(counted, if counted.resetCount >= GPRS_MAX_MODEM_RESETS then ErrorModemFail else ErrorRestartModem, now)
  }

  function ResetModemStep(l: Link, pinSet: bool, m: ModemReplies, now: Millis): Link
  {
    if ResetSucceeded(l, m) then
      var cleared := l.(resetCount := 0);
      if pinSet && m.simLocked && !m.simUnlockOk then Enter(cleared, ErrorRestartModem, now)
      else if !m.simReady then CountResetFailure(cleared, now)
      else Enter(cleared, InitAttachGprs, now)
    else CountResetFailure(l, now)
  }

  function AttachStep(l: Link, m: ModemReplies, now: Millis): Link
  {
    if m.networkRegistered && m.gprsAttached then
      Enter(l.(attachFailCount := 0), Operational, now)
    else if !m.networkRegistered && !m.registrationOk then
      if Elapsed(now, l.since) > GPRS_ATTACH_TIMEOUT_MS then
        var counted := l.(attachFailCount := Inc8(l.attachFailCount));
        if counted.attachFailCount > GPRS_MAX_ATTACH_FAILURES then Enter(counted, ErrorRestartModem, now)
        else counted.(since := now)
      else l
    else if m.gprsConnectOk then
      Enter(l.(attachFailCount := 0), Operational, now)
    else
      var counted := l.(attachFailCount := Inc8(l.attachFailCount));
      if counted.attachFailCount >= GPRS_MAX_ATTACH_FAILURES then Enter(counted, ErrorRestartModem, now)
      else counted.(since := now)
  }

  function OperationalStep(l: Link, m: ModemReplies, now: Millis): Link
  {
    if Elapsed(now, l.since) > GPRS_CONNECTION_CHECK_INTERVAL_MS then
      var probed := l.(since := now);
      if !m.gprsAttached || !m.networkRegistered then Enter(probed, ConnectionLost, now) else probed
    else l
  }

  function ReconnectingStep(l: Link, now: Millis): Link
  {
    if l.reconnectAttempt < GPRS_MAX_RECONNECT_ATTEMPTS then
      if Elapsed(now, l.since) > GPRS_RECONNECT_DELAY_INITIAL_MS then
        Enter(l.(reconnectAttempt := Inc8(l.reconnectAttempt)), InitAttachGprs, now)
      else l
    else Enter(l, ErrorRestartModem, now)
  }

  function RestartModemStep(l: Link, now: Millis): Link
  {
    if Elapsed(now, l.since) < GPRS_MODEM_ERROR_RESTART_DELAY_MS then l
    else Enter(l, InitResetModem, now)
  }

  function ModemFailStep(l: Link, now: Millis): Link
  {
    if Elapsed(now, l.since) > GPRS_MODEM_FAIL_RECOVERY_TIMEOUT_MS then Enter(l, Disabled, now) else l
  }

  /** One call of `updateFSM`: the handler of the current state. */
  function Poll(l: Link, pinSet: bool, m: ModemReplies, now: Millis): Polled
  {
    match l.state
    case Disabled => Polled(l, false)
    case InitStart => Polled(InitStartStep(l, m, now), false)
    case InitWaitSerial => Polled(WaitSerialStep(l, m, now), false)
    case InitResetModem => Polled(ResetModemStep(l, pinSet, m, now), false)
    case InitAttachGprs => Polled(AttachStep(l, m, now), false)
    case Operational => Polled(OperationalStep(l, m, now), false)
    case ConnectionLost => Polled(Enter(l.(reconnectAttempt := 0), Reconnecting, now), true)
    case Reconnecting => Polled(ReconnectingStep(l, now), false)
    case ErrorRestartModem => Polled(RestartModemStep(l, now), true)
    case ErrorModemFail => Polled(ModemFailStep(l, now), false)
  }

  // ----- Properties -----

  /**
   * The invariant kept between polls: the reconnect counter is 0, and the reset counter
   * never exceeds `GPRS_MAX_MODEM_RESETS`, reaching it only in ERROR_MODEM_FAIL or DISABLED.
   */
  predicate Inv(l: Link)
  {
    l.reconnectAttempt == 0 &&
    l.resetCount <= GPRS_MAX_MODEM_RESETS &&
    (l.resetCount == GPRS_MAX_MODEM_RESETS ==> l.state == ErrorModemFail || l.state == Disabled)
  }

  lemma FreshLinkInv()
    ensures Inv(FreshLink)
  {
  }

  /** `connect()` keeps the invariant. */
  lemma ConnectKeepsInv(l: Link, now: Millis)
    requires Inv(l)
    ensures Inv(Connect(l, now))
    ensures Connect(l, now).state != Disabled
    ensures l.state == Disabled ==> Connect(l, now) == Link(InitStart, now, 0, 0, 0)
  {
  }

  /** The drop to CONNECTION_LOST that the HTTP machine triggers from OPERATIONAL keeps it too. */
  lemma LinkLossKeepsInv(l: Link, now: Millis)
    requires Inv(l) && l.state == Operational
    ensures Inv(Enter(l, ConnectionLost, now))
  {
  }

  /** Every poll keeps the invariant. */
  lemma {:induction false} PollKeepsInv(l: Link, pinSet: bool, m: ModemReplies, now: Millis)
    requires Inv(l)
    ensures Inv(Poll(l, pinSet, m, now).link)
  {
    match l.state
    case InitResetModem =>
      assert l.resetCount < GPRS_MAX_MODEM_RESETS;
    case Reconnecting =>
      assert l.reconnectAttempt < GPRS_MAX_RECONNECT_ATTEMPTS;
    case _ =>
  }

  /**
   * The reconnect give-up branch is unreachable: between polls the counter is 0, so a poll
   * in RECONNECTING either waits or re-enters INIT_ATTACH_GPRS, which zeroes it again.
   */
  lemma ReconnectGiveUpUnreachable(l: Link, pinSet: bool, m: ModemReplies, now: Millis)
    requires Inv(l) && l.state == Reconnecting
    ensures Poll(l, pinSet, m, now).link.state in {Reconnecting, InitAttachGprs}
    ensures Poll(l, pinSet, m, now).link.reconnectAttempt == 0
  {
  }

  /**
   * ERROR_MODEM_FAIL is entered only from INIT_RESET_MODEM, and only when the (hard) reset
   * itself failed for the third time in a row: a non-ready SIM after a good reset never
   * gets there, because the good reset zeroes the counter first.
   */
  lemma ModemFailOnlyAfterThirdFailedReset(l: Link, pinSet: bool, m: ModemReplies, now: Millis)
    requires Inv(l)
    requires l.state != ErrorModemFail && Poll(l, pinSet, m, now).link.state == ErrorModemFail
    ensures l.state == InitResetModem
    ensures !ResetSucceeded(l, m) && l.resetCount == GPRS_MAX_MODEM_RESETS - 1
    ensures Poll(l, pinSet, m, now).link.resetCount == GPRS_MAX_MODEM_RESETS
  {
  }

  /** After a good reset, a SIM that is not ready leaves the counter at 1 and restarts the modem. */
  lemma SimNotReadyRestarts(l: Link, pinSet: bool, m: ModemReplies, now: Millis)
    requires l.state == InitResetModem && ResetSucceeded(l, m)
    requires !(pinSet && m.simLocked && !m.simUnlockOk) && !m.simReady
    ensures Poll(l, pinSet, m, now).link.state == ErrorRestartModem
    ensures Poll(l, pinSet, m, now).link.resetCount == 1
  {
  }

  /**
   * INIT_RESET_MODEM: a failed reset counts one more failure and gives up at the third; a
   * good reset clears the counter, and then a SIM that cannot be unlocked restarts the
   * modem, while a ready SIM goes on to attach.
   */
  lemma ResetModemOutcome(l: Link, pinSet: bool, m: ModemReplies, now: Millis)
    requires l.state == InitResetModem && l.resetCount < 255
    ensures var r := Poll(l, pinSet, m, now).link;
      (!ResetSucceeded(l, m) ==>
        r.resetCount == l.resetCount + 1 &&
        r.state == (if l.resetCount + 1 >= GPRS_MAX_MODEM_RESETS then ErrorModemFail else ErrorRestartModem)) &&
      (ResetSucceeded(l, m) && pinSet && m.simLocked && !m.simUnlockOk ==>
        r.state == ErrorRestartModem && r.resetCount == 0) &&
      (ResetSucceeded(l, m) && !(pinSet && m.simLocked && !m.simUnlockOk) && m.simReady ==>
        r.state == InitAttachGprs && r.resetCount == 0 && r.since == now)
  {
  }

  /** A reset cycle started from INIT_START always begins with a soft reset. */
  lemma CycleStartsWithSoftReset(l: Link, pinSet: bool, m: ModemReplies, now: Millis)
    requires l.state == InitStart
    ensures Poll(l, pinSet, m, now).link.resetCount == 0
    ensures Poll(l, pinSet, m, now).link.attachFailCount == 0
  {
  }

  /** Leaving ERROR_RESTART_MODEM does not touch the reset counter, so the next reset is hard. */
  lemma RestartKeepsResetCount(l: Link, pinSet: bool, m: ModemReplies, now: Millis)
    requires l.state == ErrorRestartModem
    ensures Poll(l, pinSet, m, now).link.resetCount == l.resetCount
    ensures Poll(l, pinSet, m, now).link.state in {ErrorRestartModem, InitResetModem}
    ensures Poll(l, pinSet, m, now).link.state == InitResetModem <==>
              Elapsed(now, l.since) >= GPRS_MODEM_ERROR_RESTART_DELAY_MS
  {
  }

  /**
   * INIT_ATTACH_GPRS reaches OPERATIONAL only with the attach counter cleared, and gives up
   * (ERROR_RESTART_MODEM) only once the incremented counter reaches the failure ceiling.
   */
  lemma AttachOutcomes(l: Link, m: ModemReplies, now: Millis)
    requires l.state == InitAttachGprs
    ensures var r := Poll(l, false, m, now).link;
      r.state in {InitAttachGprs, Operational, ErrorRestartModem} &&
      (r.state == Operational <==> (m.networkRegistered && m.gprsAttached) ||
                                   ((m.networkRegistered || m.registrationOk) && m.gprsConnectOk)) &&
      (r.state == Operational ==> r.attachFailCount == 0) &&
      (r.state == ErrorRestartModem ==> r.attachFailCount == Inc8(l.attachFailCount) &&
                                        r.attachFailCount >= GPRS_MAX_ATTACH_FAILURES) &&
      (r.state == InitAttachGprs ==> r == l || (r.since == now && r.attachFailCount == Inc8(l.attachFailCount)))
  {
  }

  /** Once the attach counter has reached the ceiling, every failed `gprsConnect` restarts the modem. */
  lemma AttachFailuresAccumulateAcrossRestarts(l: Link, m: ModemReplies, now: Millis)
    requires l.state == InitAttachGprs
    requires GPRS_MAX_ATTACH_FAILURES - 1 <= l.attachFailCount < 255
    requires !(m.networkRegistered && m.gprsAttached) && (m.networkRegistered || m.registrationOk)
    requires !m.gprsConnectOk
    ensures Poll(l, false, m, now).link.state == ErrorRestartModem
  {
  }

  /**
   * OPERATIONAL probes the modem only after the check interval (restarting its timer) and
   * leaves exactly when the probe finds the attachment or the registration lost.
   */
  lemma OperationalProbe(l: Link, pinSet: bool, m: ModemReplies, now: Millis)
    requires l.state == Operational
    ensures var r := Poll(l, pinSet, m, now).link;
      (Elapsed(now, l.since) <= GPRS_CONNECTION_CHECK_INTERVAL_MS ==> r == l) &&
      (Elapsed(now, l.since) > GPRS_CONNECTION_CHECK_INTERVAL_MS ==> r.since == now) &&
      (r.state != Operational <==>
        Elapsed(now, l.since) > GPRS_CONNECTION_CHECK_INTERVAL_MS && !(m.gprsAttached && m.networkRegistered)) &&
      r.state in {Operational, ConnectionLost}
  {
  }

  /** The remaining timed states wait for their delay and then move on. */
  lemma TimedStates(l: Link, pinSet: bool, m: ModemReplies, now: Millis)
    ensures l.state == ConnectionLost ==>
      Poll(l, pinSet, m, now) == Polled(Enter(l, Reconnecting, now).(reconnectAttempt := 0), true)
    ensures l.state == Reconnecting && l.reconnectAttempt == 0 ==>
      Poll(l, pinSet, m, now).link.state ==
        (if Elapsed(now, l.since) > GPRS_RECONNECT_DELAY_INITIAL_MS then InitAttachGprs else Reconnecting)
    ensures l.state == ErrorModemFail ==>
      Poll(l, pinSet, m, now).link.state ==
        (if Elapsed(now, l.since) > GPRS_MODEM_FAIL_RECOVERY_TIMEOUT_MS then Disabled else ErrorModemFail)
    ensures l.state == Disabled ==> Poll(l, pinSet, m, now) == Polled(l, false)
  {
  }

  /** Every change of state stamps the transition time with the current time. */
  lemma StateChangeStampsTime(l: Link, pinSet: bool, m: ModemReplies, now: Millis)
    requires Poll(l, pinSet, m, now).link.state != l.state
    ensures Poll(l, pinSet, m, now).link.since == now
  {
  }
}
