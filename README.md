# Greenhouse controller: networking and decision core

This project is a Dafny model of the ESP32 greenhouse controller firmware. It models the networking layer and the small decision components around it, and proves properties of that model.

**Networking layer**

- **Cellular connection state machine.** `GPRSManager::updateFSM` with its `handleGprs*` handlers and `transitionToState` (`gprs_link.dfy`, on values).
- **Cellular HTTP state machine.** `updateHttpOperations`, together with its self-contained pieces:
  - the URL split (`gprs_url.dfy`);
  - request assembly into the 512-byte buffer (`gprs_request.dfy`);
  - status-line, header and chunked-body handling (`gprs_response.dfy`);
  - the per-state step functions (`gprs_http.dfy`).
- **`GPRSManager` class** (`gprs_manager.dfy`). Its methods read the received bytes one at a time in loops. Each is proved equal to the step functions.
- **WiFi HTTP state machine.** `WiFiManager` (`wifi_manager.dfy`).
- **Network facade.** `NetworkFacade` (`network_facade.dfy`), which chooses between the two transports. A missing manager is a `null` reference.
- **Shared record.** `DeviceState` (`device_state.dfy`), into which the cellular manager mirrors part of its state.

**Decision components**

- configuration loading, saving and factory reset over an NVS namespace (`device_config.dfy`, on the store in `nvs_store.dfy`);
- relay control with manual overrides (`relay_controller.dfy`);
- sensor and threshold validation (`sensor_data.dfy`);
- the configuration portal's page filling, captive-portal answers and form handling (`config_portal.dfy`);
- RTC synchronisation decisions (`rtc_manager.dfy`).

**Shared pieces**

- `clock.dfy` models the 32-bit `millis()` counter. Every elapsed time is `(now - t) mod 2^32`.
- `text.dfy` models the Arduino `String` and newlib `strtol`/`atoi` behaviour the firmware relies on.
- `http_retry.dfy` holds `isRetryableError`. The two transports share it.

**How the model treats outside input**

- Every wait in the firmware is a state that the next poll re-checks. Each handler is therefore a step function of the fields, the current time and the answers of the hardware or library calls. Those answers are parameters:
  - modem replies: `ModemReplies`;
  - HTTP client results: `Answers` and `WifiAnswers`;
  - NTP results: `NtpReply`.
- Each class method is proved to equal a step function on a snapshot of the class (`ensures (ok, View()) == Step(old(View()), ...)`).
- The properties are lemmas about those step functions.
- Each manager also keeps an invariant, `Valid()`, which all its methods preserve.

## Model

| member | source | states |
|---|---|---|
| Clock.ElapsedAfterAdd | src/GPRSManager.cpp:729-732 | a reading taken d ms after t sees exactly d elapsed, also across the 32-bit wrap |
| Clock.ElapsedToFutureDeadline | src/GPRSManager.cpp:1041 | measured against a deadline that still lies d - k ms ahead, the elapsed time is 2^32 - (d - k), not a small number |
| Clock.Inc8 | src/GPRSManager.cpp:352 | a `uint8_t` increment wraps from 255 to 0 and otherwise adds one |
| Text.IndexOf | src/GPRSManager.cpp:866 | `String::indexOf` gives -1 or an index at or after the start where the pattern occurs, with no earlier occurrence |
| Text.ContainsIff | src/ConfigPortalManager.cpp:48-59 | a non-empty pattern is found exactly when it occurs somewhere in the text |
| Text.ParseNumeral | src/GPRSManager.cpp:947 | `strtol` in base 10 or 16 reads back any in-range numeral, whatever non-digit text follows it |
| Text.ToIntNumeral | src/GPRSManager.cpp:855 | `String::toInt` reads back a decimal numeral followed by non-digits |
| Text.ReplaceAllWithoutOccurrence | src/ConfigPortalManager.cpp:62-70 | the left-to-right pass of `String::replace` leaves text in which the pattern does not occur unchanged |
| Text.StringReplaceWithoutOccurrence | src/ConfigPortalManager.cpp:62-70 | `String::replace` leaves text in which the pattern does not occur unchanged, whether the replacement is shorter or longer than the pattern |
| Text.LongerReplaceKeepsTail | src/ConfigPortalManager.cpp:62-70 | a replacement longer than the pattern, made from the right, keeps the text after the pattern's last occurrence and makes the text at least as long as one replacement does |
| Text.FirstReplacedFromRight | src/ConfigPortalManager.cpp:62-70 | a replacement longer than the pattern is made first at the pattern's last occurrence, and the pass goes on from just before it |
| Text.OverlapReplacedFromRight | src/ConfigPortalManager.cpp:62-70 | on overlapping occurrences a longer replacement takes the last: in `%m%m%` (such as `%TOKEN%TOKEN%`) a replacement longer than `%m%` and not starting with `%` replaces the second occurrence, giving `%m` followed by the replacement |
| Text.OverlapReplacedLeftToRight | src/ConfigPortalManager.cpp:62-70 | the left-to-right pass on the same `%m%m%` replaces the first occurrence instead, leaving `m%` after the replacement |
| DeviceStateModel.DeviceState.constructor | src/DeviceState.h:98-124 | a fresh record: eight timestamps at 0; not in fail-safe; backoffs at their floors (15 s, 15 min) and within their ceilings; six web-override flags false; GPRS mirror at INIT_START, counters 0, not connected, signal 99 |
| HttpRetry.RetryableIsNotSuccess | src/GPRSManager.cpp:1087-1108 | a 2xx status is never retried, and a retried positive status is an error code (408 or above) |
| GprsLink.FreshLinkInv | src/GPRSManager.cpp:34-67 | a new manager starts DISABLED with its counters at 0, and that satisfies the between-polls invariant |
| GprsLink.ConnectKeepsInv | src/GPRSManager.cpp:80-92 | `connect` moves only DISABLED to INIT_START and keeps the invariant |
| GprsLink.LinkLossKeepsInv | src/GPRSManager.cpp:762-766 | the drop to CONNECTION_LOST forced by the HTTP machine keeps the invariant |
| GprsLink.PollKeepsInv | src/GPRSManager.cpp:131-183 | every poll keeps the invariant: reconnect counter 0; reset counter at most 3, and 3 only in ERROR_MODEM_FAIL or DISABLED |
| GprsLink.ReconnectGiveUpUnreachable | src/GPRSManager.cpp:516-539 | a poll in RECONNECTING never gives up: it waits, or goes to INIT_ATTACH_GPRS with the counter back at 0 |
| GprsLink.ModemFailOnlyAfterThirdFailedReset | src/GPRSManager.cpp:293-363 | ERROR_MODEM_FAIL is entered only from INIT_RESET_MODEM, when a hard reset fails with the counter reaching 3 |
| GprsLink.ResetModemOutcome | src/GPRSManager.cpp:293-363 | a failed reset adds one failure and gives up (ERROR_MODEM_FAIL) when the count reaches 3, else ERROR_RESTART_MODEM; a good reset clears the count; then a SIM that cannot be unlocked restarts the modem and a ready SIM goes to INIT_ATTACH_GPRS |
| GprsLink.SimNotReadyRestarts | src/GPRSManager.cpp:304-333 | after a good reset, a SIM that is not ready leaves the reset counter at 1 and goes to ERROR_RESTART_MODEM |
| GprsLink.CycleStartsWithSoftReset | src/GPRSManager.cpp:261-363 | a reset cycle begun from INIT_START starts with the counter at 0, so its first reset is soft |
| GprsLink.RestartKeepsResetCount | src/GPRSManager.cpp:541-555 | ERROR_RESTART_MODEM waits its delay, then enters INIT_RESET_MODEM with the reset counter unchanged, so the next reset is hard |
| GprsLink.AttachOutcomes | src/GPRSManager.cpp:414-472 | INIT_ATTACH_GPRS reaches OPERATIONAL only with the attach counter 0; it restarts the modem only when the incremented counter passes 5 (timeout) or reaches 5 (failed connect); otherwise it stays and restarts its timer |
| GprsLink.AttachFailuresAccumulateAcrossRestarts | src/GPRSManager.cpp:460-470 | once the attach counter has reached the ceiling, every failed `gprsConnect` restarts the modem |
| GprsLink.OperationalProbe | src/GPRSManager.cpp:499-514 | OPERATIONAL probes only after the check interval, restarting its timer, and leaves for CONNECTION_LOST exactly when attachment or registration is lost |
| GprsLink.TimedStates | src/GPRSManager.cpp:516-565 | CONNECTION_LOST goes straight to RECONNECTING; RECONNECTING waits its delay and then goes to INIT_ATTACH_GPRS; ERROR_MODEM_FAIL returns to DISABLED after the recovery timeout |
| GprsLink.StateChangeStampsTime | src/GPRSManager.cpp:105-125 | every poll that changes the state stamps the transition time with the current time |
| GprsUrl.Find | src/GPRSManager.cpp:638-639 | `strchr` gives -1 or the first index of the character at or after the start |
| GprsUrl.HostEnd | src/GPRSManager.cpp:642-648 | the host ends at the first `/` or `:`, whichever comes first, else at the end of the URL |
| GprsUrl.SplitUrlShape | src/GPRSManager.cpp:631-688 | a successful split has a host and a path below 257 characters, a path that starts with `/`, and a host with neither `/` nor `:` |
| GprsUrl.NoSchemeRefused | src/GPRSManager.cpp:631-635 | a URL without `://` is refused |
| GprsUrl.SplitComposed | src/GPRSManager.cpp:631-688 | splitting scheme://host[:port][/path] refuses a host or a path of 257 characters or more (:652-655, :669-672); otherwise it gives back the host, the explicit port (else 443 for https and 80 otherwise) and the path, or `/` when there is none (:675-677) |
| GprsUrl.FindFirst | src/GPRSManager.cpp:638-639 | `Find` returns an occurrence when no earlier one exists |
| GprsRequest.WriteEnd | src/GPRSManager.cpp:778-815 | one `snprintf` from an offset inside the buffer stores nothing past it; from an offset past it, the wrapped size lets the whole piece through |
| GprsRequest.FillCheckedInBounds | src/GPRSManager.cpp:778-815 | printing that stops at the first piece that does not fit never stores outside the 512 bytes, and overflows exactly when the pieces do not fit |
| GprsRequest.OverrunExample | src/GPRSManager.cpp:778-815 | as written, a GET with a 256-character host and path stores the User-Agent piece past the end of the buffer |
| GprsRequest.OverrunUrlAccepted | src/GPRSManager.cpp:631-688 | the URL of that request passes the URL split |
| GprsRequest.AssembleSpec | src/GPRSManager.cpp:778-815 | a request is sent exactly when headers and payload fit together; what is sent is the headers followed by the payload, below 512 bytes |
| GprsRequest.HeadersShape | src/GPRSManager.cpp:778-805 | the headers start with "<verb> <path> HTTP/1.1" and end with the blank line |
| GprsResponse.ScanHeadersSpec | src/GPRSManager.cpp:838-904 | the header loop consumes a prefix of the bytes and stops at the first blank line or the size limit; a buffer still waiting holds no blank line and is shorter than the limit |
| GprsResponse.HeadBodyEmpty | src/GPRSManager.cpp:882-901 | the loop stops at the first blank line, so the body starts with nothing read |
| GprsResponse.StatusLineRoundTrip | src/GPRSManager.cpp:852-863 | a status line `<version> <code> <reason>` gives its code back |
| GprsResponse.ReadBodySpec | src/GPRSManager.cpp:925-936 | the body loop keeps as many bytes as fit below 1024 and counts exactly the bytes kept |
| GprsResponse.SizeLine | src/GPRSManager.cpp:944-946 | a size line ends at the first line break at or after its start |
| GprsResponse.NegativeChunkBodyComplete | src/GPRSManager.cpp:940 | a body with a one-byte chunk and then a size line of -6 holds the end marker, so it is handed to the decoder |
| GprsResponse.NegativeChunkLoopsForever | src/GPRSManager.cpp:939-956 | as written, the chunk loop never stops on such a body, however many turns it is given |
| GprsResponse.NextChunk | src/GPRSManager.cpp:939-956 | corrected loop: every turn that goes on moves strictly forward |
| GprsResponse.CorrectionOnlyForNegativeSizes | src/GPRSManager.cpp:947-952 | the correction differs from the code only where the size line reads a negative size |
| GprsResponse.DechunkAccSpec | src/GPRSManager.cpp:939-956 | carrying the data gathered so far only puts it in front of what the rest of the loop decodes |
| GprsResponse.DechunkEncode | src/GPRSManager.cpp:939-956 | decoding a chunked encoding gives the chunks' data back and reports the body complete |
| GprsResponse.EncodedBodyHasEndMarker | src/GPRSManager.cpp:940 | every encoding with data ends with the end marker that the body state looks for |
| GprsResponse.EncodedBodyIsDecoded | src/GPRSManager.cpp:939-956 | a complete chunked body is decoded to its data |
| GprsHttp.StopIfOpen | src/GPRSManager.cpp:1023 | after `if (connected()) stop()` the client is closed |
| GprsHttp.BodyCheck | src/GPRSManager.cpp:938-966 | a complete body keeps its fields except the buffer, and an incomplete one changes nothing |
| GprsHttp.StartRequestSpec | src/GPRSManager.cpp:612-709 | a request starts exactly when none is active, the link is OPERATIONAL and the URL splits; then retries and response fields are cleared, the state is CLIENT_CONNECT, and the invariant holds |
| GprsHttp.InactiveUnchanged | src/GPRSManager.cpp:712-714 | without an active operation a poll changes nothing and sends nothing |
| GprsHttp.FrozenWhileLinkDown | src/GPRSManager.cpp:716-724 | while the link is down, an unsettled request goes to ERROR with its client stopped and stays active; the next poll changes nothing |
| GprsHttp.OverallTimeout | src/GPRSManager.cpp:729-735 | past 60 s every state except IDLE, COMPLETE and ERROR runs the ERROR handler in the same poll |
| GprsHttp.ErrorRetryRule | src/GPRSManager.cpp:1034-1052 | ERROR retries only a retryable status with retries below 3 (counter + 1, start field = now + 5 s); otherwise it ends IDLE and inactive |
| GprsHttp.EarlyRetryPollSpendsRetry | src/GPRSManager.cpp:729-1067 | a poll before the retry deadline sees a wrapped elapsed time, so the request goes through ERROR again and spends a retry or ends |
| GprsHttp.RetryAfterDelay | src/GPRSManager.cpp:1053-1067 | a poll at or after the deadline, within the timeout, clears the response and connects again with the same retry count |
| GprsHttp.ProcessingOutcome | src/GPRSManager.cpp:989-1026 | PROCESSING_RESPONSE completes exactly on a 2xx status with no callback, or a body that parses and is accepted; otherwise it goes to ERROR |
| GprsHttp.SendOutcome | src/GPRSManager.cpp:770-830 | a request that fits is written whole (headers, then payload); it waits for headers only after a full write; a short write reports the link lost; a request that does not fit is never written |
| GprsHttp.HeadersOutcome | src/GPRSManager.cpp:848-903 | at the blank line: an unreadable or zero status is an error; a 2xx without length or chunking goes to processing; any other status reads the body from empty |
| GprsHttp.TakeHeadOutcome | src/GPRSManager.cpp:882-901 | a parsed head stores its status, length and chunking and starts the body empty; status 0 ends in ERROR with the client stopped; a 2xx with nothing to read goes to PROCESSING_RESPONSE; anything else to BODY_RECEIVING with a fresh timer |
| GprsHttp.ChunkedBodyDecoded | src/GPRSManager.cpp:939-970 | a complete chunked body in one piece moves on to processing with the decoded data in the buffer |
| GprsHttp.PlainBodyByLength | src/GPRSManager.cpp:961-970 | a plain body with a length is complete once that many bytes have been read |
| GprsHttp.PollKeepsInv | src/GPRSManager.cpp:711-1075 | every poll keeps the invariant: active exactly when not IDLE, at most 3 retries, header buffer without a blank line and below 1024, body buffer equal to the bytes read and below 1024 |
| Gprs.ReadHeaderBytes | src/GPRSManager.cpp:838-904 | the byte-by-byte header loop yields `ScanHeaders` |
| Gprs.ReadBodyBytes | src/GPRSManager.cpp:925-936 | the byte-by-byte body loop yields `ReadBody` |
| Gprs.DechunkLoop | src/GPRSManager.cpp:939-956 | the chunk loop yields the corrected decoder's result `Dechunk` |
| Gprs.GprsManager.constructor | src/GPRSManager.cpp:34-67 | DISABLED with counters 0, HTTP IDLE and inactive with the response fields cleared, client closed, invariant holding |
| Gprs.GprsManager.SetAuthToken | src/GPRSManager.cpp:75-77 | only the token changes |
| Gprs.GprsManager.TransitionToState | src/GPRSManager.cpp:105-125 | a real change stamps the time; it zeroes the reconnect counter unless entering RECONNECTING, and the reset and attach counters on INIT_START; it copies state and time into the record; the current state is a no-op |
| Gprs.GprsManager.Connect | src/GPRSManager.cpp:80-92 | starts the machine from DISABLED and returns true in every state |
| Gprs.GprsManager.Disconnect | src/GPRSManager.cpp:94-101 | no field changes: the manager still reports OPERATIONAL until its next probe |
| Gprs.GprsManager.UpdateFsm | src/GPRSManager.cpp:131-183 | the link follows `Poll` and keeps its invariant; the record gets the signal quality, the connected flag from before the poll and any state change; the HTTP fields are untouched |
| Gprs.GprsManager.StartAsyncHttpRequest | src/GPRSManager.cpp:612-709 | the request fields follow `StartRequest`, and the result says whether it started |
| Gprs.GprsManager.UpdateHttpOperations | src/GPRSManager.cpp:711-1075 | the request, client, link and bytes sent follow `HttpPoll`; both invariants are kept |
| Gprs.GprsManager.RunHandler | src/GPRSManager.cpp:741-1074 | the state switch follows `Dispatch` |
| Gprs.GprsManager.OpenClient | src/GPRSManager.cpp:746-768 | CLIENT_CONNECT follows `ConnectStep`, with a lost link entering CONNECTION_LOST through the transition |
| Gprs.GprsManager.SendRequest | src/GPRSManager.cpp:770-830 | SENDING_REQUEST follows `SendStep` and returns the bytes written |
| Gprs.GprsManager.ReceiveHeaders | src/GPRSManager.cpp:832-917 | HEADERS_RECEIVING follows `HeadersStep` |
| Gprs.GprsManager.CheckHeaderWait | src/GPRSManager.cpp:907-916 | after the header loop: header timeout, or the peer's close |
| Gprs.GprsManager.TakeHeaders | src/GPRSManager.cpp:848-903 | the blank line has arrived: `HeadersDone` on the header text |
| Gprs.GprsManager.AcceptHead | src/GPRSManager.cpp:865-901 | a status was found: `TakeHead` decides the next state |
| Gprs.GprsManager.CheckBody | src/GPRSManager.cpp:938-966 | the completion check follows `BodyCheck`, decoding a chunked body in place |
| Gprs.GprsManager.ReceiveBody | src/GPRSManager.cpp:919-987 | BODY_RECEIVING follows `BodyStep` |
| Gprs.GprsManager.ProcessResponse | src/GPRSManager.cpp:989-1026 | PROCESSING_RESPONSE follows `ProcessStep` |
| Gprs.GprsManager.HandleError | src/GPRSManager.cpp:1034-1052 | ERROR follows `ErrorStep` |
| Gprs.GprsManager.WaitForRetry | src/GPRSManager.cpp:1053-1067 | RETRY_WAIT follows `RetryStep` |
| Wifi.WifiStartSpec | src/WiFiManager.cpp:127-160 | a request starts exactly when none is active and the radio is associated; then status and retries are 0, the state is BEGIN_REQUEST, and the invariant holds |
| Wifi.WifiInactiveOrIdle | src/WiFiManager.cpp:162-181 | with no active operation nothing changes; an active operation found IDLE is only marked inactive |
| Wifi.WifiOverallTimeout | src/WiFiManager.cpp:168-173 | in every state, past 30 s the ERROR handler runs in the same poll and nothing is sent |
| Wifi.CompleteEndsEitherWay | src/WiFiManager.cpp:268-273 | a completed operation ends IDLE and inactive at its next poll, timeout or not |
| Wifi.BeginHeaders | src/WiFiManager.cpp:183-203 | Authorization only with needsAuth and a token; Content-Type only for a non-empty POST/PUT/PATCH payload; a failed begin is an error |
| Wifi.SendOutcome | src/WiFiManager.cpp:205-227 | only GET and POST are sent; a positive code is processed, a negative code is an error, 0 leaves the state |
| Wifi.WifiProcessingOutcome | src/WiFiManager.cpp:229-254 | the client is always ended; COMPLETE exactly on 2xx with no callback, or a body that parses and is accepted; otherwise ERROR |
| Wifi.WifiErrorRetryRule | src/WiFiManager.cpp:275-297 | a retryable status with retries below 3 waits (counter + 1, deadline now + 5 s); otherwise the operation ends IDLE and inactive |
| Wifi.WifiEarlyRetryPollSpendsRetry | src/WiFiManager.cpp:168-297 | a poll before the deadline sees a wrapped elapsed time, goes through ERROR again and spends a retry or ends |
| Wifi.WifiRetryAfterDelay | src/WiFiManager.cpp:256-266 | a poll at or after the deadline goes back to BEGIN_REQUEST with the status cleared |
| Wifi.WifiPollKeepsInv | src/WiFiManager.cpp:162-306 | every poll keeps the invariant; in particular retries never exceed 3 |
| Wifi.WifiManager.constructor | src/WiFiManager.cpp:7-20 | credentials and token stored; not associated, no operation active, IDLE with status 0 |
| Wifi.WifiManager.SetCredentials | src/WiFiManager.cpp:28-31 | only the credentials change |
| Wifi.WifiManager.SetAuthToken | src/WiFiManager.cpp:33-35 | only the token changes |
| Wifi.WifiManager.Connect | src/WiFiManager.cpp:38-93 | fails at once with an empty SSID; otherwise succeeds exactly when the network is joined |
| Wifi.WifiManager.Disconnect | src/WiFiManager.cpp:95-99 | the radio is no longer associated |
| Wifi.WifiManager.StartAsyncHttpRequest | src/WiFiManager.cpp:127-160 | the request follows `WifiStart` |
| Wifi.WifiManager.UpdateHttpOperations | src/WiFiManager.cpp:162-306 | the request, the headers added and the client's end follow `WifiPoll`; the invariant is kept |
| Wifi.WifiManager.RunHandler | src/WiFiManager.cpp:177-304 | the state switch follows `WifiDispatch` |
| Wifi.WifiManager.BeginHttp | src/WiFiManager.cpp:183-203 | BEGIN_REQUEST follows `BeginStep` |
| Wifi.WifiManager.SendHttp | src/WiFiManager.cpp:205-227 | SENDING_REQUEST follows `SendStep` |
| Wifi.WifiManager.ProcessResponse | src/WiFiManager.cpp:229-254 | PROCESSING_RESPONSE follows `ProcessStep` |
| Wifi.WifiManager.HandleError | src/WiFiManager.cpp:275-297 | ERROR follows `ErrorStep` |
| Facade.ChooseSpec | src/NetworkFacade.cpp:81-112 | never names a missing manager; ONLY never names the other; PREFERRED names a manager when one exists, a connected one when one is connected, and the preferred one when it is connected or the other is not |
| Facade.PreferredMirror | src/NetworkFacade.cpp:81-112 | GPRS_PREFERRED is WIFI_PREFERRED with the roles of the managers swapped |
| Facade.ConnectedAfterDetermine | src/NetworkFacade.cpp:192-210 | once the interface is determined, the facade is connected exactly when a manager its preference allows is connected |
| Facade.ConnectOutcome | src/NetworkFacade.cpp:130-164 | ONLY connects just its manager; PREFERRED falls back to the other after taking a connected preferred one down; GPRS_PREFERRED never touches WiFi when GPRS exists; WIFI_PREFERRED then reports success |
| Facade.ConnectSuccessIsNotConnection | src/NetworkFacade.cpp:143-160 | with GPRS only and its machine DISABLED, `connect` reports success while the facade is not connected |
| Facade.ConnectKeepsInv | src/NetworkFacade.cpp:130-164 | `connect` keeps the invariant and changes neither request nor token |
| Facade.DisconnectOutcome | src/NetworkFacade.cpp:172-184 | after `disconnect` WiFi is down, GPRS is unchanged, and the facade reports connected exactly when GPRS was OPERATIONAL |
| Facade.ForwardToActive | src/NetworkFacade.cpp:236-242 | a forwarded request starts only on the active, connected, free interface; the other manager is untouched |
| Facade.StartForwardsToActive | src/NetworkFacade.cpp:218-243 | a started request goes to exactly the active manager, and a connected facade is not reconnected |
| Facade.GprsOnlyRefusesUntilOperational | src/NetworkFacade.cpp:218-243 | with GPRS only and the link not OPERATIONAL, the request is refused although the implicit connect reports success |
| Facade.UpdateOnlyActive | src/NetworkFacade.cpp:251-262 | only the active manager's request advances; the other's snapshot is unchanged; the invariant is kept |
| Facade.SwitchToWifiOutcome | src/NetworkFacade.cpp:313-344 | refused without WiFi; after success under GPRS_PREFERRED with GPRS OPERATIONAL, GPRS stays active; under GPRS_ONLY WiFi never becomes active |
| Facade.SwitchToGprsOutcome | src/NetworkFacade.cpp:346-371 | with GPRS present it always succeeds and WiFi ends down; under WIFI_ONLY WiFi stays active, so the facade is not connected |
| Facade.PreferenceOutcome | src/NetworkFacade.cpp:385-399 | `getPreference` returns what `setPreference` stored, and the managers are untouched |
| Facade.NetworkFacade.constructor | src/NetworkFacade.cpp:11-47 | the managers are stored and the active interface is determined |
| Facade.NetworkFacade.DetermineActiveInterface | src/NetworkFacade.cpp:81-112 | the active interface becomes `Determine` of the snapshot |
| Facade.NetworkFacade.Connect | src/NetworkFacade.cpp:130-164 | result and new snapshot follow `ConnectStep` |
| Facade.NetworkFacade.Disconnect | src/NetworkFacade.cpp:172-184 | the snapshot follows `DisconnectStep` |
| Facade.NetworkFacade.StartAsyncHttpRequest | src/NetworkFacade.cpp:218-243 | result and new snapshot follow `StartStep` |
| Facade.NetworkFacade.UpdateHttpOperations | src/NetworkFacade.cpp:251-262 | the snapshot follows `UpdateStep` |
| Facade.NetworkFacade.SwitchToWifi | src/NetworkFacade.cpp:313-344 | result and new snapshot follow `SwitchWifiStep` |
| Facade.NetworkFacade.SwitchToGprs | src/NetworkFacade.cpp:346-371 | result and new snapshot follow `SwitchGprsStep` |
| Facade.NetworkFacade.SetPreference | src/NetworkFacade.cpp:393-399 | the preference is stored, `getPreference` returns it, and the interface is determined again |
| NvsStore.Preferences.constructor | src/DeviceConfig.cpp:202-204 | a namespace that is not open, with the given entries and faults |
| NvsStore.Preferences.Begin | src/DeviceConfig.cpp:74 | each `begin` call succeeds exactly when the flash opens the namespace on that call (its own answer, so two calls may differ), and then the namespace is open; the entries are unchanged |
| NvsStore.Preferences.PutInt | src/DeviceConfig.cpp:238 | a write on an open namespace stores the value unless the key is refused, and reports which |
| NvsStore.Preferences.PutString | src/DeviceConfig.cpp:248-268 | the same for a string |
| NvsStore.Preferences.Remove | src/DeviceConfig.cpp:312-319 | a remove on an open namespace deletes the key and reports whether it was there; a closed one changes nothing |
| NvsStore.Preferences.End | src/DeviceConfig.cpp:192 | the namespace is closed and the entries are kept |
| Config.UrlsForValidId | src/DeviceConfig.cpp:17-49 | for ids 1 and 2 each API URL is its base + "?gh_id=" + id, the world-time URL is the constant, and the two ids' URLs differ |
| Config.LoadGhIdOutcome | src/DeviceConfig.cpp:87-105 | the id is the stored one when 1 or 2, else 1; it is written back exactly when the namespace opened and the stored id was missing or invalid |
| Config.LoadTextOutcome | src/DeviceConfig.cpp:109-169 | a string is the stored one when non-empty and shorter than its buffer, else the default, written back exactly when the namespace opened |
| Config.LoadOutcome | src/DeviceConfig.cpp:73-194 | the four settings as above, with that greenhouse's defaults; nothing is written when the namespace does not open |
| Config.LoadEstablishesInv | src/DeviceConfig.cpp:73-194 | loading establishes the configuration invariant: valid id, strings fit their buffers, GPRS settings from firmware, URLs matching the id |
| Config.SaveOutcome | src/DeviceConfig.cpp:218-282 | an invalid id or a namespace that does not open changes nothing; otherwise the settings are replaced (truncated) even if a write fails; the result is whether all four writes succeeded; the invariant is kept |
| Config.SaveThenLoad | src/DeviceConfig.cpp:218-282 | after a successful save of fitting strings, the next load reads back exactly the saved settings |
| Config.ResetGivesDefaults | src/DeviceConfig.cpp:300-329 | for each pair of answers to the two `begin` calls (the reset's own at :301, the reload's at :74): the GH1 defaults are in memory unless only the reload opens; a cleared namespace loses the deprecated keys; when both open each writable key holds its default; when only the clear opens the six keys are just removed; when neither opens nothing changes |
| Config.FailedClearKeepsStoredSettings | src/DeviceConfig.cpp:300-329 | when the reset's own `begin` fails and the reload's succeeds, valid stored settings (for example greenhouse 2) are read back unchanged and nothing is written, so the reset does not reach the defaults |
| Config.DeviceConfig.constructor | src/DeviceConfig.cpp:202-204 | the configuration is loaded as `LoadSpec` says |
| Config.DeviceConfig.ConstructApiUrls | src/DeviceConfig.cpp:17-49 | the URLs become `UrlsFor` of the id; the settings are unchanged |
| Config.DeviceConfig.LoadTextSetting | src/DeviceConfig.cpp:109-169 | one string setting and its write-back follow `LoadText` |
| Config.DeviceConfig.LoadConfigFromNvsOrDefaults | src/DeviceConfig.cpp:73-194 | settings and entries follow `LoadSpec`, the namespace ends closed, and the invariant holds |
| Config.DeviceConfig.StoreSettings | src/DeviceConfig.cpp:233-281 | the four writes and their conjunction follow `SaveWrites` |
| Config.DeviceConfig.SaveConfig | src/DeviceConfig.cpp:218-282 | result, settings, URLs and entries follow `SaveSpec`; the GPRS settings are untouched; the invariant is kept |
| Config.DeviceConfig.FactoryResetConfig | src/DeviceConfig.cpp:300-329 | settings and entries follow `ResetSpec` for the answers to its two `begin` calls, so `ResetGivesDefaults` and `FailedClearKeepsStoredSettings` apply to it; the invariant holds and the namespace is left closed |
| Relays.UpdateOutcome | src/RelayController.cpp:36-86 | out-of-range indices change nothing; an unexpired override sets its target; otherwise the override is cleared, humidity decides relays 0-1 and temperature relay 2; true exactly when the state changed |
| Relays.UpdateKeepsPins | src/RelayController.cpp:76-85 | pins that followed their relays (LOW for ON) still do after an update |
| Relays.OverrideOutcome | src/RelayController.cpp:96-107 | an override whose end does not wrap takes effect at once and holds against any sensors until its end; a zero duration leaves the relay OFF with no override |
| Relays.OverrideLostAcrossWrap | src/RelayController.cpp:43-48 | an override whose end passes the 32-bit wrap ends at once, because the comparison ignores the wrap |
| Relays.SetThenGet | src/RelayController.cpp:125-152 | after `setState`, `getState` reports the state set and no override remains; indices outside 0..3 change nothing and read false |
| Relays.SafeOutcome | src/RelayController.cpp:109-119 | after `forceSafeState` every relay is OFF, no override is active, and pins that followed their relays are HIGH |
| Relays.RelayController.constructor | src/RelayController.cpp:8-17 | four relays OFF and three overrides inactive |
| Relays.RelayController.Begin | src/RelayController.cpp:19-34 | every pin is written HIGH and every relay is OFF |
| Relays.RelayController.UpdateSingleRelayState | src/RelayController.cpp:36-86 | result and new state follow `UpdateRelays` |
| Relays.RelayController.AutomaticState | src/RelayController.cpp:53-71 | the automatic target is `AutoTarget`: humidity below 0, or temperature below -40, is OFF; otherwise ON iff outside the thresholds |
| Relays.RelayController.EnsureRelay4Off | src/RelayController.cpp:88-94 | relay 4 follows `Relay4OffStep` |
| Relays.RelayController.SetManualOverride | src/RelayController.cpp:96-107 | state follows `OverrideStep` |
| Relays.RelayController.ForceSafeState | src/RelayController.cpp:109-119 | state follows `SafeStep` |
| Relays.RelayController.SetState | src/RelayController.cpp:125-145 | state follows `SetStateStep` |
| Sensing.StoredReadingOutcome | src/SensorDataManager.cpp:32-37 | a reading is kept exactly when plausible (or already the sentinel); stored values are plausible or the sentinel; the sentinels are not plausible; storing is idempotent |
| Sensing.SentinelsSwitchRelaysOff | src/RelayController.cpp:53-71 | a relay decided from a stored humidity or temperature sentinel is OFF, whatever the thresholds |
| Sensing.SensorDataManager.constructor | src/SensorDataManager.cpp:4-10 | sentinels -99.9/-1/-1 and thresholds 25-30, 60-80, 500-5000, which satisfy their own checks |
| Sensing.SensorDataManager.UpdateThresholds | src/SensorDataManager.cpp:12-30 | each pair is replaced exactly when it passes its own check, independently; readings are untouched; the checks stay satisfied |
| Sensing.SensorDataManager.UpdateData | src/SensorDataManager.cpp:32-37 | each reading is stored when plausible, else its sentinel; thresholds are untouched |
| Portal.ProcessorOutcome | src/ConfigPortalManager.cpp:23-30 | SSID and TOKEN are filled in, PASS is always empty, exactly the stored id's option is "selected", anything else is empty, and nothing depends on the password |
| Portal.RootPageIgnoresPassword | src/ConfigPortalManager.cpp:62-70 | the page served is the same whatever password is stored |
| Portal.ReplaceAfterPrefix | src/ConfigPortalManager.cpp:62-70 | the left-to-right pass of `replace` (used when the replacement is not longer than the pattern) keeps a prefix without the pattern, replaces the first occurrence after it, and goes on in the rest |
| Portal.PasswordPlaceholderEmptied | src/ConfigPortalManager.cpp:62-70 | `replace` of `%PASS%` by the empty processor value runs left to right: wherever `%PASS%` first occurs in the page being built, it is replaced by nothing and replacing goes on after it |
| Portal.NotFoundOutcome | src/ConfigPortalManager.cpp:32-60 | 302 exactly for a host other than the access point's address that holds a dot or is `localhost`, pointing at the access point when its address fits the 32-character buffer; for every host that is not redirected (the access point's address, or a dotless name such as `myhost`), 204 exactly when the URI holds a probe path, and 404 for the rest |
| Portal.SaveFormOutcome | src/ConfigPortalManager.cpp:72-115 | a missing SSID, token or id, or an id other than 1 or 2, gets 400 and changes nothing; an accepted form stores the fields, and an empty password keeps the stored one |
| Portal.SaveFormThenLoad | src/ConfigPortalManager.cpp:72-115 | after a fully successful save through the form, the next load reads back the submitted settings |
| Portal.ConfigPortal.constructor | src/ConfigPortalManager.cpp:13-16 | the configuration and facade are stored |
| Portal.ConfigPortal.HandleSave | src/ConfigPortalManager.cpp:72-115 | the configuration follows `SaveForm`; only after a successful save with a facade do its WiFi manager get credentials and token and its GPRS manager the token |
| Portal.ConfigPortal.HandOver | src/ConfigPortalManager.cpp:97-105 | WiFi credentials and token, and the GPRS token, are set; nothing else in the managers changes |
| Portal.ConfigPortal.HandleFactoryReset | src/ConfigPortalManager.cpp:117-138 | the configuration is reset as `ResetSpec` says for the answers to the two `begin` calls, and 200 is sent |
| Rtc.AdjustOutcome | src/RTCManager.cpp:57-67 | the clock is written only while the chip works and only with an epoch after 2023-01-01 |
| Rtc.TriggerKeepsInterface | src/RTCManager.cpp:127-151 | a time request never changes the preference or the active interface |
| Rtc.SyncNtpOutcome | src/RTCManager.cpp:85-118 | succeeds exactly when the chip works, the active interface is the connected WiFi and NTP answers; otherwise the clock is untouched and a time request starts exactly when the chip works and the facade is connected |
| Rtc.InitialSyncOutcome | src/RTCManager.cpp:42-55 | nothing while disconnected; otherwise the clock is set only from NTP over WiFi, and the interface choice never changes |
| Rtc.BeginOutcome | src/RTCManager.cpp:17-40 | the result and `_rtcOk` say whether the chip answered; a chip that kept power and reports 2023 or later is left alone |
| Rtc.DriftExact | src/RTCManager.cpp:74 | the 32-bit drift is the true distance when the epochs are less than 2^31 s apart |
| Rtc.DriftOutcome | src/RTCManager.cpp:69-83 | synced exactly when the chip works, a valid NTP time is available over WiFi and the drift exceeds the threshold; the clock is then set to the NTP time |
| Rtc.CallbackOutcome | src/RTCManager.cpp:139-150 | a reply without a 32-bit `unixtime` changes nothing; a usable one sets the clock only after 2023-01-01 |
| Rtc.ZeroPadReadsBack | src/RTCManager.cpp:157-158 | a zero-padded field that fits is exactly `width` digits that read back as the number |
| Rtc.FormattedReadsBack | src/RTCManager.cpp:153-163 | "RTC Error" without a working chip; otherwise 19 characters with separators in place, each field reading back as its number |
| Rtc.RtcManager.constructor | src/RTCManager.cpp:9-15 | the chip is not yet known to work and nothing has been written |
| Rtc.RtcManager.AdjustTime | src/RTCManager.cpp:57-67 | the clock follows `Adjust` |
| Rtc.RtcManager.TriggerHttpTimeSync | src/RTCManager.cpp:127-151 | the facade follows `TriggerStep` |
| Rtc.RtcManager.SyncNtp | src/RTCManager.cpp:85-118 | result, clock and facade follow `SyncNtpStep` |
| Rtc.RtcManager.SyncNitz | src/RTCManager.cpp:120-125 | nothing without a working chip; otherwise the HTTP time request |
| Rtc.RtcManager.InitialTimeSync | src/RTCManager.cpp:42-55 | clock and facade follow `InitialSyncStep` |
| Rtc.RtcManager.Begin | src/RTCManager.cpp:17-40 | result, clock and facade follow `BeginStep` |
| Rtc.RtcManager.CheckAndSyncOnDrift | src/RTCManager.cpp:69-83 | result and clock follow `DriftStep` |
| Rtc.RtcManager.TimeCallback | src/RTCManager.cpp:139-150 | result and clock follow `CallbackStep` |

## Left out

- Modem, radio and HTTP client internals are not modelled: TinyGSM calls, GPIO reset pulses, `delay()`, and the `WiFi`/`HTTPClient`/`WiFiClient` libraries. Their answers are parameters (`ModemReplies`, `Answers`, `WifiAnswers`), and the received bytes are a string.
- Each poll reads the clock once (`now`); the firmware reads `millis()` several times within one handler.
- `WiFiManager::connectWiFi` (src/WiFiManager.cpp:38-88) is a blocking loop over `WiFi.status()`. Its outcome is the parameter `joined`.
- JSON parsing (ArduinoJson) and callback bodies are not modelled. A parse is a "parses" flag plus the callback's answer. The world-time reply is an optional `unixtime`.
- `getStatusString` in the three networking files, `gprsStateToString`, `printModemErrorCause`, and `getSignalQuality`/`isModemConnected`/`getIPAddress` are display or modem queries and are left out.
- `getElapsedTimeInCurrentGprsState` is folded into `Clock.Elapsed`.
- Debug output, LCD messages, watchdog resets and `ESP.restart()` are not modelled.
- Plain getters are read as fields and have no member of their own:
  - `getR1`..`getR4` (src/RelayController.cpp:121-124);
  - the threshold getters (src/SensorDataManager.cpp:135-140);
  - `isRtcOk` (src/RTCManager.cpp:165);
  - `getWiFiManager`, `getGPRSManager`, `getCurrentInterface` and `isSafeModeActive` (src/NetworkFacade.cpp:377-421).
- `SensorDataManager::loadFromLog` (SD card I/O), `ConfigPortalManager::startPortal` (blocking web server, DNS and soft-AP loop), and the SD logger and LCD files are not part of this model.
- The destructors are not modelled.
- Readings and thresholds are `real`. NaN and float formatting are not represented.
- `Relays.RelayController.Begin`: the pin levels before `begin` are not modelled.
- The HTML of `CONFIG_PAGE` is not modelled. The page template is a parameter.
- RTClib `DateTime` arithmetic is not modelled. The chip's current epoch and date-time fields are parameters.
- The NTP client, including its timezone offset, is an `NtpReply` parameter.
- Rtc.Drift: `long` subtraction that overflows is undefined behaviour in C++. The model wraps it to 32 bits.
- Portal.PasswordToSave: the password if/else of `handleSave` is expressed as a function of the form and the stored password, not as statement order.
- Preferences/NVS is a map with an open flag and a set of keys whose writes are refused. Whether the flash opens the namespace is an answer given to each `begin` call, so two calls in one operation can differ. Flash wear, namespace size and encoding are not modelled.
- `String::replace` follows the Arduino core's `String` class, which is not part of this model; `Text.StringReplace` states its two passes (left to right when the replacement is not longer than the pattern, otherwise from the right through `lastIndexOf`).
- Text.StringReplace: the branch where the string's buffer cannot grow (allocation failure, string left unchanged) is not modelled.
- Exponential backoff doubling and switch-back scheduling are not part of this model. Only the initial values and ceilings in `DeviceState` are.
- The `default:` branches of the state switches (src/GPRSManager.cpp:177, src/GPRSManager.cpp:1068, src/WiFiManager.cpp:299) are not modelled. Every state has its own case, so they cannot be reached.
- The cellular manager sends requests with the corrected request assembly and decodes with the corrected chunk loop (see Findings). The as-written versions exist beside them only to exhibit the two defects.
- `gprsModemResetCount` and `gprsAttachFailCount` in `DeviceState` are never written by the cellular manager. The model leaves them at their initial values too.

## Findings

| source | as written | input that shows it | evidently intended | confidence | as-written member | corrected member |
|---|---|---|---|---|---|---|
| src/GPRSManager.cpp:778-815 | the request is printed piece by piece with `snprintf(buf + offset, sizeof(buf) - offset, ...)` and `offset +=` the length each piece would have had; once `offset` passes 512 the size wraps to a huge `size_t` and later pieces are written past the buffer; the check that the headers fit comes only after all pieces are printed | GET without auth to `http://` + 256-char host + `/` + 255-char path: request line 271 bytes + Host line 264 bytes = 535, so the User-Agent piece is stored beyond byte 512 | stop printing (and refuse the request) as soon as a piece does not fit | not executed | GprsRequest.OverrunExample | GprsRequest.FillCheckedInBounds |
| src/GPRSManager.cpp:939-956 | a chunk size read with `strtol` may be negative; `chunkDataEnd = chunkDataStart + size` is then before the start, `String::substring` swaps the bounds, and the loop sets its position back to where it started | a chunked body beginning `1\r\nX\r\n-6\r\n` followed by the end marker: the second turn returns to the same size line for ever | treat a negative size as a malformed body and stop, so every turn moves forward | not executed | GprsResponse.NegativeChunkLoopsForever | GprsResponse.EncodedBodyIsDecoded |
