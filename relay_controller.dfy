/**
 * `RelayController`: four relays driven through active-low pins, three of them under
 * automatic humidity or temperature control with a timed manual override each.  The
 * class keeps the logical states, the overrides and the pin levels in arrays updated in
 * place; every method is proved to follow a step function over `RelayView`, the
 * arrays' contents, and the lemmas are about those step functions.  Sensor values and
 * thresholds are `real` (the firmware's `float` without NaN).
 */
module Relays {
  import opened Clock

  /** `_states` has four entries, the override arrays three. */
  const RELAY_COUNT: nat := 4
  const OVERRIDE_COUNT: nat := 3

  /** One entry each of `_manualOverrideActive`, `_manualOverrideTargetState` and `_manualOverrideEndTime`. */
  datatype Override = Override(active: bool, target: bool, end: Millis)

  /** The arguments of `updateSingleRelayState` after the index. */
  datatype Sensors = Sensors(humidity: real, humidityMin: real, humidityMax: real,
                             temp: real, tempMin: real, tempMax: real)

  /** The logical states, the overrides and the pin levels (`true` for HIGH). */
  datatype RelayView = RelayView(states: seq<bool>, overrides: seq<Override>, levels: seq<bool>)

  predicate WellSized(v: RelayView)
  {
    |v.states| == RELAY_COUNT && |v.overrides| == OVERRIDE_COUNT && |v.levels| == RELAY_COUNT
  }

  /** Every pin is LOW exactly when its relay is ON (the relays are active-low). */
  predicate PinsFollow(v: RelayView)
    requires WellSized(v)
  {
    forall j :: 0 <= j < RELAY_COUNT ==> v.levels[j] == !v.states[j]
  }

  // ----- updateSingleRelayState -----

  /**
   * The automatic rule: relays 0 and 1 follow humidity, relay 2 temperature; a reading
   * below the sensor's error floor (0 % or -40 degrees) turns the relay OFF, otherwise it
   * is ON exactly when the reading is outside the comfortable range.
   */
  function AutoTarget(i: int, s: Sensors, current: bool): bool
  {
    if i == 0 || i == 1 then
      if s.humidity < 0.0 then false else s.humidity < s.humidityMin || s.humidity > s.humidityMax
    else if i == 2 then
      if s.temp < -40.0 then false else s.temp < s.tempMin || s.temp > s.tempMax
    else current
  }

  /**
   * One relay's decision: an override follows its target while `now` is below its end
   * time; otherwise an active override is cleared and the automatic rule decides.
   */
  function RelayStep(i: int, state: bool, o: Override, s: Sensors, now: Millis): (bool, Override)
  {
    if o.active && now < o.end then (o.target, o)
    else (AutoTarget(i, s, state), o.(active := false))
  }

  /**
   * `updateSingleRelayState`: indices outside 0..2 change nothing and report false;
   * otherwise the relay takes its decision, and its pin is written (LOW for ON) and true
   * returned exactly when the state changed.
   */
  function UpdateRelays(v: RelayView, i: int, s: Sensors, now: Millis): (bool, RelayView)
    requires WellSized(v)
  {
    if i < 0 || i > 2 then (false, v)
    else
      var (state, o) := RelayStep(i, v.states[i], v.overrides[i], s, now);
      var changed := state != v.states[i];
      (changed, RelayView(v.states[i := state], v.overrides[i := o],
                          if changed then v.levels[i := !state] else v.levels))
  }

  /**
   * The rules `updateSingleRelayState` applies: out-of-range indices change nothing; an
   * unexpired override sets the relay to its target whatever the sensors say; otherwise
   * the override is cleared and humidity (relays 0, 1) or temperature (relay 2) decide;
   * the result is true exactly when the relay's state changed; no other relay changes,
   * and pins that followed their relays still do.
   */
  lemma UpdateOutcome(v: RelayView, i: int, s: Sensors, now: Millis)
    requires WellSized(v)
    ensures var (changed, v') := UpdateRelays(v, i, s, now);
      WellSized(v') && (PinsFollow(v) ==> PinsFollow(v')) &&
      (i < 0 || i > 2 ==> !changed && v' == v) &&
      (0 <= i <= 2 ==>
        (changed <==> v'.states[i] != v.states[i]) &&
        (forall j :: 0 <= j < RELAY_COUNT && j != i ==> v'.states[j] == v.states[j]) &&
        (forall j :: 0 <= j < OVERRIDE_COUNT && j != i ==> v'.overrides[j] == v.overrides[j]) &&
        (v.overrides[i].active && now < v.overrides[i].end ==>
          v'.states[i] == v.overrides[i].target && v'.overrides[i] == v.overrides[i]) &&
        (!(v.overrides[i].active && now < v.overrides[i].end) ==>
          !v'.overrides[i].active &&
          (i <= 1 ==> v'.states[i] == (s.humidity >= 0.0 && (s.humidity < s.humidityMin || s.humidity > s.humidityMax))) &&
          (i == 2 ==> v'.states[i] == (s.temp >= -40.0 && (s.temp < s.tempMin || s.temp > s.tempMax)))))
  {
  }

  lemma UpdateKeepsPins(v: RelayView, i: int, s: Sensors, now: Millis)
    requires WellSized(v)
    ensures WellSized(UpdateRelays(v, i, s, now).1)
    ensures PinsFollow(v) ==> PinsFollow(UpdateRelays(v, i, s, now).1)
  {
  }

  // ----- setManualOverride -----

  /**
   * `setManualOverride`: indices outside 0..2 are ignored; otherwise the override is
   * recorded with end time `now + duration` (32-bit) and applied at once by an update
   * whose sensor arguments are all 0.
   */
  function OverrideStep(v: RelayView, i: int, desired: bool, duration: Millis, now: Millis): RelayView
    requires WellSized(v)
  {
    if i < 0 || i > 2 then v
    else
      var v1 := v.(overrides := v.overrides[i := Override(true, desired, Add(now, duration))]);
      UpdateRelays(v1, i, Sensors(0.0, 0.0, 0.0, 0.0, 0.0, 0.0), now).1
  }

  /**
   * An override whose end does not pass the 32-bit wrap takes effect at once and holds:
   * every update before its end keeps the relay at the target, whatever the sensors.
   * A zero duration, instead, leaves the relay OFF with no override (all-zero readings
   * are inside the range 0..0).
   */
  lemma OverrideOutcome(v: RelayView, i: int, desired: bool, duration: Millis, now: Millis,
                        s: Sensors, later: Millis)
    requires WellSized(v) && 0 <= i <= 2
    ensures var v' := OverrideStep(v, i, desired, duration, now);
      WellSized(v') &&
      (0 < duration && now + duration < WRAP ==>
        v'.states[i] == desired && v'.overrides[i] == Override(true, desired, now + duration) &&
        (later < now + duration ==> UpdateRelays(v', i, s, later).1.states[i] == desired)) &&
      (duration == 0 ==> !v'.states[i] && !v'.overrides[i].active)
  {
  }

  /**
   * The end time is compared without regard to wrap-around: an override set less than
   * `duration` before the 32-bit counter wraps ends at once, and the relay is decided by
   * the all-zero readings (OFF).
   */
  lemma OverrideLostAcrossWrap(v: RelayView, i: int, desired: bool, duration: Millis, now: Millis)
    requires WellSized(v) && 0 <= i <= 2
    requires now + duration >= WRAP
    ensures var v' := OverrideStep(v, i, desired, duration, now);
      !v'.overrides[i].active && !v'.states[i]
  {
  }

  // ----- setState, getState, ensureRelay4Off, forceSafeState -----

  /**
   * `setState`: indices outside 0..3 are ignored; an override on relays 0..2 is cancelled;
   * the state and pin are written only when the state differs.
   */
  function SetStateStep(v: RelayView, i: int, state: bool): RelayView
    requires WellSized(v)
  {
    if i < 0 || i >= 4 then v
    else
      var v1 := if i < 3 && v.overrides[i].active then v.(overrides := v.overrides[i := v.overrides[i].(active := false)]) else v;
      if v1.states[i] != state then v1.(states := v1.states[i := state], levels := v1.levels[i := !state]) else v1
  }

  /** `getState`: OFF for an index outside 0..3. */
  function StateOf(v: RelayView, i: int): bool
    requires WellSized(v)
  {
    if i < 0 || i >= 4 then false else v.states[i]
  }

  /** After `setState`, `getState` reports the state set, and no override remains on that relay. */
  lemma SetThenGet(v: RelayView, i: int, state: bool)
    requires WellSized(v)
    ensures var v' := SetStateStep(v, i, state);
      WellSized(v') && (PinsFollow(v) ==> PinsFollow(v')) &&
      (0 <= i < 4 ==> StateOf(v', i) == state && (i < 3 ==> !v'.overrides[i].active)) &&
      (forall j :: 0 <= j < RELAY_COUNT && j != i ==> v'.states[j] == v.states[j]) &&
      (i < 0 || i >= 4 ==> v' == v && !StateOf(v', i))
  {
  }

  /** `ensureRelay4Off`: relay 3 is switched OFF (pin HIGH) if it is ON. */
  function Relay4OffStep(v: RelayView): RelayView
    requires WellSized(v)
  {
    if v.states[3] then v.(states := v.states[3 := false], levels := v.levels[3 := true]) else v
  }

  /**
   * `forceSafeState`: every override of relays 0..2 is cancelled (targets and end times
   * kept), every relay that is ON is switched OFF with its pin HIGH, relay 3 included.
   */
  function SafeStep(v: RelayView): RelayView
    requires WellSized(v)
  {
    RelayView(seq(RELAY_COUNT, j => false),
              seq(OVERRIDE_COUNT, j requires 0 <= j < OVERRIDE_COUNT => v.overrides[j].(active := false)),
              seq(RELAY_COUNT, j requires 0 <= j < RELAY_COUNT => v.states[j] || v.levels[j]))
  }

  /** After `forceSafeState` every relay is OFF, no override is active, and pins that followed their relays are all HIGH. */
  lemma SafeOutcome(v: RelayView)
    requires WellSized(v)
    ensures var v' := SafeStep(v);
      WellSized(v') &&
      (forall j :: 0 <= j < RELAY_COUNT ==> !StateOf(v', j)) &&
      (forall j :: 0 <= j < OVERRIDE_COUNT ==> !v'.overrides[j].active) &&
      (PinsFollow(v) ==> PinsFollow(v') && forall j :: 0 <= j < RELAY_COUNT ==> v'.levels[j])
  {
  }

  // ----- The controller -----

  class RelayController {
    /** `_states`. */
    const states: array<bool>
    /** `_manualOverrideActive`, `_manualOverrideTargetState` and `_manualOverrideEndTime`, slot by slot. */
    const overrides: array<Override>
    /** The level last written to each relay pin (`true` for HIGH). */
    const levels: array<bool>
    /** Whether `begin` has configured the pins. */
    var begun: bool

    function View(): RelayView
      reads this, states, overrides, levels
    {
      RelayView(states[..], overrides[..], levels[..])
    }

    /** The arrays have their sizes, and once the pins are configured each pin follows its relay. */
    predicate Valid()
      reads this, states, overrides, levels
    {
      states.Length == RELAY_COUNT && overrides.Length == OVERRIDE_COUNT && levels.Length == RELAY_COUNT &&
      states != levels && (begun ==> PinsFollow(View()))
    }

    /** The constructor: all relays OFF, no override active, end times 0; pins not yet configured. */
    constructor ()
      ensures Valid() && !begun && fresh(states) && fresh(overrides) && fresh(levels)
      ensures states[..] == [false, false, false, false]
      ensures overrides[..] == [Override(false, false, 0), Override(false, false, 0), Override(false, false, 0)]
    {
      states := new bool[RELAY_COUNT](j => false);
      overrides := new Override[OVERRIDE_COUNT](j => Override(false, false, 0));
      levels := new bool[RELAY_COUNT](j => true);
      begun := false;
      new;
      assert states[..] == [false, false, false, false];
      assert overrides[..] == [Override(false, false, 0), Override(false, false, 0), Override(false, false, 0)];
    }

    /** `begin`: every pin is written HIGH and every relay is OFF. */
    method Begin()
      requires Valid()
      modifies this, states, levels
      ensures Valid() && begun
      ensures forall j :: 0 <= j < RELAY_COUNT ==> !states[j] && levels[j]
      ensures overrides[..] == old(overrides[..])
    {
      for k := 0 to RELAY_COUNT
        invariant forall j :: 0 <= j < k ==> !states[j] && levels[j]
      {
        levels[k] := true;
        states[k] := false;
      }
      begun := true;
    }

    method UpdateSingleRelayState(i: int, humidity: real, humidityMin: real, humidityMax: real,
                                  temp: real, tempMin: real, tempMax: real, now: Millis) returns (changed: bool)
      requires Valid()
      modifies states, overrides, levels
      ensures (changed, View()) == UpdateRelays(old(View()), i, Sensors(humidity, humidityMin, humidityMax, temp, tempMin, tempMax), now)
      ensures Valid()
    {
      ghost var sensors := Sensors(humidity, humidityMin, humidityMax, temp, tempMin, tempMax);
      UpdateKeepsPins(View(), i, sensors, now);
      if i < 0 || i > 2 {
        return false;
      }
      var target := states[i];
      if overrides[i].active && now < overrides[i].end {
        target := overrides[i].target;
      } else {
        if overrides[i].active {
          overrides[i] := overrides[i].(active := false);
        }
        target := AutomaticState(i, humidity, humidityMin, humidityMax, temp, tempMin, tempMax, target);
      }
      assert (target, overrides[i]) == RelayStep(i, old(states[i]), old(overrides[i]), sensors, now);
      assert overrides[..] == old(overrides[..])[i := overrides[i]];
      if states[i] != target {
        states[i] := target;
        levels[i] := !target;
        changed := true;
      } else {
        assert states[..] == old(states[..])[i := target];
        changed := false;
      }
    }

    /** The `switch` on the relay index inside `updateSingleRelayState`. */
    static method AutomaticState(i: int, humidity: real, humidityMin: real, humidityMax: real,
                                 temp: real, tempMin: real, tempMax: real, current: bool) returns (target: bool)
      ensures target == AutoTarget(i, Sensors(humidity, humidityMin, humidityMax, temp, tempMin, tempMax), current)
    {
      target := current;
      if i == 0 || i == 1 {
        if humidity < 0.0 {
          target := false;
        } else {
          target := humidity < humidityMin || humidity > humidityMax;
        }
      } else if i == 2 {
        if temp < -40.0 {
          target := false;
        } else {
          target := temp < tempMin || temp > tempMax;
        }
      }
    }

    method EnsureRelay4Off()
      requires Valid()
      modifies states, levels
      ensures View() == Relay4OffStep(old(View()))
      ensures Valid()
    {
      if states[3] {
        levels[3] := true;
        states[3] := false;
      }
    }

    method SetManualOverride(i: int, desired: bool, duration: Millis, now: Millis)
      requires Valid()
      modifies states, overrides, levels
      ensures View() == OverrideStep(old(View()), i, desired, duration, now)
      ensures Valid()
    {
      if i < 0 || i > 2 {
        return;
      }
      overrides[i] := Override(true, desired, Add(now, duration));
      var _ := UpdateSingleRelayState(i, 0.0, 0.0, 0.0, 0.0, 0.0, 0.0, now);
    }

    method ForceSafeState()
      requires Valid()
      modifies states, overrides, levels
      ensures View() == SafeStep(old(View()))
      ensures Valid()
    {
      for k := 0 to OVERRIDE_COUNT
        invariant states[3] == old(states[3]) && levels[3] == old(levels[3])
        invariant forall j :: 0 <= j < k ==> !states[j] && levels[j] == (old(states[j]) || old(levels[j]))
        invariant forall j :: k <= j < RELAY_COUNT ==> states[j] == old(states[j]) && levels[j] == old(levels[j])
        invariant forall j :: 0 <= j < k ==> overrides[j] == old(overrides[j]).(active := false)
        invariant forall j :: k <= j < OVERRIDE_COUNT ==> overrides[j] == old(overrides[j])
      {
        overrides[k] := overrides[k].(active := false);
        if states[k] {
          levels[k] := true;
          states[k] := false;
        }
      }
      EnsureRelay4Off();
      SafeOutcome(old(View()));
    }

    method SetState(i: int, state: bool)
      requires Valid()
      modifies states, overrides, levels
      ensures View() == SetStateStep(old(View()), i, state)
      ensures Valid()
    {
      SetThenGet(View(), i, state);
      if i < 0 || i >= 4 {
        return;
      }
      if i < 3 && overrides[i].active {
        overrides[i] := overrides[i].(active := false);
      }
      if states[i] != state {
        states[i] := state;
        levels[i] := !state;
      }
    }

    /** `getState`. */
    function GetState(i: int): bool
      requires Valid()
      reads this, states, overrides, levels
    {
      StateOf(View(), i)
    }
  }
}
