/**
 * `SensorDataManager`: the latest temperature, humidity and light readings and the
 * three threshold pairs the relay logic compares them with.  Readings outside their
 * plausible range are replaced by a sentinel; a threshold pair is replaced only when
 * the new pair passes its own check.  Values are `real` (the firmware's `float`
 * without NaN).
 */
module Sensing {
  import Relays

  /** The "no valid reading" sentinels. */
  const TEMP_INVALID: real := -99.9
  const HUMIDITY_INVALID: real := -1.0
  const LIGHT_INVALID: real := -1.0

  /** The plausibility ranges `updateData` accepts. */
  predicate TempPlausible(t: real) { -40.0 < t < 100.0 }
  predicate HumidityPlausible(h: real) { 0.0 <= h <= 100.0 }
  predicate LightPlausible(l: real) { 0.0 <= l < 100000.0 }

  /** What `updateData` stores for a reading: the reading itself when plausible, else the sentinel. */
  function StoredTemp(t: real): real { if TempPlausible(t) then t else TEMP_INVALID }
  function StoredHumidity(h: real): real { if HumidityPlausible(h) then h else HUMIDITY_INVALID }
  function StoredLight(l: real): real { if LightPlausible(l) then l else LIGHT_INVALID }

  /** The checks `updateThresholds` applies to each pair. */
  predicate TempPairAccepted(lo: real, hi: real) { lo < 80.0 && hi > -20.0 && lo <= hi }
  predicate HumidityPairAccepted(lo: real, hi: real) { lo >= 0.0 && hi <= 100.0 && lo <= hi }
  predicate LightPairAccepted(lo: real, hi: real) { lo >= 0.0 && hi > 0.0 && lo <= hi }

  /**
   * A reading is kept exactly when it is plausible or already the sentinel, a stored
   * reading is either plausible or the sentinel, the sentinel itself is never plausible,
   * and storing a stored value again changes nothing.
   */
  lemma StoredReadingOutcome(t: real, h: real, l: real)
    ensures StoredTemp(t) == t <==> TempPlausible(t) || t == TEMP_INVALID
    ensures StoredHumidity(h) == h <==> HumidityPlausible(h) || h == HUMIDITY_INVALID
    ensures StoredLight(l) == l <==> LightPlausible(l) || l == LIGHT_INVALID
    ensures TempPlausible(StoredTemp(t)) || StoredTemp(t) == TEMP_INVALID
    ensures HumidityPlausible(StoredHumidity(h)) || StoredHumidity(h) == HUMIDITY_INVALID
    ensures LightPlausible(StoredLight(l)) || StoredLight(l) == LIGHT_INVALID
    ensures !TempPlausible(TEMP_INVALID) && !HumidityPlausible(HUMIDITY_INVALID) && !LightPlausible(LIGHT_INVALID)
    ensures StoredTemp(StoredTemp(t)) == StoredTemp(t)
    ensures StoredHumidity(StoredHumidity(h)) == StoredHumidity(h)
    ensures StoredLight(StoredLight(l)) == StoredLight(l)
  {
  }

  /**
   * The relay rules read the humidity and temperature sentinels as sensor errors: a
   * relay decided automatically from a stored humidity or temperature that was not
   * plausible is OFF, whatever the thresholds.
   */
  lemma SentinelsSwitchRelaysOff(i: int, t: real, h: real, s: Relays.Sensors, current: bool)
    requires 0 <= i <= 2
    requires i <= 1 ==> s.humidity == StoredHumidity(h) && !HumidityPlausible(h)
    requires i == 2 ==> s.temp == StoredTemp(t) && !TempPlausible(t)
    ensures !Relays.AutoTarget(i, s, current)
  {
  }

  class SensorDataManager {
    var temperature: real
    var humidity: real
    var light: real
    var tempMin: real
    var tempMax: real
    var humMin: real
    var humMax: real
    var lightMin: real
    var lightMax: real

    /** Every threshold pair satisfies the check `updateThresholds` applies to it. */
    predicate Valid()
      reads this
    {
      TempPairAccepted(tempMin, tempMax) && HumidityPairAccepted(humMin, humMax) &&
      LightPairAccepted(lightMin, lightMax)
    }

    /** The readings start at their sentinels, the thresholds at 25-30, 60-80 and 500-5000. */
    constructor ()
      ensures Valid()
      ensures temperature == TEMP_INVALID && humidity == HUMIDITY_INVALID && light == LIGHT_INVALID
      ensures tempMin == 25.0 && tempMax == 30.0 && humMin == 60.0 && humMax == 80.0
      ensures lightMin == 500.0 && lightMax == 5000.0
    {
      temperature, humidity, light := TEMP_INVALID, HUMIDITY_INVALID, LIGHT_INVALID;
      tempMin, tempMax := 25.0, 30.0;
      humMin, humMax := 60.0, 80.0;
      lightMin, lightMax := 500.0, 5000.0;
    }

    /**
     * Each pair is replaced exactly when it passes its own check, independently of the
     * other two, so the thresholds keep satisfying their checks; the readings are untouched.
     */
    method UpdateThresholds(tMin: real, tMax: real, hMin: real, hMax: real, lMin: real, lMax: real)
      modifies this
      ensures (tempMin, tempMax) == if TempPairAccepted(tMin, tMax) then (tMin, tMax) else old((tempMin, tempMax))
      ensures (humMin, humMax) == if HumidityPairAccepted(hMin, hMax) then (hMin, hMax) else old((humMin, humMax))
      ensures (lightMin, lightMax) == if LightPairAccepted(lMin, lMax) then (lMin, lMax) else old((lightMin, lightMax))
      ensures (temperature, humidity, light) == old((temperature, humidity, light))
      ensures old(Valid()) ==> Valid()
    {
      if tMin < 80.0 && tMax > -20.0 && tMin <= tMax {
        tempMin, tempMax := tMin, tMax;
      }
      if hMin >= 0.0 && hMax <= 100.0 && hMin <= hMax {
        humMin, humMax := hMin, hMax;
      }
      if lMin >= 0.0 && lMax > 0.0 && lMin <= lMax {
        lightMin, lightMax := lMin, lMax;
      }
    }

    /** Each reading is stored when plausible and replaced by its sentinel otherwise; the thresholds are untouched. */
    method UpdateData(temp: real, hum: real, lgt: real)
      modifies this
      ensures temperature == StoredTemp(temp) && humidity == StoredHumidity(hum) && light == StoredLight(lgt)
      ensures (tempMin, tempMax, humMin, humMax, lightMin, lightMax) ==
              old((tempMin, tempMax, humMin, humMax, lightMin, lightMax))
    {
      if temp > -40.0 && temp < 100.0 {
        temperature := temp;
      } else {
        temperature := TEMP_INVALID;
      }
      if hum >= 0.0 && hum <= 100.0 {
        humidity := hum;
      } else {
        humidity := HUMIDITY_INVALID;
      }
      if lgt >= 0.0 && lgt < 100000.0 {
        light := lgt;
      } else {
        light := LIGHT_INVALID;
      }
    }
  }
}
