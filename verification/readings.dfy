/** One sensor reading and the per-reading sanitising done inside the POST
    handler (atlas-iot-go/src/atlas-iot.go:72-84, 119-140): clamp an
    impossible temperature, clamp an impossible humidity, then compute the
    four derived values when the post-clamp values pass the guard. */
module Readings {
  import opened Wrappers
  import opened Meteo
  import opened Truncation

  /** The exported fields of a reading: the ones the JSON decoder fills and
      the database stores. Go's float32 fields are modelled as reals. */
  datatype Reading = Reading(
    sensor: string,
    humidity: real,
    temperature: real,
    heatIndex: real,
    dewPoint: real,
    pressure: real,
    altitude: real)

  /** The four unexported derived fields `dp`, `ps`, `pa` and `hi`, each
      truncated to two decimals. */
  datatype Derived = Derived(
    dewPoint: Float,
    satPressure: Float,
    actualPressure: Float,
    heatIndex: real)

  /** A relative humidity that is physically possible. */
  predicate HumidityInRange(h: real) {
    0.0 <= h <= 100.0
  }

  /** A reading as it stands after both clamps. */
  predicate Sane(r: Reading) {
    HumidityInRange(r.humidity) && AbsoluteZero <= r.temperature
  }

  /** Everything but humidity, temperature and the two sentinel fields is
      carried through. */
  predicate SamePassThrough(r: Reading, s: Reading) {
    r.sensor == s.sensor && r.pressure == s.pressure && r.altitude == s.altitude
  }

  /** First clamp: a temperature below absolute zero becomes absolute zero,
      and the dew point and heat index become the sentinel. */
  function ClampTemperature(r: Reading): (c: Reading)
    ensures AbsoluteZero <= c.temperature
    ensures c.humidity == r.humidity && SamePassThrough(r, c)
    ensures r.temperature < AbsoluteZero ==>
      c.temperature == AbsoluteZero && c.dewPoint == AbsoluteZero && c.heatIndex == AbsoluteZero
    ensures AbsoluteZero <= r.temperature ==> c == r
  {
    if r.temperature < AbsoluteZero then
      r.(temperature := AbsoluteZero, dewPoint := AbsoluteZero, heatIndex := AbsoluteZero)
    else
      r
  }

  /** Second clamp: a humidity outside [0, 100] becomes 0, and the dew point
      and heat index become the sentinel. */
  function ClampHumidity(r: Reading): (c: Reading)
    ensures HumidityInRange(c.humidity)
    ensures c.temperature == r.temperature && SamePassThrough(r, c)
    ensures !HumidityInRange(r.humidity) ==>
      c.humidity == 0.0 && c.dewPoint == AbsoluteZero && c.heatIndex == AbsoluteZero
    ensures HumidityInRange(r.humidity) ==> c == r
  {
    if r.humidity < 0.0 || r.humidity > 100.0 then
      r.(humidity := 0.0, dewPoint := AbsoluteZero, heatIndex := AbsoluteZero)
    else
      r
  }

  /** The guard of the derive branch, read on the post-clamp values. The
      temperature comparison is strict, and on a clamped reading the
      humidity half of the test can no longer fail. */
  function DeriveGuard(r: Reading): (b: bool)
    ensures Sane(r) ==> (b <==> r.temperature > AbsoluteZero)
    ensures r.temperature == AbsoluteZero ==> !b
  {
    r.humidity >= 0.0 && r.temperature > AbsoluteZero
  }

  /** The four derived values of the derive branch, each truncated. */
  function Derive(m: Transcendentals, t: real, h: real): (d: Derived)
    ensures d.heatIndex == Trunc2(HeatIndex(t, h))
    ensures d.dewPoint.Finite? <==> DewPoint(m, t, h).Finite?
    ensures d.dewPoint.Finite? ==> TruncatedFrom(d.dewPoint.value, DewPoint(m, t, h).value)
    ensures d.satPressure.Finite? <==> SatPressure(m, t, h).Finite?
    ensures d.satPressure.Finite? ==> TruncatedFrom(d.satPressure.value, SatPressure(m, t, h).value)
    ensures d.actualPressure.Finite? <==> ActualPressure(m, t, h).Finite?
    ensures d.actualPressure.Finite? ==> TruncatedFrom(d.actualPressure.value, ActualPressure(m, t, h).value)
  {
    Derived(Trunc2F(DewPoint(m, t, h)), Trunc2F(SatPressure(m, t, h)),
            Trunc2F(ActualPressure(m, t, h)), Trunc2(HeatIndex(t, h)))
  }

  /** Truncation of a double result; a non-finite value stays non-finite. */
  function Trunc2F(x: Float): (r: Float)
    ensures r.Finite? <==> x.Finite?
    ensures r.Finite? ==> TruncatedFrom(r.value, x.value)
  {
    match x
    case Finite(v) => Finite(Trunc2(v))
    case NonFinite => NonFinite
  }

  /** One iteration of the handler's loop: the state of the local copy of a
      reading at the end of the iteration, and the derived values it holds
      (`None` when the derive branch was skipped). */
  function Normalize(m: Transcendentals, r: Reading): (out: (Reading, Option<Derived>))
    ensures Sane(out.0) && SamePassThrough(r, out.0)
    ensures out.0.temperature == if r.temperature < AbsoluteZero then AbsoluteZero else r.temperature
    ensures out.0.humidity == if HumidityInRange(r.humidity) then r.humidity else 0.0
    ensures r.temperature < AbsoluteZero || !HumidityInRange(r.humidity) ==>
      out.0.dewPoint == AbsoluteZero && out.0.heatIndex == AbsoluteZero
    ensures AbsoluteZero <= r.temperature && HumidityInRange(r.humidity) ==> out.0 == r
    ensures out.1.Some? <==> r.temperature > AbsoluteZero
    ensures out.1.Some? ==> out.1.value == Derive(m, r.temperature, out.0.humidity)
  {
    var c := ClampHumidity(ClampTemperature(r));
    (c, if DeriveGuard(c) then Some(Derive(m, c.temperature, c.humidity)) else None)
  }

  /** A reading whose temperature is at, or was clamped to, absolute zero
      never gets derived values. */
  lemma NoDerivedAtAbsoluteZero(m: Transcendentals, r: Reading)
    ensures r.temperature <= AbsoluteZero ==> Normalize(m, r).1 == None
    ensures Normalize(m, r).0.temperature == AbsoluteZero ==> Normalize(m, r).1 == None
  {
  }

  /** A reading whose humidity was clamped but whose temperature is above
      absolute zero still enters the derive branch, with humidity 0: its dew
      point is then the logarithm of zero, not a number. */
  lemma ClampedHumidityStillDerives(m: Transcendentals, r: Reading)
    requires !HumidityInRange(r.humidity)
    requires r.temperature > AbsoluteZero
    ensures Normalize(m, r).1.Some?
    ensures Normalize(m, r).0.humidity == 0.0
    ensures Normalize(m, r).0.dewPoint == AbsoluteZero
    ensures Normalize(m, r).1.value.dewPoint == NonFinite
    ensures C + r.temperature != 0.0 ==> Normalize(m, r).1.value.actualPressure == Finite(0.0)
  {
    var t := r.temperature;
    assert Log(m, 0.0 / 100.0) == NonFinite;
    if C + t != 0.0 {
      assert ActualPressure(m, t, 0.0) == Finite(0.0);
    }
  }

  /** A physically valid reading, humidity 0 included, gets all four
      derived values, and the two pressures are finite (the only exception
      in the real-number model is the pole of `b*t/(c+t)` at t = -c). The
      dew point is finite for a positive humidity above -c degrees, but an
      in-range humidity of exactly 0 yields the logarithm of zero. */
  lemma ValidReadingIsEnriched(m: Transcendentals, r: Reading)
    requires HumidityInRange(r.humidity)
    requires AbsoluteZero < r.temperature
    requires C + r.temperature != 0.0
    ensures Normalize(m, r).0 == r
    ensures Normalize(m, r).1.Some?
    ensures Normalize(m, r).1.value.satPressure.Finite?
    ensures Normalize(m, r).1.value.actualPressure.Finite?
    ensures Normalize(m, r).1.value.heatIndex == Trunc2(HeatIndex(r.temperature, r.humidity))
    ensures LnNonPositiveToOne(m) && 0.0 < r.humidity && 0.0 < C + r.temperature ==>
      Normalize(m, r).1.value.dewPoint.Finite?
    ensures r.humidity == 0.0 ==> Normalize(m, r).1.value.dewPoint == NonFinite
  {
    if LnNonPositiveToOne(m) && 0.0 < r.humidity && 0.0 < C + r.temperature {
      DewPointFiniteInRange(m, r.temperature, r.humidity);
    }
    if r.humidity == 0.0 {
      DewPointAtZeroHumidity(m, r.temperature);
    }
  }

  /** Normalising a normalised reading changes nothing: neither the stored
      fields nor the derived values. */
  lemma NormalizeIdempotent(m: Transcendentals, r: Reading)
    ensures Normalize(m, Normalize(m, r).0) == Normalize(m, r)
  {
  }

  /** The clamps leave a reading alone exactly when it is already sane. */
  lemma NormalizeFixesExactlySane(m: Transcendentals, r: Reading)
    ensures Normalize(m, r).0 == r <==> Sane(r)
  {
  }
}
