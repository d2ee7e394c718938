# atlas-iot reading normaliser — a Dafny model

The Go service of atlas-iot accepts an event (sender, event label, version and
a list of environmental readings) over HTTP. It sanitises each reading by
clamping impossible temperatures and humidities. For readings that pass a
guard, it computes dew point, saturated and actual vapour pressure, and heat
index, each truncated to two decimals. It then hands the event to MongoDB.
An event with no readings is rejected with a `nil` response.

This project models that pipeline as pure functions over `real`:

- `Meteo` (meteo.dfy): the constants and the functions `gamma`, `dp`, `ps`,
  `pa`, `hi`. The natural logarithm and the exponential are the fields of a
  `Transcendentals` value, so they stay uninterpreted. A division by zero or
  the logarithm of a non-positive number gives `NonFinite`, which stands for
  IEEE's infinities and NaN.
- `Truncation` (truncation.dfy): Go's `(int)(x*100)/100`, which truncates
  toward zero.
- `Readings` (readings.dfy): the `Reading` record, the two clamps, the
  derive guard and `Normalize`, which is one iteration of the handler loop.
- `Handler` (handler.dfy): the `Event` record, `Enrich` and `InsertRecord`
  (the handler as written), and `EnrichCorrected` and `InsertRecordCorrected`
  (the version that writes the normalised readings back; see Findings).
- `Wrappers` (wrappers.dfy): `Option`.

The decoded request body and the clock value are parameters. The value that
would be passed to `InsertOne` is the result. `None` is the `nil` response.

The model follows the code on three points that are easy to misread:

- The derive guard is `temperature > -273.15`, a strict comparison
  (atlas-iot-go/src/atlas-iot.go:133). It is not `>=`.
- The readings that get stored are the decoded ones, not the clamped ones
  (see Findings).
- Because the humidity clamp always leaves a value in [0, 100], the humidity
  half of the guard is always true over the reals. So a reading gets derived
  values exactly when its original temperature is above -273.15
  (`Readings.Normalize`).

## Model

| member | source | states |
|---|---|---|
| Truncation.TruncateToInt | atlas-iot-go/src/atlas-iot.go:136-139 | Go's float-to-int conversion drops the fraction toward zero: the result lies within 1 of the input and no farther from zero than it |
| Truncation.Trunc2 | atlas-iot-go/src/atlas-iot.go:136-139 | the two-decimal truncation is never larger in magnitude than its input, is within 0.01 of it, keeps its sign and is a whole number of hundredths |
| Truncation.Trunc2Idempotent | atlas-iot-go/src/atlas-iot.go:136-139 | truncating twice gives the same value as truncating once |
| Truncation.Trunc2IsNearestCentTowardZero | atlas-iot-go/src/atlas-iot.go:136-139 | independent characterisation: among the multiples of 0.01 between 0 and x, the result is the one farthest from zero |
| Truncation.Trunc2Examples | atlas-iot-go/src/atlas-iot.go:136-139 | truncation is not rounding: 23.4999 gives 23.49 and -0.019 gives -0.01 |
| Meteo.Quot | atlas-iot-go/src/atlas-iot.go:43-54 | the divisions in the formulas are finite exactly when the divisor is non-zero, and the quotient times the divisor gives back the dividend |
| Meteo.Log | atlas-iot-go/src/atlas-iot.go:43 | `math.Log` gives a finite value exactly on positive arguments |
| Meteo.Gamma | atlas-iot-go/src/atlas-iot.go:42-44 | `gamma(t, h)` is finite exactly when h > 0 and c + t is non-zero |
| Meteo.DewPoint | atlas-iot-go/src/atlas-iot.go:46-50 | `dp` is finite exactly when `gamma` is finite and differs from b |
| Meteo.SatPressure | atlas-iot-go/src/atlas-iot.go:52-55 | `ps` is finite exactly when c + t is non-zero, whatever the humidity |
| Meteo.ActualPressure | atlas-iot-go/src/atlas-iot.go:57-60 | `pa` is finite exactly when `ps` is |
| Meteo.SatPressureIgnoresHumidity | atlas-iot-go/src/atlas-iot.go:53-55 | `ps` does not depend on its humidity argument |
| Meteo.ActualPressureAtHumidityBounds | atlas-iot-go/src/atlas-iot.go:57-60 | `pa(t, 0) = 0` whenever `ps(t)` is finite, and `pa(t, 100) = ps(t)` |
| Meteo.ActualPressureBounded | atlas-iot-go/src/atlas-iot.go:52-60 | for a humidity in [0, 100] and a positive exponential, 0 <= `pa` <= `ps` |
| Meteo.HeatIndex | atlas-iot-go/src/atlas-iot.go:62-67 | the nine-term polynomial reduces to c1 + c2 t + c5 t^2 at zero humidity and to c1 + c3 h + c6 h^2 at zero temperature |
| Meteo.HeatIndexAtOrigin | atlas-iot-go/src/atlas-iot.go:62-67 | `hi(0, 0)` is the constant term c1 |
| Meteo.HeatIndexIsQuadraticInHumidity | atlas-iot-go/src/atlas-iot.go:62-67 | the nine-term polynomial equals a quadratic in humidity whose coefficients are quadratics in temperature |
| Meteo.DewPointSaturates | atlas-iot-go/src/atlas-iot.go:42-50 | if ln 1 = 0, then `gamma` at the dew point and 100% humidity equals `gamma` of the reading, so the dew point is the temperature at which that air saturates |
| Meteo.ActualPressureIsSaturationAtDewPoint | atlas-iot-go/src/atlas-iot.go:42-60 | under the laws of ln and exp, `ps` at the dew point equals `pa` of the reading |
| Meteo.DewPointFiniteInRange | atlas-iot-go/src/atlas-iot.go:42-50 | for 0 < h <= 100 and c + t > 0, and ln not positive on (0, 1], `gamma` stays below b, so `dp` is finite |
| Meteo.DewPointAtZeroHumidity | atlas-iot-go/src/atlas-iot.go:42-50 | at humidity 0, `dp` takes the logarithm of zero and is not finite |
| Readings.ClampTemperature | atlas-iot-go/src/atlas-iot.go:121-125 | a temperature below -273.15 becomes -273.15, together with dew point and heat index; humidity, sensor, pressure and altitude are untouched; a valid reading is unchanged |
| Readings.ClampHumidity | atlas-iot-go/src/atlas-iot.go:127-131 | a humidity outside [0, 100] becomes 0, and dew point and heat index become -273.15; temperature and the pass-through fields are untouched; an in-range reading is unchanged |
| Readings.DeriveGuard | atlas-iot-go/src/atlas-iot.go:133 | the guard is strict on temperature, so a reading at -273.15 fails it; on a clamped reading it holds exactly when the temperature is above -273.15, because the humidity half can no longer fail |
| Readings.Derive | atlas-iot-go/src/atlas-iot.go:134-139 | the heat index is the polynomial truncated; dew point and both pressures are finite exactly when their formula's result is, and then each is that result truncated toward zero to hundredths (within 0.01, same sign, no larger in magnitude) |
| Readings.Trunc2F | atlas-iot-go/src/atlas-iot.go:136-138 | truncating a finite double result lands on hundredths within 0.01 of it, keeps its sign and is never larger in magnitude, so it truncates rather than rounds |
| Readings.Normalize | atlas-iot-go/src/atlas-iot.go:119-140 | after both clamps, humidity is in [0, 100] and temperature >= -273.15, each clamped field is stated in terms of the input, and derived values exist exactly when the original temperature is above -273.15, computed from the clamped humidity |
| Readings.NoDerivedAtAbsoluteZero | atlas-iot-go/src/atlas-iot.go:121-133 | a reading at, or clamped to, -273.15 never gets derived values |
| Readings.ClampedHumidityStillDerives | atlas-iot-go/src/atlas-iot.go:127-139 | a reading whose humidity was clamped but whose temperature is above -273.15 still enters the derive branch with humidity 0; its dew point is non-finite and, off the pole t = -c, its actual vapour pressure is 0 |
| Readings.ValidReadingIsEnriched | atlas-iot-go/src/atlas-iot.go:121-140 | a reading with 0 <= humidity <= 100 and temperature above -273.15 is kept as is and gets derived values; off the pole t = -c both pressures are finite; the heat index is the truncated polynomial; the dew point is finite when humidity > 0, c + t > 0 and ln is not positive on (0, 1], and is non-finite at humidity 0 |
| Readings.NormalizeIdempotent | atlas-iot-go/src/atlas-iot.go:121-140 | normalising an already normalised reading changes neither it nor its derived values |
| Readings.NormalizeFixesExactlySane | atlas-iot-go/src/atlas-iot.go:121-131 | the clamps leave a reading unchanged if and only if its humidity is in [0, 100] and its temperature is at least -273.15 |
| Handler.Enrich | atlas-iot-go/src/atlas-iot.go:111-151 | an event is rejected exactly when it has no readings; otherwise the stored event is the decoded one with only its date replaced by the clock value |
| Handler.InsertRecord | atlas-iot-go/src/atlas-iot.go:111-151 | the handler loop, which normalises a copy of each reading, still passes the decoded readings to the insert unchanged, and rejects an event without readings |
| Handler.ClampLostOnStore | atlas-iot-go/src/atlas-iot.go:120-145 | a reading at -300 degrees is stored at -300 degrees although its normalised copy holds -273.15 |
| Handler.NormalizeAll | atlas-iot-go/src/atlas-iot.go:119-141 | the normalised sequence has one entry per reading, in order, each the normalisation of the reading at that position |
| Handler.EnrichCorrected | atlas-iot-go/src/atlas-iot.go:113-145 | with write-back, the stored event keeps sender, label, version and id and has the clock date; its i-th reading is exactly the normalised i-th input reading with its derived values, hence in range, with the pass-through fields kept and derived values exactly for readings above -273.15 |
| Handler.InsertRecordCorrected | atlas-iot-go/src/atlas-iot.go:116-145 | the loop that writes each normalised copy into a fresh sequence computes exactly the corrected enrichment |
| Handler.WriteBackMattersExactlyOnInsaneReadings | atlas-iot-go/src/atlas-iot.go:119-145 | the code as written and the corrected version store the same readings if and only if every input reading is already in range |
| Handler.EnrichCorrectedIdempotent | atlas-iot-go/src/atlas-iot.go:116-145 | enriching the stored readings again at the same clock value gives the same enriched readings |
| Handler.SingleReadingScenario | atlas-iot-go/src/atlas-iot.go:111-145 | one reading at 20 degrees and 50% from "rpi-1" is accepted unchanged; its heat index truncates to 25.19 and both pressures are finite |

## Left out

- HTTP, logging and persistence: `RequestDump`, the `log.Println` calls for the event and for "Invalid readings", `main`, the JSON decoder, the Mongo client, the insert call and the response encoding. The decoded event and the clock value are inputs. The insert is the output value.
- The values of `math.Log` and `math.Exp`: they are uninterpreted. So `ps(20, 50)` is not given a number, and neither is the dew point of a reading.
- IEEE behaviour: float32 storage, float64 rounding, overflow to infinity, and comparisons with NaN are not modelled. Reals are used throughout. A NaN humidity would fail both range tests and the guard in Go; that case does not arise over the reals.
- Readings.Trunc2F: a non-finite value stays `NonFinite`, whereas Go's conversion of an infinity or NaN to `int` yields an implementation-specific integer. Conversion of a finite value beyond the range of `int` is not modelled either.
- Readings.ValidReadingIsEnriched: a finite dew point is promised only for a positive humidity and a temperature above -c. At humidity 0, the value the decoder gives a reading without a humidity key, the source computes the logarithm of zero and the dew point is not finite (Meteo.DewPointAtZeroHumidity). Between -273.15 and -c degrees `gamma` can reach b, so no promise is made there.
- Meteo.SatPressure: `math.Exp` overflowing to +Inf for large exponents is not modelled; the result is finite whenever c + t is non-zero.
- Meteo.Quot: in Go the float32-to-float64 temperature never makes c + t exactly zero. The `NonFinite` branch at t = -c is an artefact of working over the reals.
- The `D` constant (234.5) and the port constant are declared but feed no formula here.
- atlas-iot-go/src/atlas-iot_test.go expects `ps(20, 50) = 760.0`. The formula at atlas-iot-go/src/atlas-iot.go:53-55 gives about 23.53, which truncates to 23.52, so the test is not carried as a property.
- The older handler atlas-iot-go/atlas-iot.go stores the decoded event without any validation. It is plumbing and is not part of this model.
- The Node application under atlas-iot-node/ (Express routes, controller, Mongoose schema) is not part of this model. Its bounds are enforced by the library, not by visible code.
- Concurrency: each request is handled independently, and the pipeline has no shared state to model.

## Findings

| source | as written | input that shows it | evidently intended | confidence | as-written member | corrected member |
|---|---|---|---|---|---|---|
| atlas-iot-go/src/atlas-iot.go:120-145 | each iteration clamps and derives on `reading := event.Readings[i]`, a copy that is never written back. `event` is inserted as decoded, and the derived fields `dp`, `ps`, `pa` and `hi` are unexported, so they would not be stored even with a write-back | one reading with temperature -300 and humidity 50: it is stored with temperature -300, not -273.15, and with no derived values | store each clamped reading together with its derived values | high, from reading the code; not executed | Handler.InsertRecord, Handler.ClampLostOnStore | Handler.InsertRecordCorrected, Handler.EnrichCorrected |
