/** The POST handler `InsertRecordEndpoint` with its HTTP and database
    plumbing stripped (atlas-iot-go/src/atlas-iot.go:86-94, 105-151). The
    decoded event and the clock reading are inputs; the event handed to the
    insert is the output, and `None` stands for the `nil` response of the
    rejection branch. */
module Handler {
  import opened Wrappers
  import opened Meteo
  import opened Readings
  import Truncation

  /** The server clock, abstracted to a number. */
  type Time = int

  /** The decoded request body; `id` is the optional document identifier. */
  datatype Event = Event(
    id: string,
    sender: string,
    event: string,
    date: Time,
    readings: seq<Reading>,
    version: string)

  /** What the handler stores, as its code stands: the readings go in as
      decoded, because the loop only ever edits a copy of each one. */
  function Enrich(event: Event, now: Time): (stored: Option<Event>)
    ensures stored.None? <==> |event.readings| == 0
    ensures stored.Some? ==>
      && stored.value.readings == event.readings
      && stored.value.date == now
      && stored.value.(date := event.date) == event
  {
    if |event.readings| > 0 then Some(event.(date := now)) else None
  }

  /** The handler's loop as written: each iteration copies a reading,
      clamps and derives on the copy, and drops it. */
  method InsertRecord(m: Transcendentals, event: Event, now: Time) returns (stored: Option<Event>)
    ensures stored.None? <==> |event.readings| == 0
    ensures stored.Some? ==> stored.value.readings == event.readings
    ensures stored.Some? ==> stored.value == event.(date := now)
    ensures stored == Enrich(event, now)
  {
    var e := event.(date := now);
    var n := |e.readings|;
    if n > 0 {
      var i := 0;
      while i < n {
        var reading := e.readings[i];
        var copy := Normalize(m, reading);
        i := i + 1;
      }
      stored := Some(e);
    } else {
      stored := None;
    }
  }

  /** The copy semantics lose the clamp: a reading at -300 degrees is stored
      at -300 degrees although its normalised copy says -273.15. */
  lemma ClampLostOnStore(m: Transcendentals)
    ensures var r := Reading("dht22", 50.0, -300.0, 0.0, 0.0, 0.0, 0.0);
            var e := Event("", "rpi-1", "air", 0, [r], "1");
            && Enrich(e, 7).Some?
            && Enrich(e, 7).value.readings[0].temperature == -300.0
            && Normalize(m, r).0.temperature == AbsoluteZero
  {
  }

  /** A reading as the storage layer should receive it: the normalised
      exported fields together with the derived values, if any. */
  datatype EnrichedReading = EnrichedReading(reading: Reading, derived: Option<Derived>)

  datatype EnrichedEvent = EnrichedEvent(
    id: string,
    sender: string,
    event: string,
    date: Time,
    readings: seq<EnrichedReading>,
    version: string)

  function Enriched(out: (Reading, Option<Derived>)): EnrichedReading {
    EnrichedReading(out.0, out.1)
  }

  /** The readings normalised one by one, in order. */
  function NormalizeAll(m: Transcendentals, rs: seq<Reading>): (out: seq<EnrichedReading>)
    ensures |out| == |rs|
    ensures forall i :: 0 <= i < |rs| ==> out[i] == Enriched(Normalize(m, rs[i]))
  {
    if rs == [] then [] else [Enriched(Normalize(m, rs[0]))] + NormalizeAll(m, rs[1..])
  }

  /** The corrected handler: the clamped copies and their derived values are
      what gets stored. */
  function EnrichCorrected(m: Transcendentals, event: Event, now: Time): (stored: Option<EnrichedEvent>)
    ensures stored.None? <==> |event.readings| == 0
    ensures stored.Some? ==>
      && stored.value.date == now
      && stored.value.sender == event.sender
      && stored.value.event == event.event
      && stored.value.version == event.version
      && stored.value.id == event.id
      && |stored.value.readings| == |event.readings|
      && forall i :: 0 <= i < |event.readings| ==>
           && stored.value.readings[i] == Enriched(Normalize(m, event.readings[i]))
           && Sane(stored.value.readings[i].reading)
           && SamePassThrough(event.readings[i], stored.value.readings[i].reading)
           && (stored.value.readings[i].derived.Some? <==> event.readings[i].temperature > AbsoluteZero)
  {
    if |event.readings| > 0 then
      Some(EnrichedEvent(event.id, event.sender, event.event, now,
                         NormalizeAll(m, event.readings), event.version))
    else
      None
  }

  /** The corrected loop: each normalised copy is written to a fresh
      sequence, one to one with the input. */
  method InsertRecordCorrected(m: Transcendentals, event: Event, now: Time) returns (stored: Option<EnrichedEvent>)
    ensures stored == EnrichCorrected(m, event, now)
  {
    var n := |event.readings|;
    if n == 0 {
      return None;
    }
    var out: seq<EnrichedReading> := [];
    var i := 0;
    while i < n
      invariant 0 <= i <= n
      invariant |out| == i
      invariant forall j :: 0 <= j < i ==> out[j] == Enriched(Normalize(m, event.readings[j]))
    {
      var reading := event.readings[i];
      var copy := Normalize(m, reading);
      out := out + [Enriched(copy)];
      i := i + 1;
    }
    assert out == NormalizeAll(m, event.readings);
    stored := Some(EnrichedEvent(event.id, event.sender, event.event, now, out, event.version));
  }

  /** The code as written and the corrected version store the same readings
      exactly when every input reading is already sane. */
  lemma WriteBackMattersExactlyOnInsaneReadings(m: Transcendentals, event: Event, now: Time)
    requires |event.readings| > 0
    ensures
      (forall i :: 0 <= i < |event.readings| ==>
         EnrichCorrected(m, event, now).value.readings[i].reading == Enrich(event, now).value.readings[i])
      <==> (forall i :: 0 <= i < |event.readings| ==> Sane(event.readings[i]))
  {
    var stored := EnrichCorrected(m, event, now).value;
    forall i | 0 <= i < |event.readings|
      ensures stored.readings[i].reading == event.readings[i] <==> Sane(event.readings[i])
    {
      NormalizeFixesExactlySane(m, event.readings[i]);
    }
  }

  /** Re-enriching the stored readings (at the same clock value) yields the
      same enriched readings. */
  lemma EnrichCorrectedIdempotent(m: Transcendentals, event: Event, now: Time)
    requires |event.readings| > 0
    ensures var once := EnrichCorrected(m, event, now).value;
            var again := event.(readings := seq(|once.readings|, i requires 0 <= i < |once.readings| => once.readings[i].reading));
            EnrichCorrected(m, again, now) == Some(once)
  {
    var once := EnrichCorrected(m, event, now).value;
    var again := event.(readings := seq(|once.readings|, i requires 0 <= i < |once.readings| => once.readings[i].reading));
    var twice := EnrichCorrected(m, again, now).value;
    forall i | 0 <= i < |event.readings|
      ensures twice.readings[i] == once.readings[i]
    {
      assert again.readings[i] == Normalize(m, event.readings[i]).0;
      NormalizeIdempotent(m, event.readings[i]);
    }
    assert twice.readings == once.readings;
  }

  /** One reading at 20 degrees and 50% humidity from device "rpi-1": the
      event is accepted, the reading keeps its values, and its heat index
      truncates to 25.19. */
  lemma SingleReadingScenario(m: Transcendentals, now: Time)
    ensures var r := Reading("", 50.0, 20.0, 0.0, 0.0, 0.0, 0.0);
            var e := Event("", "rpi-1", "", 0, [r], "");
            && Enrich(e, now) == Some(e.(date := now))
            && EnrichCorrected(m, e, now).Some?
            && EnrichCorrected(m, e, now).value.readings[0].reading == r
            && EnrichCorrected(m, e, now).value.readings[0].derived.Some?
            && EnrichCorrected(m, e, now).value.readings[0].derived.value.heatIndex == 25.19
            && EnrichCorrected(m, e, now).value.readings[0].derived.value.satPressure.Finite?
            && EnrichCorrected(m, e, now).value.readings[0].derived.value.actualPressure.Finite?
  {
    var r := Reading("", 50.0, 20.0, 0.0, 0.0, 0.0, 0.0);
    assert HeatIndex(20.0, 50.0) == 25.19491234394;
    assert Truncation.TruncateToInt(2519.491234394) == 2519;
    ValidReadingIsEnriched(m, r);
  }
}
