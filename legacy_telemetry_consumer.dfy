/**
 * The legacy `topology` `TelemetryConsumer.consume`: an incoming reading gets its health from
 * the 4-argument formula at age 2 and the ingestion time as its timestamp, is saved, and only
 * then is the minute RUL computed from the store and the alert check run.
 */
module LegacyTelemetryConsumer {
  import opened Common
  import opened LegacyTelemetry
  import opened LegacyRulService
  import opened LegacyAlertService

  /** The record as saved: health and timestamp filled in, everything else (`lastSeen` too) as received. */
  function Ingested(telemetry: Reading, now: int): (r: Reading)
    ensures r.cableId == telemetry.cableId && r.lastSeen == telemetry.lastSeen
    ensures r.attenuation == telemetry.attenuation && r.temperature == telemetry.temperature
    ensures r.load == telemetry.load && r.timestamp == now
    ensures r.health == CalculateHealth(telemetry.attenuation, telemetry.temperature, telemetry.load, DefaultAgeYears)
  {
    telemetry.(health := CalculateHealth(telemetry.attenuation, telemetry.temperature, telemetry.load, DefaultAgeYears),
               timestamp := now)
  }

  /**
   * Because the reading is saved before the RUL is computed, a cable's first reading has no
   * prediction (−1), and a later one is extrapolated against the reading stored before it.
   */
  lemma RulSeesNewReading(samples: map<int, seq<Reading>>, telemetry: Reading, now: int)
    ensures var r := Ingested(telemetry, now);
            var rul := CalculateRul(Appended(samples, r), telemetry.cableId);
            && (HistoryOf(samples, telemetry.cableId) == [] ==> rul == NoPrediction)
            && (LatestOf(samples, telemetry.cableId).Some? ==>
                  rul == RulOf([r, LatestOf(samples, telemetry.cableId).value]))
  {
    var r := Ingested(telemetry, now);
    var h2 := HistoryOf(Appended(samples, r), telemetry.cableId);
    assert h2 == HistoryOf(samples, telemetry.cableId) + [r];
  }

  /** A first reading is announced exactly when its health is below 70. */
  lemma FirstReadingAlert(samples: map<int, seq<Reading>>, telemetry: Reading, now: int, impact: Option<string>)
    requires HistoryOf(samples, telemetry.cableId) == []
    ensures var r := Ingested(telemetry, now);
            var rul := CalculateRul(Appended(samples, r), telemetry.cableId);
            CheckAndAlert(telemetry.cableId, r.health, rul, impact).Some? <==> r.health < HealthTrigger
  {
    RulSeesNewReading(samples, telemetry, now);
  }

  /**
   * `consume` at wall-clock second `now`: one record appended; the notice written is the
   * alert check on its health and on the RUL of the store that already holds it.
   */
  method Consume(repository: ReadingStore, telemetry: Reading, impact: Option<string>, now: int)
    returns (notice: Option<Notice>)
    requires repository.Valid() && NotAfter(repository.samples, now)
    modifies repository
    ensures repository.Valid() && NotAfter(repository.samples, now)
    ensures repository.samples == Appended(old(repository.samples), Ingested(telemetry, now))
    ensures notice == CheckAndAlert(telemetry.cableId, Ingested(telemetry, now).health,
                                    CalculateRul(repository.samples, telemetry.cableId), impact)
  {
    var health := CalculateHealth(telemetry.attenuation, telemetry.temperature, telemetry.load, DefaultAgeYears);
    var record := telemetry.(health := health, timestamp := now);
    repository.Save(record);
    var rulMinutes := CalculateRul(repository.samples, telemetry.cableId);
    notice := CheckAndAlert(telemetry.cableId, health, rulMinutes, impact);
  }
}
