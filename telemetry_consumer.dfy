/**
 * horizon-service `TelemetryConsumer.consume`: an incoming reading gets healthy defaults for
 * missing SNR and MSE, its health index at age 2 and its day-based RUL against the cable's
 * previous health, and is appended to the store. No alert is raised on this path.
 */
module TelemetryConsumer {
  import opened Common
  import opened Telemetry
  import opened RulService

  /** Age in years assumed for every cable. */
  const DefaultAgeYears: int := 2

  /** Days between two readings, as in the simulation tick. */
  const StepDays: int := 5

  /** A stored sample whose health is the index of its own readings at the default age. */
  ghost predicate Consistent(s: Sample)
  {
    s.health == CalculateHealth(s.attenuation, s.temperature, s.load, s.snr, s.mse, DefaultAgeYears)
  }

  /** The previous health: the latest stored one, or 100 for a cable seen for the first time. */
  function PreviousHealth(latest: Option<Sample>): (h: real)
    ensures latest.None? ==> h == 100.0
    ensures latest.Some? ==> h == latest.value.health
  {
    match latest
    case Some(s) => s.health
    case None => 100.0
  }

  /**
   * The record as stored: identity, attenuation, temperature and load as received; a zero SNR
   * read as 30 and a zero MSE as 0.01; health, RUL and both timestamps filled in.
   */
  function Enriched(telemetry: Sample, latest: Option<Sample>, now: int): (s: Sample)
    ensures s.cableId == telemetry.cableId
    ensures s.attenuation == telemetry.attenuation && s.temperature == telemetry.temperature
    ensures s.load == telemetry.load
    ensures s.snr == (if telemetry.snr == 0.0 then 30.0 else telemetry.snr)
    ensures s.mse == (if telemetry.mse == 0.0 then 0.01 else telemetry.mse)
    ensures Consistent(s) && 0.0 <= s.health <= 100.0
    ensures s.rulInDays == CalculateRulDays(s.health, PreviousHealth(latest), StepDays) && s.rulInDays >= 0.0
    ensures s.timestamp == now && s.lastSeen == now
  {
    var snr := if telemetry.snr == 0.0 then 30.0 else telemetry.snr;
    var mse := if telemetry.mse == 0.0 then 0.01 else telemetry.mse;
    var health := CalculateHealth(telemetry.attenuation, telemetry.temperature, telemetry.load, snr, mse, DefaultAgeYears);
    telemetry.(snr := snr, mse := mse, health := health,
               rulInDays := CalculateRulDays(health, PreviousHealth(latest), StepDays),
               timestamp := now, lastSeen := now)
  }

  /**
   * A cable's first reading is measured against a previous health of 100: below 100 it counts
   * as a decline over one step, at 100 it gets the nominal lifespan.
   */
  lemma FirstReadingAgainstFullHealth(telemetry: Sample, now: int)
    ensures var s := Enriched(telemetry, None, now);
            0.0 < s.health < 100.0 ==> s.rulInDays == s.health * 5.0 / (100.0 - s.health)
    ensures var s := Enriched(telemetry, None, now);
            s.health == 100.0 ==> s.rulInDays == DemoLifespanDays
  {
  }

  /** `consume`: one record appended to the cable's history, stamped with the store's clock. */
  method Consume(repository: TelemetryStore, telemetry: Sample)
    requires repository.Valid()
    modifies repository
    ensures repository.Valid()
    ensures repository.samples
            == Appended(old(repository.samples),
                        Enriched(telemetry, LatestOf(old(repository.samples), telemetry.cableId), old(repository.clock)))
    ensures repository.clock == old(repository.clock) + 1
  {
    var lastRecord := LatestOf(repository.samples, telemetry.cableId);
    var prevHealth := PreviousHealth(lastRecord);
    var record := telemetry;
    if record.snr == 0.0 {
      record := record.(snr := 30.0);
    }
    if record.mse == 0.0 {
      record := record.(mse := 0.01);
    }
    var currentHealth := CalculateHealth(record.attenuation, record.temperature, record.load, record.snr, record.mse,
                                         DefaultAgeYears);
    var rulDays := CalculateRulDays(currentHealth, prevHealth, StepDays);
    record := record.(health := currentHealth, rulInDays := rulDays,
                      timestamp := repository.clock, lastSeen := repository.clock);
    repository.Save(record);
  }
}
