/**
 * The legacy `topology` `RulService`: an unclamped linear health formula and a remaining
 * useful life in minutes, extrapolated from the two newest readings of a cable towards a
 * failure threshold of 40, with −1 meaning "cannot predict".
 */
module LegacyRulService {
  import opened LegacyTelemetry

  const FailureThreshold: real := 40.0

  /** The cable age both legacy callers pass to `calculateHealth`. */
  const DefaultAgeYears: int := 2

  /** The value `calculateRUL` returns when it cannot predict a failure point. */
  const NoPrediction: real := -1.0

  /** `calculateHealth`: 100 less weighted attenuation, temperature, load and age; never clamped. */
  function CalculateHealth(attenuation: real, temp: real, load: real, ageYears: int): (h: real)
    ensures attenuation >= 0.0 && temp >= 0.0 && load >= 0.0 && ageYears >= 0 ==> h <= 100.0
  {
    100.0 - (2.0 * attenuation) - (1.5 * temp) - (1.2 * load) - (3.0 * (ageYears as real))
  }

  /** More attenuation, heat, load or age never raises the index. */
  lemma HealthMonotonic(a1: real, t1: real, l1: real, y1: int, a2: real, t2: real, l2: real, y2: int)
    requires a1 <= a2 && t1 <= t2 && l1 <= l2 && y1 <= y2
    ensures CalculateHealth(a2, t2, l2, y2) <= CalculateHealth(a1, t1, l1, y1)
  {
  }

  /** Without a clamp every real number is the index of some reading. */
  lemma HealthUnbounded(target: real)
    ensures exists a: real :: CalculateHealth(a, 0.0, 0.0, 0) == target
  {
    var a := (100.0 - target) / 2.0;
    assert CalculateHealth(a, 0.0, 0.0, 0) == target;
  }

  /** An ordinary reading already scores below zero: attenuation 20, 30 degrees, load 10, age 2 gives −3. */
  lemma NegativeHealthExample()
    ensures CalculateHealth(20.0, 30.0, 10.0, 2) == -3.0
  {
  }

  /** `Duration.between(previous, latest).toSeconds()`, with a zero gap read as one second. */
  function SecondsBetween(previous: Reading, latest: Reading): (secs: int)
    ensures latest.timestamp == previous.timestamp ==> secs == 1
    ensures latest.timestamp != previous.timestamp ==> secs == latest.timestamp - previous.timestamp
    ensures previous.timestamp <= latest.timestamp ==> secs >= 1
  {
    var gap := latest.timestamp - previous.timestamp;
    if gap == 0 then 1 else gap
  }

  /**
   * `calculateRUL` on the readings the repository returns (newest first): −1 with fewer than
   * two, 0 at or below the threshold, −1 for a stable or improving index, and otherwise the
   * minutes until a steady decline at the observed rate reaches the threshold.
   */
  function RulOf(records: seq<Reading>): (r: real)
    ensures |records| < 2 ==> r == NoPrediction
    ensures |records| >= 2 && records[0].health <= FailureThreshold ==> r == 0.0
    ensures |records| >= 2 && records[0].health > FailureThreshold && records[1].health <= records[0].health
            ==> r == NoPrediction
    ensures |records| >= 2 && records[0].health > FailureThreshold && records[1].health > records[0].health
            && records[1].timestamp <= records[0].timestamp
            ==> r > 0.0
  {
    if |records| < 2 then NoPrediction
    else
      var latest := records[0];
      var previous := records[1];
      if latest.health <= FailureThreshold then 0.0
      else
        var secsBetween := SecondsBetween(previous, latest);
        var healthDrop := previous.health - latest.health;
        if healthDrop <= 0.0 then NoPrediction
        else
          var degradationPerSec := healthDrop / (secsBetween as real);
          var secondsRemaining := (latest.health - FailureThreshold) / degradationPerSec;
          assert secsBetween > 0 ==> degradationPerSec > 0.0 && secondsRemaining > 0.0;
          secondsRemaining / 60.0
  }

  /** `calculateRUL(cableId)` against the stored history of the cable. */
  function CalculateRul(samples: map<int, seq<Reading>>, cableId: int): real
  {
    RulOf(Top2(HistoryOf(samples, cableId)))
  }

  /**
   * In a decline, the minutes returned are exactly the time a steady loss of (drop / seconds)
   * per second needs to bring the newest index down to the threshold.
   */
  lemma DeclineReachesThreshold(latest: Reading, previous: Reading)
    requires latest.health > FailureThreshold && previous.health > latest.health
    requires previous.timestamp <= latest.timestamp
    ensures var rate := (previous.health - latest.health) / (SecondsBetween(previous, latest) as real);
            latest.health - rate * (RulOf([latest, previous]) * 60.0) == FailureThreshold
  {
    var secs := SecondsBetween(previous, latest) as real;
    var rate := (previous.health - latest.health) / secs;
    assert rate > 0.0;
    var r := RulOf([latest, previous]);
    assert r == ((latest.health - FailureThreshold) / rate) / 60.0;
    assert r * 60.0 == (latest.health - FailureThreshold) / rate;
    assert rate * (r * 60.0) == latest.health - FailureThreshold;
  }

  /**
   * On an ordered history the result is −1 exactly when there is nothing to extrapolate
   * (fewer than two readings, or no decline above the threshold), 0 exactly at or below the
   * threshold, and positive otherwise: it is never another negative number.
   */
  lemma RulCases(samples: map<int, seq<Reading>>, cableId: int)
    requires Ordered(samples)
    ensures var h := HistoryOf(samples, cableId);
            var r := CalculateRul(samples, cableId);
            && (r == NoPrediction <==>
                  (|h| < 2 || (h[|h| - 1].health > FailureThreshold && h[|h| - 2].health <= h[|h| - 1].health)))
            && (r == 0.0 <==> |h| >= 2 && h[|h| - 1].health <= FailureThreshold)
            && (r > 0.0 <==>
                  |h| >= 2 && h[|h| - 1].health > FailureThreshold && h[|h| - 2].health > h[|h| - 1].health)
  {
    var h := HistoryOf(samples, cableId);
    if |h| >= 2 {
      Top2Ordered(samples, cableId);
    }
  }
}
