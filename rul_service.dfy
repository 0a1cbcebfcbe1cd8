/** horizon-service `RulService`: the clamped health index and the day-based remaining useful life. */
module RulService {
  import opened Common

  /** Nominal lifespan returned when health is not declining. */
  const DemoLifespanDays: real := 250.0

  /** The health index before the final clamp: 100 minus one penalty per reading. */
  function RawHealth(attenuation: real, temp: real, load: real, snr: real, mse: real, ageYears: int): real
  {
    var thermal := if temp > 25.0 then (temp - 25.0) * 0.15 else 0.0;
    var signal := if snr < 30.0 then (30.0 - snr) * 0.4 else 0.0;
    100.0 - thermal - attenuation * 2.5 - signal - mse * 20.0 - load * 0.02 - (ageYears as real) * 1.0
  }

  /** `calculateHealth`: the raw index clamped to [0, 100]. */
  function CalculateHealth(attenuation: real, temp: real, load: real, snr: real, mse: real, ageYears: int): (h: real)
    ensures 0.0 <= h <= 100.0
    ensures 0.0 < h < 100.0 ==> h == RawHealth(attenuation, temp, load, snr, mse, ageYears)
    ensures h == 0.0 <==> RawHealth(attenuation, temp, load, snr, mse, ageYears) <= 0.0
    ensures h == 100.0 <==> RawHealth(attenuation, temp, load, snr, mse, ageYears) >= 100.0
  {
    Max(0.0, Min(100.0, RawHealth(attenuation, temp, load, snr, mse, ageYears)))
  }

  /** With every penalty switched off the index is exactly 100. */
  lemma NoPenaltyIsFullHealth(temp: real, snr: real)
    requires temp <= 25.0 && snr >= 30.0
    ensures CalculateHealth(0.0, temp, 0.0, snr, 0.0, 0) == 100.0
  {
  }

  /** The simulator's "healthy baseline" reading scores 95.4. */
  lemma BaselineExample()
    ensures CalculateHealth(0.5, 30.0, 20.0, 30.0, 0.01, 2) == 95.4
  {
  }

  lemma ClampMonotonic(x: real, y: real)
    requires x <= y
    ensures Max(0.0, Min(100.0, x)) <= Max(0.0, Min(100.0, y))
  {
  }

  /** More heat, attenuation, distortion, load or age never raises the index; more SNR never lowers it. */
  lemma HealthMonotonic(a1: real, t1: real, l1: real, s1: real, m1: real, y1: int,
                        a2: real, t2: real, l2: real, s2: real, m2: real, y2: int)
    requires a1 <= a2 && t1 <= t2 && l1 <= l2 && m1 <= m2 && y1 <= y2 && s1 >= s2
    ensures CalculateHealth(a2, t2, l2, s2, m2, y2) <= CalculateHealth(a1, t1, l1, s1, m1, y1)
  {
    assert RawHealth(a2, t2, l2, s2, m2, y2) <= RawHealth(a1, t1, l1, s1, m1, y1);
    ClampMonotonic(RawHealth(a2, t2, l2, s2, m2, y2), RawHealth(a1, t1, l1, s1, m1, y1));
  }

  /**
   * `calculateRulDays`: 0 once failed, the lifespan constant when not declining, else the
   * days until a linear decline at the last step's rate reaches 0. A zero step gives an
   * infinite rate in IEEE arithmetic, hence 0.
   */
  function CalculateRulDays(currentHealth: real, previousHealth: real, daysPassedInStep: int): (r: real)
    ensures r >= 0.0
    ensures currentHealth <= 0.0 ==> r == 0.0
    ensures currentHealth > 0.0 && previousHealth <= currentHealth ==> r == DemoLifespanDays
    ensures currentHealth > 0.0 && previousHealth > currentHealth && daysPassedInStep > 0 ==>
              r > 0.0 && r == currentHealth * (daysPassedInStep as real) / (previousHealth - currentHealth)
    ensures currentHealth > 0.0 && previousHealth > currentHealth && daysPassedInStep <= 0 ==> r == 0.0
  {
    if currentHealth <= 0.0 then 0.0
    else
      var healthDrop := previousHealth - currentHealth;
      if healthDrop <= 0.0 then DemoLifespanDays
      else if daysPassedInStep == 0 then 0.0
      else
        var dropPerDay := healthDrop / (daysPassedInStep as real);
        Max(0.0, currentHealth / dropPerDay)
  }

  /** Declining at the last step's daily rate, health hits exactly 0 after the projected number of days. */
  lemma LinearDeclineReachesZero(currentHealth: real, previousHealth: real, step: int)
    requires currentHealth > 0.0 && previousHealth > currentHealth && step > 0
    ensures var dropPerDay := (previousHealth - currentHealth) / (step as real);
            currentHealth - dropPerDay * CalculateRulDays(currentHealth, previousHealth, step) == 0.0
  {
    var d := previousHealth - currentHealth;
    var n := step as real;
    var r := CalculateRulDays(currentHealth, previousHealth, step);
    assert r == currentHealth * n / d;
    assert (d / n) * (currentHealth * n / d) == currentHealth;
  }

  /** The legacy `calculateRUL(cableId)` stub kept in this class: always 0. */
  function CalculateRul(cableId: int): (r: real)
    ensures r == 0.0
  {
    0.0
  }
}
