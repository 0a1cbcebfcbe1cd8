/**
 * horizon-service `SustainabilityService.calculateMetrics`: embedded carbon from fixed material
 * weights, operational carbon growing as health falls, avoided carbon from a fixed life
 * extension, and a three-step rating on health.
 */
module Sustainability {
  import opened Common

  const CopperFactor: real := 4.7
  const PvcFactor: real := 2.4
  const TransportCarbon: real := 0.5
  const IndustryLifeYears: real := 3.0
  const CopperWeightKg: real := 3.5
  const PvcWeightKg: real := 1.2
  const BaseEnergyCarbon: real := 1.2
  const LifeExtension: real := 1.5

  datatype Rating = APlus | B | C {
    function Name(): string
    {
      match this
      case APlus => "A+"
      case B => "B"
      case C => "C"
    }

    /** Higher is better. */
    function Rank(): nat
    {
      match this
      case APlus => 2
      case B => 1
      case C => 0
    }
  }

  /** The metrics record; the builder's defaults (zeros, no rating) are the empty metrics. */
  datatype CarbonMetrics = CarbonMetrics(
    embeddedCarbonKg: real,
    operationalCarbonKg: real,
    avoidedCarbonKg: real,
    sustainabilityRating: Option<Rating>)

  const EmptyMetrics: CarbonMetrics := CarbonMetrics(0.0, 0.0, 0.0, None)

  /** A+ by default, B below 50, C below 20: the two checks run in that order. */
  function RatingFor(health: real): (r: Rating)
    ensures r == APlus <==> health >= 50.0
    ensures r == B <==> 20.0 <= health < 50.0
    ensures r == C <==> health < 20.0
  {
    var afterFirst := if health < 50.0 then B else APlus;
    if health < 20.0 then C else afterFirst
  }

  /** Extra heat loss grows by 5% of the base per lost health point. */
  function OperationalCarbon(health: real): (c: real)
    ensures health == 100.0 ==> c == 1.2
    ensures health == 0.0 ==> c == 7.2
    ensures 0.0 <= health <= 100.0 ==> 1.2 <= c <= 7.2
  {
    BaseEnergyCarbon * (1.0 + (100.0 - health) * 0.05)
  }

  function CalculateMetrics(cableId: int, currentHealth: real): (m: CarbonMetrics)
    ensures m.embeddedCarbonKg == 19.83
    ensures m.avoidedCarbonKg == 9.915
    ensures m.operationalCarbonKg == OperationalCarbon(currentHealth)
    ensures m.sustainabilityRating == Some(RatingFor(currentHealth))
  {
    var manufacturingImpact := CopperWeightKg * CopperFactor + PvcWeightKg * PvcFactor;
    var totalEmbedded := manufacturingImpact + TransportCarbon;
    var avoidedImpact := (totalEmbedded / IndustryLifeYears) * LifeExtension;
    CarbonMetrics(totalEmbedded, OperationalCarbon(currentHealth), avoidedImpact, Some(RatingFor(currentHealth)))
  }

  /** Only the operational figure and the rating depend on health; nothing depends on the cable. */
  lemma MetricsIndependentOfCable(id1: int, id2: int, h1: real, h2: real)
    ensures CalculateMetrics(id1, h1).embeddedCarbonKg == CalculateMetrics(id2, h2).embeddedCarbonKg
    ensures CalculateMetrics(id1, h1).avoidedCarbonKg == CalculateMetrics(id2, h2).avoidedCarbonKg
    ensures h1 == h2 ==> CalculateMetrics(id1, h1) == CalculateMetrics(id2, h2)
  {
  }

  /** Less health never means less operational carbon. */
  lemma OperationalMonotonic(h1: real, h2: real)
    requires h1 <= h2
    ensures OperationalCarbon(h1) >= OperationalCarbon(h2)
  {
    assert (100.0 - h1) * 0.05 >= (100.0 - h2) * 0.05;
  }

  /** Less health never yields a better rating. */
  lemma RatingMonotonic(h1: real, h2: real)
    requires h1 <= h2
    ensures RatingFor(h1).Rank() <= RatingFor(h2).Rank()
  {
  }
}
