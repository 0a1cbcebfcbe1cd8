/**
 * horizon-service `RiskScoringService.calculateFacilityRisk`. The graph query is a
 * collaborator: its downstream machine count and the cable's latest sample are inputs.
 */
module RiskScoring {
  import opened Common
  import opened Text
  import opened Telemetry

  datatype RiskAssessment = RiskAssessment(
    overallRiskScore: int,
    topologyCriticality: real,
    assetHealthRisk: real,
    environmentalStress: real,
    insuranceStatus: string,
    redundancyGap: string)

  const InsuranceDiscount: string := "\U{2705} PREMIUM DISCOUNT APPLIED (-15%)"
  const InsuranceStandard: string := "\U{26A0}\U{FE0F} STANDARD RATE (Action Advised)"
  const InsuranceRevoked: string := "\U{1F6AB} DISCOUNT REVOKED (High Risk)"
  const TopologyStable: string := "Topology Stable"

  /** 33.3 points per dependent machine, saturating at 100 from the fourth one. */
  function TopologyCriticality(downstream: nat): (r: real)
    ensures 0.0 <= r <= 100.0
    ensures downstream <= 3 ==> r == 33.3 * (downstream as real)
    ensures downstream >= 4 ==> r == 100.0
  {
    Min((downstream as real) * 33.3, 100.0)
  }

  /** Three dependents give 99.9, short of the maximum; four or more reach it. */
  lemma CriticalitySaturation()
    ensures TopologyCriticality(3) == 99.9
    ensures forall n: nat :: TopologyCriticality(n) == 100.0 <==> n >= 4
  {
  }

  /** Latest health, or 100 when the cable has no sample. */
  function CurrentHealth(latest: Option<Sample>): real
  {
    match latest
    case Some(s) => s.health
    case None => 100.0
  }

  /** Latest temperature, or 25 when the cable has no sample. */
  function CurrentTemp(latest: Option<Sample>): real
  {
    match latest
    case Some(s) => s.temperature
    case None => 25.0
  }

  function HealthRisk(health: real): (r: real)
    ensures r >= 0.0
    ensures 0.0 <= health ==> r <= 100.0
    ensures health <= 100.0 ==> r == 100.0 - health
  {
    Max(0.0, 100.0 - health)
  }

  /** Tiered heat stress: 80 above 40, 40 above 30, otherwise 10. */
  function EnvironmentalStress(temp: real): (r: real)
    ensures temp > 40.0 ==> r == 80.0
    ensures 30.0 < temp <= 40.0 ==> r == 40.0
    ensures temp <= 30.0 ==> r == 10.0
  {
    if temp > 40.0 then 80.0 else if temp > 30.0 then 40.0 else 10.0
  }

  /** The weighted sum 40% topology, 40% health, 20% environment, rounded. */
  function OverallScore(downstream: nat, health: real, temp: real): int
  {
    Round(TopologyCriticality(downstream) * 0.40 + HealthRisk(health) * 0.40 + EnvironmentalStress(temp) * 0.20)
  }

  /** The insurance label is read off the score alone. */
  function InsuranceStatus(score: int): (text: string)
    ensures score < 30 <==> text == InsuranceDiscount
    ensures 30 <= score < 60 <==> text == InsuranceStandard
    ensures score >= 60 <==> text == InsuranceRevoked
  {
    if score < 30 then InsuranceDiscount
    else if score < 60 then InsuranceStandard
    else InsuranceRevoked
  }

  /** "Topology Stable" exactly when nothing depends on the cable; otherwise a warning naming the count. */
  function RedundancyGap(downstream: nat): (text: string)
    ensures downstream == 0 <==> text == TopologyStable
    ensures downstream > 0 ==> text == "CRITICAL: Single Point of Failure (" + IntToString(downstream) + " Assets)"
  {
    if downstream > 0 then "CRITICAL: Single Point of Failure (" + IntToString(downstream) + " Assets)"
    else TopologyStable
  }

  function CalculateFacilityRisk(downstream: nat, latest: Option<Sample>): (r: RiskAssessment)
    ensures r.topologyCriticality == TopologyCriticality(downstream)
    ensures r.assetHealthRisk == HealthRisk(CurrentHealth(latest))
    ensures r.environmentalStress == EnvironmentalStress(CurrentTemp(latest))
    ensures r.overallRiskScore == OverallScore(downstream, CurrentHealth(latest), CurrentTemp(latest))
    ensures r.insuranceStatus == InsuranceStatus(r.overallRiskScore)
    ensures r.redundancyGap == RedundancyGap(downstream)
  {
    var health := CurrentHealth(latest);
    var temp := CurrentTemp(latest);
    var score := OverallScore(downstream, health, temp);
    RiskAssessment(score, TopologyCriticality(downstream), HealthRisk(health), EnvironmentalStress(temp),
                   InsuranceStatus(score), RedundancyGap(downstream))
  }

  /** No sample: health risk 0 and stress 10; with no dependents either, the score is 2. */
  lemma NoSampleDefaults(downstream: nat)
    ensures CalculateFacilityRisk(downstream, None).assetHealthRisk == 0.0
    ensures CalculateFacilityRisk(downstream, None).environmentalStress == 10.0
    ensures CalculateFacilityRisk(0, None).overallRiskScore == 2
    ensures CalculateFacilityRisk(0, None).insuranceStatus == InsuranceDiscount
  {
  }

  /** A pristine cable at 25 degrees with no dependents also scores 2. */
  lemma PristineScore()
    ensures OverallScore(0, 100.0, 25.0) == 2
  {
  }

  /** For any health in [0, 100] the score lies in [2, 96]; the lower bound needs no assumption. */
  lemma ScoreBounds(downstream: nat, health: real, temp: real)
    ensures 2 <= OverallScore(downstream, health, temp)
    ensures 0.0 <= health ==> OverallScore(downstream, health, temp) <= 96
  {
    var total := TopologyCriticality(downstream) * 0.40 + HealthRisk(health) * 0.40 + EnvironmentalStress(temp) * 0.20;
    assert 2.0 <= total;
    RoundMonotonic(2.0, total);
    if 0.0 <= health {
      assert total <= 96.0;
      RoundMonotonic(total, 96.0);
    }
  }

  /** More dependents, more heat or less health never lower the score. */
  lemma ScoreMonotonic(n1: nat, h1: real, t1: real, n2: nat, h2: real, t2: real)
    requires n1 <= n2 && t1 <= t2 && h1 >= h2
    ensures OverallScore(n1, h1, t1) <= OverallScore(n2, h2, t2)
  {
    var total1 := TopologyCriticality(n1) * 0.40 + HealthRisk(h1) * 0.40 + EnvironmentalStress(t1) * 0.20;
    var total2 := TopologyCriticality(n2) * 0.40 + HealthRisk(h2) * 0.40 + EnvironmentalStress(t2) * 0.20;
    assert (n1 as real) * 33.3 <= (n2 as real) * 33.3;
    assert TopologyCriticality(n1) <= TopologyCriticality(n2);
    assert total1 <= total2;
    RoundMonotonic(total1, total2);
  }
}
