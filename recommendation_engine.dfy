/**
 * horizon-service `RecommendationEngine.generateRecommendations`: three independent rules
 * appended in a fixed order, then a default entry when none fired.
 */
module RecommendationEngine {
  import opened Common
  import opened Text
  import opened Telemetry
  import opened RiskScoring

  datatype Category = Maintenance | Resilience | Sustainability | Optimization {
    /** Position of the rule that emits the category. */
    function Rank(): nat {
      match this
      case Maintenance => 0
      case Resilience => 1
      case Sustainability => 2
      case Optimization => 3
    }
  }

  /**
   * The fixed wording of the entries, kept symbolic so that reasoning about which rules fired
   * never has to look inside the text; `Render` spells each phrase out.
   */
  datatype Phrase =
    | ReplaceImmediately | ReplaceImminently(cableId: int) | AssetFailed | ApproachingFailure(days: int)
    | PreventsDowntime | DispatchTechnician
    | EliminateSinglePoint | BottleneckDetected | RedundantSwitch | ViewHardware
    | UpgradeEcoLine | ThermalInefficiency | EnergyEfficiency | CalculateRoi
    | InfrastructureOptimized | OptimalParameters | NoActionRequired | Dismiss
  {
    function Render(): string
    {
      match this
      case ReplaceImmediately => "CRITICAL: Replace Cable Immediately"
      case ReplaceImminently(id) => "Replace Cable-" + IntToString(id) + " Imminently"
      case AssetFailed => "Asset has failed. Immediate replacement required to restore operations."
      case ApproachingFailure(days) => "Asset is approaching physical failure boundary within " + IntToString(days) + " days."
      case PreventsDowntime => "Prevents $12,000 in unplanned downtime."
      case DispatchTechnician => "Dispatch Technician Now"
      case EliminateSinglePoint => "Eliminate Single Point of Failure"
      case BottleneckDetected => "Graph analysis detects bottleneck. Add parallel path."
      case RedundantSwitch => "Install Belden Hirschmann\U{2122} Redundant Switch to drop Risk Score by 40 pts."
      case ViewHardware => "View Hardware"
      case UpgradeEcoLine => "Upgrade to Belden EcoLine\U{2122}"
      case ThermalInefficiency => "Thermal inefficiency detected. High resistance is generating waste heat."
      case EnergyEfficiency => "Gain 18% energy efficiency & improve ESG Rating to A+."
      case CalculateRoi => "Calculate ROI"
      case InfrastructureOptimized => "Infrastructure Optimized"
      case OptimalParameters => "Current topology and asset health are operating within optimal parameters."
      case NoActionRequired => "No action required."
      case Dismiss => "Dismiss"
    }
  }

  datatype Recommendation = Recommendation(
    category: Category,
    title: Phrase,
    description: Phrase,
    businessImpact: Phrase,
    confidenceScore: int,
    actionLabel: Phrase)

  predicate MaintenanceFires(rulDays: real) { rulDays <= 60.0 && rulDays >= 0.0 }

  predicate ResilienceFires(risk: RiskAssessment) { risk.topologyCriticality > 50.0 }

  predicate SustainabilityFires(temp: real) { temp > 30.0 }

  /** 100 for a failed cable, otherwise `(int) min(99, 100 - rul/2)`, which lies in [70, 99]. */
  function MaintenanceConfidence(health: real, rulDays: real): (c: int)
    requires MaintenanceFires(rulDays)
    ensures health <= 0.0 ==> c == 100
    ensures health > 0.0 ==> 70 <= c <= 99
    ensures health > 0.0 && rulDays <= 2.0 ==> c == 99
    ensures health > 0.0 && rulDays >= 2.0 ==> c as real <= 100.0 - rulDays * 0.5 < c as real + 1.0
  {
    if health <= 0.0 then 100 else Trunc(Min(99.0, 100.0 - rulDays * 0.5))
  }

  /** `(int) min(99, 60 + 2 (t - 30))`, which lies in [60, 99]. */
  function ThermalConfidence(temp: real): (c: int)
    requires SustainabilityFires(temp)
    ensures 60 <= c <= 99
    ensures c < 99 ==> c as real <= 60.0 + (temp - 30.0) * 2.0 < c as real + 1.0
  {
    Trunc(Min(99.0, 60.0 + (temp - 30.0) * 2.0))
  }

  function MaintenanceRecommendation(cableId: int, s: Sample): (r: Recommendation)
    requires MaintenanceFires(s.rulInDays)
    ensures r.category == Maintenance
    ensures r.confidenceScore == MaintenanceConfidence(s.health, s.rulInDays)
  {
    var failed := s.health <= 0.0;
    Recommendation(
      Maintenance,
      if failed then ReplaceImmediately else ReplaceImminently(cableId),
      if failed then AssetFailed else ApproachingFailure(Round(s.rulInDays)),
      PreventsDowntime,
      MaintenanceConfidence(s.health, s.rulInDays),
      DispatchTechnician)
  }

  const ResilienceRecommendation: Recommendation :=
    Recommendation(Resilience, EliminateSinglePoint, BottleneckDetected, RedundantSwitch, 92, ViewHardware)

  function SustainabilityRecommendation(temp: real): (r: Recommendation)
    requires SustainabilityFires(temp)
    ensures r.category == Sustainability && r.confidenceScore == ThermalConfidence(temp)
  {
    Recommendation(Sustainability, UpgradeEcoLine, ThermalInefficiency, EnergyEfficiency, ThermalConfidence(temp), CalculateRoi)
  }

  const OptimizationRecommendation: Recommendation :=
    Recommendation(Optimization, InfrastructureOptimized, OptimalParameters, NoActionRequired, 100, Dismiss)

  /** The critical title appears exactly for a failed cable; otherwise the title names the cable. */
  lemma MaintenanceTitle(cableId: int, s: Sample)
    requires MaintenanceFires(s.rulInDays)
    ensures MaintenanceRecommendation(cableId, s).title.Render() == "CRITICAL: Replace Cable Immediately"
            <==> s.health <= 0.0
    ensures s.health > 0.0 ==>
              MaintenanceRecommendation(cableId, s).title.Render() == "Replace Cable-" + IntToString(cableId) + " Imminently"
  {
    if s.health > 0.0 {
      var t := MaintenanceRecommendation(cableId, s).title.Render();
      assert t[0] == 'R';
    }
  }

  predicate HasCategory(recs: seq<Recommendation>, c: Category)
  {
    exists i :: 0 <= i < |recs| && recs[i].category == c
  }

  /** The resilience rule fires exactly when at least two machines sit downstream. */
  lemma ResilienceNeedsTwoDependents(downstream: nat, latest: Option<Sample>)
    ensures ResilienceFires(CalculateFacilityRisk(downstream, latest)) <==> downstream >= 2
  {
    if downstream == 2 || downstream == 3 {
      assert TopologyCriticality(downstream) >= 66.6;
    }
  }

  /** A failed cable with 10 days left gets the critical replacement entry at full confidence. */
  lemma FailedCableExample(cableId: int, s: Sample)
    requires s.health == 0.0 && s.rulInDays == 10.0
    ensures MaintenanceRecommendation(cableId, s).confidenceScore == 100
    ensures MaintenanceRecommendation(cableId, s).title == ReplaceImmediately
    ensures MaintenanceRecommendation(cableId, s).description == AssetFailed
  {
  }

  /** What the three rules append, in their fixed order. */
  function RuleEntries(cableId: int, s: Sample, risk: RiskAssessment): seq<Recommendation>
  {
    (if MaintenanceFires(s.rulInDays) then [MaintenanceRecommendation(cableId, s)] else [])
    + (if ResilienceFires(risk) then [ResilienceRecommendation] else [])
    + (if SustainabilityFires(s.temperature) then [SustainabilityRecommendation(s.temperature)] else [])
  }

  /** The list handed back: the rule entries, or the default entry alone when none fired. */
  function WithDefault(entries: seq<Recommendation>): seq<Recommendation>
  {
    if entries == [] then [OptimizationRecommendation] else entries
  }

  /** Between one and three entries, in category order, each the entry of its own rule. */
  ghost predicate ShapeHolds(recs: seq<Recommendation>, cableId: int, s: Sample)
  {
    && 1 <= |recs| <= 3
    && (forall i, j :: 0 <= i < j < |recs| ==> recs[i].category.Rank() < recs[j].category.Rank())
    && (forall i :: 0 <= i < |recs| && recs[i].category == Maintenance ==>
          MaintenanceFires(s.rulInDays) && recs[i] == MaintenanceRecommendation(cableId, s))
    && (forall i :: 0 <= i < |recs| && recs[i].category == Resilience ==> recs[i] == ResilienceRecommendation)
    && (forall i :: 0 <= i < |recs| && recs[i].category == Sustainability ==>
          SustainabilityFires(s.temperature) && recs[i] == SustainabilityRecommendation(s.temperature))
  }

  /** Which categories appear: each rule's exactly when it fires, the default exactly when none does. */
  ghost predicate FiringHolds(recs: seq<Recommendation>, s: Sample, downstream: nat)
  {
    && (HasCategory(recs, Maintenance) <==> MaintenanceFires(s.rulInDays))
    && (HasCategory(recs, Resilience) <==> downstream >= 2)
    && (HasCategory(recs, Sustainability) <==> SustainabilityFires(s.temperature))
    && (HasCategory(recs, Optimization) <==>
          !MaintenanceFires(s.rulInDays) && downstream < 2 && !SustainabilityFires(s.temperature))
    && (HasCategory(recs, Optimization) ==> recs == [OptimizationRecommendation])
  }

  /** The rule outcome for one sample, with the default entry when no rule fired. */
  ghost predicate RulesHold(recs: seq<Recommendation>, cableId: int, s: Sample, downstream: nat)
  {
    ShapeHolds(recs, cableId, s) && FiringHolds(recs, s, downstream)
  }

  lemma {:induction false} HasCategoryOfEntries(cableId: int, s: Sample, risk: RiskAssessment, c: Category)
    ensures HasCategory(RuleEntries(cableId, s, risk), c) <==>
              || (c == Maintenance && MaintenanceFires(s.rulInDays))
              || (c == Resilience && ResilienceFires(risk))
              || (c == Sustainability && SustainabilityFires(s.temperature))
  {
    var m := if MaintenanceFires(s.rulInDays) then [MaintenanceRecommendation(cableId, s)] else [];
    var r := if ResilienceFires(risk) then [ResilienceRecommendation] else [];
    var su := if SustainabilityFires(s.temperature) then [SustainabilityRecommendation(s.temperature)] else [];
    assert HasCategory(m, c) <==> c == Maintenance && MaintenanceFires(s.rulInDays) by {
      if m != [] { HasCategorySingle(m[0], c); }
    }
    assert HasCategory(r, c) <==> c == Resilience && ResilienceFires(risk) by {
      if r != [] { HasCategorySingle(r[0], c); }
    }
    assert HasCategory(su, c) <==> c == Sustainability && SustainabilityFires(s.temperature) by {
      if su != [] { HasCategorySingle(su[0], c); }
    }
    HasCategoryAppendAll(m, r, c);
    HasCategoryAppendAll(m + r, su, c);
  }

  lemma HasCategorySingle(x: Recommendation, c: Category)
    ensures HasCategory([x], c) <==> x.category == c
  {
    if x.category == c {
      assert [x][0].category == c;
    }
  }

  lemma HasCategoryAppendAll(a: seq<Recommendation>, b: seq<Recommendation>, c: Category)
    ensures HasCategory(a + b, c) <==> HasCategory(a, c) || HasCategory(b, c)
  {
    if HasCategory(a, c) {
      var i :| 0 <= i < |a| && a[i].category == c;
      assert (a + b)[i].category == c;
    }
    if HasCategory(b, c) {
      var i :| 0 <= i < |b| && b[i].category == c;
      assert (a + b)[|a| + i].category == c;
    }
  }

  lemma RuleEntriesShape(cableId: int, s: Sample, risk: RiskAssessment)
    ensures ShapeHolds(WithDefault(RuleEntries(cableId, s, risk)), cableId, s)
  {
    var e := WithDefault(RuleEntries(cableId, s, risk));
    if MaintenanceFires(s.rulInDays) {
      var m := MaintenanceRecommendation(cableId, s);
      if ResilienceFires(risk) {
        if SustainabilityFires(s.temperature) {
          assert e == [m, ResilienceRecommendation, SustainabilityRecommendation(s.temperature)];
        } else {
          assert e == [m, ResilienceRecommendation];
        }
      } else if SustainabilityFires(s.temperature) {
        assert e == [m, SustainabilityRecommendation(s.temperature)];
      } else {
        assert e == [m];
      }
    } else if ResilienceFires(risk) {
      if SustainabilityFires(s.temperature) {
        assert e == [ResilienceRecommendation, SustainabilityRecommendation(s.temperature)];
      } else {
        assert e == [ResilienceRecommendation];
      }
    } else if SustainabilityFires(s.temperature) {
      assert e == [SustainabilityRecommendation(s.temperature)];
    } else {
      assert e == [OptimizationRecommendation];
    }
  }

  lemma RuleEntriesOutcome(cableId: int, s: Sample, downstream: nat, latest: Option<Sample>)
    requires latest == Some(s)
    ensures RulesHold(WithDefault(RuleEntries(cableId, s, CalculateFacilityRisk(downstream, latest))), cableId, s, downstream)
  {
    var risk := CalculateFacilityRisk(downstream, latest);
    RuleEntriesShape(cableId, s, risk);
    ResilienceNeedsTwoDependents(downstream, latest);
    var e := RuleEntries(cableId, s, risk);
    HasCategoryOfEntries(cableId, s, risk, Maintenance);
    HasCategoryOfEntries(cableId, s, risk, Resilience);
    HasCategoryOfEntries(cableId, s, risk, Sustainability);
    HasCategoryOfEntries(cableId, s, risk, Optimization);
    if e == [] {
      assert [OptimizationRecommendation][0].category == Optimization;
    }
  }

  /**
   * The rules, given the latest sample of the cable (if any) and the downstream count the
   * risk scorer obtains from the graph. No sample: the empty list, without the default entry.
   */
  method GenerateRecommendations(cableId: int, latest: Option<Sample>, downstream: nat)
    returns (recs: seq<Recommendation>)
    ensures latest.None? ==> recs == []
    ensures latest.Some? ==> RulesHold(recs, cableId, latest.value, downstream)
  {
    recs := [];
    if latest.None? {
      return;
    }
    var telemetry := latest.value;
    var risk := CalculateFacilityRisk(downstream, latest);
    var rulDays := telemetry.rulInDays;

    if MaintenanceFires(rulDays) {
      recs := recs + [MaintenanceRecommendation(cableId, telemetry)];
    }
    if ResilienceFires(risk) {
      recs := recs + [ResilienceRecommendation];
    }
    if SustainabilityFires(telemetry.temperature) {
      recs := recs + [SustainabilityRecommendation(telemetry.temperature)];
    }
    assert recs == RuleEntries(cableId, telemetry, risk);
    if recs == [] {
      recs := recs + [OptimizationRecommendation];
    }
    assert recs == WithDefault(RuleEntries(cableId, telemetry, risk));
    RuleEntriesOutcome(cableId, telemetry, downstream, latest);
  }
}
