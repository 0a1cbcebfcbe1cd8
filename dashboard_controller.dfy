/**
 * horizon-service `DashboardController`: the lifecycle report over a cable's ascending history
 * (six virtual days per record, averages, a root-cause diagnosis, a small carbon figure) and
 * the carbon endpoint with its empty default.
 */
module DashboardController {
  import opened Common
  import opened Telemetry
  import opened Sustainability
  import opened LifecycleReport

  const DaysPerRecord: int := 6

  const ThermalCause: string := "Thermal Degradation (High Heat Exposure)"
  const PhysicalCause: string := "Physical Stress / EMI Interference"
  const StandardCause: string := "Standard Wear & Tear"

  /** The diagnosis: heat above 65 wins, then attenuation above 3, otherwise ordinary wear. */
  function FailureCause(avgTemp: real, avgAttn: real): (cause: string)
    ensures cause == ThermalCause <==> avgTemp > 65.0
    ensures cause == PhysicalCause <==> avgTemp <= 65.0 && avgAttn > 3.0
    ensures cause == StandardCause <==> avgTemp <= 65.0 && avgAttn <= 3.0
  {
    assert ThermalCause[0] == 'T' && PhysicalCause[0] == 'P' && StandardCause[0] == 'S';
    if avgTemp > 65.0 then ThermalCause
    else if avgAttn > 3.0 then PhysicalCause
    else StandardCause
  }

  /** `getCableLifecycleReport` for the cable whose ascending history is `history`. */
  function CableLifecycleReportFor(cableId: int, history: seq<Sample>): (r: CableLifecycleReport)
    ensures history == [] ==> r == EmptyReport(cableId)
    ensures history != [] ==>
              && r.cableId == cableId
              && r.totalVirtualDaysSurvived == DaysPerRecord * |history|
              && r.startingHealth == history[0].health
              && r.finalHealth == history[|history| - 1].health
              && r.averageOperatingTemp == Average(Temperatures(history))
              && r.averageAttenuation == Average(Attenuations(history))
              && SeqMin(Temperatures(history)) <= r.averageOperatingTemp <= SeqMax(Temperatures(history))
              && SeqMin(Attenuations(history)) <= r.averageAttenuation <= SeqMax(Attenuations(history))
              && r.primaryFailureCause == Some(FailureCause(r.averageOperatingTemp, r.averageAttenuation))
              && r.avoidedCarbonKg == 0.04 * (r.totalVirtualDaysSurvived as real)
              && r.historicalTimeline == Some(history)
              && r.degradationMilestones == None
  {
    if history == [] then EmptyReport(cableId)
    else
      var days := |history| * DaysPerRecord;
      var avgTemp := Average(Temperatures(history));
      var avgAttn := Average(Attenuations(history));
      AverageWithinRange(Temperatures(history));
      AverageWithinRange(Attenuations(history));
      CableLifecycleReport(cableId, days, history[0].health, history[|history| - 1].health, avgTemp, avgAttn,
                           0.0, 0.0, Some(FailureCause(avgTemp, avgAttn)), (days as real) * 0.04, Some(history), None)
  }

  /** `getCarbonMetrics`: metrics for the latest health, or the empty record without a sample. */
  function CarbonMetricsFor(cableId: int, latest: Option<Sample>): (m: CarbonMetrics)
    ensures latest.None? ==> m == EmptyMetrics && m.sustainabilityRating == None
    ensures latest.Some? ==> m == CalculateMetrics(cableId, latest.value.health) && m.sustainabilityRating.Some?
  {
    match latest
    case Some(t) => CalculateMetrics(cableId, t.health)
    case None => EmptyMetrics
  }
}
