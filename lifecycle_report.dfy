/**
 * The lifecycle report record shared by the report and dashboard endpoints, with the union of
 * the fields the two controllers set. Fields a builder leaves unset keep Java's defaults:
 * zero for numbers, absent (`None`) for strings, lists and maps.
 */
module LifecycleReport {
  import opened Common
  import opened Telemetry

  datatype CableLifecycleReport = CableLifecycleReport(
    cableId: int,
    totalVirtualDaysSurvived: int,
    startingHealth: real,
    finalHealth: real,
    averageOperatingTemp: real,
    averageAttenuation: real,
    finalSnr: real,
    finalMse: real,
    primaryFailureCause: Option<string>,
    avoidedCarbonKg: real,
    historicalTimeline: Option<seq<Sample>>,
    degradationMilestones: Option<seq<(string, Sample)>>)

  /** `CableLifecycleReport.builder().cableId(cableId).build()`. */
  function EmptyReport(cableId: int): CableLifecycleReport
  {
    CableLifecycleReport(cableId, 0, 0.0, 0.0, 0.0, 0.0, 0.0, 0.0, None, 0.0, None, None)
  }

  function Temperatures(history: seq<Sample>): (r: seq<real>)
    ensures |r| == |history| && forall i :: 0 <= i < |r| ==> r[i] == history[i].temperature
  {
    seq(|history|, i requires 0 <= i < |history| => history[i].temperature)
  }

  function Attenuations(history: seq<Sample>): (r: seq<real>)
    ensures |r| == |history| && forall i :: 0 <= i < |r| ==> r[i] == history[i].attenuation
  {
    seq(|history|, i requires 0 <= i < |history| => history[i].attenuation)
  }
}
