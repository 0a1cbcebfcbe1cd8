/**
 * horizon-service `ReportController.getAiPoweredReport`, up to the summariser: the milestone map
 * (every 50th virtual day, then the final status), the final readings, the averages and the
 * rounded avoided carbon. The summariser is an opaque function of the assembled report.
 */
module ReportController {
  import opened Common
  import opened Text
  import opened Telemetry
  import opened Sustainability
  import opened LifecycleReport
  import DashboardController

  const SummaryKey: string := "aiExecutiveSummary"

  /** A `LinkedHashMap<String, CableTelemetry>`: entries in insertion order. */
  type Milestones = seq<(string, Sample)>

  predicate HasKey(m: Milestones, k: string)
  {
    exists i :: 0 <= i < |m| && m[i].0 == k
  }

  /** `put`: a new key goes last; an existing key keeps its place and takes the new value. */
  function Put(m: Milestones, k: string, v: Sample): Milestones
  {
    if HasKey(m, k) then seq(|m|, i requires 0 <= i < |m| => if m[i].0 == k then (k, v) else m[i])
    else m + [(k, v)]
  }

  function DayKey(day: nat): string
  {
    "Day " + NatToString(day)
  }

  function FinalKey(finalDay: int): string
  {
    "Final Status (Day " + IntToString(finalDay) + ")"
  }

  /** One pass of the loop body, for record `i`. */
  function LoopStep(m: Milestones, history: seq<Sample>, i: nat): Milestones
    requires i < |history|
  {
    var virtualDay := i * 5;
    if virtualDay > 0 && virtualDay % 50 == 0 then Put(m, "Day " + IntToString(virtualDay), history[i]) else m
  }

  /** The loop's map after the first `i` records: a "Day d" entry for each positive day divisible by 50. */
  function MilestonesUpTo(history: seq<Sample>, i: nat): Milestones
    requires i <= |history|
  {
    if i == 0 then [] else LoopStep(MilestonesUpTo(history, i - 1), history, i - 1)
  }

  /** The complete map: the loop's entries, then the final status under the last record. */
  function MilestonesFor(history: seq<Sample>): Milestones
    requires history != []
  {
    var finalDay := (|history| - 1) * 5;
    Put(MilestonesUpTo(history, |history|), FinalKey(finalDay), history[|history| - 1])
  }

  lemma DayKeyInjective(a: nat, b: nat)
    requires DayKey(a) == DayKey(b)
    ensures a == b
  {
    assert DayKey(a)[4..] == NatToString(a);
    assert DayKey(b)[4..] == NatToString(b);
    NatToStringInjective(a, b);
  }

  lemma MultipleOfFifty(k: nat)
    ensures (k * 5) % 50 == 0 <==> k % 10 == 0
  {
    var q := k / 10;
    var r := k % 10;
    assert k * 5 == 50 * q + 5 * r;
    assert (50 * q + 5 * r) % 50 == 5 * r;
  }

  /** Number of loop milestones among the first `i` records: indices 10, 20, ... below `i`. */
  function LoopCount(i: nat): nat
  {
    if i == 0 then 0 else (i - 1) / 10
  }

  /** Entry `j` of the loop's map is "Day 50(j+1)" holding record 10(j+1). */
  ghost predicate LoopShape(history: seq<Sample>, m: Milestones, i: nat)
    requires i <= |history|
  {
    && |m| == LoopCount(i)
    && forall j :: 0 <= j < |m| ==> 10 * (j + 1) < i && m[j] == (DayKey(50 * (j + 1)), history[10 * (j + 1)])
  }

  /** The key the loop writes at a milestone record `k` is "Day 5k", and the map so far lacks it. */
  lemma FreshMilestone(history: seq<Sample>, m: Milestones, k: nat)
    requires k < |history| && k > 0 && k % 10 == 0 && LoopShape(history, m, k)
    ensures "Day " + IntToString(k * 5) == DayKey(50 * (LoopCount(k) + 1))
    ensures !HasKey(m, DayKey(50 * (LoopCount(k) + 1)))
  {
    var c := LoopCount(k);
    assert k == 10 * (c + 1);
    assert IntToString(k * 5) == NatToString(50 * (c + 1));
    var key := DayKey(50 * (c + 1));
    forall j | 0 <= j < |m| ensures m[j].0 != key {
      if m[j].0 == key {
        DayKeyInjective(50 * (j + 1), 50 * (c + 1));
      }
    }
  }

  lemma {:induction false} MilestonesUpToShape(history: seq<Sample>, i: nat)
    requires i <= |history|
    ensures LoopShape(history, MilestonesUpTo(history, i), i)
  {
    if i > 0 {
      var k := i - 1;
      var m := MilestonesUpTo(history, k);
      MilestonesUpToShape(history, k);
      MultipleOfFifty(k);
      if k > 0 && k % 10 == 0 {
        FreshMilestone(history, m, k);
        assert MilestonesUpTo(history, i) == m + [(DayKey(50 * (LoopCount(k) + 1)), history[k])];
      } else {
        assert LoopCount(i) == LoopCount(k);
      }
    }
  }

  /**
   * The final map has ⌊(n−1)/10⌋ + 1 entries: "Day 50(j+1)" for record 10(j+1) in increasing
   * order, then "Final Status (Day 5(n−1))" for the last record.
   */
  lemma MilestonesForShape(history: seq<Sample>)
    requires history != []
    ensures var m := MilestonesFor(history);
            var n := |history|;
            && |m| == (n - 1) / 10 + 1
            && (forall j :: 0 <= j < |m| - 1 ==> m[j] == (DayKey(50 * (j + 1)), history[10 * (j + 1)]))
            && m[|m| - 1] == (FinalKey((n - 1) * 5), history[n - 1])
  {
    var n := |history|;
    var loop := MilestonesUpTo(history, n);
    MilestonesUpToShape(history, n);
    var key := FinalKey((n - 1) * 5);
    assert !HasKey(loop, key) by {
      forall j | 0 <= j < |loop| ensures loop[j].0 != key {
        assert loop[j].0[0] == 'D' && key[0] == 'F';
      }
    }
  }

  /** A final-status key gives back the day it names. */
  lemma FinalKeyValue(day: nat)
    ensures var key := FinalKey(day);
            |key| >= 19 && DigitsValue(key[18..|key| - 1]) == day
  {
    var key := FinalKey(day);
    assert key[18..|key| - 1] == IntToString(day);
  }

  /**
   * The dashboard counts 6 days per record while the AI report names its last record day
   * 5(n−1): for the same non-empty history the report's final key never carries the
   * dashboard's day count.
   */
  lemma DayCountsDisagree(cableId: int, history: seq<Sample>)
    requires history != []
    ensures var m := MilestonesFor(history);
            var days := DashboardController.CableLifecycleReportFor(cableId, history).totalVirtualDaysSurvived;
            |m| >= 1 && m[|m| - 1].0 != FinalKey(days)
  {
    var n := |history|;
    MilestonesForShape(history);
    var days := DashboardController.CableLifecycleReportFor(cableId, history).totalVirtualDaysSurvived;
    assert days == 6 * n;
    FinalKeyValue((n - 1) * 5);
    FinalKeyValue(days);
  }

  /** The map-building loop of `getAiPoweredReport`. */
  method BuildMilestones(history: seq<Sample>) returns (milestones: Milestones)
    requires history != []
    ensures milestones == MilestonesFor(history)
  {
    var finalDay := (|history| - 1) * 5;
    milestones := [];
    var i := 0;
    while i < |history|
      invariant 0 <= i <= |history|
      invariant milestones == MilestonesUpTo(history, i)
    {
      assert MilestonesUpTo(history, i + 1) == LoopStep(milestones, history, i);
      var virtualDay := i * 5;
      if virtualDay > 0 && virtualDay % 50 == 0 {
        milestones := Put(milestones, "Day " + IntToString(virtualDay), history[i]);
      }
      i := i + 1;
    }
    milestones := Put(milestones, FinalKey(finalDay), history[|history| - 1]);
  }

  /** `Math.round(avoided * 100.0) / 100.0`: two decimals. */
  function RoundedAvoided(cableId: int, health: real): (r: real)
    ensures r == 9.92
  {
    var avoided := CalculateMetrics(cableId, health).avoidedCarbonKg;
    assert avoided * 100.0 + 0.5 == 992.0;
    (Round(avoided * 100.0) as real) / 100.0
  }

  /** The report handed to the summariser, for a non-empty ascending history. */
  function RawReport(cableId: int, history: seq<Sample>): (r: CableLifecycleReport)
    requires history != []
    ensures r.cableId == cableId && r.totalVirtualDaysSurvived == 0
    ensures r.startingHealth == history[0].health && r.finalHealth == history[|history| - 1].health
    ensures r.finalSnr == history[|history| - 1].snr && r.finalMse == history[|history| - 1].mse
    ensures r.averageOperatingTemp == Average(Temperatures(history))
    ensures r.averageAttenuation == Average(Attenuations(history))
    ensures SeqMin(Temperatures(history)) <= r.averageOperatingTemp <= SeqMax(Temperatures(history))
    ensures SeqMin(Attenuations(history)) <= r.averageAttenuation <= SeqMax(Attenuations(history))
    ensures r.avoidedCarbonKg == 9.92
    ensures r.historicalTimeline == None && r.primaryFailureCause == None
    ensures r.degradationMilestones == Some(MilestonesFor(history))
  {
    var first := history[0];
    var last := history[|history| - 1];
    AverageWithinRange(Temperatures(history));
    AverageWithinRange(Attenuations(history));
    CableLifecycleReport(cableId, 0, first.health, last.health,
                         Average(Temperatures(history)), Average(Attenuations(history)),
                         last.snr, last.mse, None, RoundedAvoided(cableId, last.health), None,
                         Some(MilestonesFor(history)))
  }

  /**
   * `getAiPoweredReport`: for a cable without samples only the "no data" text, without consulting
   * the summariser; otherwise the summariser's text for the assembled report.
   */
  method GetAiPoweredReport(telemetryRepository: TelemetryStore, cableId: int,
                            summarise: CableLifecycleReport -> string)
    returns (response: map<string, string>)
    ensures HistoryOf(telemetryRepository.samples, cableId) == [] ==>
              response == map[SummaryKey := "No data found for Cable ID: " + IntToString(cableId)]
    ensures HistoryOf(telemetryRepository.samples, cableId) != [] ==>
              response == map[SummaryKey := summarise(RawReport(cableId, HistoryOf(telemetryRepository.samples, cableId)))]
  {
    var history := HistoryOf(telemetryRepository.samples, cableId);
    if |history| == 0 {
      return map[SummaryKey := "No data found for Cable ID: " + IntToString(cableId)];
    }
    var firstRecord := history[0];
    var lastRecord := history[|history| - 1];
    var milestones := BuildMilestones(history);
    var avgTemp := Average(Temperatures(history));
    var avgAttn := Average(Attenuations(history));
    var exactMetrics := CalculateMetrics(cableId, lastRecord.health);
    var exactAvoidedCarbon := (Round(exactMetrics.avoidedCarbonKg * 100.0) as real) / 100.0;
    var rawReport := CableLifecycleReport(cableId, 0, firstRecord.health, lastRecord.health, avgTemp, avgAttn,
                                          lastRecord.snr, lastRecord.mse, None, exactAvoidedCarbon, None,
                                          Some(milestones));
    response := map[SummaryKey := summarise(rawReport)];
  }
}
