/**
 * The legacy `topology` `AlertService.checkAndAlert`: a read-only check that, when health is
 * below 70 or fewer than two days (2880 minutes) remain, writes a "critical alert" notice to
 * the error console naming the cable's machine and assembly line. Nothing is stored; the
 * notice is returned as a value. The topology lookup result is an input.
 */
module LegacyAlertService {
  import opened Common
  import opened Text

  const HealthTrigger: real := 70.0
  const RulTriggerMinutes: real := 2880.0

  const UnknownMachine: string := "Unknown Machine"
  const UnknownLine: string := "Unknown Line"
  const GeneralFloor: string := "General Floor"

  /** The fallback "Unknown Machine::Unknown Line" used when the topology lookup finds nothing. */
  const UnknownImpact: string := UnknownMachine + "::" + UnknownLine

  /** The trigger: low health, or a positive remaining life shorter than two days. */
  predicate Fires(currentHealth: real, estimatedRulMinutes: real)
  {
    currentHealth < HealthTrigger || (estimatedRulMinutes > 0.0 && estimatedRulMinutes < RulTriggerMinutes)
  }

  /** The "no prediction" value −1 and the "already failed" value 0 never fire by themselves. */
  lemma SentinelsFireOnHealthOnly(currentHealth: real)
    ensures Fires(currentHealth, -1.0) <==> currentHealth < HealthTrigger
    ensures Fires(currentHealth, 0.0) <==> currentHealth < HealthTrigger
  {
  }

  /** A healthy cable fires exactly when some, but less than two days', life is predicted. */
  lemma HealthyFiresOnShortRul(currentHealth: real, estimatedRulMinutes: real)
    requires currentHealth >= HealthTrigger
    ensures Fires(currentHealth, estimatedRulMinutes) <==> 0.0 < estimatedRulMinutes < 2880.0
  {
  }

  datatype Labels = Labels(machine: string, line: string)

  /** The lookup result (or its fallback) split on "::": first piece the machine, second the line. */
  function ImpactLabels(impact: Option<string>): Labels
  {
    var parts := JavaSplit(impact.GetOr(UnknownImpact));
    Labels(if |parts| > 0 then parts[0] else UnknownMachine,
           if |parts| > 1 then parts[1] else GeneralFloor)
  }

  /** A missing lookup names the unknown machine and the unknown line (not the general floor). */
  lemma LabelsMissing()
    ensures ImpactLabels(None) == Labels(UnknownMachine, UnknownLine)
  {
    SplitJoined(UnknownMachine, UnknownLine);
  }

  /** A well-formed "machine::line" lookup yields exactly its two parts. */
  lemma LabelsPair(m: string, l: string)
    requires ':' !in m && ':' !in l && l != ""
    ensures ImpactLabels(Some(m + "::" + l)) == Labels(m, l)
  {
    SplitJoined(m, l);
  }

  /** A lookup without "::" names the machine only; the line falls back to "General Floor". */
  lemma LabelsWithoutSeparator(s: string)
    requires !HasSeparator(s)
    ensures ImpactLabels(Some(s)) == Labels(s, GeneralFloor)
  {
    SplitNoSeparator(s);
  }

  /** A bare "::" splits into nothing, so the machine is unknown and the line the general floor. */
  lemma LabelsOnlySeparator()
    ensures ImpactLabels(Some("::")) == Labels(UnknownMachine, GeneralFloor)
  {
    assert "::"[0] == ':' && "::"[1] == ':';
    assert SplitPieces("::") == [""] + SplitPieces("::"[2..]);
    assert "::"[2..] == "";
    assert JavaSplit("::") == DropTrailingEmpty(["", ""]);
    assert ["", ""][..1] == [""];
    assert [""][..0] == [];
  }

  /** The remaining life in hours to one decimal, followed by " Hours". */
  function TimeRemaining(estimatedRulMinutes: real): (text: string)
    ensures text == FormatOneDecimal(estimatedRulMinutes / 60.0) + " Hours"
    ensures |text| >= 9 && text[|text| - 6..] == " Hours"
    ensures estimatedRulMinutes < 0.0 <==> text[0] == '-'
  {
    var hours := FormatOneDecimal(estimatedRulMinutes / 60.0);
    assert estimatedRulMinutes < 0.0 <==> estimatedRulMinutes / 60.0 < 0.0;
    hours + " Hours"
  }

  /** What the check writes to the console: cable, machine, line and remaining time. */
  datatype Notice = Notice(cableId: int, machine: string, line: string, timeRemaining: string) {
    /** The four console lines, banner included. */
    function Lines(): seq<string>
    {
      [ "\n=================[ CRITICAL ALERT ]=================",
        "Critical Alert: Cable-" + IntToString(cableId) + " (" + machine + ") has " + timeRemaining
          + " of life remaining.",
        "Replacing this now prevents an outage of " + line + ", saving $12,000 in potential downtime.",
        "====================================================\n" ]
    }
  }

  /** `checkAndAlert`: a notice exactly when the trigger fires, labelled from the lookup. */
  function CheckAndAlert(cableId: int, currentHealth: real, estimatedRulMinutes: real, impact: Option<string>)
    : (n: Option<Notice>)
    ensures n.Some? <==> Fires(currentHealth, estimatedRulMinutes)
    ensures n.Some? ==> && n.value.cableId == cableId
                         && Labels(n.value.machine, n.value.line) == ImpactLabels(impact)
                         && n.value.timeRemaining == TimeRemaining(estimatedRulMinutes)
  {
    if Fires(currentHealth, estimatedRulMinutes) then
      var labels := ImpactLabels(impact);
      Some(Notice(cableId, labels.machine, labels.line, TimeRemaining(estimatedRulMinutes)))
    else None
  }

  /**
   * A low-health cable without a prediction is announced with a negative time: −1 minute is
   * −1/60 hours, which starts with a minus sign.
   */
  lemma NoPredictionShownNegative(cableId: int, currentHealth: real, impact: Option<string>)
    requires currentHealth < HealthTrigger
    ensures var n := CheckAndAlert(cableId, currentHealth, -1.0, impact);
            n.Some? && n.value.timeRemaining[0] == '-'
  {
  }
}
