/**
 * horizon-service `AlertService.checkAndAlert`: below the warning threshold, build a message
 * from the cable's machine and line labels and insert an alert unless one with the same cable
 * and severity is already stored, read or not. The topology lookup for unknown cables is an input.
 */
module AlertService {
  import opened Common
  import opened Text
  import opened Alerts

  const WarningThreshold: real := 50.0
  const CriticalThreshold: real := 20.0

  const GenericMachine: string := "Generic Asset"
  const GenericLine: string := "General Floor"

  /** The fallback "Generic Asset::General Floor" used when the topology lookup finds nothing. */
  const DefaultImpact: string := GenericMachine + "::" + GenericLine

  /** CRITICAL at or below 20, WARNING above it. */
  function SeverityFor(health: real): (s: Severity)
    ensures s == Critical <==> health <= CriticalThreshold
    ensures s == Warning <==> health > CriticalThreshold
  {
    if health <= CriticalThreshold then Critical else Warning
  }

  /** `Long.intValue()`: the low 32 bits, read as a signed two's-complement number. */
  function IntValue(x: int): (r: int)
    ensures -0x8000_0000 <= r < 0x8000_0000
    ensures (x - r) % 0x1_0000_0000 == 0
    ensures -0x8000_0000 <= x < 0x8000_0000 ==> r == x
  {
    var low := x % 0x1_0000_0000;
    if low >= 0x8000_0000 then low - 0x1_0000_0000 else low
  }

  /** Ids that differ by a multiple of 2^32 land on the same switch case: 2^32 + 1 is treated as cable 1. */
  lemma WrappedIdAliases()
    ensures IntValue(0x1_0000_0001) == 1
  {
  }

  datatype Labels = Labels(machine: string, line: string)

  /** The default branch of the switch: split the lookup result (or its fallback) on "::". */
  function LookupLabels(impact: Option<string>): Labels
  {
    var parts := JavaSplit(impact.GetOr(DefaultImpact));
    Labels(if |parts| > 0 then parts[0] else GenericMachine,
           if |parts| > 1 then parts[1] else GenericLine)
  }

  /** Machine and line names: fixed for cables 1 to 3, from the topology lookup otherwise. */
  function ImpactLabels(cableId: int, impact: Option<string>): (r: Labels)
    ensures IntValue(cableId) == 1 ==> r == Labels("Robot-Arm", "Assembly-Line-3")
    ensures IntValue(cableId) == 2 ==> r == Labels("Cable 2", "Data Link")
    ensures IntValue(cableId) == 3 ==> r == Labels("HVAC Cooling", "Aux Power 1")
    ensures !(1 <= IntValue(cableId) <= 3) ==> r == LookupLabels(impact)
  {
    match IntValue(cableId)
    case 1 => Labels("Robot-Arm", "Assembly-Line-3")
    case 2 => Labels("Cable 2", "Data Link")
    case 3 => Labels("HVAC Cooling", "Aux Power 1")
    case _ => LookupLabels(impact)
  }

  /** A missing lookup yields the generic labels. */
  lemma LookupMissing()
    ensures LookupLabels(None) == Labels(GenericMachine, GenericLine)
  {
    SplitJoined(GenericMachine, GenericLine);
  }

  /** A well-formed "machine::line" lookup yields exactly its two parts. */
  lemma LookupPair(m: string, l: string)
    requires ':' !in m && ':' !in l && l != ""
    ensures LookupLabels(Some(m + "::" + l)) == Labels(m, l)
  {
    SplitJoined(m, l);
  }

  /** A lookup without "::" names the machine only; the line falls back to "General Floor". */
  lemma LookupWithoutSeparator(s: string)
    requires !HasSeparator(s)
    ensures LookupLabels(Some(s)) == Labels(s, GenericLine)
  {
    SplitNoSeparator(s);
  }

  /** A bare "::" splits into nothing, so both labels fall back. */
  lemma LookupOnlySeparator()
    ensures LookupLabels(Some("::")) == Labels(GenericMachine, GenericLine)
  {
    assert "::"[0] == ':' && "::"[1] == ':';
    assert SplitPieces("::") == [""] + SplitPieces("::"[2..]);
    assert "::"[2..] == "";
    assert JavaSplit("::") == DropTrailingEmpty(["", ""]);
    assert ["", ""][..1] == [""];
    assert [""][..0] == [];
  }

  /** "IMMEDIATE" exactly when no time is left; otherwise the days to one decimal. */
  function TimeDisplay(rulDays: real): (text: string)
    ensures rulDays <= 0.0 <==> text == "IMMEDIATE"
    ensures rulDays > 0.0 ==> text == FormatOneDecimal(rulDays) + " Days"
  {
    if rulDays <= 0.0 then "IMMEDIATE"
    else
      var text := FormatOneDecimal(rulDays) + " Days";
      assert text[|text| - 1] == 's';
      text
  }

  function AlertMessage(cableId: int, labels: Labels, health: real, rulDays: real): string
  {
    "Asset #" + IntToString(cableId) + " (" + labels.machine + ") on " + labels.line
      + " health dropped to " + IntToString(Round(health)) + "%. RUL: " + TimeDisplay(rulDays) + "."
  }

  /**
   * The alert table after one call. Nothing changes at or above the warning threshold or
   * when the (cable, severity) key is already stored; otherwise exactly one unread alert
   * with that key is appended and every stored alert is kept as it was.
   */
  function TableAfterCheck(t: AlertTable, cableId: int, health: real, rulDays: real, impact: Option<string>)
    : (r: AlertTable)
    ensures |t.alerts| <= |r.alerts| <= |t.alerts| + 1
    ensures r.alerts[..|t.alerts|] == t.alerts
    ensures health >= WarningThreshold ==> r == t
    ensures |r.alerts| == |t.alerts| + 1 <==>
              health < WarningThreshold && !HasAlert(t.alerts, cableId, SeverityFor(health))
    ensures |r.alerts| == |t.alerts| ==> r == t
    ensures |r.alerts| == |t.alerts| + 1 ==>
              && r.next == t.next + 1
              && r.alerts[|t.alerts|] ==
                   Alert(t.next, cableId, SeverityFor(health),
                         AlertMessage(cableId, ImpactLabels(cableId, impact), health, rulDays), t.next, false)
    ensures health < WarningThreshold ==> HasAlert(r.alerts, cableId, SeverityFor(health))
  {
    if health < WarningThreshold then
      var severity := SeverityFor(health);
      if HasAlert(t.alerts, cableId, severity) then t
      else
        var r := Inserted(t, cableId, severity, AlertMessage(cableId, ImpactLabels(cableId, impact), health, rulDays));
        assert Matches(r.alerts[|t.alerts|], cableId, severity);
        r
    else t
  }

  lemma CheckKeepsWellFormed(t: AlertTable, cableId: int, health: real, rulDays: real, impact: Option<string>)
    requires WellFormed(t)
    ensures WellFormed(TableAfterCheck(t, cableId, health, rulDays, impact))
  {
    if health < WarningThreshold && !HasAlert(t.alerts, cableId, SeverityFor(health)) {
      InsertKeepsWellFormed(t, cableId, SeverityFor(health),
                            AlertMessage(cableId, ImpactLabels(cableId, impact), health, rulDays));
    }
  }

  /** The gate keeps at most one alert per (cable, severity). */
  lemma CheckKeepsUnique(t: AlertTable, cableId: int, health: real, rulDays: real, impact: Option<string>)
    requires UniquePerKey(t.alerts)
    ensures UniquePerKey(TableAfterCheck(t, cableId, health, rulDays, impact).alerts)
  {
    var r := TableAfterCheck(t, cableId, health, rulDays, impact);
    if |r.alerts| == |t.alerts| + 1 {
      var n := |t.alerts|;
      forall i, j | 0 <= i < j < |r.alerts|
        ensures !(r.alerts[i].cableId == r.alerts[j].cableId && r.alerts[i].severity == r.alerts[j].severity)
      {
        assert r.alerts[i] == t.alerts[i];
        if j == n {
          assert !Matches(t.alerts[i], cableId, SeverityFor(health));
        } else {
          assert r.alerts[j] == t.alerts[j];
        }
      }
    }
  }

  /** `k` successive calls with the same arguments. */
  function RepeatCheck(t: AlertTable, k: nat, cableId: int, health: real, rulDays: real, impact: Option<string>)
    : AlertTable
  {
    if k == 0 then t
    else TableAfterCheck(RepeatCheck(t, k - 1, cableId, health, rulDays, impact), cableId, health, rulDays, impact)
  }

  lemma CountAfterInsert(t: AlertTable, cableId: int, severity: Severity, message: string)
    ensures CountOf(Inserted(t, cableId, severity, message).alerts, cableId, severity) == CountOf(t.alerts, cableId, severity) + 1
  {
    var r := Inserted(t, cableId, severity, message);
    assert r.alerts[..|r.alerts| - 1] == t.alerts;
  }

  /**
   * However often the same low reading is reported, the store ends up holding exactly one
   * alert for that cable and severity (for example, repeated health 40 leaves one WARNING).
   */
  lemma {:induction false} RepeatedChecksLeaveOne(t: AlertTable, k: nat, cableId: int, health: real, rulDays: real,
                                                  impact: Option<string>)
    requires k >= 1 && health < WarningThreshold
    requires CountOf(t.alerts, cableId, SeverityFor(health)) <= 1
    ensures CountOf(RepeatCheck(t, k, cableId, health, rulDays, impact).alerts, cableId, SeverityFor(health)) == 1
  {
    var severity := SeverityFor(health);
    var prev := RepeatCheck(t, k - 1, cableId, health, rulDays, impact);
    if k == 1 {
      assert prev == t;
    } else {
      RepeatedChecksLeaveOne(t, k - 1, cableId, health, rulDays, impact);
    }
    CountPositiveIffPresent(prev.alerts, cableId, severity);
    if !HasAlert(prev.alerts, cableId, severity) {
      CountAfterInsert(prev, cableId, severity, AlertMessage(cableId, ImpactLabels(cableId, impact), health, rulDays));
    }
  }

  /** Repeated health-40 reports on a cable without alerts leave exactly one WARNING for it. */
  lemma RepeatedWarning(t: AlertTable, k: nat, cableId: int, rulDays: real, impact: Option<string>)
    requires k >= 1 && !HasAlert(t.alerts, cableId, Warning)
    ensures SeverityFor(40.0) == Warning
    ensures CountOf(RepeatCheck(t, k, cableId, 40.0, rulDays, impact).alerts, cableId, Warning) == 1
  {
    CountPositiveIffPresent(t.alerts, cableId, Warning);
    RepeatedChecksLeaveOne(t, k, cableId, 40.0, rulDays, impact);
  }

  /** One `checkAndAlert(cableId, currentHealth, estimatedRulDays)` call made by a caller. */
  datatype AlertCall = AlertCall(cableId: int, health: real, rulDays: real)

  /** The alert table after a sequence of calls, in order; `impact` is the topology lookup per cable. */
  function ReplayChecks(t: AlertTable, calls: seq<AlertCall>, impact: int -> Option<string>): (r: AlertTable)
    ensures |t.alerts| <= |r.alerts| <= |t.alerts| + |calls|
    ensures r.alerts[..|t.alerts|] == t.alerts
  {
    if calls == [] then t
    else
      var c := calls[|calls| - 1];
      var before := ReplayChecks(t, calls[..|calls| - 1], impact);
      var r := TableAfterCheck(before, c.cableId, c.health, c.rulDays, impact(c.cableId));
      assert r.alerts[..|t.alerts|] == r.alerts[..|before.alerts|][..|t.alerts|];
      r
  }

  /** Any sequence of calls keeps at most one alert per (cable, severity). */
  lemma {:induction false} ReplayKeepsUnique(t: AlertTable, calls: seq<AlertCall>, impact: int -> Option<string>)
    requires UniquePerKey(t.alerts)
    ensures UniquePerKey(ReplayChecks(t, calls, impact).alerts)
  {
    if calls != [] {
      var c := calls[|calls| - 1];
      ReplayKeepsUnique(t, calls[..|calls| - 1], impact);
      CheckKeepsUnique(ReplayChecks(t, calls[..|calls| - 1], impact), c.cableId, c.health, c.rulDays, impact(c.cableId));
    }
  }

  /** `checkAndAlert` on the repository. */
  method CheckAndAlert(repo: AlertRepository, cableId: int, currentHealth: real, estimatedRulDays: real,
                       impact: Option<string>)
    requires repo.Valid()
    modifies repo
    ensures repo.Valid()
    ensures repo.Table() == TableAfterCheck(old(repo.Table()), cableId, currentHealth, estimatedRulDays, impact)
  {
    if currentHealth < WarningThreshold {
      var labels := ImpactLabels(cableId, impact);
      var severity := SeverityFor(currentHealth);
      var message := AlertMessage(cableId, labels, currentHealth, estimatedRulDays);
      var alreadyExists := repo.AnyMatch(cableId, severity);
      if !alreadyExists {
        repo.Insert(cableId, severity, message);
      }
    }
  }
}
