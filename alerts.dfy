/**
 * The alert entity of horizon-service and the in-memory stand-in for `AlertRepository`:
 * a sequence of alerts in insertion order, with one counter that hands out both the
 * generated id and the creation timestamp, so both grow strictly along the sequence.
 */
module Alerts {
  import opened Common

  datatype Severity = Warning | Critical {
    /** The stored severity string. */
    function Name(): string
    {
      match this
      case Warning => "WARNING"
      case Critical => "CRITICAL"
    }
  }

  datatype Alert = Alert(
    id: nat,
    cableId: int,
    severity: Severity,
    message: string,
    timestamp: nat,
    isRead: bool)

  /** The stored alerts, oldest first, and the next id/timestamp to hand out. */
  datatype AlertTable = AlertTable(alerts: seq<Alert>, next: nat)

  /** Ids and timestamps strictly increase along the table and lie below the counter. */
  ghost predicate WellFormed(t: AlertTable)
  {
    && (forall i :: 0 <= i < |t.alerts| ==> t.alerts[i].id < t.next && t.alerts[i].timestamp < t.next)
    && (forall i, j :: 0 <= i < j < |t.alerts| ==>
          t.alerts[i].id < t.alerts[j].id && t.alerts[i].timestamp < t.alerts[j].timestamp)
  }

  /** The anti-spam key: same cable and same severity, whatever the read flag. */
  predicate Matches(a: Alert, cableId: int, severity: Severity)
  {
    a.cableId == cableId && a.severity == severity
  }

  predicate HasAlert(alerts: seq<Alert>, cableId: int, severity: Severity)
  {
    exists i :: 0 <= i < |alerts| && Matches(alerts[i], cableId, severity)
  }

  /** Number of stored alerts with the given key. */
  function CountOf(alerts: seq<Alert>, cableId: int, severity: Severity): (n: nat)
    ensures n <= |alerts|
  {
    if alerts == [] then 0
    else CountOf(alerts[..|alerts| - 1], cableId, severity)
         + (if Matches(alerts[|alerts| - 1], cableId, severity) then 1 else 0)
  }

  /** At most one alert per (cable, severity). */
  ghost predicate UniquePerKey(alerts: seq<Alert>)
  {
    forall i, j :: 0 <= i < j < |alerts| ==>
      !(alerts[i].cableId == alerts[j].cableId && alerts[i].severity == alerts[j].severity)
  }

  /** The key is present exactly when at least one alert carries it. */
  lemma {:induction false} CountPositiveIffPresent(alerts: seq<Alert>, cableId: int, severity: Severity)
    ensures CountOf(alerts, cableId, severity) > 0 <==> HasAlert(alerts, cableId, severity)
  {
    if alerts != [] {
      var prefix := alerts[..|alerts| - 1];
      CountPositiveIffPresent(prefix, cableId, severity);
      if HasAlert(prefix, cableId, severity) {
        var i :| 0 <= i < |prefix| && Matches(prefix[i], cableId, severity);
        assert alerts[i] == prefix[i];
      }
      if HasAlert(alerts, cableId, severity) && !Matches(alerts[|alerts| - 1], cableId, severity) {
        var i :| 0 <= i < |alerts| && Matches(alerts[i], cableId, severity);
        assert prefix[i] == alerts[i];
      }
    }
  }

  /** With unique keys, a key is carried at most once. */
  lemma {:induction false} UniqueCountAtMostOne(alerts: seq<Alert>, cableId: int, severity: Severity)
    requires UniquePerKey(alerts)
    ensures CountOf(alerts, cableId, severity) <= 1
  {
    if alerts != [] {
      var prefix := alerts[..|alerts| - 1];
      assert UniquePerKey(prefix) by {
        forall i, j | 0 <= i < j < |prefix|
          ensures !(prefix[i].cableId == prefix[j].cableId && prefix[i].severity == prefix[j].severity)
        {
          assert prefix[i] == alerts[i] && prefix[j] == alerts[j];
        }
      }
      UniqueCountAtMostOne(prefix, cableId, severity);
      if Matches(alerts[|alerts| - 1], cableId, severity) {
        forall k | 0 <= k < |prefix| ensures !Matches(prefix[k], cableId, severity) {
          assert prefix[k] == alerts[k];
        }
        CountPositiveIffPresent(prefix, cableId, severity);
      }
    }
  }

  /** `save` of a new alert: id and timestamp from the counter, unread. */
  function Inserted(t: AlertTable, cableId: int, severity: Severity, message: string): (r: AlertTable)
    ensures r.next == t.next + 1 && |r.alerts| == |t.alerts| + 1
    ensures r.alerts[..|t.alerts|] == t.alerts
    ensures r.alerts[|t.alerts|] == Alert(t.next, cableId, severity, message, t.next, false)
  {
    AlertTable(t.alerts + [Alert(t.next, cableId, severity, message, t.next, false)], t.next + 1)
  }

  lemma InsertKeepsWellFormed(t: AlertTable, cableId: int, severity: Severity, message: string)
    requires WellFormed(t)
    ensures WellFormed(Inserted(t, cableId, severity, message))
  {
    var r := Inserted(t, cableId, severity, message);
    forall i, j | 0 <= i < j < |r.alerts|
      ensures r.alerts[i].id < r.alerts[j].id && r.alerts[i].timestamp < r.alerts[j].timestamp
    {
      assert r.alerts[i] == t.alerts[i];
    }
  }

  class AlertRepository {
    var alerts: seq<Alert>
    var next: nat

    function Table(): AlertTable
      reads this
    {
      AlertTable(alerts, next)
    }

    ghost predicate Valid()
      reads this
    {
      WellFormed(Table())
    }

    constructor ()
      ensures Valid() && alerts == [] && next == 0
    {
      alerts := [];
      next := 0;
    }

    /** `findAll().stream().anyMatch(...)` on cable and severity: a scan that stops at the first hit. */
    method AnyMatch(cableId: int, severity: Severity) returns (found: bool)
      ensures found == HasAlert(alerts, cableId, severity)
    {
      found := false;
      var i := 0;
      while i < |alerts| && !found
        invariant 0 <= i <= |alerts|
        invariant !found ==> forall k :: 0 <= k < i ==> !Matches(alerts[k], cableId, severity)
        invariant found ==> HasAlert(alerts, cableId, severity)
      {
        if Matches(alerts[i], cableId, severity) {
          found := true;
        }
        i := i + 1;
      }
    }

    /** `save` of a new, unread alert. */
    method Insert(cableId: int, severity: Severity, message: string)
      requires Valid()
      modifies this
      ensures Valid()
      ensures Table() == Inserted(old(Table()), cableId, severity, message)
    {
      InsertKeepsWellFormed(Table(), cableId, severity, message);
      alerts := alerts + [Alert(next, cableId, severity, message, next, false)];
      next := next + 1;
    }

    /** `findById`: the position of the alert with that id, if any. */
    method IndexOfId(id: int) returns (r: Option<nat>)
      ensures r.Some? ==> r.value < |alerts| && alerts[r.value].id == id
      ensures r.None? ==> forall k :: 0 <= k < |alerts| ==> alerts[k].id != id
    {
      var i := 0;
      while i < |alerts|
        invariant 0 <= i <= |alerts|
        invariant forall k :: 0 <= k < i ==> alerts[k].id != id
      {
        if alerts[i].id == id {
          return Some(i);
        }
        i := i + 1;
      }
      return None;
    }

    /** `setRead(true)` followed by `save` of the existing record at position `i`. */
    method MarkAt(i: nat)
      requires Valid() && i < |alerts|
      modifies this
      ensures Valid()
      ensures alerts == old(alerts)[i := old(alerts)[i].(isRead := true)] && next == old(next)
    {
      alerts := alerts[i := alerts[i].(isRead := true)];
    }
  }
}
