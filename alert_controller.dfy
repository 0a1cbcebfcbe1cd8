/**
 * horizon-service `AlertController`: the unread alerts newest first
 * (`findByIsReadFalseOrderByTimestampDesc`), and acknowledging one alert by id.
 */
module AlertController {
  import opened Common
  import opened Alerts
  import opened AlertService

  /** The unread alerts of a table stored oldest first, listed newest first. */
  function ActiveAlerts(alerts: seq<Alert>): (r: seq<Alert>)
    ensures |r| <= |alerts|
  {
    if alerts == [] then []
    else (if alerts[|alerts| - 1].isRead then [] else [alerts[|alerts| - 1]]) + ActiveAlerts(alerts[..|alerts| - 1])
  }

  /** The active list holds exactly the unread alerts. */
  lemma {:induction false} ActiveMembers(alerts: seq<Alert>)
    ensures forall a :: a in ActiveAlerts(alerts) <==> a in alerts && !a.isRead
    decreases |alerts|
  {
    if alerts != [] {
      var prefix := alerts[..|alerts| - 1];
      ActiveMembers(prefix);
      assert alerts == prefix + [alerts[|alerts| - 1]];
    }
  }

  /** Strictly decreasing timestamps. */
  ghost predicate NewestFirst(r: seq<Alert>)
  {
    forall i, j :: 0 <= i < j < |r| ==> r[i].timestamp > r[j].timestamp
  }

  /** Strictly increasing timestamps, as a well-formed table stores them. */
  ghost predicate OldestFirst(s: seq<Alert>)
  {
    forall i, j :: 0 <= i < j < |s| ==> s[i].timestamp < s[j].timestamp
  }

  /** Putting an alert newer than all of a newest-first list in front keeps it newest first. */
  lemma PrependNewest(x: Alert, rest: seq<Alert>)
    requires NewestFirst(rest)
    requires forall a :: a in rest ==> a.timestamp < x.timestamp
    ensures NewestFirst([x] + rest)
  {
    var r := [x] + rest;
    forall i, j | 0 <= i < j < |r| ensures r[i].timestamp > r[j].timestamp {
      assert r[j] == rest[j - 1];
      if i > 0 {
        assert r[i] == rest[i - 1];
      }
    }
  }

  lemma {:induction false} ActiveOfOldestFirst(alerts: seq<Alert>)
    requires OldestFirst(alerts)
    ensures NewestFirst(ActiveAlerts(alerts))
    decreases |alerts|
  {
    if alerts != [] {
      var n := |alerts| - 1;
      var prefix := alerts[..n];
      assert OldestFirst(prefix);
      ActiveOfOldestFirst(prefix);
      var rest := ActiveAlerts(prefix);
      if !alerts[n].isRead {
        ActiveMembers(prefix);
        forall a | a in rest ensures a.timestamp < alerts[n].timestamp {
          var k :| 0 <= k < |prefix| && prefix[k] == a;
          assert alerts[k] == a;
        }
        PrependNewest(alerts[n], rest);
      }
    }
  }

  /** In a well-formed table the active list has strictly decreasing timestamps. */
  lemma ActiveNewestFirst(t: AlertTable)
    requires WellFormed(t)
    ensures NewestFirst(ActiveAlerts(t.alerts))
  {
    ActiveOfOldestFirst(t.alerts);
  }

  /** `markAlertAsRead(id)` on the table: the alert with that id becomes read; nothing else changes. */
  function MarkRead(alerts: seq<Alert>, id: int): (r: seq<Alert>)
    ensures |r| == |alerts|
    ensures forall i :: 0 <= i < |r| ==> r[i].(isRead := alerts[i].isRead) == alerts[i]
    ensures forall i :: 0 <= i < |r| ==> r[i].isRead == (alerts[i].isRead || alerts[i].id == id)
  {
    seq(|alerts|, i requires 0 <= i < |alerts| => if alerts[i].id == id then alerts[i].(isRead := true) else alerts[i])
  }

  /** An unknown id changes nothing. */
  lemma MarkReadUnknown(alerts: seq<Alert>, id: int)
    requires forall i :: 0 <= i < |alerts| ==> alerts[i].id != id
    ensures MarkRead(alerts, id) == alerts
  {
    var r := MarkRead(alerts, id);
    assert forall i :: 0 <= i < |r| ==> r[i] == alerts[i];
  }

  /** Acknowledging twice is the same as acknowledging once. */
  lemma MarkReadIdempotent(alerts: seq<Alert>, id: int)
    ensures MarkRead(MarkRead(alerts, id), id) == MarkRead(alerts, id)
  {
    var once := MarkRead(alerts, id);
    var twice := MarkRead(once, id);
    assert forall i :: 0 <= i < |twice| ==> twice[i] == once[i];
  }

  /** Once acknowledged, an alert no longer shows in the active list. */
  lemma MarkedNotActive(alerts: seq<Alert>, id: int)
    ensures forall a :: a in ActiveAlerts(MarkRead(alerts, id)) ==> a.id != id
  {
    ActiveMembers(MarkRead(alerts, id));
  }

  lemma MarkReadKeepsWellFormed(t: AlertTable, id: int)
    requires WellFormed(t)
    ensures WellFormed(AlertTable(MarkRead(t.alerts, id), t.next))
  {
  }

  /**
   * Acknowledging an alert does not re-arm the anti-spam gate: every (cable, severity) key
   * is present after `MarkRead` exactly when it was before, so a repeated low reading
   * still adds nothing.
   */
  lemma AcknowledgeDoesNotRearm(t: AlertTable, id: int, cableId: int, health: real, rulDays: real,
                                impact: Option<string>)
    ensures forall c, s :: HasAlert(MarkRead(t.alerts, id), c, s) <==> HasAlert(t.alerts, c, s)
    ensures var m := AlertTable(MarkRead(t.alerts, id), t.next);
            HasAlert(t.alerts, cableId, SeverityFor(health)) ==>
              TableAfterCheck(m, cableId, health, rulDays, impact) == m
  {
    var m := MarkRead(t.alerts, id);
    forall c, s ensures HasAlert(m, c, s) <==> HasAlert(t.alerts, c, s) {
      if HasAlert(m, c, s) {
        var i :| 0 <= i < |m| && Matches(m[i], c, s);
        assert Matches(t.alerts[i], c, s);
      }
      if HasAlert(t.alerts, c, s) {
        var i :| 0 <= i < |t.alerts| && Matches(t.alerts[i], c, s);
        assert Matches(m[i], c, s);
      }
    }
  }

  /** `getActiveAlerts`: one pass over the stored alerts, each unread one put in front. */
  method GetActiveAlerts(repo: AlertRepository) returns (active: seq<Alert>)
    ensures active == ActiveAlerts(repo.alerts)
  {
    var alerts := repo.alerts;
    active := [];
    var i := 0;
    while i < |alerts|
      invariant 0 <= i <= |alerts|
      invariant active == ActiveAlerts(alerts[..i])
    {
      ghost var next := alerts[..i + 1];
      assert next[..i] == alerts[..i] && next[i] == alerts[i];
      assert ActiveAlerts(next) == (if alerts[i].isRead then [] else [alerts[i]]) + ActiveAlerts(alerts[..i]);
      if !alerts[i].isRead {
        active := [alerts[i]] + active;
      }
      i := i + 1;
    }
    assert alerts[..i] == alerts;
  }

  /** `markAlertAsRead`: find the alert by id and, if present, store it back with the read flag set. */
  method MarkAlertAsRead(repo: AlertRepository, id: int)
    requires repo.Valid()
    modifies repo
    ensures repo.Valid()
    ensures repo.alerts == MarkRead(old(repo.alerts), id) && repo.next == old(repo.next)
  {
    var found := repo.IndexOfId(id);
    if found.Some? {
      var i := found.value;
      ghost var before := repo.alerts;
      repo.MarkAt(i);
      assert forall k :: 0 <= k < |before| && k != i ==> before[k].id != id by {
        forall k | 0 <= k < |before| && k != i ensures before[k].id != id {
          if k < i { assert before[k].id < before[i].id; }
          else { assert before[i].id < before[k].id; }
        }
      }
      assert repo.alerts == MarkRead(before, id);
    } else {
      MarkReadUnknown(repo.alerts, id);
    }
  }
}
