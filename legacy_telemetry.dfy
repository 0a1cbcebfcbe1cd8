/**
 * The telemetry record of the legacy `topology` service and its store. Timestamps are whole
 * seconds read from a wall clock that never goes back, so two records of a cable may share
 * one second; each history is kept in ascending (non-decreasing) timestamp order.
 */
module LegacyTelemetry {
  import opened Common

  /** One legacy reading: the fields the legacy services read or write. */
  datatype Reading = Reading(
    cableId: int,
    attenuation: real,
    temperature: real,
    load: real,
    health: real,
    timestamp: int,
    lastSeen: int)

  function HistoryOf(samples: map<int, seq<Reading>>, cableId: int): seq<Reading>
  {
    if cableId in samples then samples[cableId] else []
  }

  /** `findTopByCableIdOrderByTimestampDesc`: the newest reading of the cable, if any. */
  function LatestOf(samples: map<int, seq<Reading>>, cableId: int): (r: Option<Reading>)
    ensures r.None? <==> HistoryOf(samples, cableId) == []
    ensures r.Some? ==> r.value == HistoryOf(samples, cableId)[|HistoryOf(samples, cableId)| - 1]
  {
    var h := HistoryOf(samples, cableId);
    if h == [] then None else Some(h[|h| - 1])
  }

  /** `findTop2ByCableIdOrderByTimestampDesc`: at most the two newest readings, newest first. */
  function Top2(history: seq<Reading>): (r: seq<Reading>)
    ensures |r| == if |history| < 2 then |history| else 2
    ensures |r| >= 1 ==> r[0] == history[|history| - 1]
    ensures |r| == 2 ==> r[1] == history[|history| - 2]
  {
    if |history| == 0 then []
    else if |history| == 1 then [history[0]]
    else [history[|history| - 1], history[|history| - 2]]
  }

  /** `save` of a new record: appended to its cable's history, other cables untouched. */
  function Appended(samples: map<int, seq<Reading>>, r: Reading): (m: map<int, seq<Reading>>)
    ensures HistoryOf(m, r.cableId) == HistoryOf(samples, r.cableId) + [r]
    ensures forall c :: c != r.cableId ==> HistoryOf(m, c) == HistoryOf(samples, c)
  {
    samples[r.cableId := HistoryOf(samples, r.cableId) + [r]]
  }

  /** Each history holds only its own cable, in non-decreasing timestamp order. */
  ghost predicate Ordered(samples: map<int, seq<Reading>>)
  {
    forall c | c in samples ::
      && (forall i | 0 <= i < |samples[c]| :: samples[c][i].cableId == c)
      && (forall i, j | 0 <= i < j < |samples[c]| :: samples[c][i].timestamp <= samples[c][j].timestamp)
  }

  /** No stored reading is stamped later than `now`. */
  ghost predicate NotAfter(samples: map<int, seq<Reading>>, now: int)
  {
    forall c | c in samples :: forall i | 0 <= i < |samples[c]| :: samples[c][i].timestamp <= now
  }

  /** Appending a reading stamped `now` keeps the histories ordered and nothing after `now`. */
  lemma AppendKeepsOrder(samples: map<int, seq<Reading>>, now: int, r: Reading)
    requires Ordered(samples) && NotAfter(samples, now) && r.timestamp == now
    ensures Ordered(Appended(samples, r)) && NotAfter(Appended(samples, r), now)
  {
    var m: map<int, seq<Reading>> := Appended(samples, r);
    forall c: int | c in m
      ensures forall i | 0 <= i < |m[c]| :: m[c][i].cableId == c && m[c][i].timestamp <= now
      ensures forall i, j | 0 <= i < j < |m[c]| :: m[c][i].timestamp <= m[c][j].timestamp
    {
      assert m[c] == HistoryOf(m, c);
    }
  }

  /** In an ordered history the newest reading is not older than the one before it. */
  lemma Top2Ordered(samples: map<int, seq<Reading>>, cableId: int)
    requires Ordered(samples)
    requires |HistoryOf(samples, cableId)| >= 2
    ensures Top2(HistoryOf(samples, cableId))[1].timestamp <= Top2(HistoryOf(samples, cableId))[0].timestamp
  {
    var h := HistoryOf(samples, cableId);
    assert cableId in samples && h == samples[cableId];
    assert h[|h| - 2].timestamp <= h[|h| - 1].timestamp;
  }

  /** The in-memory stand-in for the legacy `CableTelemetryRepository`. */
  class ReadingStore {
    var samples: map<int, seq<Reading>>

    ghost predicate Valid()
      reads this
    {
      Ordered(samples)
    }

    constructor ()
      ensures Valid() && samples == map[]
    {
      samples := map[];
    }

    /** `save`: appends a reading stamped no earlier than anything stored. */
    method Save(r: Reading)
      requires Valid() && NotAfter(samples, r.timestamp)
      modifies this
      ensures Valid() && NotAfter(samples, r.timestamp)
      ensures samples == Appended(old(samples), r)
    {
      AppendKeepsOrder(samples, r.timestamp, r);
      samples := Appended(samples, r);
    }
  }
}
