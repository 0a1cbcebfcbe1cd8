/**
 * The telemetry record of horizon-service and its append-only store: a map from cable id
 * to that cable's samples in ascending timestamp order, stamped from a strictly increasing clock.
 */
module Telemetry {
  import opened Common

  /** One reading of one cable. Carries every field the services read or write. */
  datatype Sample = Sample(
    cableId: int,
    attenuation: real,
    temperature: real,
    load: real,
    snr: real,
    mse: real,
    health: real,
    rulInDays: real,
    timestamp: int,
    lastSeen: int)

  function HistoryOf(samples: map<int, seq<Sample>>, cableId: int): seq<Sample>
  {
    if cableId in samples then samples[cableId] else []
  }

  /** `findTopByCableIdOrderByTimestampDesc`: the newest sample of the cable, if any. */
  function LatestOf(samples: map<int, seq<Sample>>, cableId: int): (r: Option<Sample>)
    ensures r.None? <==> HistoryOf(samples, cableId) == []
    ensures r.Some? ==> r.value == HistoryOf(samples, cableId)[|HistoryOf(samples, cableId)| - 1]
  {
    var h := HistoryOf(samples, cableId);
    if h == [] then None else Some(h[|h| - 1])
  }

  /** `repository.save` of a new record: appended to its cable's history, other cables untouched. */
  function Appended(samples: map<int, seq<Sample>>, s: Sample): (r: map<int, seq<Sample>>)
    ensures HistoryOf(r, s.cableId) == HistoryOf(samples, s.cableId) + [s]
    ensures forall c :: c != s.cableId ==> HistoryOf(r, c) == HistoryOf(samples, c)
  {
    samples[s.cableId := HistoryOf(samples, s.cableId) + [s]]
  }

  /** Each history holds only its own cable, in strictly ascending timestamp order, all before `clock`. */
  ghost predicate Ordered(samples: map<int, seq<Sample>>, clock: int)
  {
    forall c | c in samples ::
      && (forall i | 0 <= i < |samples[c]| :: samples[c][i].cableId == c && samples[c][i].timestamp < clock)
      && (forall i, j | 0 <= i < j < |samples[c]| :: samples[c][i].timestamp < samples[c][j].timestamp)
  }

  /** In an ordered store the last sample of a history is the one with the greatest timestamp. */
  lemma LatestIsNewest(samples: map<int, seq<Sample>>, clock: int, cableId: int)
    requires Ordered(samples, clock)
    requires LatestOf(samples, cableId).Some?
    ensures forall s | s in HistoryOf(samples, cableId) :: s.timestamp <= LatestOf(samples, cableId).value.timestamp
  {
    var h := HistoryOf(samples, cableId);
    forall s | s in h ensures s.timestamp <= h[|h| - 1].timestamp {
      var i :| 0 <= i < |h| && h[i] == s;
      if i < |h| - 1 {
        assert h[i].timestamp < h[|h| - 1].timestamp;
      }
    }
  }

  lemma AppendKeepsOrder(samples: map<int, seq<Sample>>, clock: int, s: Sample)
    requires Ordered(samples, clock) && s.timestamp == clock
    ensures Ordered(Appended(samples, s), clock + 1)
  {
    var r: map<int, seq<Sample>> := Appended(samples, s);
    forall c: int | c in r
      ensures forall i | 0 <= i < |r[c]| :: r[c][i].cableId == c && r[c][i].timestamp < clock + 1
      ensures forall i, j | 0 <= i < j < |r[c]| :: r[c][i].timestamp < r[c][j].timestamp
    {
      assert r[c] == HistoryOf(r, c);
    }
  }

  /** The in-memory stand-in for `CableTelemetryRepository`. */
  class TelemetryStore {
    var samples: map<int, seq<Sample>>
    var clock: int

    ghost predicate Valid()
      reads this
    {
      Ordered(samples, clock)
    }

    constructor ()
      ensures Valid() && samples == map[] && clock == 0
    {
      samples := map[];
      clock := 0;
    }

    /** Appends a record stamped with the current clock value and advances the clock. */
    method Save(s: Sample)
      requires Valid() && s.timestamp == clock
      modifies this
      ensures Valid()
      ensures samples == Appended(old(samples), s) && clock == old(clock) + 1
    {
      AppendKeepsOrder(samples, clock, s);
      samples := Appended(samples, s);
      clock := clock + 1;
    }
  }
}
