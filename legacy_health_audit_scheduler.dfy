/**
 * The legacy `topology` `HealthAuditScheduler.performGlobalHealthAudit`: every tick advances
 * the virtual day counter by 5 and, for each cable whose latest reading is still alive,
 * stores a reading 4 degrees hotter with 0.6 more attenuation, then computes the minute RUL
 * from the store (so from the new reading and the one before it) and runs the alert check.
 * The cable list, the topology lookup and the wall clock are inputs.
 */
module LegacyHealthAuditScheduler {
  import opened Common
  import opened LegacyTelemetry
  import opened LegacyRulService
  import opened LegacyAlertService

  const SimulationStepDays: int := 5
  /** A reading whose health is the legacy formula applied to its own fields at age 2. */
  ghost predicate Consistent(r: Reading)
  {
    r.health == CalculateHealth(r.attenuation, r.temperature, r.load, DefaultAgeYears)
  }

  /** The reading the tick derives from the cable's latest one, stamped `now`. */
  function Decayed(cableId: int, last: Reading, now: int): (r: Reading)
    ensures r.cableId == cableId && r.timestamp == now && r.lastSeen == now
    ensures r.temperature == last.temperature + 4.0 && r.attenuation == last.attenuation + 0.6
    ensures r.load == last.load
    ensures Consistent(r)
  {
    var newTemp := last.temperature + 4.0;
    var newAttn := last.attenuation + 0.6;
    Reading(cableId, newAttn, newTemp, last.load, CalculateHealth(newAttn, newTemp, last.load, DefaultAgeYears), now, now)
  }

  /** One tick costs exactly 7.2 points of the formula: 2 · 0.6 for attenuation and 1.5 · 4 for heat. */
  lemma DecayCostsSevenPointTwo(cableId: int, last: Reading, now: int)
    ensures Decayed(cableId, last, now).health
            == CalculateHealth(last.attenuation, last.temperature, last.load, DefaultAgeYears) - 7.2
    ensures Consistent(last) ==> Decayed(cableId, last, now).health == last.health - 7.2
  {
  }

  /** `k` ticks in a row from `last`, one second apart. */
  function DecayChain(last: Reading, k: nat): Reading
  {
    if k == 0 then last else Decayed(last.cableId, DecayChain(last, k - 1), last.timestamp + k)
  }

  lemma {:induction false} ChainHealth(last: Reading, k: nat)
    requires k >= 1
    ensures DecayChain(last, k).health
            == CalculateHealth(last.attenuation, last.temperature, last.load, DefaultAgeYears) - 7.2 * (k as real)
  {
    var prev := DecayChain(last, k - 1);
    if k == 1 {
      DecayCostsSevenPointTwo(last.cableId, last, last.timestamp + 1);
    } else {
      ChainHealth(last, k - 1);
      DecayCostsSevenPointTwo(last.cableId, prev, last.timestamp + k);
    }
  }

  /** A reading whose formula value is at most 100 is at or below zero after 14 ticks (14 · 7.2 = 100.8). */
  lemma FailureWithin14Ticks(last: Reading)
    requires CalculateHealth(last.attenuation, last.temperature, last.load, DefaultAgeYears) <= 100.0
    ensures DecayChain(last, 14).health <= 0.0
  {
    ChainHealth(last, 14);
  }

  /** The store and the notices written so far in the tick. */
  datatype AuditState = AuditState(samples: map<int, seq<Reading>>, notices: seq<Notice>)

  /** A cable with no reading or a failed latest reading is left alone. */
  predicate Skipped(samples: map<int, seq<Reading>>, cableId: int)
  {
    LatestOf(samples, cableId).None? || LatestOf(samples, cableId).value.health <= 0.0
  }

  /** The notices of one alert check, as a sequence. */
  function NoticesOf(n: Option<Notice>): seq<Notice>
  {
    if n.Some? then [n.value] else []
  }

  /**
   * The tick's work for one cable: nothing for a skipped cable; otherwise one appended reading,
   * decayed from the latest one, and the alert check on its health and on the RUL of the store
   * that already holds it.
   */
  function AuditCable(st: AuditState, cableId: int, impact: int -> Option<string>, now: int): (r: AuditState)
    ensures Skipped(st.samples, cableId) ==> r == st
    ensures !Skipped(st.samples, cableId) ==>
              var s := Decayed(cableId, LatestOf(st.samples, cableId).value, now);
              && r.samples == Appended(st.samples, s)
              && r.notices == st.notices
                              + NoticesOf(CheckAndAlert(cableId, s.health, CalculateRul(r.samples, cableId), impact(cableId)))
  {
    if Skipped(st.samples, cableId) then st
    else
      var s := Decayed(cableId, LatestOf(st.samples, cableId).value, now);
      var samples := Appended(st.samples, s);
      var rul := CalculateRul(samples, cableId);
      AuditState(samples, st.notices + NoticesOf(CheckAndAlert(cableId, s.health, rul, impact(cableId))))
  }

  /** The whole tick: the cables in topology order. */
  function AuditAll(st: AuditState, cables: seq<int>, impact: int -> Option<string>, now: int): AuditState
  {
    if cables == [] then st
    else AuditCable(AuditAll(st, cables[..|cables| - 1], impact, now), cables[|cables| - 1], impact, now)
  }

  /**
   * The RUL is computed after the save, so it compares the new reading with the latest one
   * before the tick: with `now` no earlier than that one, the result is positive exactly when the
   * new health is above 40 and below the old one, which for a consistent old reading is always
   * the case above 40.
   */
  lemma RulAfterSave(samples: map<int, seq<Reading>>, cableId: int, now: int)
    requires Ordered(samples) && NotAfter(samples, now) && !Skipped(samples, cableId)
    ensures var last := LatestOf(samples, cableId).value;
            var s := Decayed(cableId, last, now);
            && CalculateRul(Appended(samples, s), cableId) == RulOf([s, last])
            && (CalculateRul(Appended(samples, s), cableId) > 0.0 <==>
                  s.health > FailureThreshold && last.health > s.health)
            && (Consistent(last) && s.health > FailureThreshold ==> CalculateRul(Appended(samples, s), cableId) > 0.0)
  {
    var last := LatestOf(samples, cableId).value;
    var h := HistoryOf(samples, cableId);
    assert cableId in samples && h == samples[cableId];
    assert last.timestamp <= now;
    var s := Decayed(cableId, last, now);
    var h2 := HistoryOf(Appended(samples, s), cableId);
    assert h2[|h2| - 1] == s && h2[|h2| - 2] == last;
    DecayCostsSevenPointTwo(cableId, last, now);
  }

  /** A cable not in the list keeps its history. */
  lemma {:induction false} AuditOthersUnchanged(st: AuditState, cables: seq<int>, impact: int -> Option<string>,
                                                now: int, c: int)
    requires c !in cables
    ensures HistoryOf(AuditAll(st, cables, impact, now).samples, c) == HistoryOf(st.samples, c)
  {
    if cables != [] {
      AuditOthersUnchanged(st, cables[..|cables| - 1], impact, now, c);
    }
  }

  /** A skipped cable stays frozen for the whole tick. */
  lemma {:induction false} SkippedCableFrozen(st: AuditState, cables: seq<int>, impact: int -> Option<string>,
                                              now: int, c: int)
    requires Skipped(st.samples, c)
    ensures HistoryOf(AuditAll(st, cables, impact, now).samples, c) == HistoryOf(st.samples, c)
  {
    if cables != [] {
      var before := AuditAll(st, cables[..|cables| - 1], impact, now);
      SkippedCableFrozen(st, cables[..|cables| - 1], impact, now, c);
      assert LatestOf(before.samples, c) == LatestOf(st.samples, c);
    }
  }

  ghost predicate Distinct(cables: seq<int>)
  {
    forall i, j :: 0 <= i < j < |cables| ==> cables[i] != cables[j]
  }

  /** With distinct cable ids, a live cable gets exactly one reading, decayed from its latest one. */
  lemma {:induction false} LiveCableGetsOneReading(st: AuditState, cables: seq<int>, impact: int -> Option<string>,
                                                   now: int, c: int)
    requires Distinct(cables) && c in cables && !Skipped(st.samples, c)
    ensures HistoryOf(AuditAll(st, cables, impact, now).samples, c)
            == HistoryOf(st.samples, c) + [Decayed(c, LatestOf(st.samples, c).value, now)]
  {
    var n := |cables| - 1;
    var prefix := cables[..n];
    if cables[n] == c {
      assert c !in prefix by {
        forall i | 0 <= i < |prefix| ensures prefix[i] != c {
          assert cables[i] == prefix[i];
        }
      }
      AuditOthersUnchanged(st, prefix, impact, now, c);
      var before := AuditAll(st, prefix, impact, now);
      assert LatestOf(before.samples, c) == LatestOf(st.samples, c);
    } else {
      assert Distinct(prefix) by {
        forall i, j | 0 <= i < j < |prefix| ensures prefix[i] != prefix[j] {
          assert prefix[i] == cables[i] && prefix[j] == cables[j];
        }
      }
      var k :| 0 <= k < |cables| && cables[k] == c;
      assert prefix[k] == c;
      LiveCableGetsOneReading(st, prefix, impact, now, c);
    }
  }

  lemma {:induction false} AuditKeepsOrder(st: AuditState, cables: seq<int>, impact: int -> Option<string>, now: int)
    requires Ordered(st.samples) && NotAfter(st.samples, now)
    ensures Ordered(AuditAll(st, cables, impact, now).samples) && NotAfter(AuditAll(st, cables, impact, now).samples, now)
  {
    if cables != [] {
      var before := AuditAll(st, cables[..|cables| - 1], impact, now);
      AuditKeepsOrder(st, cables[..|cables| - 1], impact, now);
      var c := cables[|cables| - 1];
      if !Skipped(before.samples, c) {
        AppendKeepsOrder(before.samples, now, Decayed(c, LatestOf(before.samples, c).value, now));
      }
    }
  }

  /** Two readings with the same fields and health; the cable id and timestamps may differ. */
  ghost predicate SameReadings(a: Reading, b: Reading)
  {
    a.attenuation == b.attenuation && a.temperature == b.temperature && a.load == b.load && a.health == b.health
  }

  /** Successive ticks over the same cable list, one per entry of `nows`, stamped with it. */
  function Ticks(st: AuditState, cables: seq<int>, impact: int -> Option<string>, nows: seq<int>): AuditState
  {
    if nows == [] then st
    else AuditAll(Ticks(st, cables, impact, nows[..|nows| - 1]), cables, impact, nows[|nows| - 1])
  }

  /** A skipped cable stays frozen for any number of ticks. */
  lemma {:induction false} FrozenForTicks(st: AuditState, cables: seq<int>, impact: int -> Option<string>,
                                          nows: seq<int>, c: int)
    requires Skipped(st.samples, c)
    ensures HistoryOf(Ticks(st, cables, impact, nows).samples, c) == HistoryOf(st.samples, c)
  {
    if nows != [] {
      var before := Ticks(st, cables, impact, nows[..|nows| - 1]);
      FrozenForTicks(st, cables, impact, nows[..|nows| - 1], c);
      assert LatestOf(before.samples, c) == LatestOf(st.samples, c);
      SkippedCableFrozen(before, cables, impact, nows[|nows| - 1], c);
    }
  }

  /** One tick: a failed latest reading is kept, a live one is replaced by its decay stamped `now`. */
  lemma TickStep(before: AuditState, cables: seq<int>, impact: int -> Option<string>, now: int, c: int)
    requires Distinct(cables) && c in cables && LatestOf(before.samples, c).Some?
    ensures var l := LatestOf(before.samples, c).value;
            var after := LatestOf(AuditAll(before, cables, impact, now).samples, c);
            && after.Some?
            && (l.health <= 0.0 ==> after.value == l)
            && (l.health > 0.0 ==> after.value == Decayed(c, l, now))
  {
    if LatestOf(before.samples, c).value.health <= 0.0 {
      SkippedCableFrozen(before, cables, impact, now, c);
    } else {
      LiveCableGetsOneReading(before, cables, impact, now, c);
    }
  }

  /** One tick moves a latest reading that tracks step k - 1 of a decay chain on to step k. */
  lemma StepFollowsChain(before: AuditState, cables: seq<int>, impact: int -> Option<string>, now: int,
                         c: int, first: Reading, k: nat)
    requires Distinct(cables) && c in cables && LatestOf(before.samples, c).Some? && k > 0
    requires var prev := LatestOf(before.samples, c).value;
             prev.health <= 0.0 || SameReadings(prev, DecayChain(first, k - 1))
    ensures var prev := LatestOf(before.samples, c).value;
            var l := LatestOf(AuditAll(before, cables, impact, now).samples, c);
            && l.Some?
            && (l.value.health <= 0.0 || SameReadings(l.value, DecayChain(first, k)))
            && (prev.health > 0.0 ==> SameReadings(l.value, DecayChain(first, k)))
  {
    TickStep(before, cables, impact, now, c);
    assert DecayChain(first, k) == Decayed(first.cableId, DecayChain(first, k - 1), first.timestamp + k);
  }

  /**
   * Over successive ticks a cable's latest reading follows the decay chain of its starting
   * reading: it has the chain's fields and health as long as every earlier step kept a positive
   * health, and otherwise it is a failed reading, which the ticks then leave alone.
   */
  lemma {:induction false} TicksFollowChain(st: AuditState, cables: seq<int>, impact: int -> Option<string>,
                                            nows: seq<int>, c: int)
    requires Distinct(cables) && c in cables && LatestOf(st.samples, c).Some?
    ensures var l := LatestOf(Ticks(st, cables, impact, nows).samples, c);
            var first := LatestOf(st.samples, c).value;
            && l.Some?
            && (l.value.health <= 0.0 || SameReadings(l.value, DecayChain(first, |nows|)))
            && ((forall j :: 0 <= j < |nows| ==> DecayChain(first, j).health > 0.0) ==>
                  SameReadings(l.value, DecayChain(first, |nows|)))
  {
    if nows != [] {
      var k := |nows|;
      var first := LatestOf(st.samples, c).value;
      var earlier := nows[..k - 1];
      var before := Ticks(st, cables, impact, earlier);
      TicksFollowChain(st, cables, impact, earlier, c);
      assert |earlier| == k - 1;
      StepFollowsChain(before, cables, impact, nows[k - 1], c, first, k);
      assert Ticks(st, cables, impact, nows) == AuditAll(before, cables, impact, nows[k - 1]);
    }
  }

  /** A live cable whose formula value is at most 100 has failed after 14 ticks, whatever their clocks. */
  lemma FailedAfter14Ticks(st: AuditState, cables: seq<int>, impact: int -> Option<string>, nows: seq<int>, c: int)
    requires Distinct(cables) && c in cables && LatestOf(st.samples, c).Some? && |nows| == 14
    requires var first := LatestOf(st.samples, c).value;
             CalculateHealth(first.attenuation, first.temperature, first.load, DefaultAgeYears) <= 100.0
    ensures LatestOf(Ticks(st, cables, impact, nows).samples, c).Some?
    ensures LatestOf(Ticks(st, cables, impact, nows).samples, c).value.health <= 0.0
  {
    TicksFollowChain(st, cables, impact, nows, c);
    FailureWithin14Ticks(LatestOf(st.samples, c).value);
  }

  /** The body of the tick for one cable: the store and the notices advance as `AuditCable` prescribes. */
  method AuditStep(cableId: int, telemetryRepository: ReadingStore, impact: int -> Option<string>, now: int)
    returns (written: seq<Notice>)
    requires telemetryRepository.Valid() && NotAfter(telemetryRepository.samples, now)
    modifies telemetryRepository
    ensures telemetryRepository.Valid() && NotAfter(telemetryRepository.samples, now)
    ensures var st := AuditCable(AuditState(old(telemetryRepository.samples), []), cableId, impact, now);
            telemetryRepository.samples == st.samples && written == st.notices
  {
    written := [];
    var latest := LatestOf(telemetryRepository.samples, cableId);
    if latest.Some? && latest.value.health > 0.0 {
      var lastData := latest.value;
      var newTemp := lastData.temperature + 4.0;
      var newAttn := lastData.attenuation + 0.6;
      var currentLoad := lastData.load;
      var currentHealth := CalculateHealth(newAttn, newTemp, currentLoad, DefaultAgeYears);
      var newRecord := Reading(cableId, newAttn, newTemp, currentLoad, currentHealth, now, now);
      assert newRecord == Decayed(cableId, lastData, now);
      telemetryRepository.Save(newRecord);
      var rul := CalculateRul(telemetryRepository.samples, cableId);
      written := NoticesOf(CheckAndAlert(cableId, currentHealth, rul, impact(cableId)));
    }
  }

  /** Earlier notices only prefix the ones a cable's step adds. */
  lemma AuditCableNotices(st: AuditState, cableId: int, impact: int -> Option<string>, now: int)
    ensures AuditCable(st, cableId, impact, now).notices
            == st.notices + AuditCable(AuditState(st.samples, []), cableId, impact, now).notices
  {
    var r := AuditCable(st, cableId, impact, now);
    var bare := AuditCable(AuditState(st.samples, []), cableId, impact, now);
    if !Skipped(st.samples, cableId) {
      assert r.samples == bare.samples;
      assert r.notices == st.notices + bare.notices;
    }
  }

  class HealthAuditScheduler {
    var virtualDaysPassed: int

    constructor ()
      ensures virtualDaysPassed == 0
    {
      virtualDaysPassed := 0;
    }

    /**
     * One tick over the topology's cables at wall-clock second `now`. The store ends as the
     * tick's fold prescribes, and the notices written are the fold's, in order.
     */
    method PerformGlobalHealthAudit(cables: seq<int>, telemetryRepository: ReadingStore,
                                    impact: int -> Option<string>, now: int)
      returns (notices: seq<Notice>)
      requires telemetryRepository.Valid() && NotAfter(telemetryRepository.samples, now)
      modifies this, telemetryRepository
      ensures telemetryRepository.Valid() && NotAfter(telemetryRepository.samples, now)
      ensures virtualDaysPassed == old(virtualDaysPassed) + SimulationStepDays
      ensures var after := AuditAll(AuditState(old(telemetryRepository.samples), []), cables, impact, now);
              telemetryRepository.samples == after.samples && notices == after.notices
    {
      virtualDaysPassed := virtualDaysPassed + SimulationStepDays;
      ghost var start := AuditState(telemetryRepository.samples, []);
      notices := [];
      var i := 0;
      while i < |cables|
        invariant 0 <= i <= |cables|
        invariant telemetryRepository.Valid() && NotAfter(telemetryRepository.samples, now)
        invariant virtualDaysPassed == old(virtualDaysPassed) + SimulationStepDays
        invariant var st := AuditAll(start, cables[..i], impact, now);
                  telemetryRepository.samples == st.samples && notices == st.notices
      {
        assert cables[..i + 1][..i] == cables[..i];
        AuditCableNotices(AuditAll(start, cables[..i], impact, now), cables[i], impact, now);
        var written := AuditStep(cables[i], telemetryRepository, impact, now);
        notices := notices + written;
        i := i + 1;
      }
      assert cables[..i] == cables;
    }
  }
}
