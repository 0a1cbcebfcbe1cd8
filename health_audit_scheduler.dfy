/**
 * horizon-service `HealthAuditScheduler.performGlobalHealthAudit`: every tick advances the
 * virtual day counter by 5 and, for each cable of the topology whose latest sample is still
 * alive, appends a decayed copy of that sample and reports its health and RUL to the alert
 * service. The cable list and the topology lookup used by the alert service are inputs.
 */
module HealthAuditScheduler {
  import opened Common
  import opened Telemetry
  import opened RulService
  import opened Alerts
  import opened AlertService
  import opened TelemetryConsumer

  const SimulationStepDays: int := 5

  /** The record the tick derives from the cable's latest sample, stamped `now`. */
  function Decayed(cableId: int, last: Sample, now: int): (s: Sample)
    ensures s.cableId == cableId && s.timestamp == now && s.lastSeen == now
    ensures s.temperature == last.temperature + 0.5 && s.attenuation == last.attenuation + 0.1
    ensures s.snr == Max(0.0, last.snr - 0.5) && s.snr >= 0.0
    ensures s.mse == last.mse + 0.0545 && s.load == last.load
    ensures Consistent(s) && 0.0 <= s.health <= 100.0
    ensures s.rulInDays == CalculateRulDays(s.health, last.health, SimulationStepDays) && s.rulInDays >= 0.0
  {
    var newTemp := last.temperature + 0.5;
    var newAttn := last.attenuation + 0.1;
    var newSnr := Max(0.0, last.snr - 0.5);
    var newMse := last.mse + 0.0545;
    var health := CalculateHealth(newAttn, newTemp, last.load, newSnr, newMse, DefaultAgeYears);
    Sample(cableId, newAttn, newTemp, last.load, newSnr, newMse, health,
           CalculateRulDays(health, last.health, SimulationStepDays), now, now)
  }

  /** The unclamped index of a sample's readings at the default age. */
  function RawOf(s: Sample): real
  {
    RawHealth(s.attenuation, s.temperature, s.load, s.snr, s.mse, DefaultAgeYears)
  }

  /**
   * One decay step costs at least 1.34 points of the unclamped index: 0.25 from attenuation and
   * 1.09 from distortion, while the heat and SNR penalties can only grow (for a non-negative SNR).
   */
  lemma DropPerTick(cableId: int, last: Sample, now: int)
    requires last.snr >= 0.0
    ensures RawOf(Decayed(cableId, last, now)) <= RawOf(last) - 1.34
  {
    var s := Decayed(cableId, last, now);
    var t0 := if last.temperature > 25.0 then (last.temperature - 25.0) * 0.15 else 0.0;
    var t1 := if s.temperature > 25.0 then (s.temperature - 25.0) * 0.15 else 0.0;
    var g0 := if last.snr < 30.0 then (30.0 - last.snr) * 0.4 else 0.0;
    var g1 := if s.snr < 30.0 then (30.0 - s.snr) * 0.4 else 0.0;
    assert t0 <= t1;
    assert g0 <= g1;
  }

  /** `k` decay steps in a row from `last`, as successive ticks store them for a live cable. */
  function DecayChain(last: Sample, k: nat): Sample
  {
    if k == 0 then last else Decayed(last.cableId, DecayChain(last, k - 1), last.timestamp + k)
  }

  lemma {:induction false} ChainBound(last: Sample, k: nat)
    requires last.snr >= 0.0
    ensures DecayChain(last, k).snr >= 0.0
    ensures RawOf(DecayChain(last, k)) <= RawOf(last) - 1.34 * (k as real)
  {
    if k > 0 {
      ChainBound(last, k - 1);
      DropPerTick(last.cableId, DecayChain(last, k - 1), last.timestamp + k);
    }
  }

  /** Decay is bound to end: after enough steps the health index is 0, and the tick then skips the cable. */
  lemma EventualFailure(last: Sample, k: nat)
    requires last.snr >= 0.0 && k >= 1
    requires 1.34 * (k as real) >= RawOf(last)
    ensures DecayChain(last, k).health == 0.0
  {
    ChainBound(last, k);
    var s := DecayChain(last, k);
    assert s == Decayed(last.cableId, DecayChain(last, k - 1), last.timestamp + k);
  }

  /** A sample whose readings score at most 100 fails within 75 ticks. */
  lemma FailureWithin75Ticks(last: Sample)
    requires last.snr >= 0.0 && RawOf(last) <= 100.0
    ensures DecayChain(last, 75).health == 0.0
  {
    EventualFailure(last, 75);
  }

  /** The store, its clock, and the alert calls made so far in the tick. */
  datatype AuditState = AuditState(samples: map<int, seq<Sample>>, clock: int, calls: seq<AlertCall>)

  /** A cable with no sample or a failed latest sample is left alone. */
  predicate Skipped(samples: map<int, seq<Sample>>, cableId: int)
  {
    LatestOf(samples, cableId).None? || LatestOf(samples, cableId).value.health <= 0.0
  }

  /**
   * The tick's work for one cable: nothing for a skipped cable; otherwise one appended record,
   * decayed from the latest one, and one alert call carrying exactly that record's health and RUL.
   */
  function AuditCable(st: AuditState, cableId: int): (r: AuditState)
    ensures Skipped(st.samples, cableId) ==> r == st
    ensures !Skipped(st.samples, cableId) ==>
              var s := Decayed(cableId, LatestOf(st.samples, cableId).value, st.clock);
              && r.samples == Appended(st.samples, s)
              && r.clock == st.clock + 1
              && LatestOf(r.samples, cableId) == Some(s)
              && r.calls == st.calls + [AlertCall(cableId, s.health, s.rulInDays)]
  {
    if Skipped(st.samples, cableId) then st
    else
      var s := Decayed(cableId, LatestOf(st.samples, cableId).value, st.clock);
      AuditState(Appended(st.samples, s), st.clock + 1, st.calls + [AlertCall(cableId, s.health, s.rulInDays)])
  }

  /** The whole tick: the cables in topology order. */
  function AuditAll(st: AuditState, cables: seq<int>): AuditState
  {
    if cables == [] then st
    else AuditCable(AuditAll(st, cables[..|cables| - 1]), cables[|cables| - 1])
  }

  /** A cable not in the list keeps its history. */
  lemma {:induction false} AuditOthersUnchanged(st: AuditState, cables: seq<int>, c: int)
    requires c !in cables
    ensures HistoryOf(AuditAll(st, cables).samples, c) == HistoryOf(st.samples, c)
  {
    if cables != [] {
      AuditOthersUnchanged(st, cables[..|cables| - 1], c);
    }
  }

  /** A skipped cable stays frozen for the whole tick: no sample appended. */
  lemma {:induction false} SkippedCableFrozen(st: AuditState, cables: seq<int>, c: int)
    requires Skipped(st.samples, c)
    ensures HistoryOf(AuditAll(st, cables).samples, c) == HistoryOf(st.samples, c)
  {
    if cables != [] {
      var before := AuditAll(st, cables[..|cables| - 1]);
      SkippedCableFrozen(st, cables[..|cables| - 1], c);
      assert LatestOf(before.samples, c) == LatestOf(st.samples, c);
    }
  }

  ghost predicate Distinct(cables: seq<int>)
  {
    forall i, j :: 0 <= i < j < |cables| ==> cables[i] != cables[j]
  }

  /** With distinct cable ids, a live cable gets exactly one record, decayed from its latest sample. */
  lemma {:induction false} LiveCableGetsOneSample(st: AuditState, cables: seq<int>, c: int)
    requires Distinct(cables) && c in cables && !Skipped(st.samples, c)
    ensures exists now :: HistoryOf(AuditAll(st, cables).samples, c)
                          == HistoryOf(st.samples, c) + [Decayed(c, LatestOf(st.samples, c).value, now)]
  {
    var n := |cables| - 1;
    var prefix := cables[..n];
    var before := AuditAll(st, prefix);
    if cables[n] == c {
      assert c !in prefix by {
        forall i | 0 <= i < |prefix| ensures prefix[i] != c {
          assert cables[i] == prefix[i];
        }
      }
      AuditOthersUnchanged(st, prefix, c);
      assert LatestOf(before.samples, c) == LatestOf(st.samples, c);
      var now := before.clock;
      assert HistoryOf(AuditAll(st, cables).samples, c)
             == HistoryOf(st.samples, c) + [Decayed(c, LatestOf(st.samples, c).value, now)];
    } else {
      assert Distinct(prefix) by {
        forall i, j | 0 <= i < j < |prefix| ensures prefix[i] != prefix[j] {
          assert prefix[i] == cables[i] && prefix[j] == cables[j];
        }
      }
      var k :| 0 <= k < |cables| && cables[k] == c;
      assert prefix[k] == c;
      LiveCableGetsOneSample(st, prefix, c);
    }
  }

  lemma {:induction false} AuditKeepsOrder(st: AuditState, cables: seq<int>)
    requires Ordered(st.samples, st.clock)
    ensures Ordered(AuditAll(st, cables).samples, AuditAll(st, cables).clock)
  {
    if cables != [] {
      var before := AuditAll(st, cables[..|cables| - 1]);
      AuditKeepsOrder(st, cables[..|cables| - 1]);
      var c := cables[|cables| - 1];
      if !Skipped(before.samples, c) {
        AppendKeepsOrder(before.samples, before.clock, Decayed(c, LatestOf(before.samples, c).value, before.clock));
      }
    }
  }

  /** Two samples with the same readings, health and RUL; the cable id and timestamps may differ. */
  ghost predicate SameReadings(a: Sample, b: Sample)
  {
    && a.attenuation == b.attenuation && a.temperature == b.temperature && a.load == b.load
    && a.snr == b.snr && a.mse == b.mse && a.health == b.health && a.rulInDays == b.rulInDays
  }

  /** `k` ticks in a row over the same cable list. */
  function Ticks(st: AuditState, cables: seq<int>, k: nat): AuditState
  {
    if k == 0 then st else AuditAll(Ticks(st, cables, k - 1), cables)
  }

  lemma {:induction false} TicksAdd(st: AuditState, cables: seq<int>, j: nat, k: nat)
    ensures Ticks(st, cables, j + k) == Ticks(Ticks(st, cables, j), cables, k)
  {
    if k > 0 {
      TicksAdd(st, cables, j, k - 1);
    }
  }

  /** After one tick a live cable's latest sample has a non-negative SNR, whatever it started with. */
  lemma OneTickSnr(st: AuditState, cables: seq<int>, c: int)
    requires Distinct(cables) && c in cables && !Skipped(st.samples, c)
    ensures LatestOf(AuditAll(st, cables).samples, c).Some?
    ensures LatestOf(AuditAll(st, cables).samples, c).value.snr >= 0.0
  {
    LiveCableGetsOneSample(st, cables, c);
    var now :| HistoryOf(AuditAll(st, cables).samples, c)
               == HistoryOf(st.samples, c) + [Decayed(c, LatestOf(st.samples, c).value, now)];
  }

  /** A skipped cable stays frozen for any number of ticks. */
  lemma {:induction false} FrozenForTicks(st: AuditState, cables: seq<int>, c: int, k: nat)
    requires Skipped(st.samples, c)
    ensures HistoryOf(Ticks(st, cables, k).samples, c) == HistoryOf(st.samples, c)
  {
    if k > 0 {
      var before := Ticks(st, cables, k - 1);
      FrozenForTicks(st, cables, c, k - 1);
      assert LatestOf(before.samples, c) == LatestOf(st.samples, c);
      SkippedCableFrozen(before, cables, c);
    }
  }

  /** Decay depends only on the readings, not on the cable id or the timestamps. */
  lemma DecayedReadings(c1: int, a: Sample, n1: int, c2: int, b: Sample, n2: int)
    requires SameReadings(a, b)
    ensures SameReadings(Decayed(c1, a, n1), Decayed(c2, b, n2))
  {
  }

  /** One tick: a failed latest sample is kept, a live one is replaced by its decay. */
  lemma TickStep(before: AuditState, cables: seq<int>, c: int)
    requires Distinct(cables) && c in cables && LatestOf(before.samples, c).Some?
    ensures var l := LatestOf(before.samples, c).value;
            var after := LatestOf(AuditAll(before, cables).samples, c);
            && after.Some?
            && (l.health <= 0.0 ==> after.value == l)
            && (l.health > 0.0 ==> exists now :: after.value == Decayed(c, l, now))
  {
    var l := LatestOf(before.samples, c).value;
    if l.health <= 0.0 {
      SkippedCableFrozen(before, cables, c);
    } else {
      LiveCableGetsOneSample(before, cables, c);
      var now :| HistoryOf(AuditAll(before, cables).samples, c)
                 == HistoryOf(before.samples, c) + [Decayed(c, l, now)];
      assert LatestOf(AuditAll(before, cables).samples, c).value == Decayed(c, l, now);
    }
  }

  /** One tick moves a latest sample that tracks step k - 1 of a decay chain on to step k. */
  lemma StepFollowsChain(before: AuditState, cables: seq<int>, c: int, first: Sample, k: nat)
    requires Distinct(cables) && c in cables && LatestOf(before.samples, c).Some? && k > 0
    requires var prev := LatestOf(before.samples, c).value;
             prev.health <= 0.0 || SameReadings(prev, DecayChain(first, k - 1))
    ensures var prev := LatestOf(before.samples, c).value;
            var l := LatestOf(AuditAll(before, cables).samples, c);
            && l.Some?
            && (l.value.health <= 0.0 || SameReadings(l.value, DecayChain(first, k)))
            && (prev.health > 0.0 ==> SameReadings(l.value, DecayChain(first, k)))
  {
    var prev := LatestOf(before.samples, c).value;
    TickStep(before, cables, c);
    if prev.health > 0.0 {
      var now :| LatestOf(AuditAll(before, cables).samples, c).value == Decayed(c, prev, now);
      DecayedReadings(c, prev, now, first.cableId, DecayChain(first, k - 1), first.timestamp + k);
    }
  }

  /**
   * Over successive ticks a cable's latest sample follows the decay chain of its starting sample:
   * it has the chain's readings as long as every earlier step kept a positive health, and
   * otherwise it is a failed sample, which the ticks then leave alone.
   */
  lemma {:induction false} TicksFollowChain(st: AuditState, cables: seq<int>, c: int, k: nat)
    requires Distinct(cables) && c in cables && LatestOf(st.samples, c).Some?
    ensures var l := LatestOf(Ticks(st, cables, k).samples, c);
            var first := LatestOf(st.samples, c).value;
            && l.Some?
            && (l.value.health <= 0.0 || SameReadings(l.value, DecayChain(first, k)))
            && ((forall j :: 0 <= j < k ==> DecayChain(first, j).health > 0.0) ==>
                  SameReadings(l.value, DecayChain(first, k)))
  {
    if k > 0 {
      var first := LatestOf(st.samples, c).value;
      var before := Ticks(st, cables, k - 1);
      TicksFollowChain(st, cables, c, k - 1);
      StepFollowsChain(before, cables, c, first, k);
      assert Ticks(st, cables, k) == AuditAll(before, cables);
    }
  }

  /** A live cable whose readings score at most 100 with a non-negative SNR has failed after 75 ticks. */
  lemma FailedAfter75Ticks(st: AuditState, cables: seq<int>, c: int)
    requires Distinct(cables) && c in cables && LatestOf(st.samples, c).Some?
    requires LatestOf(st.samples, c).value.snr >= 0.0 && RawOf(LatestOf(st.samples, c).value) <= 100.0
    ensures LatestOf(Ticks(st, cables, 75).samples, c).Some?
    ensures LatestOf(Ticks(st, cables, 75).samples, c).value.health <= 0.0
  {
    TicksFollowChain(st, cables, c, 75);
    FailureWithin75Ticks(LatestOf(st.samples, c).value);
  }

  /**
   * Whatever SNR a live cable starts with, the first tick makes it non-negative; if the readings
   * after that tick score at most 100, the cable has failed after 76 ticks.
   */
  lemma FailedAfter76Ticks(st: AuditState, cables: seq<int>, c: int)
    requires Distinct(cables) && c in cables && !Skipped(st.samples, c)
    requires RawOf(DecayChain(LatestOf(st.samples, c).value, 1)) <= 100.0
    ensures LatestOf(Ticks(st, cables, 76).samples, c).Some?
    ensures LatestOf(Ticks(st, cables, 76).samples, c).value.health <= 0.0
  {
    var one := Ticks(st, cables, 1);
    assert Ticks(st, cables, 0) == st;
    assert one == AuditAll(st, cables);
    TicksAdd(st, cables, 1, 75);
    OneTickSnr(st, cables, c);
    TicksFollowChain(st, cables, c, 1);
    if Skipped(one.samples, c) {
      FrozenForTicks(one, cables, c, 75);
      assert LatestOf(Ticks(one, cables, 75).samples, c) == LatestOf(one.samples, c);
    } else {
      FailedAfter75Ticks(one, cables, c);
    }
  }

  /**
   * The body of the tick for one cable: the store advances as `AuditCable` prescribes and the
   * alert table takes the alert call it records, if any.
   */
  method AuditStep(cableId: int, telemetryRepository: TelemetryStore, alertRepository: AlertRepository,
                   impact: int -> Option<string>, ghost table: AlertTable, ghost calls: seq<AlertCall>)
    requires telemetryRepository.Valid() && alertRepository.Valid()
    requires alertRepository.Table() == ReplayChecks(table, calls, impact)
    modifies telemetryRepository, alertRepository
    ensures telemetryRepository.Valid() && alertRepository.Valid()
    ensures var st := AuditCable(AuditState(old(telemetryRepository.samples), old(telemetryRepository.clock), calls),
                                 cableId);
            && telemetryRepository.samples == st.samples
            && telemetryRepository.clock == st.clock
            && alertRepository.Table() == ReplayChecks(table, st.calls, impact)
  {
    ghost var st := AuditState(telemetryRepository.samples, telemetryRepository.clock, calls);
    var latest := LatestOf(telemetryRepository.samples, cableId);
    if latest.Some? && latest.value.health > 0.0 {
      var lastData := latest.value;
      var newTemp := lastData.temperature + 0.5;
      var newAttn := lastData.attenuation + 0.1;
      var newSnr := Max(0.0, lastData.snr - 0.5);
      var newMse := lastData.mse + 0.0545;
      var currentLoad := lastData.load;
      var currentHealth := CalculateHealth(newAttn, newTemp, currentLoad, newSnr, newMse, DefaultAgeYears);
      var rulDays := CalculateRulDays(currentHealth, lastData.health, SimulationStepDays);
      var newRecord := Sample(cableId, newAttn, newTemp, currentLoad, newSnr, newMse, currentHealth, rulDays,
                              telemetryRepository.clock, telemetryRepository.clock);
      assert newRecord == Decayed(cableId, lastData, st.clock);
      telemetryRepository.Save(newRecord);
      CheckAndAlert(alertRepository, cableId, currentHealth, rulDays, impact(cableId));
      ghost var after := calls + [AlertCall(cableId, currentHealth, rulDays)];
      assert after[..|after| - 1] == calls;
    }
  }

  class HealthAuditScheduler {
    var virtualDaysPassed: int

    constructor ()
      ensures virtualDaysPassed == 0
    {
      virtualDaysPassed := 0;
    }

    /**
     * One tick over the topology's cables. The store ends as the tick's fold prescribes and the
     * alert table as the alert service leaves it after the calls the fold records, in order.
     */
    method PerformGlobalHealthAudit(cables: seq<int>, telemetryRepository: TelemetryStore,
                                    alertRepository: AlertRepository, impact: int -> Option<string>)
      requires telemetryRepository.Valid() && alertRepository.Valid()
      modifies this, telemetryRepository, alertRepository
      ensures telemetryRepository.Valid() && alertRepository.Valid()
      ensures virtualDaysPassed == old(virtualDaysPassed) + SimulationStepDays
      ensures var after := AuditAll(AuditState(old(telemetryRepository.samples), old(telemetryRepository.clock), []), cables);
              && telemetryRepository.samples == after.samples
              && telemetryRepository.clock == after.clock
              && alertRepository.Table() == ReplayChecks(old(alertRepository.Table()), after.calls, impact)
    {
      virtualDaysPassed := virtualDaysPassed + SimulationStepDays;
      ghost var start := AuditState(telemetryRepository.samples, telemetryRepository.clock, []);
      ghost var table := alertRepository.Table();
      var i := 0;
      while i < |cables|
        invariant 0 <= i <= |cables|
        invariant telemetryRepository.Valid() && alertRepository.Valid()
        invariant virtualDaysPassed == old(virtualDaysPassed) + SimulationStepDays
        invariant var st := AuditAll(start, cables[..i]);
                  && telemetryRepository.samples == st.samples
                  && telemetryRepository.clock == st.clock
                  && alertRepository.Table() == ReplayChecks(table, st.calls, impact)
      {
        assert cables[..i + 1][..i] == cables[..i];
        AuditStep(cables[i], telemetryRepository, alertRepository, impact, table, AuditAll(start, cables[..i]).calls);
        i := i + 1;
      }
      assert cables[..i] == cables;
    }
  }
}
