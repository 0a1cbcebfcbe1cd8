# Cable health and predictive maintenance core, in Dafny

This project models the core of a predictive-maintenance back end for industrial network
cables, and proves properties of that model. Each cable has a stream of telemetry samples:
attenuation, temperature, load, signal-to-noise ratio (SNR), mean-square error (MSE), and a
derived health index and remaining useful life (RUL). The model covers:

- the health index and the day-based RUL projector (`RulService`);
- the facility risk score (`RiskScoring`) and the recommendation rules (`RecommendationEngine`);
- the alert service with its anti-spam gate (`AlertService`), over the alert store (`Alerts`);
- the alert endpoints: the active list and acknowledgement (`AlertController`);
- the simulated decay tick (`HealthAuditScheduler`) and telemetry ingestion (`TelemetryConsumer`),
  over an append-only telemetry store (`Telemetry`);
- the carbon metrics (`Sustainability`);
- the AI report's milestone map and figures, up to the summariser (`ReportController`);
- the dashboard lifecycle report and the carbon endpoint (`DashboardController`).

The older `topology` service is modelled in separate modules:

- `LegacyTelemetry`: its reading store.
- `LegacyRulService`: an unclamped health formula, and a minute-based RUL with −1 meaning
  "no prediction".
- `LegacyHealthAuditScheduler`: a decay tick that costs exactly 7.2 health points per tick.
- `LegacyAlertService`: a console-only alert check.
- `LegacyTelemetryConsumer`: ingestion.

Two helper modules hold shared definitions:

- `Common` holds Java's `Math.round` (floor(x + 0.5)), the `(int)` cast (truncation toward
  zero) and averages.
- `Text` holds decimal rendering of integers, `String.format("%.1f")`, and
  `String.split("::")` (a string without a match gives itself; trailing empty pieces are
  dropped).

How the state is modelled:

- **Telemetry store.** A class holding a map from cable id to its samples in ascending
  timestamp order. Every save appends.
- **Alert store.** A class holding a sequence of alerts, oldest first. One counter supplies
  both the database id and the creation time.
- **Services.** Each stateful service method is proved against a pure function of the old
  state: `TableAfterCheck`, `MarkRead`, `AuditAll`, `Appended`. The lemmas are stated about
  those functions.
- **Decay tick.** Modelled as a left fold over the topology's cable list. The alert calls it
  makes are recorded and then replayed on the alert store, in order.

All `double` arithmetic is exact real arithmetic. Every source path below is relative to the
repository root: `horizon-service/...` is the current service and `topology/...` the older one.


## Model

| member | source | states |
|---|---|---|
| Common.Round | horizon-service/src/main/java/com/belden/topology/service/RiskScoringService.java:45 | `Math.round`: the nearest integer, halves rounded up (x − 0.5 < r ≤ x + 0.5) |
| Common.Trunc | horizon-service/src/main/java/com/belden/topology/service/RecommendationEngine.java:35 | the `(int)` cast truncates toward zero: r ≤ x < r + 1 for x ≥ 0, and r − 1 < x ≤ r for x < 0 |
| Common.RoundMonotonic | horizon-service/src/main/java/com/belden/topology/service/RiskScoringService.java:45 | rounding never reverses an order |
| Common.AverageWithinRange | horizon-service/src/main/java/com/belden/topology/controller/ReportController.java:55-56 | the average of a non-empty series lies between its minimum and maximum |
| Text.NatToString | horizon-service/src/main/java/com/belden/topology/controller/ReportController.java:47 | decimal rendering: at least one digit, only digits, a single digit exactly below 10 |
| Text.IntToString | horizon-service/src/main/java/com/belden/topology/controller/ReportController.java:32 | a signed decimal: "-" exactly for negative numbers, then only digits, whose decimal value (`DigitsValue`) is the absolute value of i |
| Text.NatToStringValue | horizon-service/src/main/java/com/belden/topology/controller/ReportController.java:47 | reading the rendered digits back gives the number: `DigitsValue(NatToString(n)) == n` |
| Text.NatToStringInjective | horizon-service/src/main/java/com/belden/topology/controller/ReportController.java:47 | distinct numbers render differently, so "Day d" keys never collide |
| Text.FormatOneDecimal | horizon-service/src/main/java/com/belden/topology/service/AlertService.java:54 | `%.1f`: a leading "-" exactly for negative values, then digits, a point and one digit; the digits read as a number are Round(10 · abs(x)), half-up on the magnitude |
| Text.DropTrailingEmpty | horizon-service/src/main/java/com/belden/topology/service/AlertService.java:46 | `split` drops trailing empty pieces: the result is a prefix of the pieces and does not end in an empty one |
| Text.SplitWithoutColon | horizon-service/src/main/java/com/belden/topology/service/AlertService.java:46 | a string without ":" is a single piece |
| Text.SplitPair | horizon-service/src/main/java/com/belden/topology/service/AlertService.java:46 | "m::l" without ":" in m or l splits into exactly m and l |
| Text.SplitJoined | horizon-service/src/main/java/com/belden/topology/service/AlertService.java:46 | `"m::l".split("::")` is [m, l] when l is non-empty |
| Text.SplitNoSeparator | horizon-service/src/main/java/com/belden/topology/service/AlertService.java:46 | a string without "::" splits to itself, even when empty |
| Telemetry.LatestOf | horizon-service/src/main/java/com/belden/topology/repository/CableTelemetryRepository.java:13 | the newest sample is absent exactly for an empty history and is otherwise its last element |
| Telemetry.Appended | horizon-service/src/main/java/com/belden/topology/kafka/TelemetryConsumer.java:54 | a save adds the record at the end of its own cable's history; every other history is unchanged |
| Telemetry.LatestIsNewest | horizon-service/src/main/java/com/belden/topology/repository/CableTelemetryRepository.java:13 | in an ordered store the last sample has the greatest timestamp of its history |
| Telemetry.AppendKeepsOrder | horizon-service/src/main/java/com/belden/topology/kafka/TelemetryConsumer.java:51-54 | appending a record stamped with the clock keeps every history ordered |
| Telemetry.TelemetryStore.constructor | horizon-service/src/main/java/com/belden/topology/repository/CableTelemetryRepository.java:9-18 | the store starts empty, with the clock at 0 |
| Telemetry.TelemetryStore.Save | horizon-service/src/main/java/com/belden/topology/scheduler/HealthAuditScheduler.java:65-69 | append the record, advance the clock, keep the order invariant |
| RulService.CalculateHealth | horizon-service/src/main/java/com/belden/topology/service/RulService.java:19-44 | the index always lies in [0,100]; strictly inside, it equals the unclamped penalty sum; it is 0 (100) exactly when the sum is ≤ 0 (≥ 100) |
| RulService.NoPenaltyIsFullHealth | horizon-service/src/main/java/com/belden/topology/service/RulService.java:19-43 | with no penalty active (temperature ≤ 25, attenuation 0, SNR ≥ 30, MSE 0, load 0, age 0) health is exactly 100 |
| RulService.BaselineExample | horizon-service/src/main/java/com/belden/topology/service/RulService.java:19-43 | attenuation 0.5, 30 °C, load 20, SNR 30, MSE 0.01, age 2 gives 95.4 |
| RulService.ClampMonotonic | horizon-service/src/main/java/com/belden/topology/service/RulService.java:43 | clamping to [0,100] preserves order |
| RulService.HealthMonotonic | horizon-service/src/main/java/com/belden/topology/service/RulService.java:22-43 | health never rises with more attenuation, temperature, MSE, load or age, and never falls with more SNR |
| RulService.CalculateRulDays | horizon-service/src/main/java/com/belden/topology/service/RulService.java:66-86 | never negative; 0 for a failed cable; 250 when health did not drop; health·step/(drop) days in a decline; 0 for a non-positive step |
| RulService.LinearDeclineReachesZero | horizon-service/src/main/java/com/belden/topology/service/RulService.java:79-85 | in a decline, falling at the observed rate per day for the returned number of days ends exactly at 0 |
| RulService.CalculateRul | horizon-service/src/main/java/com/belden/topology/service/RulService.java:89-91 | the leftover `calculateRUL` always returns 0 |
| RiskScoring.TopologyCriticality | horizon-service/src/main/java/com/belden/topology/service/RiskScoringService.java:26 | min(33.3·n, 100): 33.3·n up to n = 3, 100 from n = 4 |
| RiskScoring.CriticalitySaturation | horizon-service/src/main/java/com/belden/topology/service/RiskScoringService.java:25-26 | n = 3 gives 99.9, and criticality is 100 exactly when n ≥ 4 |
| RiskScoring.HealthRisk | horizon-service/src/main/java/com/belden/topology/service/RiskScoringService.java:33 | max(0, 100 − h): never negative, at most 100 for h ≥ 0, and 100 − h for h ≤ 100 |
| RiskScoring.EnvironmentalStress | horizon-service/src/main/java/com/belden/topology/service/RiskScoringService.java:40 | 80 above 40 °C, 40 above 30 °C, otherwise 10 |
| RiskScoring.InsuranceStatus | horizon-service/src/main/java/com/belden/topology/service/RiskScoringService.java:48-51 | discount exactly below 30, standard exactly in [30,60), revoked exactly from 60 |
| RiskScoring.RedundancyGap | horizon-service/src/main/java/com/belden/topology/service/RiskScoringService.java:53-55 | "Topology Stable" exactly when nothing is downstream; otherwise the text names the count |
| RiskScoring.CalculateFacilityRisk | horizon-service/src/main/java/com/belden/topology/service/RiskScoringService.java:16-65 | each field of the assessment is its component; the insurance label depends only on the final score |
| RiskScoring.NoSampleDefaults | horizon-service/src/main/java/com/belden/topology/service/RiskScoringService.java:29-40 | with no sample health risk is 0 and stress 10, and n = 0 then scores 2 with the discount |
| RiskScoring.PristineScore | horizon-service/src/main/java/com/belden/topology/service/RiskScoringService.java:26-45 | n = 0, health 100 and 25 °C score 2 |
| RiskScoring.ScoreBounds | horizon-service/src/main/java/com/belden/topology/service/RiskScoringService.java:44-45 | the score is at least 2, and at most 96 for non-negative health |
| RiskScoring.ScoreMonotonic | horizon-service/src/main/java/com/belden/topology/service/RiskScoringService.java:26-45 | the score never falls with more dependents or heat, and never rises with more health |
| RecommendationEngine.MaintenanceConfidence | horizon-service/src/main/java/com/belden/topology/service/RecommendationEngine.java:35 | 100 for a failed cable; otherwise in [70,99], 99 for rul ≤ 2, else the truncation of 100 − rul/2 |
| RecommendationEngine.ThermalConfidence | horizon-service/src/main/java/com/belden/topology/service/RecommendationEngine.java:70 | in [60,99], and below 99 the truncation of 60 + 2(t − 30) |
| RecommendationEngine.MaintenanceRecommendation | horizon-service/src/main/java/com/belden/topology/service/RecommendationEngine.java:32-47 | the maintenance entry has category MAINTENANCE and the maintenance confidence |
| RecommendationEngine.SustainabilityRecommendation | horizon-service/src/main/java/com/belden/topology/service/RecommendationEngine.java:68-78 | the sustainability entry has category SUSTAINABILITY and the thermal confidence |
| RecommendationEngine.MaintenanceTitle | horizon-service/src/main/java/com/belden/topology/service/RecommendationEngine.java:37 | the title is "CRITICAL: Replace Cable Immediately" exactly for health ≤ 0, and "Replace Cable-<id> Imminently" otherwise |
| RecommendationEngine.FailedCableExample | horizon-service/src/main/java/com/belden/topology/service/RecommendationEngine.java:35-38 | health 0 and rul 10 give confidence 100, the critical title and the failed-asset text |
| RecommendationEngine.ResilienceNeedsTwoDependents | horizon-service/src/main/java/com/belden/topology/service/RecommendationEngine.java:54 | the resilience rule fires exactly when at least two machines are downstream |
| RecommendationEngine.HasCategoryOfEntries | horizon-service/src/main/java/com/belden/topology/service/RecommendationEngine.java:32-79 | a category appears among the rule entries exactly when its rule fires |
| RecommendationEngine.HasCategorySingle | horizon-service/src/main/java/com/belden/topology/service/RecommendationEngine.java:40-47 | a one-entry list has exactly that entry's category |
| RecommendationEngine.HasCategoryAppendAll | horizon-service/src/main/java/com/belden/topology/service/RecommendationEngine.java:40-78 | a category appears in a concatenation exactly when it appears in one of the parts |
| RecommendationEngine.RuleEntriesShape | horizon-service/src/main/java/com/belden/topology/service/RecommendationEngine.java:32-91 | 1 to 3 entries in category order; each is the entry of its own rule |
| RecommendationEngine.RuleEntriesOutcome | horizon-service/src/main/java/com/belden/topology/service/RecommendationEngine.java:26-91 | each rule's entry appears exactly when it fires; OPTIMIZATION appears exactly when none fires, and then alone |
| RecommendationEngine.GenerateRecommendations | horizon-service/src/main/java/com/belden/topology/service/RecommendationEngine.java:20-94 | no sample gives the empty list; otherwise the list meets every rule property above |
| Alerts.CountOf | horizon-service/src/main/java/com/belden/topology/service/AlertService.java:60-61 | the number of stored alerts with the (cable, severity) key, at most the table size |
| Alerts.CountPositiveIffPresent | horizon-service/src/main/java/com/belden/topology/service/AlertService.java:60-61 | the count is positive exactly when the anti-spam search finds a match |
| Alerts.UniqueCountAtMostOne | horizon-service/src/main/java/com/belden/topology/service/AlertService.java:60-63 | with unique keys every key occurs at most once |
| Alerts.Inserted | horizon-service/src/main/java/com/belden/topology/service/AlertService.java:64-72 | an insert keeps every stored alert and adds one unread alert with the next id and time |
| Alerts.InsertKeepsWellFormed | horizon-service/src/main/java/com/belden/topology/service/AlertService.java:64-72 | ids and timestamps stay strictly increasing and below the counter |
| Alerts.AlertRepository.constructor | horizon-service/src/main/java/com/belden/topology/repository/AlertRepository.java:10-17 | the alert store starts empty |
| Alerts.AlertRepository.AnyMatch | horizon-service/src/main/java/com/belden/topology/service/AlertService.java:60-61 | the scan over `findAll` answers exactly whether the key is stored |
| Alerts.AlertRepository.Insert | horizon-service/src/main/java/com/belden/topology/service/AlertService.java:72 | `save` of a new alert: the table becomes `Inserted` |
| Alerts.AlertRepository.IndexOfId | horizon-service/src/main/java/com/belden/topology/controller/AlertController.java:25 | `findById` returns a position holding that id, or none only if no alert has it |
| Alerts.AlertRepository.MarkAt | horizon-service/src/main/java/com/belden/topology/controller/AlertController.java:26-27 | sets the read flag of one position; nothing else changes |
| AlertService.SeverityFor | horizon-service/src/main/java/com/belden/topology/service/AlertService.java:52 | CRITICAL exactly at or below 20, WARNING exactly above |
| AlertService.IntValue | horizon-service/src/main/java/com/belden/topology/service/AlertService.java:30 | `Long.intValue()`: a 32-bit value congruent to the id mod 2^32, equal to it inside the int range |
| AlertService.WrappedIdAliases | horizon-service/src/main/java/com/belden/topology/service/AlertService.java:30-34 | the id 2^32 + 1 gets cable 1's labels |
| AlertService.ImpactLabels | horizon-service/src/main/java/com/belden/topology/service/AlertService.java:30-50 | fixed labels for cables 1, 2 and 3; the split lookup for every other cable |
| AlertService.LookupMissing | horizon-service/src/main/java/com/belden/topology/service/AlertService.java:45-48 | a missing lookup gives "Generic Asset" and "General Floor" |
| AlertService.LookupPair | horizon-service/src/main/java/com/belden/topology/service/AlertService.java:45-48 | a lookup "m::l" gives machine m and line l |
| AlertService.LookupWithoutSeparator | horizon-service/src/main/java/com/belden/topology/service/AlertService.java:46-48 | a lookup without "::" gives that machine and "General Floor" |
| AlertService.LookupOnlySeparator | horizon-service/src/main/java/com/belden/topology/service/AlertService.java:46-48 | the lookup "::" gives both fallbacks |
| AlertService.TimeDisplay | horizon-service/src/main/java/com/belden/topology/service/AlertService.java:54 | "IMMEDIATE" exactly when rul ≤ 0, otherwise rul to one decimal followed by " Days" |
| AlertService.TableAfterCheck | horizon-service/src/main/java/com/belden/topology/service/AlertService.java:20-76 | at most one alert is added and existing ones are untouched; health ≥ 50 changes nothing; an alert is added exactly when health < 50 and no alert with that key is stored, read or unread; the added alert is unread and carries the cable, severity and message; afterwards the key is present |
| AlertService.CheckKeepsWellFormed | horizon-service/src/main/java/com/belden/topology/service/AlertService.java:63-72 | a check keeps ids and timestamps increasing |
| AlertService.CheckKeepsUnique | horizon-service/src/main/java/com/belden/topology/service/AlertService.java:60-72 | a check keeps at most one alert per (cable, severity) |
| AlertService.CountAfterInsert | horizon-service/src/main/java/com/belden/topology/service/AlertService.java:64-72 | an insert raises its key's count by exactly one |
| AlertService.RepeatedChecksLeaveOne | horizon-service/src/main/java/com/belden/topology/service/AlertService.java:59-72 | any number of identical low-health calls ends with exactly one alert for that key |
| AlertService.RepeatedWarning | horizon-service/src/main/java/com/belden/topology/service/AlertService.java:52-72 | repeated calls with health 40 leave exactly one WARNING |
| AlertService.ReplayChecks | horizon-service/src/main/java/com/belden/topology/service/AlertService.java:20-76 | a sequence of checks keeps the stored alerts and adds at most one per call |
| AlertService.ReplayKeepsUnique | horizon-service/src/main/java/com/belden/topology/service/AlertService.java:60-72 | any sequence of checks keeps at most one alert per key |
| AlertService.CheckAndAlert | horizon-service/src/main/java/com/belden/topology/service/AlertService.java:20-76 | the store becomes `TableAfterCheck` of the old store |
| AlertController.ActiveAlerts | horizon-service/src/main/java/com/belden/topology/controller/AlertController.java:19-21 | the active list is never longer than the table |
| AlertController.ActiveMembers | horizon-service/src/main/java/com/belden/topology/repository/AlertRepository.java:13 | the active list holds exactly the unread alerts |
| AlertController.PrependNewest | horizon-service/src/main/java/com/belden/topology/repository/AlertRepository.java:13 | putting a strictly newer alert at the front keeps a newest-first list newest first |
| AlertController.ActiveOfOldestFirst | horizon-service/src/main/java/com/belden/topology/repository/AlertRepository.java:13 | for alerts stored oldest first, the active list is newest first |
| AlertController.ActiveNewestFirst | horizon-service/src/main/java/com/belden/topology/controller/AlertController.java:19-21 | in a well-formed store the active list has strictly decreasing timestamps |
| AlertController.MarkRead | horizon-service/src/main/java/com/belden/topology/controller/AlertController.java:25-28 | every alert keeps all its fields except the read flag, which is set exactly for the given id |
| AlertController.MarkReadUnknown | horizon-service/src/main/java/com/belden/topology/controller/AlertController.java:25 | an unknown id changes nothing |
| AlertController.MarkReadIdempotent | horizon-service/src/main/java/com/belden/topology/controller/AlertController.java:25-28 | acknowledging twice equals acknowledging once |
| AlertController.MarkedNotActive | horizon-service/src/main/java/com/belden/topology/controller/AlertController.java:20-28 | after acknowledgement the id is not in the active list |
| AlertController.MarkReadKeepsWellFormed | horizon-service/src/main/java/com/belden/topology/controller/AlertController.java:25-28 | acknowledgement keeps the store well-formed |
| AlertController.AcknowledgeDoesNotRearm | horizon-service/src/main/java/com/belden/topology/service/AlertService.java:60-63 | after acknowledging an alert, a new check for its key still adds nothing |
| AlertController.GetActiveAlerts | horizon-service/src/main/java/com/belden/topology/controller/AlertController.java:19-21 | returns exactly `ActiveAlerts` of the store |
| AlertController.MarkAlertAsRead | horizon-service/src/main/java/com/belden/topology/controller/AlertController.java:24-29 | for any id, the store becomes `MarkRead` of the old store; the counter is unchanged |
| TelemetryConsumer.PreviousHealth | horizon-service/src/main/java/com/belden/topology/kafka/TelemetryConsumer.java:27-28 | the latest stored health, or 100 for a new cable |
| TelemetryConsumer.Enriched | horizon-service/src/main/java/com/belden/topology/kafka/TelemetryConsumer.java:32-52 | identity, attenuation, temperature and load kept; SNR 0 read as 30 and MSE 0 as 0.01, other values kept; health is the index at age 2, in [0,100]; RUL is the 5-day projection against the previous health, ≥ 0; both timestamps are the ingestion time |
| TelemetryConsumer.FirstReadingAgainstFullHealth | horizon-service/src/main/java/com/belden/topology/kafka/TelemetryConsumer.java:28-46 | a first reading below 100 gets rul = h·5/(100 − h); one at 100 gets 250 |
| TelemetryConsumer.Consume | horizon-service/src/main/java/com/belden/topology/kafka/TelemetryConsumer.java:22-58 | exactly one enriched record is appended and the clock advances; no alert is raised |
| HealthAuditScheduler.Decayed | horizon-service/src/main/java/com/belden/topology/scheduler/HealthAuditScheduler.java:41-67 | temperature +0.5, attenuation +0.1, SNR max(0, SNR − 0.5) ≥ 0, MSE +0.0545, load kept; health is the index at age 2, in [0,100]; RUL is the 5-day projection against the last health, ≥ 0 |
| HealthAuditScheduler.DropPerTick | horizon-service/src/main/java/com/belden/topology/scheduler/HealthAuditScheduler.java:41-50 | one step lowers the unclamped index by at least 1.34 |
| HealthAuditScheduler.ChainBound | horizon-service/src/main/java/com/belden/topology/scheduler/HealthAuditScheduler.java:41-50 | k steps keep SNR ≥ 0 and lower the unclamped index by at least 1.34·k |
| HealthAuditScheduler.EventualFailure | horizon-service/src/main/java/com/belden/topology/scheduler/HealthAuditScheduler.java:34-50 | after k ≥ 1 steps with 1.34·k ≥ the starting index, health is 0 |
| HealthAuditScheduler.FailureWithin75Ticks | horizon-service/src/main/java/com/belden/topology/scheduler/HealthAuditScheduler.java:34-50 | a sample whose index is at most 100 has failed after 75 steps |
| HealthAuditScheduler.AuditCable | horizon-service/src/main/java/com/belden/topology/scheduler/HealthAuditScheduler.java:31-76 | a cable with no sample or health ≤ 0 changes nothing; otherwise one decayed record is appended, becomes the latest, and the alert call carries exactly its health and RUL |
| HealthAuditScheduler.AuditOthersUnchanged | horizon-service/src/main/java/com/belden/topology/scheduler/HealthAuditScheduler.java:30 | a cable outside the list keeps its history |
| HealthAuditScheduler.SkippedCableFrozen | horizon-service/src/main/java/com/belden/topology/scheduler/HealthAuditScheduler.java:34 | a skipped cable gets no sample for the whole tick |
| HealthAuditScheduler.LiveCableGetsOneSample | horizon-service/src/main/java/com/belden/topology/scheduler/HealthAuditScheduler.java:30-69 | with distinct ids, each live cable gets exactly one record, decayed from its latest sample |
| HealthAuditScheduler.AuditKeepsOrder | horizon-service/src/main/java/com/belden/topology/scheduler/HealthAuditScheduler.java:65-69 | the tick keeps the store ordered |
| HealthAuditScheduler.TicksAdd | horizon-service/src/main/java/com/belden/topology/scheduler/HealthAuditScheduler.java:26-79 | j ticks followed by k ticks are j + k ticks |
| HealthAuditScheduler.OneTickSnr | horizon-service/src/main/java/com/belden/topology/scheduler/HealthAuditScheduler.java:30-44 | after one tick a live cable has a latest sample, and its SNR is ≥ 0 |
| HealthAuditScheduler.FrozenForTicks | horizon-service/src/main/java/com/belden/topology/scheduler/HealthAuditScheduler.java:34 | a skipped cable keeps its history over any number of ticks |
| HealthAuditScheduler.TickStep | horizon-service/src/main/java/com/belden/topology/scheduler/HealthAuditScheduler.java:30-69 | over one tick a failed latest sample stays the latest, and a live one is replaced by its decay |
| HealthAuditScheduler.TicksFollowChain | horizon-service/src/main/java/com/belden/topology/scheduler/HealthAuditScheduler.java:26-79 | after k ticks the latest sample has the readings of `DecayChain(first, k)` while every earlier step stayed healthy, and otherwise has health ≤ 0 |
| HealthAuditScheduler.FailedAfter75Ticks | horizon-service/src/main/java/com/belden/topology/scheduler/HealthAuditScheduler.java:26-79 | a cable whose latest sample has SNR ≥ 0 and index ≤ 100 has health ≤ 0 after 75 ticks |
| HealthAuditScheduler.FailedAfter76Ticks | horizon-service/src/main/java/com/belden/topology/scheduler/HealthAuditScheduler.java:26-79 | any live cable whose once-decayed index is ≤ 100 has health ≤ 0 after 76 ticks |
| HealthAuditScheduler.AuditStep | horizon-service/src/main/java/com/belden/topology/scheduler/HealthAuditScheduler.java:31-77 | one cable's step leaves the store and the alert table as `AuditCable` and the replayed calls prescribe |
| HealthAuditScheduler.HealthAuditScheduler.constructor | horizon-service/src/main/java/com/belden/topology/scheduler/HealthAuditScheduler.java:23 | the day counter starts at 0 |
| HealthAuditScheduler.HealthAuditScheduler.PerformGlobalHealthAudit | horizon-service/src/main/java/com/belden/topology/scheduler/HealthAuditScheduler.java:26-79 | the counter grows by 5 even when nothing decays; the store ends as `AuditAll`; the alert table as its calls replayed in order |
| Sustainability.RatingFor | horizon-service/src/main/java/com/belden/topology/service/SustainabilityService.java:42-44 | A+ exactly for h ≥ 50, B exactly for 20 ≤ h < 50, C exactly for h < 20 |
| Sustainability.OperationalCarbon | horizon-service/src/main/java/com/belden/topology/service/SustainabilityService.java:31-33 | 1.2 at health 100, 7.2 at 0, and within [1.2, 7.2] in between |
| Sustainability.CalculateMetrics | horizon-service/src/main/java/com/belden/topology/service/SustainabilityService.java:17-52 | embedded 19.83 and avoided 9.915 whatever the cable and health; operational carbon and rating from the health |
| Sustainability.MetricsIndependentOfCable | horizon-service/src/main/java/com/belden/topology/service/SustainabilityService.java:17-52 | embedded and avoided carbon are the same for all inputs; the cable id never matters |
| Sustainability.OperationalMonotonic | horizon-service/src/main/java/com/belden/topology/service/SustainabilityService.java:31-33 | lower health never means less operational carbon |
| Sustainability.RatingMonotonic | horizon-service/src/main/java/com/belden/topology/service/SustainabilityService.java:42-44 | lower health never gives a better rating |
| LifecycleReport.Temperatures | horizon-service/src/main/java/com/belden/topology/controller/DashboardController.java:88 | the temperature series of a history, element by element |
| LifecycleReport.Attenuations | horizon-service/src/main/java/com/belden/topology/controller/DashboardController.java:89 | the attenuation series of a history, element by element |
| ReportController.DayKeyInjective | horizon-service/src/main/java/com/belden/topology/controller/ReportController.java:47 | "Day a" = "Day b" only if a = b |
| ReportController.MultipleOfFifty | horizon-service/src/main/java/com/belden/topology/controller/ReportController.java:43-46 | day 5i is a multiple of 50 exactly when i is a multiple of 10 |
| ReportController.MilestonesUpToShape | horizon-service/src/main/java/com/belden/topology/controller/ReportController.java:42-49 | after i records the map holds ⌊(i−1)/10⌋ entries: entry j is "Day 50(j+1)" for record 10(j+1) |
| ReportController.MilestonesForShape | horizon-service/src/main/java/com/belden/topology/controller/ReportController.java:39-51 | ⌊(n−1)/10⌋ + 1 entries: the day milestones in increasing order, then "Final Status (Day 5(n−1))" for the last record |
| ReportController.BuildMilestones | horizon-service/src/main/java/com/belden/topology/controller/ReportController.java:39-51 | the loop builds exactly `MilestonesFor` of the history |
| ReportController.RoundedAvoided | horizon-service/src/main/java/com/belden/topology/controller/ReportController.java:58-59 | the avoided carbon rounded to two decimals is 9.92 |
| ReportController.RawReport | horizon-service/src/main/java/com/belden/topology/controller/ReportController.java:35-72 | start and final health, final SNR and MSE from the first and last records; averages equal to the arithmetic means of the temperature and attenuation series, hence between their minimum and maximum; avoided carbon 9.92; the timeline is null; the milestones are the map above |
| ReportController.GetAiPoweredReport | horizon-service/src/main/java/com/belden/topology/controller/ReportController.java:27-77 | an empty history returns only the "No data found" text, without calling the summariser; otherwise it returns the summary of `RawReport` |
| DashboardController.FailureCause | horizon-service/src/main/java/com/belden/topology/controller/DashboardController.java:92-97 | Thermal exactly above 65 °C; Physical exactly at or below 65 °C with attenuation above 3; otherwise Standard |
| DashboardController.CableLifecycleReportFor | horizon-service/src/main/java/com/belden/topology/controller/DashboardController.java:71-111 | an empty history gives a report with only the cable id set; otherwise 6·n days, the first and last health, averages equal to the arithmetic means of the two series and within their ranges, the cause on those means, 0.04·days avoided carbon, the full timeline and no milestones |
| ReportController.DayCountsDisagree | horizon-service/src/main/java/com/belden/topology/controller/ReportController.java:39-51 | for the same non-empty history, the final key of the report's milestone map never names the day count of `DashboardController.CableLifecycleReportFor` (6 days per record, DashboardController.java line 85) |
| DashboardController.CarbonMetricsFor | horizon-service/src/main/java/com/belden/topology/controller/DashboardController.java:52-58 | no sample gives the empty metrics without a rating; otherwise the metrics for the latest health |
| LegacyTelemetry.LatestOf | topology/src/main/java/com/belden/topology/scheduler/HealthAuditScheduler.java:34 | the newest reading is absent exactly for an empty history and is otherwise its last element |
| LegacyTelemetry.Top2 | topology/src/main/java/com/belden/topology/repository/CableTelemetryRepository.java:11 | at most two readings, newest first: the last and the one before it |
| LegacyTelemetry.Appended | topology/src/main/java/com/belden/topology/kafka/TelemetryConsumer.java:38 | a save appends to the cable's own history; others are unchanged |
| LegacyTelemetry.AppendKeepsOrder | topology/src/main/java/com/belden/topology/scheduler/HealthAuditScheduler.java:66-69 | appending a reading stamped `now` keeps histories ordered and nothing after `now` |
| LegacyTelemetry.Top2Ordered | topology/src/main/java/com/belden/topology/repository/CableTelemetryRepository.java:11 | the newest of the two is never older than the other |
| LegacyTelemetry.ReadingStore.constructor | topology/src/main/java/com/belden/topology/repository/CableTelemetryRepository.java:8-12 | the store starts empty |
| LegacyTelemetry.ReadingStore.Save | topology/src/main/java/com/belden/topology/scheduler/HealthAuditScheduler.java:69 | append the reading and keep the order invariant |
| LegacyRulService.CalculateHealth | topology/src/main/java/com/belden/topology/service/RulService.java:20-30 | for non-negative readings and age the index is at most 100 |
| LegacyRulService.HealthMonotonic | topology/src/main/java/com/belden/topology/service/RulService.java:25-29 | more attenuation, heat, load or age never raises the index |
| LegacyRulService.HealthUnbounded | topology/src/main/java/com/belden/topology/service/RulService.java:25-29 | with no clamp, every real value is the index of some reading |
| LegacyRulService.NegativeHealthExample | topology/src/main/java/com/belden/topology/service/RulService.java:25-29 | attenuation 20, 30 °C, load 10, age 2 gives −3 |
| LegacyRulService.SecondsBetween | topology/src/main/java/com/belden/topology/service/RulService.java:45-46 | the gap in seconds, with 0 read as 1; at least 1 when the order is right |
| LegacyRulService.RulOf | topology/src/main/java/com/belden/topology/service/RulService.java:33-61 | −1 with fewer than two readings; 0 at or below 40; −1 for stable or rising health; otherwise strictly positive |
| LegacyRulService.DeclineReachesThreshold | topology/src/main/java/com/belden/topology/service/RulService.java:54-60 | losing drop/secs per second for the returned minutes brings the latest health exactly to 40 |
| LegacyRulService.RulCases | topology/src/main/java/com/belden/topology/service/RulService.java:33-61 | on an ordered history: −1 exactly when nothing can be extrapolated, 0 exactly at or below 40, positive exactly in a decline above 40 |
| LegacyAlertService.SentinelsFireOnHealthOnly | topology/src/main/java/com/belden/topology/service/AlertService.java:18 | with RUL −1 or 0 the check fires exactly for health < 70 |
| LegacyAlertService.HealthyFiresOnShortRul | topology/src/main/java/com/belden/topology/service/AlertService.java:18 | at health ≥ 70 the check fires exactly when 0 < rul < 2880 |
| LegacyAlertService.LabelsMissing | topology/src/main/java/com/belden/topology/service/AlertService.java:21-26 | a missing lookup gives "Unknown Machine" and "Unknown Line" |
| LegacyAlertService.LabelsPair | topology/src/main/java/com/belden/topology/service/AlertService.java:24-26 | a lookup "m::l" gives machine m and line l |
| LegacyAlertService.LabelsWithoutSeparator | topology/src/main/java/com/belden/topology/service/AlertService.java:24-26 | a lookup without "::" gives that machine and "General Floor" |
| LegacyAlertService.LabelsOnlySeparator | topology/src/main/java/com/belden/topology/service/AlertService.java:24-26 | the lookup "::" gives "Unknown Machine" and "General Floor" |
| LegacyAlertService.TimeRemaining | topology/src/main/java/com/belden/topology/service/AlertService.java:28 | exactly `FormatOneDecimal(rul / 60)` followed by " Hours", so the figure is the RUL in hours to one decimal; a leading "-" exactly for a negative RUL |
| LegacyAlertService.CheckAndAlert | topology/src/main/java/com/belden/topology/service/AlertService.java:16-35 | a notice exactly when the check fires, carrying the cable, the split labels and the hours text |
| LegacyAlertService.NoPredictionShownNegative | topology/src/main/java/com/belden/topology/service/AlertService.java:18-28 | a low-health cable without a prediction is announced with a negative time |
| LegacyHealthAuditScheduler.Decayed | topology/src/main/java/com/belden/topology/scheduler/HealthAuditScheduler.java:47-67 | temperature +4, attenuation +0.6, load kept, health from the legacy formula at age 2, both timestamps `now` |
| LegacyHealthAuditScheduler.DecayCostsSevenPointTwo | topology/src/main/java/com/belden/topology/scheduler/HealthAuditScheduler.java:47-57 | the new health is exactly 7.2 below the formula on the previous fields |
| LegacyHealthAuditScheduler.ChainHealth | topology/src/main/java/com/belden/topology/scheduler/HealthAuditScheduler.java:47-57 | after k ≥ 1 ticks, health is the formula on the starting fields minus 7.2·k |
| LegacyHealthAuditScheduler.FailureWithin14Ticks | topology/src/main/java/com/belden/topology/scheduler/HealthAuditScheduler.java:39-57 | a formula value ≤ 100 reaches health ≤ 0 within 14 ticks |
| LegacyHealthAuditScheduler.AuditCable | topology/src/main/java/com/belden/topology/scheduler/HealthAuditScheduler.java:34-74 | a cable with no reading or health ≤ 0 changes nothing; otherwise one decayed reading is saved and the check gets its health and the RUL of the store after the save |
| LegacyHealthAuditScheduler.RulAfterSave | topology/src/main/java/com/belden/topology/scheduler/HealthAuditScheduler.java:69-74 | the RUL uses the new reading and the prior latest; it is positive exactly when the new health is above 40 and below the old one, and always so above 40 for a consistent old reading |
| LegacyHealthAuditScheduler.AuditOthersUnchanged | topology/src/main/java/com/belden/topology/scheduler/HealthAuditScheduler.java:32 | a cable outside the list keeps its history |
| LegacyHealthAuditScheduler.SkippedCableFrozen | topology/src/main/java/com/belden/topology/scheduler/HealthAuditScheduler.java:39-41 | a skipped cable gets no reading |
| LegacyHealthAuditScheduler.LiveCableGetsOneReading | topology/src/main/java/com/belden/topology/scheduler/HealthAuditScheduler.java:32-69 | with distinct ids, each live cable gets exactly one decayed reading |
| LegacyHealthAuditScheduler.AuditKeepsOrder | topology/src/main/java/com/belden/topology/scheduler/HealthAuditScheduler.java:66-69 | the tick keeps the store ordered and nothing after `now` |
| LegacyHealthAuditScheduler.FrozenForTicks | topology/src/main/java/com/belden/topology/scheduler/HealthAuditScheduler.java:39-41 | a skipped cable keeps its history over any number of ticks |
| LegacyHealthAuditScheduler.TickStep | topology/src/main/java/com/belden/topology/scheduler/HealthAuditScheduler.java:32-69 | over one tick a failed latest reading stays the latest, and a live one is replaced by its decay stamped with the tick time |
| LegacyHealthAuditScheduler.TicksFollowChain | topology/src/main/java/com/belden/topology/scheduler/HealthAuditScheduler.java:27-77 | after k ticks the latest reading has the fields and health of `DecayChain(first, k)` while every earlier step stayed healthy, and otherwise has health ≤ 0 |
| LegacyHealthAuditScheduler.FailedAfter14Ticks | topology/src/main/java/com/belden/topology/scheduler/HealthAuditScheduler.java:27-77 | a cable whose formula value is ≤ 100 has health ≤ 0 after 14 ticks, whatever their clocks |
| LegacyHealthAuditScheduler.AuditStep | topology/src/main/java/com/belden/topology/scheduler/HealthAuditScheduler.java:34-75 | one cable's step leaves the store and notices as `AuditCable` prescribes |
| LegacyHealthAuditScheduler.AuditCableNotices | topology/src/main/java/com/belden/topology/scheduler/HealthAuditScheduler.java:72-74 | a step only appends to the notices already written |
| LegacyHealthAuditScheduler.HealthAuditScheduler.constructor | topology/src/main/java/com/belden/topology/scheduler/HealthAuditScheduler.java:23 | the counter starts at 0 |
| LegacyHealthAuditScheduler.HealthAuditScheduler.PerformGlobalHealthAudit | topology/src/main/java/com/belden/topology/scheduler/HealthAuditScheduler.java:27-77 | the counter grows by 5; the store and the notices are those of `AuditAll` |
| LegacyTelemetryConsumer.Ingested | topology/src/main/java/com/belden/topology/kafka/TelemetryConsumer.java:26-35 | health from the legacy formula at age 2, with the timestamp set on ingestion; cable, attenuation, temperature, load and `lastSeen` as received |
| LegacyTelemetryConsumer.RulSeesNewReading | topology/src/main/java/com/belden/topology/kafka/TelemetryConsumer.java:38-41 | the RUL sees the saved reading: −1 for a first reading, otherwise the pair (new reading, previous latest) |
| LegacyTelemetryConsumer.FirstReadingAlert | topology/src/main/java/com/belden/topology/kafka/TelemetryConsumer.java:41-44 | a first reading is announced exactly when its health is below 70 |
| LegacyTelemetryConsumer.Consume | topology/src/main/java/com/belden/topology/kafka/TelemetryConsumer.java:22-45 | one ingested reading is appended; the notice is the check on its health and on the RUL after the save |

## Where the code and its own comments differ

The model follows the code in each of these cases:

- **Alert de-duplication ignores the read flag.** The anti-spam check
  (`horizon-service/src/main/java/com/belden/topology/service/AlertService.java:60-61`)
  matches on cable and severity over every stored alert, read or not. Marking an alert as
  read therefore does not let a new alert of that severity through. Once a cable has an
  alert of a severity, no second one is ever stored. `AlertController.AcknowledgeDoesNotRearm`
  states this.
- **The healthy baseline is 95.4, not about 85.** The healthy step of the degradation
  simulator (`horizon-service/src/main/java/com/belden/topology/simulation/DegradationSimulator.java:21-23`)
  expects a health of about 85 for attenuation 0.5, 30 °C and load 20. With SNR 30 and MSE
  0.01 at age 2, the formula in `RulService.calculateHealth` gives
  100 − 0.75 − 1.25 − 0.2 − 0.4 − 2 = 95.4 (`RulService.BaselineExample`).
- **Two day counts.** The dashboard report counts 6 days per record. The AI report numbers the
  last of n records day 5(n − 1). `ReportController.DayCountsDisagree` shows that, for the same
  history, the report's final key never names the dashboard's day count.
- **The entity classes lag behind the code that uses them.**
  - `horizon-service/src/main/java/com/belden/topology/model/CableTelemetry.java:17-31` declares
    no `snr` or `mse`. `HealthAuditScheduler.java:43-44,60-61` reads and sets both.
  - `horizon-service/src/main/java/com/belden/topology/model/CableLifecycleReport.java:10-18`
    declares no `finalSnr`, `finalMse` or `degradationMilestones`. `ReportController.java:67-71`
    sets all three.
  - The Dafny records `Telemetry.Sample` and `LifecycleReport.CableLifecycleReport` carry the
    union of the fields the code uses.

## Left out

- Floating point: every `double` is an exact real.
  - IEEE rounding is not modelled, and results can differ in the last digit.
  - The avoided carbon is 19.83 / 3 · 1.5 = 9.915 exactly. In binary doubles the product
    times 100 falls just below 991.5, so the two-decimal figure the service reports is 9.91.
  - In doubles, 33.3 · 3 is slightly below 99.9, and the operational carbon at health 0 is
    slightly below 7.2.
- ReportController.RoundedAvoided: states 9.92, the exact-real value, not the 9.91 that
  binary doubles give.
- String formatting: `%.1f` is modelled by `Text.FormatOneDecimal` (half-up on the magnitude).
  - The alert message is spelled out (`AlertService.AlertMessage`), but no lemma is stated about
    its wording.
  - Grouping, locale and the `%d` of a rounded health rely on the JDK formatter, which is not
    part of this model.
- Console and error-stream logging (`System.out`, `System.err`) is left out.
  - The older service's alert check prints four lines and stores nothing. Its model returns
    an optional `Notice`, whose `Lines()` are those four lines, and stores nothing either.
- The graph database.
  - The number of machines downstream of a cable is an input to the risk score.
  - The impact lookup for a cable (`findImpactDetails`) is an input, or a function from cable
    id to an optional string.
  - The topology's cable list is the sequence of ids handed to the tick.
- The AI summariser (`GeminiService`) is an opaque function from the assembled report to text.
  Its HTTP call, prompt and error handling are not part of this model.
- Kafka delivery, HTTP routing, the two-second schedule, concurrent ticks and transactions are
  left out.
  - Each operation runs to completion on a store no one else changes.
- Clocks.
  - `LocalDateTime.now()` becomes an integer clock.
  - In the current service, the telemetry store's clock advances by one per save.
  - In the older service, one `now` in whole seconds is passed to each tick and each
    ingestion. Readings saved in the same second keep insertion order, and sub-second parts
    of `Duration.toSeconds` are not modelled.
  - The two `now()` calls of one record are one value.
- Integer widths.
  - `Long` ids and counts are unbounded integers, except where `Long.intValue()` is modelled
    (`AlertService.IntValue`).
  - The `int` day counter `virtualDaysPassed` is unbounded; its overflow after about 430
    million ticks is not modelled.
- Database ids of telemetry records are left out. A received record that already carries an
  id would be updated by `save` rather than appended; the model always appends.
- The commented-out exponential RUL model
  (`horizon-service/src/main/java/com/belden/topology/service/RulService.java:50-65`) is dead
  code and is not modelled.
- The other endpoints are left out: graph export, history listing, topology and simulator
  controllers, the telemetry producer, database clean-up.
- The legacy repository declares only `findTop2ByCableIdOrderByTimestampDesc`, but the legacy
  tick calls `findTopByCableIdOrderByTimestampDesc`. The model gives it the meaning of its name,
  the cable's latest reading (`LegacyTelemetry.LatestOf`).
- The legacy `CableTelemetry` entity is not part of this model. Its fields are inferred from the
  getters and setters the legacy services call.
- HealthAuditScheduler.LiveCableGetsOneSample: leaves the new record's timestamp existentially
  quantified, since it depends on how many saves run earlier in the same tick.
