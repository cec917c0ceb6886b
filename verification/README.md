# Salvage, modelled

Salvage watches failed payments, decides what to do about each and carries the decision out. This project models
the parts of it that carry invariants and proves them.

- **The causal simulator** (`Trajectories`, `RailSimulation`, `PayCycle`, `Outcomes`, `Journeys`): rail health as an
  event-driven simulation inside a switching issuer chain, the salary cycle, mandates, order journeys nobody
  intervenes on, and the counterfactual labels of their failures. Draws are arbitrary functions of their keys.
- **Sensing and deciding** (`RailTracking`, `Policy`): the pruned log behind a rail's health, and the way from a
  failure signal to an action.
- **Ingest, locks, ledger and effector** (`IngestTables`, `IngestProtocol`, `LeaseLock`, `Ledgers`, `IdempotencyKeys`,
  `Effector`, `AttemptSafety`, `OperationTable`): the protocols of the core, as classes for one client and as step
  relations for many, with crashes, redelivery, lost replies and passing time.
- **Off-policy evaluation** (`Calibration`, `EffectiveSampleSize`, `Estimators`, `RewardModel`, `Fallback`,
  `Unbiasedness`, `FittedModel`, `Sampling`), on the sums of `Sums`.
- **Text with money in it** (`Formatting`, `Narration`, `Nudge`), on the numerals of `Numerals`; joined fields in
  `JoinedText`, the order of strings in `TextOrder`.

Numbers the original keeps in floating point are exact reals here, and results are stated before they are rounded for
display. Methods follow the original's loops and state; each is tied to a function, and the properties are proved of
that function.

## Where the code and its description part

The model follows the code. These descriptions in the repository do not hold of it, and the member named proves exactly
when they do or gives the input on which they fail.

- The balance curve is described over a pay cycle (`customer.py`), but measures progress by the length of the calendar
  month it is read in, so it can fall at a month's end: `PayCycle.NeverFallsIff`.
- The tracker's lists are described as sorted by timestamp (line 30 of `tracker.py`); nothing sorts them, and an outcome
  that arrives late can change the state once pruned: `RailTracking.StateSurvivesIff`.
- The operation row is described as surviving a crash between the call and the commit (`RecoveryEffector.java`,
  `V4__provider_operations.sql`); it is written in the transaction that the crash rolls back:
  `Effector.CrashLosesTheIntent`. What survives is the provider's idempotency: `AttemptSafety.RedeliveryTakesNothing`.
- Reconciliation is described as what keeps a customer from being charged twice (`RecoveryEffector.java`,
  `ReconciliationGuard.java`). It reads the original payment, not the retries already made of it:
  `AttemptSafety.TwoOrdinalsPayTwice`, `AttemptSafety.PaidOnceIff`, and for what a caller can check
  `AttemptSafety.GuardIsExact`.
- Every step is described as appended to the ledger (line 90 of `PRODUCT.md`); the link whose call raises is not:
  `Effector.LedgerMatchesRows`, `Effector.LinkRowWithoutLedger`.
- Three of six payment states are said to permit a retry (`ReconciliationGuard.java`); of the seven there are, two do.
- A provider's UNKNOWN is never to become a failure (`PaymentProvider.java`); the row is settled with it, and a
  redelivery reports one: `Effector.ReplayRepeatsIff`.
- A separator inside a hash is described as unable to collide (`IdempotencyKeys.java`); it cannot exactly when the
  joined ids do not contain it: `IdempotencyKeys.MaterialIsDistinctIff`, and for the ledger's bar
  `Ledgers.TextDeterminesEntryIff`. `IdempotencyKeys.forOperation` takes ids with a NUL character; the `TEXT` columns
  they are stored in refuse them, so no row can carry such a key.
- The direct method's fallback is described as the action-wide mean (`direct_method.py`); it is the mean, over strata,
  of stratum means: `Fallback.FallbackIsActionMeanIff`, `Fallback.FallbackIsAlwaysActionMeanIff`.
- A residual decline is listed after the balance check (docstring of `outcome.py`); it is drawn with the rail's health,
  before it, so of an empty account and an unlucky draw the decline is reported: `Outcomes.OutcomeIff`.
- Two branches of the diagnosis cannot be taken: an unhealthy rail has already turned a timeout or an unknown code
  into an outage (lines 75-76 and 99-103 of `diagnosis/engine.py`). `Policy.Diagnose` states what is left.
- The grouping of a negative number, the canonical form of a figure with superfluous zeros and the substitution of a
  merchant name with braces go wrong on the inputs that `Formatting.NegativeGroupingIff`,
  `Narration.SameCanonicalIff`, `Nudge.NameIsSafeIff` and `Nudge.NameIsSafeWithLinkIff` describe.

## Model

| member | source | states |
|---|---|---|
| `Trajectories.BisectRight` | packages/salvage-sim/src/salvage_sim/latent/health.py:105 | the insertion point to the right: everything before it is at most `x`, everything from it on is greater |
| `Trajectories.AtAgreesWithScan` | packages/salvage-sim/src/salvage_sim/latent/health.py:93-105 | bisection and a linear scan from the front return the same state at every time, including before zero and past the end |
| `Trajectories.HoldsIff` | packages/salvage-sim/src/salvage_sim/latent/health.py:93-105 | it is the state whose stretch, from when it was entered until the next is, contains the time |
| `Trajectories.TimeIn` | packages/salvage-sim/src/salvage_sim/latent/health.py:111-118 | the loop returns the specification total of the stretches spent in the state |
| `Trajectories.TimeInMeasures` | packages/salvage-sim/src/salvage_sim/latent/health.py:111-118 | time in a state starts at zero, grows exactly with elapsed time while `at` returns the state, and not at all while it does not |
| `Trajectories.TimeInIsTheOnlyMeasure` | packages/salvage-sim/src/salvage_sim/latent/health.py:111-118 | no other function of the horizon grows that way, so `time_in` is the measure of when `at` returns the state |
| `Trajectories.TimeIsConserved` | packages/salvage-sim/src/salvage_sim/latent/health.py:111-118 | over any list of distinct states that covers the path, the times add up to the horizon, for every horizon from zero up |
| `RailSimulation.BoundedBelowIsUnbounded` | packages/salvage-sim/src/salvage_sim/latent/health.py:200-250 | waits of at least some positive length meet the condition under which both simulation loops are proved to end |
| `RailSimulation.SimulateTwoState` | packages/salvage-sim/src/salvage_sim/latent/health.py:121-154 | the issuer chain ends, alternates between its two states, and holds each for exactly its draw at that state's rate, up to the horizon |
| `RailSimulation.TwoStatePathIsDetermined` | packages/salvage-sim/src/salvage_sim/latent/health.py:121-154 | the draws leave only one such path |
| `RailSimulation.SimulateIssuer` | packages/salvage-sim/src/salvage_sim/latent/health.py:269-289 | an issuer is normal and stressed in turn: a normal stretch times the daily onset times its unreliability is 86400 unit draws, a stressed one times the hourly recovery is 3600 |
| `RailSimulation.Choose` | packages/salvage-sim/src/salvage_sim/latent/health.py:237-245 | the competing transition picked is the one whose share of the cumulative rates the draw falls into |
| `RailSimulation.NextChange` | packages/salvage-sim/src/salvage_sim/latent/health.py:219-224 | the next issuer transition strictly after now, or the horizon |
| `RailSimulation.SimulateRail` | packages/salvage-sim/src/salvage_sim/latent/health.py:157-252 | the event loop ends and returns the path of a complete run: every pass drawn at the rates of the issuer state then in force, fired or redrawn at the next issuer transition |
| `RailSimulation.PathIsSound` | packages/salvage-sim/src/salvage_sim/latent/health.py:190-252 | at every point of every run the path starts at zero, increases strictly, stays below the horizon, and moves one step at a time along healthy, degraded, down |
| `RailSimulation.RailPathsAreSoundAndUnique` | packages/salvage-sim/src/salvage_sim/latent/health.py:190-252 | the same of whatever the loop returns, which the draws determine uniquely |
| `RailSimulation.RatesAreCurrent` | packages/salvage-sim/src/salvage_sim/latent/health.py:200-250 | each fired transition used the rates of an issuer state that held over the whole stretch from the last redraw to the arrival |
| `RailSimulation.PassIsLawful` | packages/salvage-sim/src/salvage_sim/latent/health.py:176-248 | what a pass makes of its draws, in the calibrated units: the wait out of healthy times daily rate, reliability and stress is 86400 unit draws; out of down, times the hourly rate, 3600 unit draws times the stress; out of degraded the odds of going down are those of the two rates times the square of the stress |
| `RailSimulation.RunsAreLawful` | packages/salvage-sim/src/salvage_sim/latent/health.py:200-250 | every pass of every run is such a pass |
| `RailSimulation.StressHurts` | packages/salvage-sim/src/salvage_sim/latent/health.py:201-214 | from one moment with one draw, stress divides the wait out of healthy by exactly the multiplier, multiplies the wait out of down by exactly it, and turns no way down into a healing |
| `RailSimulation.ReliabilityScalesOnset` | packages/salvage-sim/src/salvage_sim/latent/health.py:179-188 | reliability scales the wait out of healthy inversely, and no other |
| `RailSimulation.RedrawnAt` | packages/salvage-sim/src/salvage_sim/latent/health.py:200-250 | a pass starts only at the last transition of the rail or at a transition of its issuer |
| `RailSimulation.RunIsDetermined` | packages/salvage-sim/src/salvage_sim/latent/health.py:200-250 | two complete runs over one issuer path and the same draws are the same run |
| `PayCycle.LocalAt` | packages/salvage-sim/src/salvage_sim/clock.py:51-55 | every instant has one valid local reading, and the reading gives the instant back |
| `PayCycle.CalendarIsGregorian` | packages/salvage-sim/src/salvage_sim/clock.py:82-109 | the month lengths are those of the Gregorian calendar: year starts and months from March in closed form |
| `PayCycle.ReadingsAreOrdered` | packages/salvage-sim/src/salvage_sim/clock.py:51-55 | readings compare by month, day and time of day exactly as their instants do |
| `PayCycle.NextPaydayIsEarliest` | packages/salvage-sim/src/salvage_sim/clock.py:82-109 | the distance lies in (0, length of the local month] and leads to the earliest payday midnight strictly later, in any month of any year |
| `PayCycle.ProgressNeedsNoClamp` | packages/salvage-sim/src/salvage_sim/latent/customer.py:146-178 | while the curve climbs, progress is already in [0, 1): neither the clamp nor the zero-climb branch acts |
| `PayCycle.RateStaysBetween` | packages/salvage-sim/src/salvage_sim/latent/customer.py:146-178 | the rate before pressure stays between trough and peak |
| `PayCycle.CurveIs` | packages/salvage-sim/src/salvage_sim/latent/customer.py:161-176 | the curve by its anchors: the peak for the last days, and before them above the trough in proportion to the days of the climb that have passed |
| `PayCycle.CurveIsStraight` | packages/salvage-sim/src/salvage_sim/latent/customer.py:161-176 | within a month, before the peak, equal times add equally |
| `PayCycle.NeverFallsWithinMonth` | packages/salvage-sim/src/salvage_sim/latent/customer.py:146-188 | within a calendar month and with no payday between, the rate never falls |
| `PayCycle.NeverFallsIff` | packages/salvage-sim/src/salvage_sim/latent/customer.py:146-188 | over a whole pay cycle it never falls exactly when the curve is flat, the next month is no shorter, or that month starts inside the peak |
| `PayCycle.ProbabilityFollowsRate` | packages/salvage-sim/src/salvage_sim/latent/customer.py:146-178 | under any positive pressure the probability is one, and keeps the order of the rates |
| `PayCycle.ProbabilityIs` | packages/salvage-sim/src/salvage_sim/latent/customer.py:178 | the probability is the rate times the pressure, or one where that is more |
| `Outcomes.Mandate.DebitTimes` | packages/salvage-sim/src/salvage_sim/latent/mandate.py:85-101 | exactly the scheduled debits inside [0, horizon], in increasing order, whatever the state of the mandate |
| `Outcomes.MandateIs` | packages/salvage-sim/src/salvage_sim/latent/mandate.py:140-174 | a mandate is active until its lifetime is over or its revocation comes, and revoked rather than expired if and only if that comes sooner |
| `Outcomes.DeadStaysDead` | packages/salvage-sim/src/salvage_sim/latent/mandate.py:69-83 | a mandate that is dead at one time is dead at every later one |
| `Outcomes.DeadKeepsItsReason` | packages/salvage-sim/src/salvage_sim/latent/mandate.py:140-201 | a mandate made by the book, where a revocation after expiry is never recorded, also keeps the reason it died |
| `Outcomes.OutcomeIff` | packages/salvage-sim/src/salvage_sim/latent/outcome.py:161-260 | an attempt succeeds if and only if nothing stands in its way, and otherwise reports a cause if and only if it holds and no cause that holds ranks before it: revoked, expired, dead card, the three of the rail (each exactly in its state), short funds |
| `Outcomes.GuestSucceedsIff` | packages/salvage-sim/src/salvage_sim/latent/outcome.py:213-238 | with nothing else against it an attempt succeeds if and only if its draw is below the success rate of the method times the multiplier of the state the path holds |
| `Outcomes.LuckierStillSucceeds` | packages/salvage-sim/src/salvage_sim/latent/outcome.py:161-260 | a success stays one under every smaller draw, in any state that lets no less through, and wherever nothing else has got worse, in any other world |
| `Outcomes.DeadCardStaysDead` | packages/salvage-sim/src/salvage_sim/latent/outcome.py:198-211 | only cards fail with an expired instrument, and then at every time on every card rail, for the card unless for the mandate |
| `Outcomes.AnotherRailHelpsIff` | packages/salvage-sim/src/salvage_sim/latent/outcome.py:92-106 | some world has an attempt fail with a cause while another rail would have succeeded at that moment, if and only if the cause is one of the rail or a dead card |
| `Outcomes.PermanentIsForever` | packages/salvage-sim/src/salvage_sim/latent/outcome.py:161-196 | after a permanent failure every later attempt, on any rail and under any draw, fails permanently |
| `Outcomes.ShortfallPersists` | packages/salvage-sim/src/salvage_sim/latent/outcome.py:240-260 | a funds failure repeats on every rail while the balance bucket lasts and the risk has not fallen |
| `Outcomes.WaitingForPayday` | packages/salvage-sim/src/salvage_sim/latent/outcome.py:240-260 | so it repeats until the bucket turns, the month ends or the salary arrives |
| `Journeys.RunCheckout` | packages/salvage-sim/src/salvage_sim/latent/journey.py:148-197 | the attempts are numbered from one, at strictly increasing times inside the run, at most the allowed number, only the last can succeed, each answers the one before, and the journey stops only for one of the four reasons |
| `Journeys.RunRecurring` | packages/salvage-sim/src/salvage_sim/latent/journey.py:203-224 | the same for a scheduled debit followed by the dunning schedule, on its own rail, stopping at success, at the end of the schedule or at the horizon |
| `Journeys.SucceededAt` | packages/salvage-sim/src/salvage_sim/latent/journey.py:88-93 | the time of the first success, and nothing exactly when every attempt failed |
| `Journeys.Counterfactuals` | packages/salvage-sim/src/salvage_sim/labels/counterfactual.py:173-197 | every choice in turn after every delay, each asked of the same mechanism, in that order; an error if and only if the failure is permanent and one of them succeeds |
| `Journeys.AskedAt` | packages/salvage-sim/src/salvage_sim/labels/counterfactual.py:176-183 | the answer for the r-th choice and the k-th delay stands at its place in the order, same rail first |
| `Journeys.OracleIsBest` | packages/salvage-sim/src/salvage_sim/labels/counterfactual.py:228-246 | the oracle recovers if and only if a counterfactual does, and then names one than which none is earlier, none as early retries the same rail where it does not, and none alike in both has a rail of an earlier name |
| `Journeys.Label` | packages/salvage-sim/src/salvage_sim/labels/counterfactual.py:147-171 | a label for every failure and only for failures: the answer for the r-th choice and k-th delay at its place among (alternatives + 1) times offsets; an oracle that recovers if and only if some choice after some delay succeeds, and names the best; natural recovery if and only if the first success falls into the window, with exactly its delay |
| `Journeys.PermanentFailsEverywhere` | packages/salvage-sim/src/salvage_sim/labels/counterfactual.py:173-197 | after a permanent failure no counterfactual succeeds, on any rail, at any non-negative delay |
| `Journeys.PermanentIsTheEnd` | packages/salvage-sim/src/salvage_sim/labels/counterfactual.py:147-246 | and every later attempt fails permanently, the order never succeeds, it is never labelled recovered naturally, and its oracle does not recover |
| `Journeys.EmptyAccountNeedsWaiting` | packages/salvage-sim/src/salvage_sim/labels/counterfactual.py:199-246 | after a funds failure no counterfactual at offset zero succeeds on any rail, so an oracle that recovers does so at a strictly positive offset |
| `Journeys.QueriesInsideHealthHorizon` | packages/salvage-sim/src/salvage_sim/latent/world.py:72-78 | no counterfactual asks for a time outside the health paths, simulated past the run by the longest offset |
| `RailTracking.RailHealthTracker.RecordOutcome` | services/salvage-brain/src/salvage_brain/sensing/tracker.py:33-48 | append and prune leave the pruned log of the rail's whole history; an empty rail id changes nothing; other rails are untouched |
| `RailTracking.RailHealthTracker.GetSnapshot` | services/salvage-brain/src/salvage_brain/sensing/tracker.py:91-142 | the snapshot, by counting the outcomes kept: totals, shares and failures a minute of each window, and the state by the rules below; nothing changes |
| `RailTracking.StateIsClassified` | services/salvage-brain/src/salvage_brain/sensing/tracker.py:112-131 | with five outcomes in five minutes: down if and only if ten times the successes are fewer than seven times the outcomes or the last three are timeouts; else degraded if and only if a hundred times them are fewer than 95 times, or in the last minute ten times fewer than seven times; else healthy |
| `RailTracking.SuccessNeverWorsens` | services/salvage-brain/src/salvage_brain/sensing/tracker.py:112-131 | had any outcome been a success the state would be no worse |
| `RailTracking.RailHealthTracker.SnapshotIsFaithful` | services/salvage-brain/src/salvage_brain/sensing/tracker.py:43-142 | what is read from the kept log is the snapshot of the full history, up to 2700 s before the latest stamp, as long as no stamp lies more than 600 s behind an earlier one |
| `RailTracking.WindowsSurviveIff` | services/salvage-brain/src/salvage_brain/sensing/tracker.py:43-68 | all histories keep a window at every reference time up to B before their latest stamp, in whatever order stamps arrived, if and only if B and the window's length add up to at most 3600 s: for fifteen minutes, B at most 2700 s |
| `RailTracking.StateSurvivesIff` | services/salvage-brain/src/salvage_brain/sensing/tracker.py:31-131 | all histories whose stamps lie at most L behind an earlier one keep the health state at every reference time up to R before their latest stamp if and only if R + L is at most 3300 s |
| `RailTracking.SnapshotSurvivesIff` | services/salvage-brain/src/salvage_brain/sensing/tracker.py:43-142 | and the whole snapshot if and only if moreover R is at most 2700 s |
| `RailTracking.LaterOutcomesLeaveWindows` | services/salvage-brain/src/salvage_brain/sensing/tracker.py:43-68 | outcomes stamped after the reference time leave its windows as they were |
| `RailTracking.LaterOutcomesLeaveState` | services/salvage-brain/src/salvage_brain/sensing/tracker.py:97-131 | and, with R + L within 3300 s, its state |
| `RailTracking.LateHistoryDiffers` | services/salvage-brain/src/salvage_brain/sensing/tracker.py:31-48 | one late success is all it takes: for every L and R past that bound, with R within it, a history reads DEGRADED whole and DOWN once pruned |
| `IngestTables.PaymentFailedConsumer.Ingest` | services/salvage-core/src/main/java/com/salvage/core/ingest/PaymentIngestService.java:62-98 | one event alone: unknown merchant, duplicate, or a failure row with the attempt found or created; a violation leaves the tables unchanged |
| `IngestTables.PaymentFailedConsumer.OnMessage` | services/salvage-core/src/main/java/com/salvage/core/ingest/PaymentFailedConsumer.java:60-92 | acknowledged exactly when the message is malformed, names an unknown merchant, or has its row; a message left for redelivery changed nothing |
| `IngestTables.CommitKeeps` | services/salvage-core/src/main/resources/db/migration/V1__baseline.sql:36-90 | a commit that the constraints admit keeps keys unique and every failure pointing at an attempt of its merchant, and only appends |
| `IngestTables.IngestKeeps` | services/salvage-core/src/main/java/com/salvage/core/ingest/PaymentIngestService.java:62-98 | ingesting keeps the tables consistent and append-only, leaves a row when it succeeds, changes nothing when it fails, and violates a constraint exactly when a new attempt's id is taken |
| `IngestTables.IngestIs` | services/salvage-core/src/main/java/com/salvage/core/ingest/PaymentIngestService.java:62-98 | the whole result: an unknown merchant refused; a known event reported with its attempt, nothing changed; a new one appended with its fields under the attempt of its name, found or made |
| `IngestTables.RedeliveryIsNoOp` | services/salvage-core/src/main/java/com/salvage/core/ingest/PaymentIngestService.java:69-73 | a second ingest of an event, whatever came between, reports a duplicate of the first and changes nothing |
| `IngestProtocol.InvKept` | services/salvage-core/src/main/java/com/salvage/core/ingest/PaymentIngestService.java:62-98 | every step of every worker (read, insert, commit, acknowledge, crash, redeliver) keeps the invariant over tables, workers and acknowledgements |
| `IngestProtocol.RowsAreAppendOnly` | services/salvage-core/src/main/java/com/salvage/core/ingest/PaymentIngestService.java:62-98 | over every run no committed row is altered or removed |
| `IngestProtocol.ExactlyOnce` | services/salvage-core/src/main/java/com/salvage/core/ingest/PaymentFailedConsumer.java:60-92 | over every interleaving: at most one failure row per merchant and event, each pointing at an attempt of its merchant and belonging to an accepted event; once every offset is acknowledged, all of them |
| `IngestProtocol.AcknowledgedIsSettled` | services/salvage-core/src/main/java/com/salvage/core/ingest/PaymentFailedConsumer.java:60-92 | an acknowledged offset was malformed, named an unknown merchant, or has its row committed |
| `IngestProtocol.NoOrphanAttempts` | services/salvage-core/src/main/java/com/salvage/core/ingest/PaymentIngestService.java:62-98 | every attempt row a run adds has a failure of its own merchant pointing at it |
| `IngestProtocol.CommitIsAtomicIngest` | services/salvage-core/src/main/java/com/salvage/core/ingest/PaymentIngestService.java:62-98 | a commit that succeeds does to the tables exactly what ingesting that event alone, at that moment, would do |
| `LeaseLock.DistributedLockManager.TryAcquireCustomerLock` | services/salvage-core/src/main/java/com/salvage/core/lock/DistributedLockManager.java:46-68 | a handle exactly when the store was free and the reply arrived; the store and the history of grants change as the set-if-absent says, even when the reply is lost |
| `LeaseLock.DistributedLockManager.ReleaseLock` | services/salvage-core/src/main/java/com/salvage/core/lock/DistributedLockManager.java:75-92 | deletes the key only if it still holds the token, and says whether it did |
| `LeaseLock.DistributedLockManager.Close` | services/salvage-core/src/main/java/com/salvage/core/lock/DistributedLockManager.java:115-118 | closing, once or again, never removes another holder's lock |
| `LeaseLock.InvKept` | services/salvage-core/src/main/java/com/salvage/core/lock/DistributedLockManager.java:23-92 | every acquire, lost reply, release, crash and clock tick keeps the invariant over store, grants and handles |
| `LeaseLock.MutualExclusion` | services/salvage-core/src/main/java/com/salvage/core/lock/DistributedLockManager.java:46-92 | over every run no two grants hold one key at one moment |
| `LeaseLock.AcquirableIffFree` | services/salvage-core/src/main/java/com/salvage/core/lock/DistributedLockManager.java:46-68 | an acquire that reaches the store succeeds exactly when no grant holds the key, so a key set by a call whose reply was lost is free again after its lease |
| `LeaseLock.OpenHandlesExclude` | services/salvage-core/src/main/java/com/salvage/core/lock/DistributedLockManager.java:95-118 | of two open handles on one key, one is past its lease or released |
| `LeaseLock.LeaseCanExpireUnderHolder` | services/salvage-core/src/main/java/com/salvage/core/lock/DistributedLockManager.java:95-118 | and two open handles on one key do occur |
| `LeaseLock.KeysClashIff` | services/salvage-core/src/main/java/com/salvage/core/lock/DistributedLockManager.java:51 | two merchants can share a lock key exactly when one id extends the other past a colon |
| `Calibration.Evaluate` | packages/salvage-eval/src/salvage_eval/diagnostics/calibration.py:14-65 | the loop over bins returns the mean squared error, the weighted sum of per-bin gaps, and a table whose rows describe their bins |
| `Calibration.BrierIs` | packages/salvage-eval/src/salvage_eval/diagnostics/calibration.py:24-25 | the Brier score is the mean squared distance from what happened, zero if and only if every prediction was certain and right |
| `Calibration.BinIsFloor` | packages/salvage-eval/src/salvage_eval/diagnostics/calibration.py:28-38 | a prediction's bin is the whole part of bins times it, with one in the last |
| `Calibration.ExactlyOneBin` | packages/salvage-eval/src/salvage_eval/diagnostics/calibration.py:29-41 | a prediction is in some bin exactly when it is in [0, 1], and never in two |
| `Calibration.CountsSumToTotal` | packages/salvage-eval/src/salvage_eval/diagnostics/calibration.py:33-41 | the bin counts never exceed the episodes, and add up to them exactly when every prediction is in [0, 1] |
| `Calibration.GapsWithinErrors` | packages/salvage-eval/src/salvage_eval/diagnostics/calibration.py:32-46 | the gaps of the bins together are at most the sum of absolute errors of what the bins cover |
| `Calibration.EceIsNoughtIff` | packages/salvage-eval/src/salvage_eval/diagnostics/calibration.py:33-45 | no bin is left out: the calibration error is zero if and only if the errors of every bin cancel |
| `Calibration.EceIsAtLeastBias` | packages/salvage-eval/src/salvage_eval/diagnostics/calibration.py:33-45 | and for probabilities never less than the mean error, equal to it with one bin |
| `Calibration.EceSquaredIsAtMostBrier` | packages/salvage-eval/src/salvage_eval/diagnostics/calibration.py:21-46 | the squared expected calibration error never exceeds the Brier score, for any predictions, outcomes and number of bins |
| `EffectiveSampleSize.KishBetween` | packages/salvage-eval/src/salvage_eval/diagnostics/effective_sample_size.py:12-19 | of non-negative weights, zero when none is positive; otherwise between one and the number of positive weights, at the top exactly when those are equal, at the bottom exactly when there is one |
| `EffectiveSampleSize.KishIsFullIff` | packages/salvage-eval/src/salvage_eval/diagnostics/effective_sample_size.py:12-19 | for any weights it is at most the sample size, and reaches it exactly when all are equal and not zero |
| `EffectiveSampleSize.KishIgnoresScale` | packages/salvage-eval/src/salvage_eval/diagnostics/effective_sample_size.py:12-19 | unchanged when every weight is multiplied by a constant other than zero |
| `Estimators.WeightIsPositiveIff` | packages/salvage-eval/src/salvage_eval/estimators/ips.py:34-45 | under no cap or a positive one, a weight is non-negative, within the cap, and positive exactly where both policies may act |
| `Estimators.EstimateIps` | packages/salvage-eval/src/salvage_eval/estimators/ips.py:16-55 | the loop returns the mean weighted reward, its squared standard error (none for one episode), Kish's size of the weights, and identifiable exactly when no wanted action had a zero propensity |
| `Estimators.EstimateSnips` | packages/salvage-eval/src/salvage_eval/estimators/snips.py:16-60 | the same for the self-normalised mean, zero when nothing carries weight, with the squared standard error of its linearized terms |
| `Estimators.SquaredErrorIs` | packages/salvage-eval/src/salvage_eval/estimators/ips.py:47-48 | a squared standard error is the spread about the mean, never negative, and zero exactly when all values are equal |
| `Estimators.LinearizedCancels` | packages/salvage-eval/src/salvage_eval/estimators/snips.py:56-58 | the linearized terms sum to zero, whatever the weights and rewards |
| `Estimators.SnipsIsBetween` | packages/salvage-eval/src/salvage_eval/estimators/snips.py:46-54 | the estimate lies between the least and the greatest reward of the episodes with positive weight |
| `Estimators.SnipsStaysInRange` | packages/salvage-eval/src/salvage_eval/estimators/snips.py:30-54 | so between those of the episodes where both policies may act, when there is one |
| `Estimators.SnipsShiftsIff` | packages/salvage-eval/src/salvage_eval/estimators/snips.py:46-54 | adding c to every reward adds exactly c, if and only if c is zero or something carries weight |
| `RewardModel.DirectMethodEstimator.Fit` | packages/salvage-eval/src/salvage_eval/estimators/direct_method.py:17-33 | the dictionary loop leaves one mean per stratum that occurs |
| `RewardModel.DirectMethodEstimator.Estimate` | packages/salvage-eval/src/salvage_eval/estimators/direct_method.py:46-68 | fits first if needed; the mean expected reward and its squared standard error, none for no episodes |
| `RewardModel.EstimateWith` | packages/salvage-eval/src/salvage_eval/estimators/doubly_robust.py:32-76 | the loop returns the mean doubly robust term, its squared standard error, Kish's size and identifiability |
| `RewardModel.DoublyRobustEstimator.Estimate` | packages/salvage-eval/src/salvage_eval/estimators/doubly_robust.py:22-76 | fits the shared reward model if needed and only then, and returns that |
| `RewardModel.SuffixMeansAction` | packages/salvage-eval/src/salvage_eval/estimators/direct_method.py:35-44 | a stored key ends with an action's suffix exactly when it is a key of that action, whatever the taxonomy code contains |
| `RewardModel.KeysNeverClash` | packages/salvage-eval/src/salvage_eval/estimators/direct_method.py:27-31 | two strata share a string key exactly when they are the same stratum |
| `RewardModel.FitCollects` | packages/salvage-eval/src/salvage_eval/estimators/direct_method.py:19-31 | after the loop: unique strata, one per stratum that occurs, each with the count and the sum of its rewards |
| `RewardModel.PredictsStratumMean` | packages/salvage-eval/src/salvage_eval/estimators/direct_method.py:35-40 | a stratum that occurs predicts its own mean reward |
| `Fallback.FallbackIsActionMeanIff` | packages/salvage-eval/src/salvage_eval/estimators/direct_method.py:41-44 | for one log, a stratum never seen predicts the mean reward of its action if and only if the sum over the action's strata of (K n - N) times their mean is zero: n episodes of N in one of K strata |
| `Fallback.FallbackIsAlwaysActionMeanIff` | packages/salvage-eval/src/salvage_eval/estimators/direct_method.py:41-44 | it does so over every assignment of rewards to the log if and only if all strata of the action occur equally often |
| `Fallback.FallbackCanDiffer` | packages/salvage-eval/src/salvage_eval/estimators/direct_method.py:41-44 | strata of one and of two episodes with means 0 and 3 predict 1.5 where the action earned 2 |
| `RewardModel.ResidualsCancel` | packages/salvage-eval/src/salvage_eval/estimators/direct_method.py:17-44 | residuals of the fitted model sum to zero in every stratum |
| `RewardModel.CorrectionIsMeanResidual` | packages/salvage-eval/src/salvage_eval/estimators/doubly_robust.py:39-69 | doubly robust minus direct method is the mean weighted residual, for any model |
| `RewardModel.NothingToCorrect` | packages/salvage-eval/src/salvage_eval/estimators/doubly_robust.py:32-69 | for a model fitted on the same episodes the two are equal whenever the clipped weights are constant in each stratum |
| `Unbiasedness.ExpectedIsExpectation` | packages/salvage-eval/src/salvage_eval/estimators/direct_method.py:57-62 | the loop over the dictionary computes the expectation, over all five actions, of the predicted reward under the positive part of the policy |
| `Unbiasedness.PropensityTimesWeight` | packages/salvage-eval/src/salvage_eval/estimators/ips.py:30-42 | the three-way branch: a propensity times the weight it leads to is the target probability, up to the cap times the propensity, wherever the propensity is positive, and nothing elsewhere |
| `Unbiasedness.IdentifiableIff` | packages/salvage-eval/src/salvage_eval/estimators/ips.py:34-36 | a log is identifiable if and only if weighing without a cap undoes every recorded propensity |
| `Unbiasedness.TermsAreThese` | packages/salvage-eval/src/salvage_eval/estimators/doubly_robust.py:45-67 | the terms the estimator averages are the ones whose expectation is taken below |
| `Unbiasedness.WithoutModel` | packages/salvage-eval/src/salvage_eval/estimators/doubly_robust.py:45-67 | with a model that predicts nothing they are those of inverse propensity scoring |
| `Unbiasedness.BiasIs` | packages/salvage-eval/src/salvage_eval/estimators/doubly_robust.py:32-69 | for every policy, logging distribution, recorded propensities, cap, model and true means, the bias is exactly the sum over actions of (target probability - logging probability times weight) times (prediction - truth) |
| `Unbiasedness.RightModelIsUnbiased` | packages/salvage-eval/src/salvage_eval/estimators/doubly_robust.py:11-20 | double protection, one way: a model right about every action leaves no bias under any recorded propensities and any cap |
| `Unbiasedness.RightPropensitiesAreUnbiasedIff` | packages/salvage-eval/src/salvage_eval/estimators/doubly_robust.py:11-20 | the other way: with the true propensities and whatever model, no bias for any true means if and only if logging covers every action the target takes, up to the cap; without a model this is inverse propensity scoring |
| `Unbiasedness.OnPolicyIsTheMean` | packages/salvage-eval/src/salvage_eval/estimators/direct_method.py:46-66 | fitted on its own log and asked for the policy that did what was logged, the direct method returns the mean reward |
| `FittedModel.FittedRecoverabilityModel.Fit` | packages/salvage-eval/src/salvage_eval/model/fitted_recoverability.py:109-124 | every table reads what the log says at its level |
| `FittedModel.FittedRecoverabilityModel.Observe` | packages/salvage-eval/src/salvage_eval/model/fitted_recoverability.py:126-140 | one observation moves exactly the four counters it belongs to |
| `FittedModel.FittedRecoverabilityModel.CellFor` | packages/salvage-eval/src/salvage_eval/model/fitted_recoverability.py:147-168 | the cell the log determines, or the error; entries inserted by reading change nothing that is read later |
| `FittedModel.FittedRecoverabilityModel.Predict` | packages/salvage-eval/src/salvage_eval/model/fitted_recoverability.py:170-190 | the prediction the log determines |
| `FittedModel.FittedRecoverabilityModel.Summary` | packages/salvage-eval/src/salvage_eval/model/fitted_recoverability.py:194-226 | the rows the log determines, in order, whatever entries earlier lookups inserted |
| `FittedModel.ChildrenAddUp` | packages/salvage-eval/src/salvage_eval/model/fitted_recoverability.py:126-140 | a group's counts are the sum over any partition of it |
| `FittedModel.LevelsPartition` | packages/salvage-eval/src/salvage_eval/model/fitted_recoverability.py:97-103 | leaves partition causes, causes partition actions, actions partition everything |
| `FittedModel.OrderDoesNotMatter` | packages/salvage-eval/src/salvage_eval/model/fitted_recoverability.py:109-140 | no count depends on the order of the episodes |
| `FittedModel.ShrunkIsBetween` | packages/salvage-eval/src/salvage_eval/model/fitted_recoverability.py:144-145 | a shrunk estimate is a probability between the cell's rate and its parent, the parent's when there is no evidence, and nearer to the rate exactly when there are at least as many trials as the pseudo-count |
| `FittedModel.TallyIsCount` | packages/salvage-eval/src/salvage_eval/model/fitted_recoverability.py:126-140 | the counters of a group count the observations of its kind and those that recovered |
| `FittedModel.CellIsHierarchical` | packages/salvage-eval/src/salvage_eval/model/fitted_recoverability.py:147-168 | with all counts those of the log: the action's estimate weighs its evidence against the pseudo-count at the overall rate, the cause's at the action's, and the leaf's at the cause's, which is the cell's parent; a level without evidence passes on the estimate above |
| `FittedModel.CellIsDetermined` | packages/salvage-eval/src/salvage_eval/model/fitted_recoverability.py:147-168 | no other numbers meet those equations |
| `FittedModel.CellsAreProbabilities` | packages/salvage-eval/src/salvage_eval/model/fitted_recoverability.py:147-168 | every cell of every fitted model is a probability between its leaf's rate and its parent, which is one too |
| `FittedModel.CodesMean` | packages/salvage-eval/src/salvage_eval/baselines/observable.py:32-45 | each code has its cause; a mandate is dead if and only if the code says expired or revoked |
| `FittedModel.PredictionIsNoughtIff` | packages/salvage-eval/src/salvage_eval/model/fitted_recoverability.py:170-190 | a prediction is zero if and only if the mandate is dead and the action does something, or nothing in the log recovered |
| `FittedModel.PredictionsReadOnlyTheLog` | packages/salvage-eval/src/salvage_eval/model/fitted_recoverability.py:109-226 | reordering the log, or rewriting the counterfactual fields, changes no prediction and no summary row |
| `FittedModel.SummaryAccountsForLog` | packages/salvage-eval/src/salvage_eval/model/fitted_recoverability.py:194-226 | the summary has a row for each leaf with evidence, giving its counts, its rate and its cell's estimate, and its trials add up to the number of episodes |
| `FittedModel.SummaryIsSorted` | packages/salvage-eval/src/salvage_eval/model/fitted_recoverability.py:199-208 | its rows are in the order of the names of action and cause, then of the payday flag |
| `FittedModel.DeadMandateIsStructural` | packages/salvage-eval/src/salvage_eval/model/fitted_recoverability.py:170-190 | a dead mandate predicts exactly zero for every action but doing nothing, which is estimated like the rest |
| `Sampling.SortOrders` | packages/salvage-eval/src/salvage_eval/dataset/from_simulator.py:326 | the stable sort is a permutation in key order with ties in order of position |
| `Sampling.SubsampleKeepsLowest` | packages/salvage-eval/src/salvage_eval/dataset/from_simulator.py:299-328 | the kept positions increase, are as many as the limit takes, and each comes before every dropped one by hash and then by position |
| `Sampling.LowestIsUnique` | packages/salvage-eval/src/salvage_eval/dataset/from_simulator.py:299-328 | no other positions do |
| `Sampling.SubsampleIsTheLowest` | packages/salvage-eval/src/salvage_eval/dataset/from_simulator.py:299-328 | so the sample is the run at those positions, a subsequence in order |
| `Sampling.TrainTestSplit` | packages/salvage-eval/src/salvage_eval/dataset/split.py:36-61 | an error for a fraction outside (0, 1) or an empty side, and otherwise the two sides |
| `Sampling.SideCounts` | packages/salvage-eval/src/salvage_eval/dataset/split.py:50-53 | an episode is on a side by its bucket alone, as often as it occurs |
| `Sampling.SplitIsPartition` | packages/salvage-eval/src/salvage_eval/dataset/split.py:50-53 | the two sides together are the episodes, and share none |
| `Sampling.ReorderingReordersSides` | packages/salvage-eval/src/salvage_eval/dataset/split.py:50-53 | permuting the episodes only permutes each side |
| `Sampling.SidesExtend` | packages/salvage-eval/src/salvage_eval/dataset/split.py:50-53 | each side is in the order of the run: a longer run extends the sides of a shorter one |
| `Formatting.GroupIndian` | services/salvage-brain/src/salvage_brain/language/formatting.py:35-47 | the loop groups the characters of `str(value)`: pairs from the right in front of a last three |
| `Formatting.GroupingIsForced` | services/salvage-brain/src/salvage_brain/language/formatting.py:35-47 | a string is the grouped form of some digits exactly when it carries them with a comma at every third place from the right, from the fourth on, and none in front |
| `Formatting.NegativeGroupingIff` | services/salvage-brain/src/salvage_brain/language/formatting.py:35-47 | a negative number keeps its sign in front of its grouped digits exactly when it has fewer than three digits or an even number of them |
| `Formatting.FormatPaiseInr` | services/salvage-brain/src/salvage_brain/language/formatting.py:20-32 | the sign outside, the rupee sign, grouped rupees, a point, two digits |
| `Formatting.ConsoleFormatPaise` | apps/salvage-console/src/lib/formatters.ts:22-25 | the console's version gives the same text for every integer |
| `Formatting.SplitPaise` | apps/salvage-console/src/lib/formatters.ts:46-52 | sign, rupees and remainder put the magnitude back together; the real division is exact |
| `Formatting.ConsoleGroupIndian` | apps/salvage-console/src/lib/formatters.ts:55-68 | the console groups the magnitude the same way |
| `Formatting.FormatRupeesWhole` | apps/salvage-console/src/lib/formatters.ts:34-37 | the same text cut before the point: truncated towards zero, keeping the sign |
| `Formatting.FormatRoundTrips` | services/salvage-brain/src/salvage_brain/language/formatting.py:20-47 | every integer amount survives formatting and reading back |
| `Formatting.MoneyIsInjective` | services/salvage-brain/src/salvage_brain/language/formatting.py:20-47 | two amounts never read the same |
| `Narration.SpansCoverDigits` | services/salvage-brain/src/salvage_brain/language/narrate.py:59 | every digit of a text lies in a span the scan finds |
| `Narration.SpansAreApart` | services/salvage-brain/src/salvage_brain/language/narrate.py:59 | the spans are in order and do not overlap |
| `Narration.TokenIsLongestMatch` | services/salvage-brain/src/salvage_brain/language/narrate.py:59 | a token is the longest string from its first digit that the number pattern matches |
| `Narration.TokensAreTheirTexts` | services/salvage-brain/src/salvage_brain/language/narrate.py:183-184 | the tokens are the texts of the spans |
| `Narration.CanonicalShape` | services/salvage-brain/src/salvage_brain/language/narrate.py:187-197 | the canonical form drops commas and the zeros that end the fraction, and nothing else |
| `Narration.CanonicalIsIdempotent` | services/salvage-brain/src/salvage_brain/language/narrate.py:187-197 | idempotent on every token |
| `Narration.CanonicalKeepsAmount` | services/salvage-brain/src/salvage_brain/language/narrate.py:187-197 | keeps the amount a token states |
| `Narration.SameCanonicalIff` | services/salvage-brain/src/salvage_brain/language/narrate.py:187-197 | two tokens have one canonical form exactly when they state one amount with equally many whole digits |
| `Narration.TidySameCanonicalIff` | services/salvage-brain/src/salvage_brain/language/narrate.py:187-197 | without superfluous zeros in front, exactly when they state one amount |
| `Narration.StripTrims` | services/salvage-brain/src/salvage_brain/language/narrate.py:167-171 | stripping takes the white space off both ends and nothing else |
| `Narration.AcceptedIff` | services/salvage-brain/src/salvage_brain/language/narrate.py:167-180 | a narration is accepted exactly when something is left after stripping and each of its figures is a figure of the prompt |
| `Narration.EveryDigitIsGrounded` | services/salvage-brain/src/salvage_brain/language/narrate.py:167-184 | in an accepted narration every digit belongs to a figure whose amount the prompt states |
| `Narration.SuperfluousZerosAreRefused` | services/salvage-brain/src/salvage_brain/language/narrate.py:187-197 | `007` and `7` state one amount and are not recognised as one |
| `Narration.CanonicalOfGrouped` | services/salvage-brain/src/salvage_brain/language/narrate.py:187-197 | the canonical form of a grouped number is its plain decimal |
| `Narration.MoneyIsOneFigure` | services/salvage-brain/src/salvage_brain/language/narrate.py:59 | a formatted amount is exactly one token to the scanner, stating that amount |
| `Nudge.TemplateAcceptedIff` | services/salvage-brain/src/salvage_brain/language/nudge.py:172-210 | a template is accepted if and only if what is left without white space, quotes and white space again is well formed and neither pattern matches; that is what is returned |
| `Nudge.RefusalIsTrue` | services/salvage-brain/src/salvage_brain/language/nudge.py:172-210 | every refusal names a fault the template has |
| `Nudge.OccurrenceIsFound` | services/salvage-brain/src/salvage_brain/language/nudge.py:172-197 | a slot that occurs as a substring is found by the brace scan, and two occurrences are counted twice |
| `Nudge.SlotsOccurOnce` | services/salvage-brain/src/salvage_brain/language/nudge.py:172-197 | in an accepted template each required slot occurs as a substring at exactly one place, and no other slot at all |
| `Nudge.ReplaceFills` | services/salvage-brain/src/salvage_brain/language/nudge.py:213-224 | one `replace` fills one kind of slot, wherever the scan finds it and nowhere else |
| `Nudge.SubstitutionFills` | services/salvage-brain/src/salvage_brain/language/nudge.py:213-224 | replacing in turn is filling every slot at once, when the name neither contains a later slot nor ends with the beginning of one |
| `Nudge.RenderFills` | services/salvage-brain/src/salvage_brain/language/nudge.py:213-230 | the result of rendering for every such name: the missing-link error, the length error, or the filled template |
| `Nudge.BraceFreeNeverClashes` | services/salvage-brain/src/salvage_brain/language/nudge.py:213-224 | a name without an opening brace is such a name |
| `Nudge.NameIsSafeIff` | services/salvage-brain/src/salvage_brain/language/nudge.py:213-224 | without a link, a name is safe in every well-formed template if and only if it is such a name |
| `Nudge.NameIsSafeWithLinkIff` | services/salvage-brain/src/salvage_brain/language/nudge.py:213-224 | with a link that has no opening brace, if and only if that holds for the amount slot and for the link slot |
| `Nudge.DigitsComeFromValues` | services/salvage-brain/src/salvage_brain/language/nudge.py:213-230 | the digits of a filled template are those of its values, in the order of the slots |
| `Nudge.AcceptedRendersFaithfully` | services/salvage-brain/src/salvage_brain/language/nudge.py:172-230 | from accepted template to rendered message: the fill, within the cap, with only the digits of name, amount and link |
| `Policy.Diagnose` | services/salvage-brain/src/salvage_brain/diagnosis/engine.py:18-119 | code, confidence, cause, tokens and suggestion for every mapping, feature and rail state; a switch is suggested exactly for an outage on an unhealthy rail |
| `Policy.BestAlternativeRail` | services/salvage-brain/src/salvage_brain/policy/optimizer.py:30-53 | the first of the healthy other rails with the greatest five-minute success rate, or none exactly when there is none |
| `Policy.EvaluateActions` | services/salvage-brain/src/salvage_brain/policy/optimizer.py:55-209 | the valuation loop, the choice, its parameters and its reasons; the unreachable branch is unreachable; a switch targets the best healthy other rail |
| `Policy.ChoiceIsFirstMaximum` | services/salvage-brain/src/salvage_brain/policy/optimizer.py:90-155 | the choice is the first action of greatest net value, above zero, or none exactly when nothing pays or the mandate is dead |
| `Policy.ChoiceIsAdvice` | services/salvage-brain/src/salvage_brain/policy/optimizer.py:90-155 | the whole policy in closed form: for every code, state, salary cycle, set of rails and amount the choice is the one of an explicit table of thresholds |
| `Policy.PaysFromThere` | services/salvage-brain/src/salvage_brain/policy/recoverability.py:16-95 | for each action and failure, the exact least amount from which it pays |
| `Policy.ImmediateIff` | services/salvage-brain/src/salvage_brain/policy/recoverability.py:16-95 | an immediate retry is chosen exactly for a timeout on a healthy rail, from 63 paise up, unless a switch is worth more |
| `Policy.EndToEndImmediateIff` | services/salvage-brain/src/salvage_brain/diagnosis/engine.py:36-107 | the same from the mapped signal, through the diagnosis |
| `Policy.OutageResponse` | services/salvage-brain/src/salvage_brain/policy/optimizer.py:55-155 | in a corroborated outage the payment moves to a healthy rail exactly from 90 paise, or without one waits exactly from 95 |
| `Policy.LargerIsWorthMore` | services/salvage-brain/src/salvage_brain/policy/optimizer.py:90-155 | a larger payment is worth at least as much, less at most 30 paise and only across the amount that changes the channel |
| `Policy.DropIff` | services/salvage-brain/src/salvage_brain/policy/optimizer.py:107-141 | of two amounts the larger is worth less if and only if a nudge is favoured (by code, payday and alternative rail), the channel changes in between, and the nudge earns less than 30 paise more |
| `Policy.DropsSomewhereIff` | services/salvage-brain/src/salvage_brain/policy/optimizer.py:107-141 | that happens for some amounts if and only if a nudge is the action valued most at 49999 paise: short funds not before payday, an abandoned checkout, an expired card without another rail, a dead mandate, or an unknown code |
| `Policy.ActingIsMonotone` | services/salvage-brain/src/salvage_brain/policy/optimizer.py:90-155 | a payment worth acting on stays worth acting on when it grows |
| `Ledgers.VerifyEntries` | services/salvage-core/src/main/java/com/salvage/core/ledger/service/LedgerVerificationService.java:39-84 | valid exactly for chains, with their length and head; otherwise the first entry that does not link, and why |
| `Ledgers.LatestIsLast` | services/salvage-core/src/main/java/com/salvage/core/ledger/service/LedgerService.java:76 | the row with the greatest index is the last of the merchant's chain, at its length |
| `Ledgers.LedgerService.Append` | services/salvage-core/src/main/java/com/salvage/core/ledger/service/LedgerService.java:63-104 | appends one linked entry to the merchant's chain, leaves other chains alone, and keeps every chain one |
| `Ledgers.FrontOfChain` | services/salvage-core/src/main/java/com/salvage/core/ledger/service/LedgerVerificationService.java:39-84 | every front of a chain verifies, so a missing tail is not seen |
| `Ledgers.CanonicalIs` | services/salvage-core/src/main/java/com/salvage/core/ledger/service/LedgerService.java:32-58 | the hashed text, field by field in order with bars between |
| `Ledgers.HeadCommitsToHistory` | services/salvage-core/src/main/java/com/salvage/core/ledger/service/LedgerVerificationService.java:39-84 | two chains that verify and end in one hash hashed the same texts in the same order, unless two texts in them collide |
| `Ledgers.TextDeterminesEntryIff` | services/salvage-core/src/main/java/com/salvage/core/ledger/service/LedgerService.java:32-58 | the hashed text determines the entry exactly when none of its fields contains the separator |
| `Ledgers.PlainHistoryIsFixed` | services/salvage-core/src/main/java/com/salvage/core/ledger/service/LedgerVerificationService.java:39-84 | so the head fixes every field of a history without separators, unless texts collide |
| `IdempotencyKeys.MaterialIs` | services/salvage-core/src/main/java/com/salvage/core/payment/service/IdempotencyKeys.java:41-56 | the material of a key, part by part with NUL between, and none for an ordinal below one |
| `IdempotencyKeys.MaterialIsDistinctIff` | services/salvage-core/src/main/java/com/salvage/core/payment/service/IdempotencyKeys.java:41-73 | different actions never share key material exactly when tenant and attempt contain no NUL character |
| `Effector.RetriesHaveEvidence` | services/salvage-core/src/main/java/com/salvage/core/payment/service/ReconciliationGuard.java:86-144 | over every run, whatever the provider does, a retry reaches it only when the original payment had no id there or was reported FAILED or NOT_FOUND |
| `Effector.InvKept` | services/salvage-core/src/main/java/com/salvage/core/payment/service/RecoveryEffector.java:161-410 | every step of every worker, retries and links, with lost replies, redeliveries and crashes, keeps the invariant over rows, ledger, calls and workers |
| `Effector.LedgerMatchesRows` | services/salvage-core/src/main/java/com/salvage/core/payment/service/RecoveryEffector.java:222-403 | over every run a committed row has its execution in the ledger, once, if and only if it is that of a retry or of a link whose call returned; without a row there is none |
| `Effector.LinkRowWithoutLedger` | services/salvage-core/src/main/java/com/salvage/core/payment/service/RecoveryEffector.java:373-380 | a run is given that ends with the committed row of a link and an empty ledger |
| `Effector.CallsAreBounded` | services/salvage-core/src/main/java/com/salvage/core/payment/service/RecoveryEffector.java:171-233 | of the provider nothing assumed: over every run the calls under one key are at most one, plus one for each worker lost after its call and one for each that began beside another |
| `Effector.BoundIsReached` | services/salvage-core/src/main/java/com/salvage/core/payment/service/RecoveryEffector.java:171-233 | for every number of losses and overlaps some run makes that many calls |
| `Effector.RowStopsCalls` | services/salvage-core/src/main/java/com/salvage/core/payment/service/RecoveryEffector.java:175-178 | once a row is committed it stays as it is, and only workers already inside can still call under its key |
| `Effector.CrashLosesTheIntent` | services/salvage-core/src/main/java/com/salvage/core/payment/service/RecoveryEffector.java:123-124 | the intent is recorded in the transaction a crash undoes: a run is given after which money has moved and no row exists |
| `Effector.OrphanedIff` | services/salvage-core/src/main/java/com/salvage/core/payment/service/RecoveryEffector.java:161-410 | a step leaves a key called and without row or writer if and only if it is the crash of the only worker that has called under it, a call got through, and there is no row |
| `Effector.RedeliveryHealsIff` | services/salvage-core/src/main/java/com/salvage/core/payment/service/RecoveryEffector.java:161-410 | a redelivery that nobody interrupts writes the row if and only if it creates a link or the evidence still clears it, and settles it if and only if the answer arrives; otherwise it only records the refusal |
| `Effector.ReplayRepeatsIff` | services/salvage-core/src/main/java/com/salvage/core/payment/service/RecoveryEffector.java:414-441 | a redelivery repeats the first answer if and only if it is of a link or the provider did not answer UNKNOWN, which is replayed as a failure |
| `AttemptSafety.KeyIsPaidOnce` | services/salvage-core/src/main/java/com/salvage/core/payment/PaymentProvider.java:30-33 | a provider that keeps its promise tells one answer under one key and takes money under it at most once |
| `AttemptSafety.RowTellsTruth` | services/salvage-core/src/main/java/com/salvage/core/payment/service/RecoveryEffector.java:274-287 | a settled row of a retry says what the provider first told; one that says success was charged once, one that says how it failed was not |
| `AttemptSafety.RedeliveryTakesNothing` | services/salvage-core/src/main/java/com/salvage/core/payment/service/RecoveryEffector.java:161-410 | such a provider takes no more money for a redelivered orphan, and the row written is the one the lost worker would have left |
| `AttemptSafety.TwoOrdinalsPayTwice` | services/salvage-core/src/main/java/com/salvage/core/payment/service/RecoveryEffector.java:182 | reconciliation reads the original payment only: a run is given in which two ordinals of one attempt are both charged |
| `AttemptSafety.PaidOnceIff` | services/salvage-core/src/main/java/com/salvage/core/payment/service/RecoveryEffector.java:171-182 | over every run an attempt is charged at most once however the last call is answered if and only if no new ordinal is called after one that took money |
| `AttemptSafety.GuardedAttemptsPayOnce` | services/salvage-core/src/main/java/com/salvage/core/payment/service/RecoveryEffector.java:133 | if a new ordinal is only started when every earlier one has a settled row that says it failed, over every run an attempt is charged at most once |
| `AttemptSafety.GuardIsExact` | services/salvage-core/src/main/java/com/salvage/core/payment/service/RecoveryEffector.java:414-441 | no weaker guard on the rows will do: the rows of the first ordinals show an attempt uncharged, in every run that leads to them and has called no later ordinal, if and only if each is there, settled, and says it failed |
| `AttemptSafety.ReplayedFailureMayBeCaptured` | services/salvage-core/src/main/java/com/salvage/core/payment/service/RecoveryEffector.java:414-441 | a replayed failure may be of a captured payment |
| `AttemptSafety.ReplayedRecoveryIsTrue` | services/salvage-core/src/main/java/com/salvage/core/payment/service/RecoveryEffector.java:414-441 | a replayed recovery is always of a payment charged once |
| `OperationTable.RefusedIff` | services/salvage-core/src/main/resources/db/migration/V4__provider_operations.sql:64-121 | refused are exactly a second row of a key, a change to a settled row or to what a row is of, and a deletion; anything else does what it says and touches no other row |
| `OperationTable.RowsAreFrozen` | services/salvage-core/src/main/resources/db/migration/V4__provider_operations.sql:83-126 | whatever statements are sent, no row is lost, none changes its identity or amount, and a settled row is frozen |
| `OperationTable.CommitIsTheStatements` | services/salvage-core/src/main/resources/db/migration/V4__provider_operations.sql:64-121 | the commit of the protocol is the insert of the intent and the settling update, as constraint and trigger treat them: refused exactly when the key has a row, else carried out |

## Left out

- Estimators.EstimateIps: returns the square of the standard error, whose root is irrational; for a single episode the original returns not-a-number, here the absence of one. The same holds of the other estimators.
- Calibration.Evaluate: for no predictions the original returns not-a-number as Brier score, here the absence of one; predictions and outcomes of different lengths, which the array library refuses or broadcasts, are not modelled.
- RewardModel.DirectMethodEstimator.Estimate: for no episodes the original returns not-a-number, here the absence of an estimate.
- Policy.EvaluateActions: expected values are exact percentages; in the original a floating-point product just below a whole paisa is truncated to one paisa less.
- Policy.Diagnose: takes the provider-signal mapping as given; causes and reasons are values, not their English texts.
- Formatting.ConsoleFormatPaise: for exact integers; the console's numbers are doubles, which are exact only below 2^53 paise.
- PayCycle.LocalAt: fixed-offset zones only, from the start of year 1; daylight-saving changes are not modelled.
- RailSimulation.SimulateRail: draws are arbitrary, with positive waits whose sums are unbounded and coins in [0, 1); the generators and their keys are not modelled, nor is a zero total rate.
- Journeys.Counterfactuals: the ranking of alternative rails is a parameter, and a hypothetical attempt is keyed by its offset itself, where the original prints the offset with six significant digits.
- Journeys.RunCheckout: the customer's willingness, delay and change of rail are arbitrary functions of the attempt, not the calibrated probabilities.
- IngestTables.PaymentFailedConsumer.OnMessage: merchants are fixed while messages are consumed, and a violation of a constraint other than the failure row's own key always leaves the message for redelivery.
- IngestProtocol.InvKept: a violation found when the failure row is inserted is modelled as aborting the transaction; the original then answers as for a duplicate, and may acknowledge or fail at commit, both of which the steps allow.
- LeaseLock.DistributedLockManager.TryAcquireCustomerLock: the store is one linearizable map with expiry; replication and failover of the store are not modelled.
- Narration.SpansCoverDigits: digits are ASCII digits; the original's pattern also takes those of other scripts.
- Narration.EveryDigitIsGrounded: likewise.
- Nudge.AcceptedRendersFaithfully: likewise, where the original refuses the digits of every script; the URL and credential patterns are arbitrary predicates.
- Nudge.NameIsSafeWithLinkIff: that a clashing name breaks some template is stated for links without an opening brace; that any other name is safe is `Nudge.SubstitutionFills`, for every link. Both conditions range over well-formed templates, of which those accepted are the ones the URL and credential patterns let through.
- Sampling.TrainTestSplit: the bucket of an episode is an arbitrary function of it; ids and digests are not modelled.
- Sampling.SubsampleKeepsLowest: likewise the rank by hash.
- Ledgers.LedgerService.Append: concurrent appends to one chain, of which the unique index admits one, are not modelled, nor is the clock.
- Ledgers.HeadCommitsToHistory: the digest is an arbitrary function; that collisions are hard to find is outside the model, so the two chains either agree or show one.
- IdempotencyKeys.MaterialIsDistinctIff: of the text that is hashed; a key is the first 20 bytes of its digest.
- Effector.InvKept: a key stands for its text, from which it can be read back as `IdempotencyKeys.MaterialIsDistinctIff` says. Amounts, provider ids and the texts of ledger payloads are not modelled, nor are the operations this service never starts.
- Effector.CallsAreBounded: a row is written at the commit, which is where the constraint refuses a second one; a database that makes the second writer wait before it calls only does better.
- AttemptSafety.GuardedAttemptsPayOnce: the provider is assumed to answer a key it has seen with its first answer without taking money again, never to report success or failure of what did not end so, and to take nothing for creating a link; what a customer later pays through a link is not counted.
- FittedModel.FittedRecoverabilityModel.Summary: sorts by walking all possible leaves in order, which is the order of the original's sort.
- HTTP and message plumbing, database and Redis drivers, the language-model provider, the console's components, calibration loading, event emission, regret accounting and policy baselines, the bounds engine, sagas, the outbox and the Redis idempotency cache.
