# Blob Royale: verified models of the bot protocol, the tactical bot, and the strict text boundaries

This project models four parts of the game server and proves properties of the models for every input,
every run and every reachable state.

* **Seat bots.** `SeatBotReconciler` keeps live bots equal to the NPC seats a lobby declares, seeing only
  delayed snapshots, through a command sink that issues identities and can refuse, and a controller host
  kept in identity order. `Reconciliation` holds the class beside a specification function of the whole
  state; `ReconciliationPass`, `ReconciliationRuns`, `ReconciliationRounds` and `ReconciliationConvergence`
  prove one pass, any run of polls, and the loop closed through the tick's joins and leaves, which
  `SeatBatches` takes apart seat by seat; `BotCreations` says kind by kind which seats get a bot;
  `ReconciliationRetries` and `ReconciliationOrdinals` say what failure records and display ordinals mean.
* **The tactical bot.** `NearestOpponents`, `ShoveSetups` and `TacticalObjectives` collect candidates,
  `ObjectiveOffers` says what they are in the snapshot's own numbers, `TacticalScreening` what a collected
  set promises, `TacticalSelection` scores and selects, `HysteresisInstances` shows two rooms in which the
  held target's bonus decides and one in which an opponent's opening does, `TacticalSteering` and
  `ArrivalBrakes` point and brake. `TacticalDecisions` is the decision as a function of its state,
  `TacticalControllers` the object whose methods are proved equal to it, `TacticalInvariants` and
  `TacticalRuns` what every pass and every run of observations keeps, `TacticalMemory` what a pass remembers
  and when the next decision is due, `TacticalHeadings` where an acting pass sends the bot,
  `TacticalAbilities` when it shields or charges, `TacticalArrivals` the brake's holds as a run makes them.
* **Strict text.** `IniText` and `IniDocuments` read the configuration document, `IniAcceptance` says which
  texts are accepted without mentioning the parser's state, `IniErrors` why one is refused, `IniPrinting`
  prints tables and reads them back. `BotRosters` follows the roster line to the lobby's seats.
* **Output and input of the boundary.** `JsonText`, `StructuredLogs` and `StructuredLogReading` write log
  lines and read them back by section 7 of RFC 8259; `BoundedSerialization` is the serializer that checks
  its limit as it fills; `CommandDecoding`, `CommandSchemas` and `CommandRoundTrips` decode client commands
  by closed schemas.

Classes carry the source's own fields; each method's postcondition equates the new state with a function of
the old one, and the lemmas are about those functions. Exceptions are `Failure` values. Ticks are natural
numbers with the source's 2^53 - 1 ceiling checked where a window is made. Doubles are `real`s: a magnitude is
any non-negative root of the squared magnitude, and terrain queries (support, support exit, centreline
distance and projection) are arbitrary functions.

Where the code and its own comments differ the model follows the code:

* a failed creation is not only retried once the declaration changes
  (`src/application/bot_reconciliation.hpp:45-48`): being shown filled forgets it too
  (`bot_reconciliation.cpp:111-117`). `ReconciliationRetries.FailureIsRememberedExactlyWhen` is the condition,
  `ReconciliationRetries.EmptiedSeatIsTriedAgain` the retry;
* a display ordinal does not say how many bots of its kind were ever built (`bot_reconciliation.cpp:139-143`):
  it numbers attempts (`ReconciliationRetries.OrdinalsNumberAttempts`).
  `ReconciliationRetries.OnlyBotCanBeCalledTheSecond` is an instance,
  `ReconciliationOrdinals.OrdinalsCountBotsExactlyWhen` the condition on one pass and
  `ReconciliationOrdinals.RunOrdinalsCountBotsExactlyWhen` the condition on a whole run;
* the host can never refuse a bot for being full, because the directory refuses first
  (`bot_reconciliation.cpp:156-165`): `ReconciliationPass.HostNeverFillsFirst`;
* a challenger need not beat the held target by more than the bonus (`tactical_controller.hpp:88`): exactly the
  bonus is enough for a nearer one. `HysteresisInstances.ChallengerExactlyAnEighthBetterReplacesTheHeld` is an
  instance and `TacticalSelection.SwitchingCostsAnEighth` the condition;
* a profile that tolerates no risk does not always prefer a target it can stop short of
  (`tactical_objective_candidates.hpp:547-551`): the held target's bonus can keep a blocked one.
  `HysteresisInstances.HeldBlockedTargetCanBeKept` is an instance,
  `TacticalSelection.BlockedIsKeptExactlyWhenItOutweighs` the condition, and
  `TacticalSelection.AnEighthRulesOutBlockedTargets` what rules it out;
* the brake's envelope does not cover every first decision: `ArrivalBrakes.FirstHoldCanAmplify` is an instance,
  `ArrivalBrakes.ShortHoldNeverGainsSpeed` and `ArrivalBrakes.FirstHoldNeverGainsSpeed` what is covered with any
  drag, and `ArrivalBrakes.DragFreeHoldGainsExactlyBeyondTwice` the condition without drag.

One pass and one tick do not always seat a new bot: when its predecessor's join lands with its predecessor's
leave, the seat stays empty for that tick. `ReconciliationConvergence.LateJoinCanUnseatTheSuccessor` is an
instance and `ReconciliationConvergence.SuccessorIsSeatedExactlyWhen` the condition.

`dafny verify dfyconfig.toml` checks everything.

## Model

| member | source | states |
|---|---|---|
| CommandSinks.OpenIsExact | src/runtime/command_sink.cpp:53-107 | a refused open leaves no directory entry and no exchange; an accepted one adds exactly the identity it returns, never issued before |
| CommandSinks.OpenEndsExactly | src/runtime/command_sink.cpp:53-107 | each of the four refusals and the session happens if and only if its own condition holds, in admission order, and an identity is used up exactly past the two text checks |
| CommandSinks.CloseIsExact | src/runtime/command_sink.cpp:130-138 | closing releases exactly the one session and enqueues its leave; a second close does nothing |
| CommandSinks.SubmitEndsExactly | src/runtime/command_sink.cpp:109-205 | each of the four refusals of a join and its acceptance happens if and only if its own condition holds, and only an accepted one is enqueued |
| ControllerHosts.AddIsExact | src/controllers/controller_host.cpp:22-46 | each refusal happens exactly on a full host or a duplicate identity; otherwise the host stays ascending with exactly one more member |
| ControllerHosts.RemoveIsExact | src/controllers/controller_host.cpp:48-55 | removal reports whether the identity was hosted and removes exactly it, keeping order |
| ControllerHosts.RemoveUndoesAdd | src/controllers/controller_host.cpp:22-55 | removing what was just added gives back the very same host |
| ControllerHosts.ThrowIsIsolated | src/controllers/controller_host.cpp:73-90 | a throwing controller changes nothing any other controller submits |
| ControllerHosts.SubmissionsAreOwn | src/controllers/controller_host.cpp:92-104 | every submission carries the identity of a hosted controller that did decide it, in ascending identity order |
| ControllerHosts.SubmissionsStandInHostOrder | src/controllers/controller_host.cpp:73-106 | each controller's commands stand, all of them and in its own order, between those of the controllers below and above it; a throw leaves nothing there |
| ControllerHosts.LastThrowIsRemembered | src/controllers/controller_host.cpp:76-91 | the failure remembered is the last throwing controller's, with its identity, kind, message and tick, or the one before the pass when none threw |
| ControllerHosts.AcceptedCountCounts | src/controllers/controller_host.cpp:94-105 | the accepted count is the number of submissions of the pass the sink took |
| ControllerHosts.ControllerHost.DecideOnce | src/controllers/controller_host.cpp:62-114 | one pass submits what the controllers decided in host order and counts decisions, refusals and failures, here and in the running statistics |
| ControllerHosts.ControllerHost.PositionOf | src/controllers/controller_host.cpp:116-126 | the scan stops at the first identity not below the one asked for |
| Reconciliation.SeatBotReconciler.ReconcilePass | src/application/bot_reconciliation.cpp:59-134 | the imperative pass over maps, sink and host is the specified pass on their combined state |
| Reconciliation.SeatBotReconciler.TryCreateBot | src/application/bot_reconciliation.cpp:136-188 | an attempt at a bot, with every failure path, is the specified attempt |
| Reconciliation.SeatBotReconciler.RetireBots | src/application/bot_reconciliation.cpp:74-109 | erasing while walking settles every bot's fate once, in identity order |
| ReconciliationPass.RetireIsExact | src/application/bot_reconciliation.cpp:64-109 | exactly the bots whose seat still declares them and which hold it or may still be in flight survive; exactly the others' sessions close, in order |
| ReconciliationPass.FateIsExact | src/application/bot_reconciliation.cpp:82-108 | a bot is seated, waits within 400 ticks of its join, or is retired for each of the three reasons if and only if that reason's own condition on its seat holds |
| ReconciliationPass.HostNeverFillsFirst | src/application/bot_reconciliation.cpp:156-165 | hosted controllers never outnumber directory entries, so the host's own limit is unreachable from here |
| ReconciliationPass.CreationIsExact | src/application/bot_reconciliation.cpp:136-188 | an attempt succeeds exactly when profile, registry, name and directory allow it; success adds one bot with a fresh session, host entry and join, failure leaves no session, no host entry and a record for the seat |
| BotCreations.EachKindGetsItsBot | src/application/bot_reconciliation.cpp:136-188 | with room for one more, a wanderer, chaser, hill seeker or racer is built exactly without a profile, and a tactical bot exactly with a known one, a lobby identity in range and a seat below 64; the new bot has the next identity, its kind's next number for a name, the last place in the host and its join handed over; any other declaration leaves a failure record and bots, sessions and host as they were |
| BotCreations.EachDeclaredSeatGetsItsBot | src/application/bot_reconciliation.cpp:110-188 | with room for the whole roster, one pass gives each unserved declared seat a bot of exactly its declaration if that can be built, and its failure record if not |
| ReconciliationPass.PassKeeps | src/application/bot_reconciliation.cpp:59-134 | from any invariant state, whatever fails, hosted bots, host identities and open bot sessions stay equal, seats distinct, failed seats botless, and no foreign session is touched |
| ReconciliationPass.PassServesTheRoster | src/application/bot_reconciliation.cpp:82-133 | after a pass over a room in use every unfilled NPC seat has exactly one of an in-flight bot or a failure record with its exact declaration, every bot matches its seat, and no other seat has a record |
| ReconciliationPass.AbandonedPassEmptiesTheRoom | src/application/bot_reconciliation.cpp:74-80 | an abandoned pass leaves no bot, no hosted controller and no bot session |
| ReconciliationPass.NoMoreBotsThanSeats | src/application/bot_reconciliation.cpp:82-133 | after a pass over a room in use there are at most as many bots as seats |
| ReconciliationPass.PassIsIdentityExactlyWhenQuiet | src/application/bot_reconciliation.cpp:59-134 | a pass changes nothing in maps, sink or host if and only if the roster is already answered |
| ReconciliationPass.ReconcileIsIdempotent | src/application/bot_reconciliation.cpp:59-134 | a second pass over the same snapshot and flag is the identity on the whole state |
| ReconciliationRuns.RunKeepsInvariant | src/application/bot_reconciliation.cpp:59-206 | over any polls with other sessions coming and going, the invariant holds between passes |
| ReconciliationRuns.EverySnapshotSequenceIsARun | src/application/bot_reconciliation.cpp:51-134 | a new reconciler meets the invariant, and every sequence of rosters, ticks and verdicts is a run of it, so the run theorems leave none out |
| ReconciliationRuns.RunLeaksNoSession | src/application/bot_reconciliation.cpp:136-206 | in any run a pass changes no session but its own bots', and bots, host and their sessions stay equal |
| ReconciliationRuns.CreationsAreSpaced | src/application/bot_reconciliation.hpp:51-55 | two successful creations for a seat that keeps its declaration and never shows the first bot are at least 400 ticks apart |
| ReconciliationRuns.FailedSeatIsNotRetried | src/application/bot_reconciliation.hpp:45-48 | after a failure the seat is not tried again while the roster shows the same unfilled declaration |
| ReconciliationRetries.FailureIsRememberedExactlyWhen | src/application/bot_reconciliation.cpp:64-134 | a pass keeps a failure record if and only if the seat still declares that NPC and, in a room in use, still shows no bot |
| ReconciliationRetries.EmptiedSeatIsTriedAgain | src/application/bot_reconciliation.cpp:111-131 | a failed seat shown filled and then empty is tried again although its declaration never changed |
| ReconciliationRetries.OrdinalsNumberAttempts | src/application/bot_reconciliation.cpp:136-143 | a pass raises a kind's ordinal by its attempts for that kind, and by the bots it built exactly when no such attempt left a failure |
| ReconciliationOrdinals.AttemptFailsExactlyWhen | src/application/bot_reconciliation.cpp:111-188 | an attempted seat is recorded as failed if and only if its profile, kind or foreseen name is refused or the attempts ahead of it use up the identities or the directory, all told from what retirement leaves |
| ReconciliationOrdinals.OrdinalsCountBotsExactlyWhen | src/application/bot_reconciliation.cpp:136-188 | a pass raises a kind's ordinal by at least the new bots of that kind, and by exactly their number if and only if every seat attempted for it was going to be built, all told from what retirement leaves |
| ReconciliationOrdinals.RunOrdinalsCountBotsExactlyWhen | src/application/bot_reconciliation.cpp:139-143 | over any run a kind's ordinal counts the bots of that kind ever built if and only if every pass over a room in use was going to build whatever it attempted for it |
| ReconciliationRetries.OnlyBotCanBeCalledTheSecond | src/application/bot_reconciliation.cpp:139-143 | two tactical seats, the first of an unknown profile, leave one bot called "tactical 2" |
| ReconciliationRuns.SettledRunStaysSettled | src/application/bot_reconciliation.cpp:82-133 | once all joins are seen to have landed, no later pass over that roster at any tick opens, closes, submits, creates or retires |
| ReconciliationRounds.RoundSeatsEveryBot | src/simulation/game_simulation.cpp:229-300 | one pass and one tick of its joins and leaves seat every bot: each declared seat is held by its own bot or recorded as failed and nobody else moved |
| ReconciliationRounds.RoundIsFollowedByQuiet | src/application/bot_reconciliation.cpp:82-133 | the pass after that round only notes the landings, whatever tick it comes at |
| ReconciliationRounds.AbandonedRoundVacatesEverySeat | src/application/bot_reconciliation.cpp:74-80 | an abandoned pass and a tick leave every declaration standing with no bot in it |
| ReconciliationConvergence.RoundsConverge | src/application/bot_reconciliation.cpp:82-133 | whatever joins are in flight at the start, and whichever are lost, land late or land again in later ticks while their bots are hosted, the first round a join budget later seats every bot, and the rounds after it change nothing but the noted landings |
| ReconciliationConvergence.SuccessorIsSeatedExactlyWhen | src/simulation/game_simulation.cpp:229-300 | with any late joins of bots hosted before the pass, the next tick seats a bot the pass created if and only if none of those joins fills its seat; otherwise the seat is left as it was |
| ReconciliationConvergence.LateJoinCanUnseatTheSuccessor | src/simulation/game_simulation.cpp:229-300 | a wanderer retired at its budget, whose join lands in the tick of its leave, leaves the seat empty although its replacement's join was handed over |
| SeatBatches.BatchIsSeatwise | src/simulation/game_simulation.cpp:229-300 | when every join goes to its own bot's one seat, a tick gives a free seat to the first join of the batch that fits it, and then vacates any seat exactly when its holder leaves in that batch |
| SeatBatches.BatchKeepsOneSeatEach | src/simulation/game_simulation.cpp:229-300 | whatever joins and leaves a tick is handed, and whoever sends them, nobody ends up at two seats |
| Observations.JoinIsExact | src/simulation/component_join.hpp:57-79 | the merge of two ascending stores visits each entity with both components exactly once, ascending |
| NearestOpponents.FilterRefinesSorting | src/controllers/tactical_objective_candidates.cpp:178-204 | after any distinct opponents the filter holds exactly the least min(n, 32) by distance then id, in order |
| NearestOpponents.NearestIgnoresOrder | src/controllers/tactical_objective_candidates.cpp:168-204 | the filter keeps the same opponents in the same order whatever order one crowd is offered in |
| NearestOpponents.NearestFilter.InsertNearest | src/controllers/tactical_objective_candidates.cpp:190-204 | whatever was offered so far, the array's prefix is its nearest, in order |
| NearestOpponents.NearestFilter.InsertIntoArray | src/controllers/tactical_objective_candidates.cpp:190-204 | the in-place shift is the specified insertion, with the drop of the last entry when full |
| ShoveSetups.ExposureCountsSigns | src/controllers/tactical_objective_candidates.cpp:345-375 | exposure is the weighted count of the five published signs, a guarded shield not counting as spent |
| ShoveSetups.OpeningStaysInUnitInterval | src/controllers/tactical_objective_candidates.cpp:377-382 | an opening never leaves [0,1]; no preference gives exactly one, full preference the exposure itself |
| ShoveSetups.NearestHazardIsLeast | src/controllers/tactical_objective_candidates.cpp:226-244 | the chosen badness is one on offer and none on offer precedes it |
| ShoveSetups.NearestShoveHazard | src/controllers/tactical_objective_candidates.cpp:253-322 | the four walks keep the least badness of everything they offer |
| ObjectiveOffers.OfferedHazardsAreTheThreats | src/controllers/tactical_objective_candidates.cpp:253-322 | the walks offer exactly what threatens an opponent: every hole and lethal body elsewhere, the edge of the first nearest road it is on, and the rim of every hill it is in, each with its own distance and safe side |
| ObjectiveOffers.ChosenHazardIsTheFirstThreat | src/controllers/tactical_objective_candidates.cpp:226-322 | the badness aimed at is a threat and no threat is nearer, or as near and of an earlier source, or as near, of that source and of a smaller identity; there is none exactly when nothing threatens |
| ShoveSetups.OfferedHazardsAreAnchored | src/controllers/tactical_objective_candidates.cpp:253-322 | every badness on offer names a unit direction, and the opponent lies along it: its published distance past a hole or lethal body, short of the middle of the road or hill it is inside |
| ShoveSetups.ArrivalStopsAtContact | src/controllers/tactical_objective_candidates.cpp:455-458 | anywhere within the arrival margin of a standing point is at least the two radii from the opponent |
| ShoveSetups.ShoveCandidateIsSound | src/controllers/tactical_objective_candidates.cpp:420-465 | a shove candidate is about that opponent, as open as asked, a standoff away, exactly that much farther along the away direction of the badness the walks chose, and arriving never overlaps |
| ObjectiveOffers.OpponentsAreTheRivals | src/controllers/tactical_objective_candidates.cpp:404-419 | the opponents considered are exactly the other controllers' published bodies that can move, each measured from the bot |
| ObjectiveOffers.ShoveIsOfferedExactlyWhen | src/controllers/tactical_objective_candidates.cpp:420-465 | a kept opponent is a target exactly when it is as open as the profile asks, something threatens it and the standing point is representable; the target is that point, with the margin to arrive within and its opening |
| ObjectiveOffers.MarginIsAHundredthOfTheDiagonal | src/controllers/tactical_objective_candidates.cpp:420 | the margin is a hundredth of the arena's diagonal |
| TacticalObjectives.PredictionFollowsTheMotion | src/controllers/tactical_objective_candidates.cpp:603-616 | the intercept is where tick-by-tick motion takes the hill, or its centre when that is not representable |
| TacticalObjectives.CollectCircles | src/controllers/tactical_objective_candidates.cpp:69-108 | the circle loop gives every published circle in order, or the first bad radius or the exceeded limit |
| ObjectiveOffers.CirclesAreOffered | src/controllers/tactical_objective_candidates.cpp:69-108 | circles are refused exactly beyond thirty-two or with a radius out of range, each with its own error, and otherwise offered one by one in order |
| ObjectiveOffers.CircleIsOffered | src/controllers/tactical_objective_candidates.cpp:78-106 | a circle with a published motion is offered where tick-by-tick motion takes it by the horizon, carrying that motion; without one it is offered at its centre, at rest |
| ObjectiveOffers.RaceOffersOneTarget | src/controllers/tactical_objective_candidates.cpp:114-155 | a race waits exactly without a body or progress, refuses exactly an unsound course, is finished exactly past the last gate, and otherwise offers exactly one target: the next gate within the cautious part of the road, the nearest centreline point with radius 0 beyond it |
| TacticalObjectives.CollectShoves | src/controllers/tactical_objective_candidates.cpp:392-465 | the opponent join, the filter and the hazard walks give the specified shove candidates |
| TacticalObjectives.CollectObjectives | src/controllers/tactical_objective_candidates.cpp:524-587 | the whole pass with its loops and early failures is the specified collection |
| TacticalScreening.ShoveBudgetIsNeverExceeded | src/controllers/tactical_objective_candidates.cpp:545-557 | the raw set fails only when the mode's provider does: the shove budget check can never fire |
| ObjectiveOffers.RawObjectivesAreTheModesAndTheShoves | src/controllers/tactical_objective_candidates.cpp:542-557 | the raw objectives are the mode's and, exactly when the mode is ready and shoves weigh anything, those of the kept opponents |
| TacticalScreening.ScreenKeepsReachable | src/controllers/tactical_objective_candidates.cpp:563-584 | a raw candidate on the ground in a straight line over ground is never lost |
| ObjectiveOffers.ScreenedAreTheReachable | src/controllers/tactical_objective_candidates.cpp:563-584 | a target survives the screen if and only if it is a raw one on the ground in a straight line over ground |
| ObjectiveOffers.ObjectiveIsScreened | src/controllers/tactical_objective_candidates.cpp:563-584 | one raw objective is dropped exactly off the ground or when the ground ends on the way, refused exactly when the way or the escape ray leaves the domain, and otherwise kept with its share of the diagonal, the ray's answer and one prediction if a ray was cast |
| ObjectiveOffers.WorkIsCounted | src/controllers/tactical_objective_candidates.cpp:558-586 | the reported work is the raw objectives, those left, and one prediction for each hill met ahead of itself and each candidate somewhere else an escape ray was cast for |
| ObjectiveOffers.ScreenIsExact | src/controllers/tactical_objective_candidates.cpp:471-494 | the screen measures with the arena's diagonal and with the top speed over the horizon, never more than the diagonal, and its escape ray runs toward the target for exactly that reach |
| TacticalScreening.CollectedIsSound | src/controllers/tactical_objective_candidates.cpp:558-586 | every collected candidate stands on support in a straight line over it, at a unit distance that is zero only at the bot, marked blocked exactly when it can be moved toward and the escape ray leaves support; keys are distinct and work stays within 64 raw and 96 predictions |
| TacticalSelection.SelectCandidate | src/controllers/tactical_objective_candidates.cpp:715-735 | the loop over scores is the specified selection |
| TacticalSelection.ScoreIsExact | src/controllers/tactical_objective_candidates.cpp:702-713 | a score is the kind's authored weight times the proximity times the opening, less what the profile does not tolerate of a blocked target, plus an eighth when held |
| TacticalSelection.OpeningIsWorthItsShare | src/controllers/tactical_objective_candidates.cpp:702-713 | two candidates that differ only in their opening differ in score by weight times proximity times that difference |
| TacticalSelection.SelectionHasTheBestScore | src/controllers/tactical_objective_candidates.cpp:715-743 | the selected candidate scores above every other, or equal to it and nearer, or as near and of an earlier kind or smaller subject |
| TacticalSelection.SelectionIsMaximal | src/controllers/tactical_objective_candidates.cpp:715-743 | nothing is selected exactly on an empty set; otherwise nothing outranks the selection by score, then nearness, then key |
| TacticalSelection.SelectionIsTheUniqueMaximum | src/controllers/tactical_objective_candidates.cpp:715-743 | for distinct keys an index is selected if and only if it outranks every other |
| TacticalSelection.SelectionIgnoresOrder | src/controllers/tactical_objective_candidates.cpp:715-743 | for distinct keys any permutation selects the same candidate |
| TacticalSelection.SwitchingCostsAnEighth | src/controllers/tactical_controller.cpp:310-339 | a held target is left if and only if some challenger's own score is more than an eighth higher, or exactly an eighth and it precedes; and the winner is such a one |
| HysteresisInstances.ChallengerExactlyAnEighthBetterReplacesTheHeld | src/controllers/tactical_controller.hpp:88 | a collected set in which a nearer challenger exactly an eighth better replaces the held hill |
| HysteresisInstances.OpeningDecidesTheShove | src/controllers/tactical_objective_candidates.cpp:702-735 | a hill half the diagonal off against a nearer opponent: the opponent is selected if and only if it is at least two thirds open |
| TacticalSelection.NoToleranceAvoidsBlockedTargets | src/controllers/tactical_objective_candidates.cpp:702-735 | with no risk tolerance and an unblocked candidate on offer, a blocked one is selected only if held and worth at least seven eighths |
| TacticalSelection.BlockedIsKeptExactlyWhenItOutweighs | src/controllers/tactical_objective_candidates.cpp:702-735 | that happens if and only if a held blocked target's preference less seven eighths exceeds every unblocked one's, ties going to the nearer and then the smaller key |
| TacticalSelection.AnEighthRulesOutBlockedTargets | src/controllers/tactical_objective_candidates.cpp:702-735 | so one unblocked candidate worth an eighth keeps every blocked one from being selected |
| TacticalSelection.BlockedOutranksExactlyWhenWorthTheRisk | src/controllers/tactical_objective_candidates.cpp:702-743 | at any tolerance a blocked target outranks a safe one, neither held, if and only if it is worth more by what the profile does not tolerate, or exactly that and wins the tie |
| TacticalSelection.LessToleranceKeepsASafeChoice | src/controllers/tactical_objective_candidates.cpp:702-735 | lowering the tolerance never changes a selection that was safe |
| HysteresisInstances.HeldBlockedTargetCanBeKept | src/controllers/tactical_objective_candidates.hpp:547-551 | an observation with one hole whose collected set makes a zero-tolerance profile keep the hill it holds beyond the hole, and not choose it otherwise |
| TacticalSteering.SteeringIsUnitAndMakesProgress | src/controllers/tactical_controller.cpp:345-356 | a pursuing thrust has unit length whatever the aim error, its clamp never bites, its divisions are safe, and it always makes ground toward the target |
| TacticalSteering.FindClosingOpponent | src/controllers/tactical_objective_candidates.cpp:671-700 | the join pass answers whether some opponent touches the bot at the end of the window |
| TacticalSteering.AlignedVelocityLiesAlongTheRay | src/controllers/tactical_objective_candidates.cpp:650-669 | what an aligned body's velocity has off the ray is at most half the top speed |
| TacticalHeadings.ActingPassHeadsForItsTarget | src/controllers/tactical_controller.cpp:340-383 | short of its leased target an acting pass draws once to decide whether to seek; if so it draws an aim and leaves in force a full thrust that makes ground toward the target, aside from it by exactly the drawn error and to its left for a draw above a half; if not it leaves a zero thrust; at the target it draws nothing and brakes for the estimated hold |
| TacticalAbilities.ActingPassCommands | src/controllers/tactical_controller.cpp:371-449 | an acting pass sends its thrust; then a shield exactly when some rival closes and no window bars it, or a full-strength charge straight at the opponent exactly when none closes and the shove target's body is published elsewhere, aligned, over ground and unbarred; and nothing else |
| TacticalAbilities.StandingIsExact | src/controllers/tactical_controller.cpp:201-234 | bodiless, uncontrollable, not running, stunned and eligible each hold if and only if the published stores say so |
| TacticalAbilities.ClosingIsSomebodyClosing | src/controllers/tactical_objective_candidates.cpp:671-700 | an opponent closes if and only if some other controller's moving body, carried straight to the window's end, is within the two radii of the bot carried likewise |
| TacticalAbilities.AlignmentIsHalfTheTopSpeed | src/controllers/tactical_objective_candidates.cpp:650-669 | a charge is aligned if and only if the velocity across the way to the opponent is at most half the top speed |
| TacticalAbilities.ScreenIsTheGround | src/controllers/tactical_objective_candidates.cpp:618-648 | a charge passes the ground screen if and only if the ground along its ray never ends or ends beyond the opponent's near side, a ray of no length passing; it is an error exactly when that ray leaves the domain |
| TacticalAbilities.PulsesAreBarredByTheirWindows | src/controllers/tactical_controller.cpp:124-170 | a shield is refused exactly inside its protection or cooldown, a charge exactly inside a protection or its own cooldown |
| ArrivalBrakes.ActualHoldIsUnderTwiceTheEstimate | src/controllers/tactical_controller.cpp:61-73 | the real hold is the least positive multiple of the spacing that waits out the delay and is under twice the estimate |
| ArrivalBrakes.ShortHoldNeverGainsSpeed | src/controllers/tactical_controller.cpp:61-122 | a brake computed for h ticks and held for n, from an earlier decision or none, with any drag, clamped or not, makes no component faster while the fraction times n is at most 2h |
| ArrivalBrakes.HoldNeverGainsSpeed | src/controllers/tactical_controller.cpp:91-122 | at every tick of one hold against a stationary target, with any drag, clamped or not, no velocity component exceeds its starting magnitude |
| ArrivalBrakes.FirstHoldNeverGainsSpeed | docs/reviews/2026-09-12-arrival-brake-contract.md:28-31 | a first decision is covered too when observations come no further apart than its reaction delay |
| ArrivalBrakes.HoldsNeverGainSpeed | docs/reviews/2026-09-12-arrival-brake-contract.md:11-24 | the same over any number of successive holds |
| ArrivalBrakes.LimiterStaysInactive | src/gameplay/shared/locomotion.cpp:61-73 | from at most half the normal ceiling, a hold of the brake through the limiter is tick by tick the hold without it, and no tick asks for more than the ceiling |
| ArrivalBrakes.DragFreeHoldGainsExactlyBeyondTwice | src/controllers/tactical_controller.cpp:61-122 | without drag, on a hill of any velocity, a component of the velocity relative to it stays within its magnitude if and only if it was matched, or the normalized fraction times n is at most 2h, or the normalized acceleration of n ticks is at most twice its speed |
| ArrivalBrakes.FirstHoldCanAmplify | docs/reviews/2026-09-12-arrival-brake-contract.md:28-31 | the first zero-delay decision's brake, held for the actual twenty ticks, turns a quarter into minus four and three quarters |
| ArrivalBrakes.ExactHoldStops | docs/reviews/2026-09-12-arrival-brake-contract.md:73-74 | without drag a full brake held for exactly its estimate takes on the velocity of the hill, whatever it is, from any relative velocity that does not saturate it |
| ArrivalBrakes.BrakeSpendsTheClosingVelocity | src/controllers/tactical_controller.cpp:91-122 | on any hill, moving or not, each component of the brake spends over its estimated hold exactly the profile's fraction of the velocity still to close, or all the thrust there is toward it; anywhere else, or without a fraction or an acceleration, it is zero |
| ArrivalBrakes.BrakeIsRelative | src/controllers/tactical_controller.cpp:111-121 | the brake on a moving hill is the brake on a stationary one for the velocity relative to it, so a body that matches the hill coasts |
| ArrivalBrakes.MovingHillHoldNeverGainsSpeed | src/controllers/tactical_controller.cpp:91-122 | without drag, over one hold on a hill of any constant velocity, no component of the relative velocity exceeds its starting magnitude while the fraction times n is at most 2h |
| ArrivalBrakes.MovingHillActualHoldNeverGainsSpeed | src/controllers/tactical_controller.cpp:61-122 | so it is at every tick of the hold a regular cadence really makes |
| TacticalControllers.TacticalController.Decide | src/controllers/controller.cpp:64-82 | one call moves the object's fields exactly as the specified step, committing the tactical state only on success |
| TacticalControllers.TacticalController.DecideFromObservation | src/controllers/tactical_controller.cpp:189-199 | a failed pass leaves the state untouched; a completed one is recorded with its tick |
| TacticalControllers.TacticalController.DecideInto | src/controllers/tactical_controller.cpp:201-234 | the branches before the running check, field by field, are the specified ones |
| TacticalControllers.TacticalController.DecideRunning | src/controllers/tactical_controller.cpp:235-265 | reseeding, body identity, cancellation and the first deadline are the specified ones |
| TacticalControllers.TacticalController.DecidePursuit | src/controllers/tactical_controller.cpp:266-307 | waiting, finished, lost, empty and gated passes are the specified ones |
| TacticalControllers.TacticalController.DecideAct | src/controllers/tactical_controller.cpp:308-339 | windows before draws, then selection only when the lease is over |
| TacticalControllers.TacticalController.DecideMovement | src/controllers/tactical_controller.cpp:340-383 | the two draws in order, the brake on arrival, and the ability beside the thrust |
| TacticalControllers.TacticalController.DecideAbility | src/controllers/tactical_controller.cpp:385-449 | shield before charge with each refusal's reason |
| TacticalControllers.TacticalController.RequestBody | src/controllers/controller.cpp:84-98 | a spawn is asked for exactly when none is plausibly in flight, and remembered |
| TacticalInvariants.DecideIsCoherent | src/controllers/tactical_controller.cpp:176-383 | every completed pass keeps lease, hold, reaction, generator and body together, and a standing thrust only with a held target |
| TacticalInvariants.ReasonNamesTheBranch | src/controllers/tactical_controller.hpp:40-78 | each of the eighteen reasons is recorded if and only if its own condition on the observation, the collected set, the gate, the target and the draw holds |
| TacticalMemory.EligiblePassRemembers | src/controllers/tactical_controller.cpp:235-339 | a completed pass over an eligible body starts from what it remembers, or with nothing in hand in a new match, another body or after a stun; the gate, lease, hold, thrust and generator it leaves, and what it sends unless it acts, follow case by case from that and from the collected set |
| TacticalMemory.IdlePassRemembers | src/controllers/tactical_controller.cpp:205-234 | a completed pass over no eligible body puts down everything in hand, keeps the generator, and sends a zero thrust exactly for a commandable body before the match runs |
| TacticalMemory.PassFailsFor | src/controllers/tactical_controller.cpp:189-262 | a foreign observation and a match that starts in the future are refused if and only if they are so; a window past the last tick and a failed collection are the only other causes beside an unrepresentable vector |
| TacticalRuns.StepIsAtomic | src/controllers/tactical_controller.cpp:172-199 | refused, stale and failed observations leave the tactical state equal; a completed one is strictly later than all before |
| TacticalRuns.StrangeObservationsAreRefused | src/controllers/tactical_controller.cpp:172-239 | an observation made for another controller is refused, an older one says nothing, and one of a match that starts in its future is an error for a body it could decide for |
| TacticalRuns.RunIsCoherent | src/controllers/tactical_controller.cpp:176-383 | in every reachable state a lease exists exactly when the hold says so, and with it everything the decision reads |
| TacticalRuns.EveryHistoryIsARun | src/controllers/tactical_controller.cpp:176-383 | every history of observations is a run of a new bot: no reachable state lacks what the next pass reads |
| TacticalRuns.ActingPassesAreSpaced | src/controllers/tactical_controller.cpp:241-309 | over any run, across body, stun, match and target resets, two passes that clear the gate are a reaction delay apart |
| TacticalMemory.BotActsExactlyWhenDue | src/controllers/tactical_controller.cpp:258-309 | over any run, a pass over the same body and match, with objectives on offer and its target not gone, acts if and only if a reaction delay has passed since the last pass that set the gate |
| TacticalRuns.AbilitiesAreSpaced | src/controllers/tactical_controller.hpp:208-213 | hence so are any two shield or charge commands |
| TacticalRuns.SwitchesAreSpaced | src/controllers/tactical_controller.cpp:310-339 | a switch comes at least a persistence after any earlier decision that set the lease |
| TacticalRuns.LeaseHoldsItsTarget | src/controllers/tactical_controller.cpp:283-298 | until its lease is over a target is kept with its window or given up, never exchanged |
| TacticalRuns.CommandIsHeldForTheActualHold | src/controllers/tactical_controller.cpp:304-309 | with regular observations and an undisturbed target, acting passes come exactly the hold apart that the brake's envelope is proved for |
| TacticalArrivals.ArrivedRunNeverGainsSpeed | docs/reviews/2026-09-12-arrival-brake-contract.md:11-24 | in a run whose acting passes brake on a stationary hill in regular cadence, with the body moved by the thrust in force and any drag, no component is faster at a later such pass than at an earlier one |
| TacticalArrivals.SlowRunNeverGainsSpeed | docs/reviews/2026-09-12-arrival-brake-contract.md:55-58 | the same through the limiter and an unchanged ceiling, for a bot that arrives at no more than half of it, which it then never exceeds |
| TacticalRuns.EligibleIsCommandable | src/controllers/controller.cpp:28-57 | a running, dynamic, unstunned body of this controller's is always commandable under its published generation |
| TacticalAbilities.CommandableIsExact | src/controllers/controller.cpp:20-57 | a command may be authored if and only if the observation is this controller's, it has a body that can move, and no stun published for it contains the tick; it then carries a generation published for that body |
| TacticalRuns.AbilityIsJustified | src/controllers/tactical_controller.cpp:385-449 | a shield is sent exactly when an opponent closes and it may be raised; a charge exactly when nobody closes and every screen admits it, at unit length straight at the opponent |
| TacticalRuns.PassCommands | src/controllers/tactical_controller.cpp:201-383 | past the gate one thrust then at most one ability, all for the observed body and generation and in the unit square; otherwise at most a zero thrust or one spawn; and the thrust in force afterwards is the one sent |
| TacticalRuns.SpawnRequestsAreSpaced | src/controllers/controllers_limits.hpp:57 | while no observation the bot heeds shows it a body, spawn requests are 40 ticks apart |
| TacticalRuns.NextRequestIsMadeExactlyWhenDue | src/controllers/controller.cpp:84-98 | while no heeded observation shows a body, the next request is made if and only if the observation is heeded and the last request is 40 ticks old |
| TacticalRuns.BodyIsRemembered | src/controllers/controller.cpp:64-98 | the entity remembered is the one the last heeded observation showed, even one whose pass failed, and the last request is kept until a body is seen again |
| IniText.PaddingIsIgnored | src/application/application_config_loader.cpp:508-546 | a header or pair reads back whatever whitespace surrounds its parts |
| IniText.ItemIsExact | src/application/application_config_loader.cpp:508-546 | a trimmed line says nothing, names a section, sets a pair or is malformed, with or without an empty key, if and only if it is of that shape |
| IniText.CommentsSayNothing | src/application/application_config_loader.cpp:511-514 | blank and comment lines say nothing, whatever whitespace surrounds them |
| IniText.SplitUndoesJoin | src/application/application_config_loader.cpp:485-506 | lines come back from their text with either line end, and with or without the last one |
| IniText.TrimHorizontalWhitespace | src/application/application_config_loader.cpp:337-345 | the two loops are the specified trim |
| IniDocuments.StrictIniDocument.ParseDocument | src/application/application_config_loader.cpp:466-472 | the parser's answer for a whole text is the specified one, with missing keys in order |
| IniDocuments.StrictIniDocument.ParseLines | src/application/application_config_loader.cpp:485-506 | the line loop applies each line's meaning in order up to the first error |
| IniDocuments.StrictIniDocument.ParseLine | src/application/application_config_loader.cpp:508-570 | one line's effect on sections, slots and instances, or its error |
| IniDocuments.StrictIniDocument.Open | src/application/application_config_loader.cpp:575-615 | a header opens a fixed section once or a new family instance within 64, or is refused |
| IniAcceptance.LineIsRecorded | src/application/application_config_loader.cpp:508-615 | a line is accepted exactly when it may stand below the lines above it, and the state then records it |
| IniAcceptance.AcceptsExactlyLegalAndComplete | src/application/application_config_loader.cpp:485-649 | a text is accepted if and only if its lines are legal and complete, said without parser state |
| IniAcceptance.AcceptedSetsEachKeyExactlyOnce | src/application/application_config_loader.cpp:389-404 | an accepted text sets each required key exactly once, holds the value it set, and has no other pair |
| IniErrors.TextIsRefusedForItsFirstBadLine | src/application/application_config_loader.cpp:508-615 | a text with a line that may not stand below those above it is refused, with the error that the first such line earns there |
| IniErrors.LegalTextIsRefusedForWhatIsMissing | src/application/application_config_loader.cpp:616-654 | a text whose lines are all legal is refused only for missing keys: exactly the required keys nobody set, each once and in order |
| IniPrinting.NoiseChangesNothing | src/application/application_config_loader.cpp:511-514 | dropping the lines that say nothing changes neither acceptance nor error nor result |
| IniPrinting.OnlySignificantLinesMatter | src/application/application_config_loader.cpp:485-546 | two texts whose lines say the same once comments, blanks, padding and line ends are set aside parse the same, errors included |
| IniPrinting.ParseUndoesPrint | src/application/application_config_loader.cpp:485-654 | printing any well-formed table with any noise lines, padding and line ends, the last one optional, and parsing it gives the table |
| BotRosters.ParseBotRoster | src/application/match_configuration.cpp:107-161 | the cursor loop is the specified parse of the roster line |
| BotRosters.ParsedRosterIsValid | src/application/match_configuration.cpp:76-103 | an accepted line has at most 16 entries, no zero count and no repeated declaration, and only blank text is empty |
| BotRosters.TermIsExact | src/application/match_configuration.cpp:119-151 | a term is read as an entry if and only if it is one colon between a declaration, of a kind or of a kind and a profile name about one at sign, and an unsigned 64-bit count |
| BotRosters.LineIsExact | src/application/match_configuration.cpp:107-161 | a line is read as a roster if and only if it is blank, or terms with commas between them that together make a valid roster, which is then the result |
| BotRosters.LineIsRefusedForItsFirstBadTerm | src/application/match_configuration.cpp:107-161 | a line is refused for the first term that does not go on a valid roster: for a profile that is no name, or else as no roster |
| BotRosters.ParseUndoesPrintRoster | src/application/match_configuration.cpp:107-161 | printing any valid roster, the empty one as a blank line, with any padding and parsing it gives the roster |
| BotRosters.AdmitRoster | src/application/match_configuration.cpp:205-247 | the admission loop reports the first error, and its running total never exceeds 256 whether or not the roster is admitted |
| BotRosters.AdmittedExactlyWhen | src/application/match_configuration.cpp:205-234 | a roster is admitted if and only if it is valid, registered with the right profiles, and totals at most 256 |
| BotRosters.RosterIsRefusedForItsFirstBadEntry | src/application/match_configuration.cpp:205-234 | a roster is refused for the first entry that spoils it, with each of the five errors if and only if its own condition on that entry and those before it holds |
| BotRosters.SeatsFollowTheRoster | src/application/match_startup_validation.cpp:145-172 | seat building fails exactly when the total exceeds a startable lobby's seats; otherwise seat k is the k-th of the run-length expansion and the rest stay empty, also for an empty roster |
| BotRosters.InitialSeatRosterFor | src/application/match_startup_validation.cpp:145-172 | the nested loops assign exactly that expansion |
| JsonText.StringReadsBack | src/observability/structured_logger.cpp:43-84 | reading an escaped string by RFC 8259 gives its bytes as code points U+0000 to U+00FF and leaves what follows |
| StructuredLogs.LineWriter.AppendJsonString | src/observability/structured_logger.cpp:43-84 | appends the escaped first 4096 bytes and sets the flag exactly when some were cut |
| StructuredLogs.EncodeEvent | src/observability/structured_logger.cpp:107-151 | the writer's line is the specified one for every event |
| StructuredLogReading.LineReadsBack | src/observability/structured_logger.cpp:86-151 | a reader of the line gets every field back, with the marker exactly when a string field was cut |
| StructuredLogReading.EventReadsBack | src/observability/structured_logger.cpp:107-151 | every event is one ASCII line ending in its only newline that reads back as its fields |
| StructuredLogReading.EventCarriesItsFields | src/observability/structured_logger.cpp:107-151 | each field of the event is in the line under its own name and in its own place exactly when the event has it |
| BoundedSerialization.SerializeBounded | src/protocol/bounded_json_serialization.cpp:39-62 | for any progressing chunked source and limit: the whole document exactly when it fits, a refusal otherwise, never more than the limit held nor limit + 1 pulled |
| CommandSchemas.PayloadIsExact | src/protocol/command_decoding.cpp:92-432 | the size and presence checks accept a payload exactly when its key set and values fit the kind's closed schema |
| CommandRoundTrips.DecodeUndoesEncode | src/protocol/command_decoding.cpp:92-432 | decoding the encoding of any in-range command gives it back |
| CommandRoundTrips.AcceptedIsStampedAndInRange | src/protocol/command_decoding.cpp:401-432 | every accepted command is of the kind asked for, in range, and carries the caller's identity |
| CommandRoundTrips.AcceptedMeansWhatItSays | src/protocol/command_decoding.cpp:92-432 | every member of an accepted payload is in the command with the value written, however its number is spelled, and the command holds nothing else |
| CommandRoundTrips.EnvelopeIsExact | src/protocol/command_decoding.cpp:436-484 | each of the four refusals and the acceptance of a frame holds if and only if its own condition does, in admission order |
| CommandRoundTrips.EnvelopeReadsBack | src/protocol/command_decoding.cpp:436-484 | a whole frame of an accepted kind decodes to its command |

## Left out

- ArrivalBrakes.HoldNeverGainsSpeed: exact real arithmetic; binary64 rounding, NaN and the settling tolerance of the production loop are not modelled.
- TacticalSelection.SelectionIsMaximal: scores are exact reals, so ties that only rounding makes or breaks are not modelled.
- TacticalObjectives.CollectObjectives: terrain answers are arbitrary functions; nothing is proved about support, exits or projections themselves.
- IniDocuments.StrictIniDocument.ParseDocument: errors carry no file name, line number or text; the schema is a parameter, so the shipped key names are not listed.
- BotRosters.AdmitRoster: mode name, map name, maps directory and seat-count checks of the same function are left out; the registry is a map from kind to whether it requires a profile.
- StructuredLogs.EncodeEvent: the timestamp is given; the clock, the sink and the fallback line are left out.
- CommandRoundTrips.EnvelopeIsExact: starts from the parsed JSON value; tokenising, duplicate keys and number spelling belong to the JSON library.
- Reconciliation.SeatBotReconciler.TryCreateBot: log lines, seeds and tactical identities handed to new controllers, and exhaustion of memory are left out.
- Command mailbox capacity, supersession, accepted kinds and the movement-tuning slot of the sink are not modelled; a submitted join is kept in order.
- The tick applies a batch's joins and leaves as the seat roster sees them; bodies, spawning and the match phase are not modelled.
- The deterministic generator is a seed and numbered draws; its bits are not modelled.
- Wanderer, chaser, hill seeker, racer and scripted controllers, error-code tables, numeric range validators and the CSV loaders would only add easy members.
- The simulation kernel beyond one component's velocity update, continuous motion, snapshot delivery, HTTP, WebSocket, timers and signals are outside the model.
