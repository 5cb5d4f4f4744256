# Live play: what observation may conclude

The live player of NuzlockeAI watches a battle through screen captures and infers what really happened: which
message was printed, how much HP a bar stands for, which slot acted, which random rolls were made. It also records
every random draw so that a game can be replayed. This project models those parts in Dafny. It proves that the fast
algorithms compute what their simple definitions say, and it proves when the inference keeps the truth: a condition
that is met if and only if what really happened is not discarded.

| modules | subject |
|---|---|
| `SweepConfig`, `MoverRolls`, `PhaseLoop`, `SweepExactness`, `SweepRefinement` | the candidate sweep, its deduplicated mover-by-mover enumeration, what it finds, and brute force |
| `StepEngine`, `TwoConfused`, `StoppingRuns` | simulators: steps per mover, and those for which the sweep misses turns |
| `TrueTurn` | the turn really played, from the sweep through the checks on the HP records |
| `MultiHit`, `MultiHitTruth`, `TrueHits` | pruning multi-hit damages with bar readings |
| `HpBar`, `Stability`, `HpCount`, `HpFilm` | the pixel map and its inverse, the reading filter, the count of HP changes |
| `Text`, `Template`, `Table`, `Alignment`, `Matching`, `Pricing`, `Rendering` | aligning a capture with a message template by dynamic programming, and what that costs |
| `Finaliser`, `Ranking`, `FoeSplit` | the typewriter stream, the choice among templates, the "Foe" variants |
| `RngTrace`, `Redraw`, `GoldenTrace`, `TraceReplay` | recording draws with checkpoints, validating a trace, replaying it |
| `SweepIo` | the tagged JSON codec |
| `SlotMaps`, `KnownActions` | ambiguous attackers, and which actions the messages tell |

Code that updates state is a class or a method with loops, proved against a function or predicate that defines the
result independently; the main theorems are lemmas about those definitions.

## Where code and promise part

The model follows the code. These are the places where a promise of the comments or design does not hold of it, with
an input that shows it and the condition under which it does hold.

- `hp_range` is documented as the inverse of the bar, but leaves out the living HPs with 48 * hp < max_hp, which the
  bar shows as one pixel (`RangeInvertsBar`, an equivalence). The end-of-turn check rejects such a true outcome
  (`TrueOutcomeMatches`, an equivalence; `FaintOutcomeIsRejected`).
- The multi-hit pruning takes the n-th logged damage for the n-th hit, but the log drops readings that do not change,
  so a hit too weak to show shifts all later readings (`UnseenHitLosesTruth`); and an HP below one pixel's worth
  misleads it even when every hit shows (`FaintTargetLosesTruth`). `TruthSurvivesIff` and `TrueHitsAreKept` are
  equivalences over the log; `AlignedIsWellRead` says what they come to when nothing goes unseen.
- The count of HP changes can reject an opponent's true run that ends in overkill (`ClampedRunIsRejected`;
  `RunAgreesIff`, and for knock-outs `KnockOutAgreesIff`, are equivalences). It never rejects the player's
  (`ExactRunAgrees`).
- A simulation that meets a draw nobody forced has no outcome, and the sweep drops the roll it was probing. So a
  simulation that stops because a later mover is on its placeholder loses turns that the true rolls complete
  (`StoppedIsMissed`). `SweepIsStepwise` and `TrueTurnIsKept` say of each turn exactly when it is found;
  `StoppingRefinesIff` says for whom the sweep refines brute force even so.
- Several confused creatures are given rolls one at a time, so the sweep refines brute force for every simulator that
  never stops early if and only if at most one is confused (`AlwaysRefinesIff`, `TwoConfusedAreMissed`).
- The validator counts occurrences by the text of an event and the converter decodes it, so an accepted trace that
  spells one event in two ways within a turn converts to entries with equal keys (`TwoSpellingsCollide`);
  `KeysDifferIff` is an equivalence. A recorder never writes such a trace (`RecordingIsSpelledAlike`).
- A stability buffer told to require fewer than two readings still requires two (`OneReadingIsNotEnough`,
  `SettingIsKeptIff`). Nothing in the repository asks for fewer.
- A typed message is lost when the next one's first capture continues it (`RunOnMessageIsLost`); all come out as sent
  if and only if none does (`MessagesComeOutAsSent`).
- Rolling back to a mark left behind by an earlier rollback miscounts (`StaleMarkMiscounts`; `RollbackKeepsInvIff` is
  an equivalence). Rollback restores everything but the debug context (`RollbackUndoesRun`), and that it does not
  (`ContextIsNotRestored`).

## Model

| member | source | states |
|---|---|---|
| `SweepExactness.SweepFindsIff` | liveplay/sweep_run.py:200-470 | for movers that hit once or several times, any confused creatures, and a simulator that may stop but in which rolls act only through the damages they are seen to do: the sweep finds a turn if and only if some rolls, one confused creature rolling at a time, lead to it whose hits all land in the simulations that probe them and whose damages the bar readings allow |
| `SweepExactness.AdmittedSurvive` | liveplay/sweep_run.py:335-470 | such rolls give a survivor with that turn whose own rolls stand for the same damages |
| `SweepExactness.SurvivorIsAdmitted` | liveplay/sweep_run.py:335-470 | every survivor comes from such rolls; this half needs no assumption about the simulator |
| `SweepExactness.ReplaceDraws` | liveplay/sweep_run.py:365-422 | any such rolls can be exchanged, mover by mover, for ones the sweep reaches, without changing the turn or the damages |
| `SweepExactness.ReplaceNext` | liveplay/sweep_run.py:395-420 | one step of that exchange, after which the rolls of later movers still land and are still allowed |
| `SweepExactness.AdmittedIsTried` | liveplay/sweep_run.py:245-322 | whatever allowed damages rolls are seen to do, the sweep goes on with rolls of the same crits seen to do the same |
| `SweepExactness.ExtensionIsAdmitted` | liveplay/sweep_run.py:245-322 | the sweep goes on only with sixteenths that land in their probes with damages the readings allow |
| `SweepExactness.SelfHitIsTried` | liveplay/sweep_run.py:426-450 | every passing self-hit roll is represented by a roll the sweep keeps, with the same turn |
| `SweepExactness.SurvivorObserves` | liveplay/sweep_run.py:387-414 | every survivor agrees with what was observed: a single hit is forced to a crit exactly when one was seen, of several hits as many are critical as were seen, all rolls are sixteenths, and the sides moved in the observed order |
| `SweepExactness.DrawsAreObserved` | liveplay/sweep_run.py:228-246 | the rolls and crits considered for the movers are exactly those that agree with the observation, 16 rolls for every hit |
| `SweepRefinement.SweepRefinesBruteForce` | liveplay/sweep_run.py:335-470 | for movers that hit once and at most one confused creature, a simulator in which rolls act only through the damage seen, and no simulation stopping on a placeholder that completes without it, the turns of the survivors are exactly the turns found by trying all 16 rolls of every mover and every confused creature |
| `SweepRefinement.SweepIsStepwise` | liveplay/sweep_run.py:335-470 | for movers that hit once, whichever simulations stop and however many creatures are confused, the sweep finds a turn if and only if some rolls find it, one confused creature rolling at a time, on the way to which every simulation with later movers undecided completes |
| `SweepRefinement.BruteForceIsAll` | liveplay/sweep_run.py:335-470 | brute force written out: it finds exactly the turns of simulations that complete, with the sides moving in the observed order, under any sixteenths and any crits that agree with the observation, and any sixteenth for every confused creature |
| `SweepRefinement.SingleIsAdmitted` | liveplay/sweep_run.py:258-280 | a single hit is followed exactly when the simulation that probes it completes, with the damage logged for it, or 0 when none was logged |
| `SweepRefinement.SweepIsOneAtATime` | liveplay/sweep_run.py:335-470 | for movers that hit once, when no simulation stops on a placeholder, the sweep finds exactly the turns in which one of the confused creatures rolls and the others do not |
| `SweepRefinement.OneAtATimeIsAll` | liveplay/sweep_run.py:426-450 | with at most one confused creature, rolling one at a time is rolling all of them |
| `TwoConfused.AlwaysRefinesIff` | liveplay/sweep_run.py:426-450 | the sweep refines brute force for every simulator whose rolls act through damage and that never stops on a placeholder if and only if at most one creature is confused |
| `StoppingRuns.StoppingRefinesIff` | liveplay/sweep_run.py:258-267 | the sweep refines brute force for every simulator whose rolls act through damage, stopping or not, if and only if there is one mover, or one confused creature, and nobody else |
| `StoppingRuns.StoppedIsMissed` | liveplay/sweep_run.py:258-267 | with anybody else undecided, a simulator that stops unless every roll is forced completes under the true rolls, and the sweep finds nothing |
| `StoppingRuns.StrictRollsExchange` | liveplay/sweep_run.py:258-267 | in that simulator rolls act only through the damage they are seen to do |
| `TwoConfused.TwoConfusedAreMissed` | liveplay/sweep_run.py:426-450 | for any two confused creatures, a simulator with a turn that brute force finds and the sweep does not: both roll the least damage |
| `TwoConfused.TwinsActThroughDamage` | liveplay/sweep_run.py:431-449 | in that simulator each self-hit roll acts only through the damage it does |
| `SweepRefinement.SweepIsComplete` | liveplay/sweep_run.py:365-470 | under the same conditions, every turn that some full roll assignment produces is the turn of some survivor |
| `SweepRefinement.SweepIsSound` | liveplay/sweep_run.py:335-470 | with at most one confused creature, every survivor's turn is produced by some full assignment of rolls and crits, whatever the simulator and however often movers hit |
| `TrueTurn.TrueTurnIsKept` | liveplay/sweep_run.py:564-603 | the turn really played, when movers hit once, for every simulator with a deterministic step per mover that may stop or pass: the sweep finds it if and only if every simulation on the way to it completes, and it passes the checks on all HP records if and only if the bar misleads about none of the watched creatures |
| `TrueTurn.MixedTurnIsFound` | liveplay/sweep_run.py:335-470 | the turn really played, when movers hit once or several times and each hit lands in its probe as it truly did: the sweep finds it with the damages truly dealt if and only if the readings between the hits of every mover that hits several times can be explained |
| `TrueTurn.MixedTurnIsKept` | liveplay/sweep_run.py:564-603 | the same for every simulator with a deterministic step per mover, together with the checks on the HP records |
| `TrueTurn.LandedTurnIsFound` | liveplay/sweep_run.py:238-305 | nothing assumed about the probes: in a simulator that never stops, where a higher roll does no less damage and less damage lets no fewer hits land, a turn in which every hit landed is found with its damages if and only if the readings can be explained |
| `TrueTurn.SameTurnCompletes` | liveplay/sweep_run.py:258-267 | rolls that play the same turn go through the same states, so the simulations on the way to them complete alike |
| `TrueTurn.ChecksPassIff` | liveplay/sweep_run.py:589-603 | the two checks keep a creature's record of the true turn exactly when it did not end below one pixel's worth and its run passes the count |
| `TrueTurn.PlayersRecordIsKept` | liveplay/sweep_run.py:589-603 | the player's records of the true turn are always kept |
| `StepEngine.StepsRollsExchange` | liveplay/sweep_run.py:200-470 | every simulator that plays mover by mover with a deterministic step, which may stop, pass or hit several times, and whose state depends on the rolls only through the damages logged, meets the condition under which it is known what the sweep finds |
| `StepEngine.StepsComplete` | liveplay/sweep_run.py:258-267 | when such a simulator never stops on a placeholder, no simulation does |
| `StepEngine.StepSweepIsExact` | liveplay/sweep_run.py:200-470 | for every such simulator the sweep finds exactly the turns of rolls that land in their probes with damages the readings allow; for single hits that never stop on a placeholder, exactly those that brute force finds |
| `StepEngine.ProbeShowsHits` | liveplay/sweep_run.py:262-276 | the damages read from the log for a mover, with later movers on placeholders, are the hits of its own step |
| `StepEngine.SeenHit` | liveplay/sweep_run.py:242-276 | varying one hit with the others at their least roll shows the damage that hit deals |
| `StepEngine.TrueHitsAreSeen` | liveplay/sweep_run.py:238-276 | why the other hits are pinned to their least roll: in such a simulator, when every hit of a move really lands, every hit lands in its probe with the damage it really deals |
| `StepEngine.StepExchangeable` | liveplay/sweep_run.py:258-280 | rolls of a mover with the same crits, seen to do the same damages, give the same run whatever the later movers and the confused creature roll |
| `PhaseLoop.RunPhaseLoop` | liveplay/sweep_run.py:335-470 | the returned survivors are exactly the complete choices, reached by extending mover after mover, whose simulation completes in the observed order; with confused creatures, one for the first roll of each damage done to itself |
| `PhaseLoop.DecideMovers` | liveplay/sweep_run.py:365-422 | after the mover loop the active choices are exactly the chains of extensions |
| `PhaseLoop.ExtendActive` | liveplay/sweep_run.py:395-422 | one round extends each active choice by exactly the entries enumerated after it |
| `PhaseLoop.EnumerateMoverRolls` | liveplay/sweep_run.py:200-324 | the entries for one mover are exactly those whose crits have the observed count and whose rolls stand for a damage combination the readings allow |
| `PhaseLoop.CritAssignmentsListed` | liveplay/sweep_run.py:228-236 | the crit assignments are exactly the ways to make the observed number of hits critical |
| `PhaseLoop.ExpandSelfHit` | liveplay/sweep_run.py:426-449 | for one confused creature a turn is kept exactly when its roll is the first passing roll with that damage to itself |
| `PhaseLoop.ExpandSelfHits` | liveplay/sweep_run.py:426-450 | over several confused creatures the expansions are united, not multiplied |
| `PhaseLoop.SimulateEach` | liveplay/sweep_run.py:452-470 | without confused creatures a choice survives exactly when its simulation completes and the sides move in the observed order |
| `MoverRolls.DiscoverHit` | liveplay/sweep_run.py:245-280 | the damages found for a hit are exactly those some of the 16 rolls deal with the other hits at their least roll, each once and mapped to the first roll dealing it |
| `MoverRolls.EnumerateRolls` | liveplay/sweep_run.py:238-324 | the roll tuples are exactly those of first rolls of a damage combination that agrees with every reading, each once |
| `MoverRolls.CollectRolls` | liveplay/sweep_run.py:307-322 | every surviving combination contributes its roll tuple, nothing else does, and no tuple is repeated |
| `MoverRolls.SurvivorIsRepresented` | liveplay/sweep_run.py:307-318 | every damage of a surviving combination has a recorded roll, and those rolls really deal it |
| `MoverRolls.RepresentedSurvives` | liveplay/sweep_run.py:245-305 | a combination that rolls deal and the readings allow is in the pruned product, under exactly those rolls |
| `MoverRolls.LeastRoll` | liveplay/sweep_run.py:278-280 | a damage that some roll deals has a first roll dealing it |
| `SweepConfig.MakeSweepConfig` | liveplay/sweep_run.py:137-153 | the forced rolls and crits are those of the decided movers, the current mover and the placeholder for later movers, with the self-hit roll on top and no crit for it |
| `SweepConfig.EachMoverGetsItsEntry` | liveplay/sweep_run.py:137-148 | with one mover per slot, every mover is forced to its own entry |
| `SweepConfig.ForcedBySlot` | liveplay/sweep_run.py:133-153 | slot by slot: decided movers keep their entries, later ones get the midpoint and no crit, and a creature that hits itself its roll and no crit |
| `TrueHits.TrueHitsAreKept` | liveplay/sweep_run.py:238-305 | a multi-hit move really dealing certain damages, with the log that the capture loop keeps of its target: the sweep goes on with rolls standing for those damages if and only if every seen hit's reading can be explained by the damages its place in the log selects; when nothing unseen comes before a seen hit, if and only if no seen hit is misjudged |
| `TrueHits.AllowedIffWellRead` | liveplay/sweep_run.py:285-302 | the readings allow the damages truly dealt if and only if every seen hit's reading can be explained |
| `TrueHits.KeptIsWellRead` | liveplay/sweep_run.py:285-305 | for every simulator, a reading that cannot be explained loses the true damages |
| `TrueHits.UnseenHitLosesTruth` | liveplay/sweep_run.py:61-106 | an input the pruning gets wrong with no faint HP: 51 of 100 HP, hits of 1 and 10, logged as one change from 24 to 19; the truth is lost whatever the simulator |
| `TrueHits.FaintTargetLosesTruth` | liveplay/sweep_run.py:85-106 | an input the pruning gets wrong with every hit seen: 6 of 100 HP, hits of 5 and 1, shown as 2, 1, 0; the truth is lost whatever the simulator |
| `MultiHit.SegmentHpDeltasIntoHits` | liveplay/sweep_run.py:61-82 | each damage reading gives one constraint, anchored at the latest heal before it (or the first reading) and counting damage from there; heals give none |
| `MultiHit.PrunedProduct` | liveplay/sweep_run.py:289-305 | the kept tuples are exactly the product tuples that satisfy the constraint of every hit, each once |
| `MultiHit.ExtendAll` | liveplay/sweep_run.py:290-303 | one round turns the surviving tuples of one length into exactly the surviving tuples of the next |
| `MultiHit.SurvivesExtends` | liveplay/sweep_run.py:293-302 | a longer tuple survives exactly when its prefix does and its last damage is one of the hit's and agrees with the hit's reading |
| `MultiHit.NotLonger` | liveplay/sweep_run.py:303-305 | once no tuple of some length survives, no longer tuple does, so stopping early loses nothing |
| `MultiHitTruth.TruthSurvivesIff` | liveplay/sweep_run.py:61-106 | for every history of hits (overkill included) and recoveries, and the log that drops unchanged readings, the true damages survive the pruning if and only if the reading after each seen hit can be explained by the damages its place in the log selects |
| `MultiHitTruth.AlignedIsWellRead` | liveplay/sweep_run.py:61-106 | when nothing unseen comes before a seen hit, that is if and only if no seen hit is misjudged; none is for exact readings, nor when no HP is below one pixel's worth |
| `MultiHitTruth.HitPassesIff` | liveplay/sweep_run.py:85-106 | a reading allows a damage exactly when some HPs that the program takes to read like the anchor and like now differ by it |
| `MultiHitTruth.ExactTruthSurvives` | liveplay/sweep_run.py:61-106 | with exact readings and every event changing the HP, the true damages survive |
| `MultiHitTruth.LaterReadingsIgnored` | liveplay/sweep_run.py:289-302 | once every hit was seen, what the bar shows after the move changes nothing |
| `MultiHitTruth.LoggedStep` | SCRIPTS/play.py:845-859 | an event adds a change to the log exactly when it shows on the bar |
| `MultiHitTruth.LoggedFromFilm` | SCRIPTS/play.py:845-859 | the log that the capture loop keeps of a clearly filmed history is the one assumed |
| `MultiHitTruth.AllSeenSelects` | liveplay/sweep_run.py:61-82 | while every event is seen, the damages selected are those of the segment and add up to the HP lost in it |
| `MultiHitTruth.HitPassesTruth` | liveplay/sweep_run.py:85-106 | the reading after a hit refutes the damage truly dealt exactly when the hit is misjudged: an HP below one pixel's worth is knocked out by less than that, or is left over where the lower end of one pixel overshoots |
| `MultiHitTruth.SegmentsFollowEvents` | liveplay/sweep_run.py:61-82 | the log splits into segments at the recoveries that show, each anchored at what was shown then, and holds one constraint for each hit that shows |
| `MultiHitTruth.FaintTargetIsMisjudged` | liveplay/sweep_run.py:97-102 | 6 of 100 HP hit for 5 and 1: every event is seen, and the first reading cannot be explained |
| `MultiHitTruth.UnseenHitShiftsReadings` | liveplay/sweep_run.py:61-82 | 51 of 100 HP hit for 1 and 10: no HP is faint and no hit misjudged, but the one reading is compared with the damage of the wrong hit |
| `HpBar.RangeInvertsBar` | liveplay/hp_stability.py:65-76 | an HP lies in the range of k pixels if and only if the bar shows k for it and it is not a living HP below one pixel's worth; for all k and all HPs up to the maximum |
| `HpBar.RangesAreOrdered` | liveplay/hp_stability.py:65-76 | the ranges of different pixel counts are disjoint and ordered like the counts |
| `HpBar.OnlyOnePixelIsInexact` | liveplay/sweep_reconcile.py:610-614 | the HPs the inverse leaves out are all shown as one pixel |
| `HpBar.HpMatchDetail` | liveplay/sweep_reconcile.py:692-719 | the end-of-turn check passes exactly when every record with readings ends in the simulated HP: equal on side 0, in the pixel range on side 1; so exactly when every HP would be shown as the last reading and none is an opponent's below one pixel's worth |
| `HpBar.MatchesLastIff` | liveplay/sweep_reconcile.py:692-719 | an HP passes the check of a record if and only if it would be shown as the last reading and is not an opponent's below one pixel's worth; so every HP that reads otherwise is rejected |
| `HpBar.TrueOutcomeMatches` | liveplay/sweep_reconcile.py:692-719 | the true outcome passes that check if and only if it is not an opponent left below one pixel's worth |
| `HpBar.FaintOutcomeIsRejected` | liveplay/sweep_reconcile.py:711-717 | an input the check gets wrong: 1 HP of 100 shows one pixel, whose range starts at 3 |
| `Stability.StabilityBuffer.constructor` | liveplay/hp_stability.py:18-22 | a new buffer has seen no readings |
| `Stability.StabilityBuffer.Update` | liveplay/hp_stability.py:24-37 | candidate, streak and confirmed value are those of the readings since the reset, and the answer says whether the confirmed value just changed |
| `Stability.StabilityBuffer.Reset` | liveplay/hp_stability.py:44-48 | a reset forgets all readings |
| `Stability.ConfirmedIsLatestRun` | liveplay/hp_stability.py:24-37 | a value is confirmed exactly when a run of enough equal readings shows it and no such run ends later |
| `Stability.TrailingRunIsLongest` | liveplay/hp_stability.py:29-34 | the streak is the length of the longest run of equal readings ending now |
| `Stability.SettingIsKeptIff` | liveplay/hp_stability.py:24-37 | the buffer confirms after as many equal readings as it is set to require, for all streams, if and only if the setting is two or more |
| `Stability.OneReadingIsNotEnough` | liveplay/hp_stability.py:29-34 | set to require one reading, the buffer does not confirm a single one |
| `Stability.Observe` | SCRIPTS/play.py:845-859 | feeding a reading and logging it keeps the log equal to the values confirmed in turn, without equal neighbours |
| `Stability.ConfirmationsAreStutterFree` | SCRIPTS/play.py:845-859 | the values confirmed in turn never repeat, and the last one is the value confirmed now |
| `HpCount.SimHpChanges` | liveplay/sweep_reconcile.py:626-643 | the signed, non-zero changes of the one creature, in log order |
| `HpCount.PairCounts` | liveplay/sweep_reconcile.py:654-654 | a pair of readings in a record counts as a change when the two differ, wherever it stands |
| `HpCount.Reconstruct` | liveplay/sweep_reconcile.py:660-665 | undoing the changes from the final HP and reversing gives the HPs that run forward from the final HP less their sum |
| `HpCount.HpCountDetail` | liveplay/sweep_reconcile.py:646-683 | the check passes exactly when every record with readings either starts elsewhere than rebuilt or changes as often as rebuilt |
| `HpCount.ReconstructionIsExact` | liveplay/sweep_reconcile.py:660-665 | undoing the changes rebuilds the trajectory from a start HP if and only if start plus changes is the final HP |
| `HpCount.RunAgreesIff` | liveplay/sweep_reconcile.py:646-683 | a true run, whatever was clamped on the way, agrees with its record if and only if the bar never moved, the overkill shows at the start, or lifting the HPs by the overkill still to come hides as many steps as it brings out |
| `HpCount.RebuiltIsLifted` | liveplay/sweep_reconcile.py:660-665 | undoing the changes rebuilds the real trajectory with each HP lifted by the overkill still to come |
| `HpCount.VisibleRunAgreesIff` | liveplay/sweep_reconcile.py:646-683 | when every change shows on the bar, the run is rejected if and only if the lift does not show at the start and hides some step |
| `HpCount.KnockOutAgreesIff` | liveplay/sweep_reconcile.py:646-683 | a creature that damage knocks out is rejected if and only if the overkill of the last hit does not show at the start, but changes through how many levels the living creature's bar falls |
| `HpCount.KnockOutIsLifted` | liveplay/sweep_reconcile.py:660-665 | its rebuilt trajectory is the real one with every living HP lifted by that overkill |
| `HpCount.FallsThroughLevels` | liveplay/sweep_reconcile.py:672-676 | readings that never rise change as often as they take new levels |
| `HpCount.UnseenOverkillAgrees` | liveplay/sweep_reconcile.py:646-683 | overkill that shows at no step does no harm |
| `HpCount.ExactRunAgrees` | liveplay/sweep_reconcile.py:646-683 | the player's true run is never rejected, with damage clamped and heals logged as applied |
| `HpCount.TrueRunAgrees` | liveplay/sweep_reconcile.py:646-683 | on either side, a true run whose changes were applied in full is never rejected |
| `HpCount.EventRunAgrees` | liveplay/sweep_reconcile.py:617-683 | event by event: a creature whose HP rises by the healing logged for it and falls by no more than its damage, other creatures' events leaving it alone, is never rejected when it is the player's, nor when all damage was taken in full |
| `HpCount.ExactRunAgreesIff` | liveplay/sweep_reconcile.py:646-683 | a run read exactly, whatever its changes did to it, is rejected if and only if its HP moved, the amounts not applied cancel out and some change was swallowed whole |
| `HpCount.ClampedRunIsRejected` | liveplay/sweep_reconcile.py:660-679 | an opponent's true run the check rejects: 50 of 100 HP, a hit of 1 and one of 50; the overkill of 1 hides the first step |
| `HpCount.DestutterKeepsCount` | liveplay/sweep_reconcile.py:654-676 | dropping repeated readings keeps the first reading and the number of changes |
| `HpFilm.ClearFilmIsLogged` | SCRIPTS/play.py:845-859 | when the bar rests on each value long enough, with any unreadable gaps, the log is exactly the sequence of values without repetitions |
| `HpFilm.RestIsLogged` | SCRIPTS/play.py:845-850 | one long enough rest logs its value once, or not at all if it was confirmed already |
| `HpFilm.FilmedRunAgrees` | SCRIPTS/play.py:716-740 | from captures to check: real HPs, each shown long enough, yield a record that the count check accepts exactly when the run passes; always for the player, and for runs without overkill |
| `Template.BuildSegments` | liveplay/battle_message_matcher.py:354-369 | the segments flatten to the tokens, no two phrases touch and no segment is empty |
| `Template.ReadPhrase` | liveplay/battle_message_matcher.py:364-368 | a phrase takes the whole run of literals |
| `Table.Offer` | liveplay/battle_message_matcher.py:416-418 | offering an edge lowers the cell if the edge is strictly cheaper, never raises a cell, keeps every cell reachable along its parent pointer at its own cost, and keeps of equal offers the first |
| `Table.CellIsLeastCost` | liveplay/battle_message_matcher.py:402-479 | a cell of a completed table is the least cost of all legal segmentations reaching it, is reached by one of that cost, and is infinite exactly when none costs less than the infinity constant |
| `Table.CellIsLowerBound` | liveplay/battle_message_matcher.py:402-479 | no legal segmentation reaching a cell costs less than the cell |
| `Table.Trace` | liveplay/battle_message_matcher.py:650-657 | the parent pointers of a finite cell spell out a legal segmentation with one step per segment, ending at the cell and costing exactly its value |
| `Table.TraceReachesBack` | liveplay/battle_message_matcher.py:416-418 | of all cheapest segmentations into a cell, the traced one reaches back furthest, compared segment by segment from the end |
| `Table.WalkBack` | liveplay/battle_message_matcher.py:651-657 | walking the pointers back and reversing gives the steps of that segmentation in reading order |
| `Table.LegalLast` | liveplay/battle_message_matcher.py:402-479 | a segmentation is legal exactly when all but its last step are and the last step is an edge, and costs add up |
| `Alignment.OfferVar` | liveplay/battle_message_matcher.py:414-418 | a variable is offered every non-empty span at no cost |
| `Alignment.OfferEnum` | liveplay/battle_message_matcher.py:420-431 | an enum is offered every span up to its longest choice, at the distance of the nearest choice |
| `Alignment.OfferPhrase` | liveplay/battle_message_matcher.py:433-479 | a phrase is offered spans of one to its length plus one words, and, after a word carrying its apostrophe token, spans for its remaining words (none if there are none) |
| `Alignment.FillTable` | liveplay/battle_message_matcher.py:399-479 | the filled table offers every edge out of every finite cell, every finite cell is one edge after its parent, and the origin costs nothing |
| `Alignment.Closest` | liveplay/battle_message_matcher.py:664-664 | the first of the choices at the least distance |
| `Matching.TryAlign` | liveplay/battle_message_matcher.py:390-535 | the alignment found is the cheapest one (a shortest of those when partial) whose last segments reach back furthest; the result has its values, its cost and its coverage, exactly when the cost is within the budget and the values are accepted (always when partial); without any alignment there is no result; coverage lies between 0 and 1 |
| `Matching.ReachingBackIsUnique` | liveplay/battle_message_matcher.py:650-657 | so the cuts of the alignment found are determined |
| `Matching.FinalColumn` | liveplay/battle_message_matcher.py:481-495 | the column read off: the last one, or the first of least cost when partial; none exactly when all are infinite |
| `Matching.ReadHops` | liveplay/battle_message_matcher.py:659-669 | the values captured along the traceback and the number of words given to variables are those of the segmentation |
| `Matching.SpansCover` | liveplay/battle_message_matcher.py:646-657 | the spans concatenate to the words covered, each a variable's word or a literal's or enum's |
| `Matching.ValueOfSlot` | liveplay/battle_message_matcher.py:659-669 | there is one value for each variable or enum segment, in order, and it comes from that segment's own span |
| `Matching.SlotValueIs` | liveplay/battle_message_matcher.py:659-669 | a variable's value is its own span made canonical, and an enum's is the first of the choices at the least edit distance from its span, in lower case |
| `Matching.CoverageIsAShare` | liveplay/battle_message_matcher.py:505-515 | literal coverage lies between 0 and 1 and is the share of the words that literals and enums take |
| `Pricing.CandidateCharges` | liveplay/battle_message_matcher.py:411-479 | what an alignment costs, written out: every span is one its segment may take, and costs nothing for a variable, the edit distance in lower case from the phrase (or from its other words after a valid name of three letters or more with its apostrophe token fused on), or from the nearest choice |
| `Pricing.CostsNothingIff` | liveplay/battle_message_matcher.py:402-495 | when only equal texts are at distance zero, some alignment of the whole template costs nothing if and only if the capture can be cut so that every phrase and every choice reads as it is, up to case |
| `Pricing.FreeMatchReads` | liveplay/battle_message_matcher.py:497-501 | with no edits allowed, a template matches only a capture that reads as it |
| `Rendering.PreprocessOcr` | liveplay/battle_message_matcher.py:967-985 | cleans word by word: ellipses and dot runs go, empty words go, a final exclamation mark becomes a word |
| `Rendering.CleanedWord` | liveplay/battle_message_matcher.py:973-984 | cleaning a word takes away its ellipses and runs of dots and no other character, and leaves at most two words, two exactly when a final exclamation mark comes off |
| `Rendering.LiteralWordTokens` | liveplay/battle_message_matcher.py:992-1007 | tokenising a literal phrase gives literals whose words are exactly what cleaning the phrase's own words gives |
| `Rendering.CleanAppend` | liveplay/battle_message_matcher.py:967-985 | cleaning a capture is cleaning its pieces |
| `Rendering.RenderedEdge` | liveplay/battle_message_matcher.py:414-479 | a span that reads as its segment was rendered is an edge of cost zero |
| `Rendering.ExactRenderingCostsNothing` | liveplay/battle_message_matcher.py:402-495 | every exact rendering (variables of any words, an enum choice, phrases printed or fused after a valid name) aligns, and its cheapest alignment costs zero |
| `Rendering.PrintedMessageCostsNothing` | liveplay/battle_message_matcher.py:967-1007 | a message as printed, its phrases as the template was parsed from them and exclamation marks on the word before, aligns at cost zero after cleaning |
| `Rendering.PrintedCleansToRendering` | liveplay/battle_message_matcher.py:967-1007 | cleaning the printed message gives the template's words, filled in |
| `Rendering.GluedExclamation` | liveplay/battle_message_matcher.py:980-982 | an exclamation mark printed onto a word comes off as a word of its own |
| `Text.SplitOfJoin` | liveplay/battle_message_matcher.py:995-995 | splitting words joined by single spaces gives back the words |
| `Finaliser.BattleMessageMatcher.constructor` | liveplay/battle_message_matcher.py:1151-1154 | nothing is pending at first |
| `Finaliser.BattleMessageMatcher.Process` | liveplay/battle_message_matcher.py:1160-1213 | blank and menu captures leave the pending one alone; a text that continues it replaces it; a text that does not finalises it with its own constraints and becomes pending, also when finalising raises |
| `Finaliser.BattleMessageMatcher.Flush` | liveplay/battle_message_matcher.py:1215-1224 | the pending capture is finalised and nothing is pending |
| `Finaliser.BattleMessageMatcher.Reset` | liveplay/battle_message_matcher.py:1226-1230 | nothing is pending |
| `Finaliser.BattleMessageMatcher.Finalize` | liveplay/battle_message_matcher.py:1236-1242 | the cleaned words are matched, or reported as unknown |
| `Finaliser.OutputsAreEnds` | liveplay/battle_message_matcher.py:1179-1224 | over any stream, feeding and flushing puts out exactly the text captures that the next text does not continue, in order and once each |
| `Finaliser.FeedAll` | liveplay/battle_message_matcher.py:1160-1224 | feeding a whole stream to the matcher and flushing it reports a message, known or not, for exactly those captures |
| `Finaliser.MessagesComeOutAsSent` | liveplay/battle_message_matcher.py:1179-1224 | messages typed out in growing captures come out exactly as sent if and only if no message is continued by the next one's first capture |
| `Finaliser.RunOnMessageIsLost` | liveplay/battle_message_matcher.py:1200-1213 | a message that is lost: "Go", followed by another that is captured first as "Go on" |
| `Finaliser.AtMostOneEach` | liveplay/battle_message_matcher.py:1200-1213 | a typed stream never puts out more captures than it has messages, and as many only when no message runs on, and then exactly the messages |
| `Finaliser.EndsOfTyped` | liveplay/battle_message_matcher.py:1200-1213 | a typed message in front of a stream puts out its last capture unless the stream runs on from it |
| `Finaliser.BlankOrMenuLeavesNoTrace` | liveplay/battle_message_matcher.py:1169-1178 | a capture without words or of a menu, anywhere in a stream, changes nothing about what is put out |
| `Finaliser.TypedGrows` | liveplay/battle_message_matcher.py:1196-1204 | captures of one message are those that each begin with all the text of the one before |
| `Finaliser.EachMessageIsAnswered` | liveplay/battle_message_matcher.py:1160-1242 | typed messages of which none runs on are answered one by one: the last capture of each is cleaned and matched under its own constraints, or reported as unknown |
| `Ranking.RankOnce` | liveplay/battle_message_matcher.py:1263-1285 | the single pass ends on the first aligner that no other beats by score, then literals, then context, and collects all aligners in order |
| `Ranking.MostCovering` | liveplay/battle_message_matcher.py:1287-1298 | the fallback picks the first aligner that no other beats by coverage, then by the usual ranking |
| `Ranking.TryFullMatch` | liveplay/battle_message_matcher.py:1244-1299 | the choice is the ranking's winner, or the most covering aligner when the winner explains less than the threshold; it never explains less than the winner |
| `Ranking.BestSoFar` | liveplay/battle_message_matcher.py:1274-1285 | comparing each newcomer with the best so far keeps the first best of all |
| `Ranking.WinnerHasLeastKeys` | liveplay/battle_message_matcher.py:1273-1285 | the winner is the first with the least score, most literals, least context penalty, compared in this order |
| `Ranking.FallbackCoversMost` | liveplay/battle_message_matcher.py:1287-1298 | the fallback is the first of those with the greatest coverage that has the least keys |
| `Ranking.TakesPartIff` | liveplay/battle_message_matcher.py:1263-1270 | exactly the templates that align and have a literal or an enum take part |
| `FoeSplit.Split` | liveplay/battle_message_matcher.py:1010-1042 | with k prefixable names there are 2^k variants, one for each choice of names, pairwise different, each with the prefix before exactly the chosen names |
| `FoeSplit.InsertFoe` | liveplay/battle_message_matcher.py:1035-1040 | inserting from the last name to the first puts the prefix before exactly the chosen names |
| `FoeSplit.NamePositions` | liveplay/battle_message_matcher.py:1027-1030 | the positions listed are those of the prefixable names, in order |
| `FoeSplit.NamesCounted` | liveplay/battle_message_matcher.py:1027-1035 | the number of choices is that of the variables whose placeholder may be prefixed |
| `FoeSplit.ChoicesAreAll` | liveplay/battle_message_matcher.py:1035-1035 | every choice of names is tried |
| `FoeSplit.ChoicesAreDistinct` | liveplay/battle_message_matcher.py:1035-1035 | no choice is tried twice, and there are 2^k |
| `FoeSplit.PrefixesComeOff` | liveplay/battle_message_matcher.py:1036-1041 | taking the inserted prefixes away gives back the original tokens |
| `FoeSplit.VariantsDiffer` | liveplay/battle_message_matcher.py:1034-1041 | different choices give different variants |
| `RngTrace.TraceRecorder.constructor` | liveplay/rng_trace.py:40-47 | a new recorder has no turn, no records and no counters |
| `RngTrace.TraceRecorder.SetTurn` | liveplay/rng_trace.py:49-60 | going back raises, staying does nothing, going on clears the counters; nothing else changes |
| `RngTrace.TraceRecorder.SetContext` | liveplay/rng_trace.py:62-67 | only the debug context changes |
| `RngTrace.TraceRecorder.Record` | liveplay/rng_trace.py:69-85 | raises without a turn; otherwise appends one record with the next sequence number and the event's next occurrence in this turn |
| `RngTrace.TraceRecorder.Mark` | liveplay/rng_trace.py:87-94 | the mark holds the length, the counters, the sequence number and the turn |
| `RngTrace.TraceRecorder.Rollback` | liveplay/rng_trace.py:96-109 | raises when the turn has changed; otherwise cuts the records to the mark and restores counters and sequence number, but not the debug context |
| `RngTrace.RunKeepsInv` | liveplay/rng_trace.py:49-109 | after every run of set_turn, set_context, record, mark and rollback to marks on the current history, sequence numbers are positions, turns do not fall, occurrences count equal draws of the turn, and the counters are this turn's |
| `RngTrace.StepKeepsInv` | liveplay/rng_trace.py:49-109 | every single call keeps that invariant, including that every remaining mark is on the current history |
| `RngTrace.RollbackKeepsInvIff` | liveplay/rng_trace.py:96-109 | going back to a mark of this turn keeps the numbering if and only if the records still start with what the mark counted |
| `RngTrace.RecordKeepsInv` | liveplay/rng_trace.py:69-85 | recording keeps the numbering |
| `RngTrace.SetTurnKeepsInv` | liveplay/rng_trace.py:49-60 | a change of turn keeps the numbering |
| `RngTrace.RecordsAreKept` | liveplay/rng_trace.py:49-109 | after every run, rollbacks included, the records are, in order, the draws that were not undone, each with the event, the outcome, the turn and the debug context it was drawn with |
| `RngTrace.KeptInOrder` | liveplay/rng_trace.py:78-109 | and these draws come in the order they were made |
| `Redraw.RollbackUndoesRun` | liveplay/rng_trace.py:87-109 | marking, running on without going back further, and returning restores the recorder except for the debug context; after a change of turn the return raises and changes nothing |
| `Redraw.RedrawRecordsTheSame` | liveplay/rng_trace.py:96-109 | drawing the same events again after going back records the same turn, seq, event, occurrence and outcome as if the abandoned run had not happened |
| `Redraw.DrawsAreRecorded` | liveplay/rng_trace.py:69-85 | a series of draws adds one record each, in order, with the event and the outcome drawn, in this turn and numbered on |
| `Redraw.ContextIsNotRestored` | liveplay/rng_trace.py:62-109 | a debug context set after a mark is still there after going back to it |
| `Redraw.StaleMarkMiscounts` | liveplay/rng_trace.py:96-109 | a mark left behind by an earlier rollback breaks the numbering: the first record of an event gets occurrence 1 |
| `GoldenTrace.ValidateTrace` | liveplay/golden_trace.py:41-148 | accepts exactly the well-formed traces: one header first with the right version, one end last, known records with their keys, turns and driver positions not falling, rng numbers rising, occurrences 0, 1, 2, ... per turn and event of each stream |
| `GoldenTrace.ValidateBody` | liveplay/golden_trace.py:84-148 | the single pass over the body accepts exactly the well-formed bodies |
| `GoldenTrace.CheckOnlyAt` | liveplay/golden_trace.py:53-73 | a tag occurs at one place and nowhere else |
| `GoldenTrace.LatestDecides` | liveplay/golden_trace.py:90-148 | in an accepted prefix, comparing with the latest record of a kind is comparing with all of them |
| `GoldenTrace.AcceptedTrace` | liveplay/golden_trace.py:41-148 | an accepted trace without counting: header of version 1 first, end last, in between complete rng, answer and snapshot records with turns and driver positions not falling and draws numbered upwards, each occurrence 0 or one more than that of the latest record of its kind, turn and event |
| `GoldenTrace.ValidBodyIff` | liveplay/golden_trace.py:84-148 | so counting all earlier like records is counting on from the latest one |
| `TraceReplay.ConvertTrace` | liveplay/trace_replay.py:18-61 | converts exactly the traces with header, end and convertible rng records; the entries are those of the rng records, in order |
| `TraceReplay.KeysDifferIff` | liveplay/trace_replay.py:64-91 | in an accepted trace whose rng records can be converted, no two of them have the same turn, event and occurrence if and only if no turn spells an event in two ways |
| `TraceReplay.TwoSpellingsCollide` | liveplay/trace_replay.py:64-91 | for any two spellings of one event, an accepted trace whose two converted entries share a key |
| `TraceReplay.FirstOccurrence` | liveplay/golden_trace.py:108-117 | in an accepted trace the first record of each event text in a turn has occurrence 0 |
| `TraceReplay.EntriesAreDistinct` | liveplay/trace_replay.py:44-50 | the entries of a converted accepted trace have different keys if and only if no turn spells an event in two ways |
| `TraceReplay.EntriesAreRecords` | liveplay/trace_replay.py:47-50 | every entry is the entry of an rng record |
| `TraceReplay.LookupFindsIff` | liveplay/trace_replay.py:86-91 | every record's key finds its own outcome among the entries if and only if records with the same key have the same outcome |
| `TraceReplay.LookupFinds` | liveplay/trace_replay.py:86-91 | in an accepted trace in which no turn spells an event in two ways, every record's key finds its own outcome |
| `TraceReplay.NumberedIsValid` | liveplay/golden_trace.py:99-117 | what a recorder holds passes the validator's rng checks |
| `TraceReplay.RecordingIsValid` | liveplay/golden_trace.py:41-148 | the trace of every run of a recorder passes the validator |
| `TraceReplay.ReplayFindsRecordedOutcome` | liveplay/trace_replay.py:64-91 | replaying a recorded game finds, for the n-th record of an event in a turn, the outcome that the record holds |
| `TraceReplay.ReplayFindsDrawnOutcome` | liveplay/trace_replay.py:64-91 | for every draw of a game that was not rolled back, looking up its turn, its event and how many equal draws were kept before it finds the very outcome it was drawn with, an enum member as its number |
| `TraceReplay.OccurredIsEqualDraws` | liveplay/rng_trace.py:69-85 | the occurrences recorded are the equal draws kept before |
| `TraceReplay.RecordingIsSpelledAlike` | liveplay/rng_trace.py:69-85 | a recording spells every event in one way |
| `SweepIo.RoundTrip` | liveplay/sweep_io.py:81-173 | decoding the encoding of any value that may be written gives the value back with its parent links cut |
| `SweepIo.RoundTripIsExact` | liveplay/sweep_io.py:81-173 | and exactly the value when no dataclass in it has an uncompared link to its parent: nothing else is ever cut |
| `SweepIo.RoundTripEnum` | liveplay/sweep_io.py:86-145 | enum members come back by their value, a number or a text |
| `SweepIo.RoundTripData` | liveplay/sweep_io.py:93-156 | dataclasses come back field by field, the parent link empty |
| `SweepIo.RoundTripFrozenSet` | liveplay/sweep_io.py:108-164 | frozensets come back as the same set whatever order they were written in |
| `SweepIo.RoundTripDict` | liveplay/sweep_io.py:116-168 | dicts come back with their keys, values and order, whatever their keys are |
| `SweepIo.DecodeEntriesOf` | liveplay/sweep_io.py:166-168 | entries with different keys are all kept, in order |
| `SweepIo.EncodingTellsApart` | liveplay/sweep_io.py:81-121 | two values without parent links that are written alike are equal |
| `SweepIo.TagsAsKeysRoundTrip` | liveplay/sweep_io.py:116-168 | a dict whose own keys are the codec's tags comes back as that dict |
| `SweepIo.DecodedIsRegistered` | liveplay/sweep_io.py:123-173 | whatever JSON decodes is made of registered enum members and dataclasses with all their fields, and sets and dicts hold no list or dict as member or key; anything else raises |
| `SlotMaps.BuildAttackerSlotMaps` | liveplay/sweep_actions.py:240-290 | never empty and without repeats; exactly the maps of assignments that use no place twice, or the cursor map alone when there are none; the cursor map is among them if it uses no place twice, and alone when no name is ambiguous |
| `SlotMaps.Resolve` | liveplay/sweep_actions.py:255-265 | the messages considered are collected in one pass |
| `SlotMaps.MatchPositions` | liveplay/sweep_actions.py:199-209 | the positions listed are those whose species is close to the name, each once |
| `SlotMaps.BuildAttackerSlotMap` | liveplay/sweep_actions.py:212-237 | the single pass gives ambiguous messages of a side their positions in turn |
| `SlotMaps.PlaceAttacker` | liveplay/sweep_actions.py:163-196 | one message takes its only position, or the cursor's, and only then moves the cursor of its side |
| `SlotMaps.ProductIsAll` | liveplay/sweep_actions.py:267-270 | the product lists exactly the assignments of a matching position to each message |
| `SlotMaps.CheckInjective` | liveplay/sweep_actions.py:271-280 | an assignment passes exactly when no place is used twice |
| `SlotMaps.FanOut` | liveplay/sweep_actions.py:267-286 | the maps of the passing assignments, each once |
| `SlotMaps.UnambiguousHasOneMap` | liveplay/sweep_actions.py:246-248 | when every name matches one position there is one assignment, the cursor's |
| `SlotMaps.UnambiguousFanOut` | liveplay/sweep_actions.py:246-248 | and then the fan-out holds nothing but the cursor map |
| `SlotMaps.ResolvedInOrder` | liveplay/sweep_actions.py:255-265 | the messages considered stand, in order, for exactly the used moves of a known side whose attacker's name is close to some active creature there, with all the positions it is close to |
| `SlotMaps.FanOutIff` | liveplay/sweep_actions.py:267-286 | the fan-out holds exactly the maps that give every message a place on its side that its name matches, and no two messages the same |
| `SlotMaps.CursorTakesTurns` | liveplay/sweep_actions.py:191-196 | in the cursor pass two messages of a side that match the same several positions get the same one if and only if the ambiguous messages from the one to the other go round all positions a whole number of times |
| `KnownActions.VoluntaryIsGreatestExcess` | liveplay/sweep_actions.py:683-757 | for every message list, the switch-ins of a side left over by the pairing with its faints number exactly the greatest excess of switch-ins over faints of any prefix, at least 0 |
| `KnownActions.ExtractKnownActions` | liveplay/sweep_actions.py:650-774 | the extraction gives what the messages reveal one after the other, a switch-in being passed over while a faint of its side is unpaired, or raises when one of them does |
| `KnownActions.ReadMessage` | liveplay/sweep_actions.py:688-772 | what one message adds, and what it does to the counter of its side |
| `KnownActions.FirstActionStays` | liveplay/sweep_actions.py:717-718 | the first action of a slot is never changed by later messages |
| `KnownActions.FreeSwitchInIsAction` | liveplay/sweep_actions.py:749-772 | a switch-in that replaces no fainted creature, on a side with nothing known, is that side's action |
| `KnownActions.SwitchActionNeedsExcess` | liveplay/sweep_actions.py:751-772 | a switch is recorded only outside the battle's opening and only if some prefix switches in more than it loses |
| `KnownActions.ExtractionIsTold` | liveplay/sweep_actions.py:683-774 | the extraction in full: it raises if and only if some message names no slot of its side, or is the first to tell of a slot without naming an action; otherwise a slot's action is known if and only if the first used move of the slot told it, or a switch-in that replaces no fainted creature on a side of which nothing was told |

## Left out

- SweepRefinement.SweepRefinesBruteForce: movers that hit once, since pruning discards assignments of several hits by design; `SweepFindsIff` covers those. That rolls act only through the damages seen (`RollsExchange`) is a hypothesis, which spread moves and HP-dependent damage break; that no simulation stops on a placeholder (`PlaceholdersComplete`) is another, which `SweepIsStepwise` does without.
- StoppingRuns.StoppingRefinesIff: confused creatures that are not among the movers, as the source has it.
- StepEngine.StepSweepIsExact: one mover per slot and creature, and a confused creature that hits itself after the movers. Whether a step stops depends on its state, its damages and whether it is on its placeholder.
- TrueHits.TrueHitsAreKept: takes as given that each hit, probed with the others at their least roll, deals the damage it truly dealt, and that the target's log of the turn starts with the move: other damage to it may come after, once every hit was seen, but not before or in between.
- PhaseLoop.RunPhaseLoop: survivors are compared as a set; their order and repetitions are not stated. Movers have at least one hit, since the source's indexing raises otherwise. Target readings and maximum HP come with the mover instead of being looked up in the state.
- SweepConfig.MakeSweepConfig: one map keyed by side and slot; the scalar and per-slot representations of `SideOverrides`, tie winner, secondary and injected overrides and switch actions are not modelled.
- HpBar.RangeInvertsBar: exact integer ceilings; the source divides floats, which is exact for the HPs of the game.
- HpFilm.FilmedRunAgrees: one creature and one log from its start; re-seeding the logs between turns and attribution by name are not modelled.
- TrueTurn.TrueTurnIsKept: the checks on HP records; the consistency check of logged events with messages, level-ups and the removal of duplicate states are not modelled.
- TrueTurn.MixedTurnIsFound: takes as given, like `TrueHitsAreKept`, that every hit lands in its probe with the damage it truly dealt; `LandedTurnIsFound` proves that of simulators in which damage grows with the roll and a hit that lands after more damage also lands after less.
- Matching.TryAlign: only the values of the one alignment traced back are accepted or refused, as in the source; that another alignment might be accepted is not claimed.
- Alignment.FillTable: edit distance, lower-casing and the species table are arbitrary functions; an enum's choices are a list, where the source has a set without a fixed order.
- Rendering.ExactRenderingCostsNothing: uses only that a text is at distance zero from itself; enum choices are single-spaced, as all of them are in the source.
- Text.SplitOfJoin: words contain no space, tab or line break; other Unicode white space is not modelled.
- GoldenTrace.ValidateTrace: accepting or not; which exception is raised, and an explicit null under a key, are not modelled.
- TraceReplay.ConvertTrace: the rng stream; answers, snapshots, the initial state and the end record's fields are not modelled, and the decoder of event texts is any function.
- SlotMaps.FanOutIff: the identities of the messages are different, as those of live objects are.
- SweepIo.RoundTrip: equality of values that constructors do not alter; Python's equality of 1 and True as keys is not modelled, and values refused by the encoder do not exist in the model.
- KnownActions.ExtractKnownActions: name matching and legality of the observed action come with the message, each side has at least one active slot, and the two exception classes are one. The counters of unpaired faints are local to the extraction, as in the source, and do not appear in its contract.
- Rendering.PrintedMessageCostsNothing: of the literals printed onto the word before, exclamation marks and possessives after valid names.
- Finaliser.FeedAll: an unknown message is reported and the stream goes on; what the caller does with the exception is not modelled.
- Parsing templates from the message table, the edit budget, the word-count filter of candidate templates, reconstruction of the matched text and side hints: table-driven or heuristic.
- Screen detection, name canonicalisation and validation of captured values: inputs of the matcher.
- Saving error contexts, reading and writing files, JSON text, and the recorder's module-level singleton: input and output.
- The simulator itself, `run_with_capture` and the action inference around a turn: any function from a configuration to an optional turn stands for them.
- Resolving which team member a record belongs to, level-ups, wrap and rampage reconciliation: identity bookkeeping.
- Candidate tracking, luck profiles and legal-action enumeration: mostly single-branch decisions.
