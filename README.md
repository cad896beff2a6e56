# Subnet validator cores, modelled in Dafny

This project models the decision logic of several Bittensor subnet validators and weight
setters, and proves what that logic promises:

- **Burn-weight scheduler** (`burn_code_stuff/burn_subnet.py`). It waits for the "perfect" moment,
  `DELTA` = 9 blocks before a tempo closes. It checks the validator permit, resolves the burn uid
  and picks the epsilon uids by a stake-ordered circular walk with a linear fallback. It builds the
  payload from the clamped chain limits, submits it to every mechanism in emission-share order, and
  rotates among six local subtensor endpoints.
- **Miner bandwidth manager** (`misc/sn18/validators/task_manager.py`). It keeps a three-level
  table uid → provider → model of remaining capacities. It rebases that table on new capacities,
  restores it, and takes one slot per assigned query.
- **Weight-setter process starter** (`manual_weights/manual_weights_setter/ensure_set_weights_starter.py`).
  It finds the running process and edits its `netuids` with `--add`/`--remove`. It merges the
  overriding arguments and builds the `pm2 start` command.
- **Score-array resync** of the sn31 and sn5 validator bases. Replaced hotkeys are zeroed, the
  array grows with its prefix kept, rewards are scattered, and two flags drive the run thread.
- **sn18 weight setter** (`misc/sn18/validators/weight_setter.py`). It covers the epoch countdown,
  the epoch-end and cycle-end tests, the request blacklist, and the batching of synthetic queries
  (at most 50 per miner per batch).
- **sn30 block-interval scheduler** (`misc/sn30/validator.py`). It covers the due checks, the
  status countdowns, the first-run stamps and defaults, the weight-set back-off and the score
  padding.

Chain queries, extrinsics, processes and clocks are not called. Their answers are parameters of
the operations that read them: a `QueryResponse`, a `ChainView`, a synced `Metagraph`, a pm2
process list, `deleteSucceeds`, `fetchRaises`, and a `WeightCall` outcome.

Where the source mutates an object, the model is a class: `BurnValidator`, `TaskMgr`,
`EnsureSetWeightsStarter`, the two `BaseValidatorNeuron`s, `WeightSetter` and
`BettensorValidator`. Its methods are proved against specification functions. The pure
computations are functions with lemmas.

Some behaviour of the code differs from what its comments or log messages suggest. The model
follows the code, except for the two defects under "## Findings": there the code as written is
modelled beside a corrected version, and the rest of the model uses the corrected one.

- **sn30 query with missing scores.** When the scores are still missing after re-initialisation,
  `filter_and_update_axons` returns a tuple of four Nones (validator.py:256), not None. The
  caller's `result is None` test (:317) lets it through, and `len(uids_to_query)` (:323) raises
  TypeError, which ends the run loop.
- **sn30 `set_weights` without a subtensor.** The failure branch reads `validator.subtensor.block`
  outside any `try`, so it raises `AttributeError`. No stamp is written in that case.
- **sn30 status countdown.** The countdown `max(0, interval - elapsed)` already shows 0 when
  exactly `interval` blocks have passed. The due check is strict, so the task runs one block later.
- **sn18 batch size.** The batch test is `len(batch_tasks) > 3000`, so a batch can hold 3001 tasks.
- **Epsilon rotation.** `remaining_required` is computed after this validator's own uid is seeded.
  With three candidates, this validator second, and `min_allowed_weights` 3, the rotation point is
  index 1, and the result is `[B, C]` (`EpsilonSelector.EpsilonExample`).
- **Epsilon without candidates.** When no validator candidate has a usable uid, `select_epsilon_uids` returns
  the seed at once (lines 393-394). The linear fallback over all neurons does not run, so the
  payload can fall short of `min_allowed_weights` although other uids exist
  (`EpsilonSelector.EpsilonWithoutCandidates`).
- **sn30 first run.** The query task is stamped 11 blocks back and its interval is 25, so it is not
  due on the first iteration. Update, upload, scoring and weights are due.

## Model

| member | source | states |
|---|---|---|
| Chain.TruncateTowardZero | burn_code_stuff/burn_subnet.py:332 | `int()` on a float truncates toward zero: the result is within one of the input, on the side of zero |
| EpochClock.BlocksUntilNextEpoch | burn_code_stuff/burn_subnet.py:156-160 | blocks until the epoch plus blocks since the last step is the tempo; within [0, tempo] for a consistent reading |
| EpochClock.NextPerfectOpportunity | burn_code_stuff/burn_subnet.py:162-175 | a non-zero wait ends exactly DELTA blocks before a tempo boundary, in this tempo or the next; "act now" (0) exactly when DELTA < remaining <= 2·DELTA; the wait lies in [0, tempo] |
| EpochClock.NextPerfectOpportunityExamples | burn_code_stuff/burn_subnet.py:162-175 | tempo 360: 340 blocks since the step waits 11, 354 waits 357, 345 acts now |
| Endpoint.EndpointName | burn_code_stuff/burn_subnet.py:132-134 | a non-empty configured name wins; otherwise (no name, or the empty name) it is exactly `LOCAL_SUBTENSORS[index]`, the entry under the cursor |
| Endpoint.BurnValidator.constructor | burn_code_stuff/burn_subnet.py:53-54 | the cursor starts at an arbitrary index of the endpoint list |
| Endpoint.BurnValidator.RotateLocalSubtensor | burn_code_stuff/burn_subnet.py:125-136 | without the setting nothing changes; otherwise the cursor advances cyclically and the network URL names the selected endpoint |
| Endpoint.RotationCycles | burn_code_stuff/burn_subnet.py:129-130 | k rotations move the cursor to (start + k) mod 6 |
| Endpoint.RotationVisitsAll | burn_code_stuff/burn_subnet.py:125-136 | every endpoint is reached within six rotations from any start, and six rotations return to the start |
| BurnScheduler.PermitAt | burn_code_stuff/burn_subnet.py:202-206 | Python list indexing of the permit list: a negative index counts from the end; None where the lookup raises |
| BurnScheduler.EnsureValidatorPermit | burn_code_stuff/burn_subnet.py:191-214 | the validator's uid exactly when its permit flag is set, None otherwise |
| BurnScheduler.PermitCheck | burn_code_stuff/burn_subnet.py:202-214 | a non-negative uid passes exactly when the list covers it and its flag is set |
| BurnScheduler.RunBurnCode | burn_code_stuff/burn_subnet.py:483-528 | unregistered and no permit wait until the epoch; no neurons waits 5; a round that gets as far as submitting crashes exactly when the mechanism ids raise, and otherwise sends the payload built from the resolved burn uid, this uid and the two limits to the mechanisms in order; if some mechanism accepted, it pauses BLOCK_TIME·DELTA seconds and waits for the next perfect opportunity, else it waits until the epoch without pausing |
| BurnScheduler.PauseIffAccepted | burn_code_stuff/burn_subnet.py:521-526 | in a round that ran, the pause happens exactly when some mechanism accepted the weights, and the payload went to every mechanism |
| BurnScheduler.WaitWithinTempo | burn_code_stuff/burn_subnet.py:496-528 | with consistent readings no wait is negative or longer than a tempo; a non-zero wait after success ends DELTA blocks before a boundary |
| BurnScheduler.SentPayloadShape | burn_code_stuff/burn_subnet.py:517-521 | a round that ran sent a payload, and it has the burn uid first with the largest weight, no uid twice, at most min_allowed_weights entries |
| BurnTarget.FindByHotkey | burn_code_stuff/burn_subnet.py:261-265 | the first neuron with the owner hotkey, or none holds it |
| BurnTarget.OwnerNeurons | burn_code_stuff/burn_subnet.py:276-280 | exactly the neurons of the owner coldkey |
| BurnTarget.EarliestIndex | burn_code_stuff/burn_subnet.py:298-301 | `min` by registration block: none registered strictly earlier (missing = +infinity), ties to the first in list order |
| BurnTarget.OwnerColdkey | burn_code_stuff/burn_subnet.py:237-275 | the subnet info's owner coldkey when present; otherwise the coldkey of a neuron holding the owner hotkey, and None when no neuron holds it |
| BurnTarget.GetBurnUid | burn_code_stuff/burn_subnet.py:236-309 | without an owner coldkey, or when no neuron has that coldkey, the owner-hotkey uid; otherwise the uid of the earliest-registered owner neuron (first in list order on ties) if it has one, else the owner-hotkey uid; agrees with the code as written wherever that does not fail |
| BurnTarget.FromOwnerColdkeyChoice | burn_code_stuff/burn_subnet.py:276-309 | the owner-coldkey step always yields the fallback or an earliest owner neuron's uid |
| BurnTarget.UnboundOwnerUidWitness | burn_code_stuff/burn_subnet.py:303-306 | the as-written resolver ends in an unbound `sn_owner_uid` for a uid-less owner neuron |
| BurnTarget.DetermineBurnUid | burn_code_stuff/burn_subnet.py:311-318 | a configured target uid always wins; otherwise the resolver's answer |
| BurnTarget.NoOwnerNeuronsFallsBack | burn_code_stuff/burn_subnet.py:282-294 | with no neuron of the owner coldkey the owner-hotkey uid is used |
| BurnTarget.NoOwnerColdkeyFallsBack | burn_code_stuff/burn_subnet.py:244-274 | with no owner coldkey and no neuron of the owner hotkey the owner-hotkey uid is used |
| Payload.ClampedLimit | burn_code_stuff/burn_subnet.py:320-352 | the default when the query raises or the value does not convert; an integer of at least 1 is kept and one below 1 gives 1; a float of at least 1 gives its integer part and one below 1 gives 1 |
| Payload.MinAllowedWeights | burn_code_stuff/burn_subnet.py:320-335 | defaults to 1, clamped to at least 1 |
| Payload.MaxWeightLimit | burn_code_stuff/burn_subnet.py:337-352 | defaults to 65535, clamped to at least 1 |
| Payload.PayloadShape | burn_code_stuff/burn_subnet.py:424-452 | minimum 1 gives exactly uids [burn] and weights [1.0]; otherwise burn first with the max weight then ones; equal lengths, no uid twice, at most min_allowed_weights entries; the cut removes nothing |
| Payload.PayloadMeetsMinimum | burn_code_stuff/burn_subnet.py:437-452 | given a usable validator candidate the payload has min(min_allowed_weights, 1 + supply) entries |
| EpsilonSelector.ValidatorCandidatesMembers | burn_code_stuff/burn_subnet.py:370-373 | the candidate filter keeps exactly validators and permit holders |
| EpsilonSelector.SortByStakeCorrect | burn_code_stuff/burn_subnet.py:377-380 | the stake sort is a stake-descending permutation |
| EpsilonSelector.InsertByStakeStable | burn_code_stuff/burn_subnet.py:377-380 | inserting a neuron appends it after every neuron of its stake and keeps the order among each stake |
| EpsilonSelector.SortByStakeStable | burn_code_stuff/burn_subnet.py:377-380 | the sort is stable: for every stake, the neurons of that stake appear in the same order as in the input |
| EpsilonSelector.InsertByStakeSorted | burn_code_stuff/burn_subnet.py:377-380 | stable insertion keeps the order stake-descending |
| EpsilonSelector.CandidateUidsMembers | burn_code_stuff/burn_subnet.py:376-391 | the ordered candidates are exactly the usable uids, each once, burn uid and None excluded |
| EpsilonSelector.WalkFromExtends | burn_code_stuff/burn_subnet.py:399-406 | the circular walk only appends untaken candidates and never overshoots the target |
| EpsilonSelector.FillFromExtends | burn_code_stuff/burn_subnet.py:408-420 | the linear fallback only appends untaken neuron uids and never overshoots the target |
| EpsilonSelector.CollectCandidates | burn_code_stuff/burn_subnet.py:376-391 | the first loop yields the ordered candidate uids and the position of this validator's uid |
| EpsilonSelector.WalkCandidates | burn_code_stuff/burn_subnet.py:399-406 | the second loop equals the circular-walk specification over at most two passes |
| EpsilonSelector.FillFromNeurons | burn_code_stuff/burn_subnet.py:408-420 | the third loop equals the fallback specification |
| EpsilonSelector.RotationPoint | burn_code_stuff/burn_subnet.py:396-397 | `(my_index * remaining) % count` equals the specification's remainder |
| EpsilonSelector.SelectEpsilonUids | burn_code_stuff/burn_subnet.py:354-421 | the method's result is the `Epsilon` specification |
| EpsilonSelector.EpsilonSafety | burn_code_stuff/burn_subnet.py:355-420 | no uid twice, never the burn uid, at most max(min_allowed_weights − 1, 0) entries, this validator's uid first when there is room, only supply uids; empty when the minimum is ≤ 1 |
| EpsilonSelector.EpsilonFills | burn_code_stuff/burn_subnet.py:399-420 | given a usable candidate the list reaches the target or holds the whole supply |
| EpsilonSelector.EpsilonWithoutCandidates | burn_code_stuff/burn_subnet.py:393-394 | with no usable validator candidate the seed is returned and the fallback never runs: this validator as burn uid and sole permit holder, min_allowed_weights 3, gets no epsilon uid although uid 7 is available |
| EpsilonSelector.EpsilonLength | burn_code_stuff/burn_subnet.py:355-420 | given a usable candidate the length is exactly min(target, supply size) |
| EpsilonSelector.WalkTakesAll | burn_code_stuff/burn_subnet.py:399-406 | unless the target is met, the walk takes every ordered candidate |
| EpsilonSelector.RotationStartChosen | burn_code_stuff/burn_subnet.py:396-406 | the candidate at the rotation point is the first uid chosen after the seed unless it is this validator's own |
| EpsilonSelector.EpsilonExample | burn_code_stuff/burn_subnet.py:354-421 | stakes 50/30/10, this validator second, minimum 3: the result is [B, C] |
| Submission.SortedMechanismsCorrect | burn_code_stuff/burn_subnet.py:462 | the sort yields every id below the count once, larger share first, ties by ascending id |
| Submission.InsertMechanismOrdered | burn_code_stuff/burn_subnet.py:462 | stable insertion keeps that order |
| Submission.MechanismIdsCorrect | burn_code_stuff/burn_subnet.py:457-462 | the corrected choice calls every mechanism once in share order; it fails exactly when several mechanisms exceed the split |
| Submission.MechanismCountWitness | burn_code_stuff/burn_subnet.py:459 | with one mechanism the corrected choice is [0] while the code as written raises |
| Submission.MechanismOrderExample | burn_code_stuff/burn_subnet.py:462 | shares [10, 70, 20] give [1, 2, 0]; [30, 70, 30] keeps 0 before 2 |
| Submission.AnyAccepted | burn_code_stuff/burn_subnet.py:479 | `any_success` is true exactly when some call was accepted |
| Submission.SubmitWeights | burn_code_stuff/burn_subnet.py:454-481 | the loop calls the chosen mechanisms in order, a rejection not stopping later calls; the result is the submission outcome |
| Submission.SubmissionOutcomeCorrect | burn_code_stuff/burn_subnet.py:454-481 | a round calls every mechanism exactly once, largest share first, and succeeds exactly when one was accepted |
| Submission.SubmitWeightsAsWritten | burn_code_stuff/burn_subnet.py:459 | as written, the TypeError from `len()` escapes before any call |
| TaskManager.TaskMgr.constructor | misc/sn18/validators/task_manager.py:12-32 | both tables are independent `int()`-converted copies of the input, None entries kept |
| TaskManager.CoerceLeaves | misc/sn18/validators/task_manager.py:21-32 | the conversion keeps every key and None entry and truncates every value toward zero |
| TaskManager.TaskMgr.RestoreCapacitiesForAllMiners | misc/sn18/validators/task_manager.py:34-36 | the remaining table becomes the configured one |
| TaskManager.TaskMgr.GetRemainingBandwidth | misc/sn18/validators/task_manager.py:38-41 | the remaining value at (uid, provider, model); None when any level is missing, None or empty |
| TaskManager.TaskMgr.UpdateRemainCapacityBasedOnNewCapacity | misc/sn18/validators/task_manager.py:44-60 | the remaining table is rebased on the new one, and the configured table becomes a copy of the result |
| TaskManager.RebasedLeaf | misc/sn18/validators/task_manager.py:44-57 | per slot: an unseen slot gets the new capacity, a known one shifts by new − old, and an unmentioned one is kept |
| TaskManager.RebaseUids | misc/sn18/validators/task_manager.py:45-57 | the uid loop computes the rebased table |
| TaskManager.RebaseProviders | misc/sn18/validators/task_manager.py:48-57 | the provider loop rebases each provider with new models |
| TaskManager.RebaseModels | misc/sn18/validators/task_manager.py:49-57 | the model loop inserts or shifts each new model |
| TaskManager.SetExistingLeaf | misc/sn18/validators/task_manager.py:52 | setting an existing slot changes that value and nothing else |
| TaskManager.ScanUids | misc/sn18/validators/task_manager.py:78-86 | the uid loop reports whether a lookup fails and, if none does, exactly the uids with positive bandwidth |
| TaskManager.TaskMgr.ChooseMiner | misc/sn18/validators/task_manager.py:75-91 | fails unchanged when an entry lacks the provider; None unchanged when none is available; otherwise an available uid whose slot drops by one |
| TaskManager.TaskMgr.AssignTask | misc/sn18/validators/task_manager.py:62-69 | None exactly when some uid entry lacks the provider or no uid has bandwidth left, and then nothing changes; otherwise an available uid whose slot drops by one |
| TaskManager.TakeOneSlot | misc/sn18/validators/task_manager.py:90 | taking one query lowers exactly that slot by one to a non-negative value |
| ProcessArgs.Lookup | manual_weights/manual_weights_setter/ensure_set_weights_starter.py:70 | `hasattr`/`getattr`: a value exactly when the namespace has a field of that name |
| ProcessArgs.SetAttr | manual_weights/manual_weights_setter/ensure_set_weights_starter.py:101-104 | `setattr`: an existing field keeps its place, a new one goes last |
| ProcessArgs.SetAttrLookup | manual_weights/manual_weights_setter/ensure_set_weights_starter.py:101-104 | the new value is read back, and every other attribute is unchanged |
| ProcessArgs.SortIntsCorrect | manual_weights/manual_weights_setter/ensure_set_weights_starter.py:88 | `sorted()` is an ascending permutation |
| ProcessArgs.RemoveFirstCount | manual_weights/manual_weights_setter/ensure_set_weights_starter.py:83 | `list.remove` drops exactly one copy |
| ProcessArgs.AddNetuidsCount | manual_weights/manual_weights_setter/ensure_set_weights_starter.py:74-78 | `--add` appends only absent netuids, once |
| ProcessArgs.RemoveNetuidsCount | manual_weights/manual_weights_setter/ensure_set_weights_starter.py:81-85 | `--remove` drops one occurrence per mention, never below zero |
| ProcessArgs.EditedNetuidsCorrect | manual_weights/manual_weights_setter/ensure_set_weights_starter.py:70-88 | the result is sorted and a permutation of the edited list; no duplicates when there were none; a removed netuid is absent even if also added |
| ProcessArgs.MergeExtrasKeeps | manual_weights/manual_weights_setter/ensure_set_weights_starter.py:97-104 | the merge keeps names distinct and never touches netuids |
| ProcessArgs.MergeExtrasLookup | manual_weights/manual_weights_setter/ensure_set_weights_starter.py:97-104 | an attribute takes the override's value when it replaces (non-None, not netuids; discord_notify only when False), else keeps its value |
| ProcessArgs.SetAttrTwice | manual_weights/manual_weights_setter/ensure_set_weights_starter.py:97-104 | setting one name twice: the second value wins, in the first one's place |
| ProcessArgs.UpdatedArgsCorrect | manual_weights/manual_weights_setter/ensure_set_weights_starter.py:66-104 | the updated namespace is well formed, its netuids are the edited ones, and every other attribute merges as above |
| ProcessArgs.Dashed | manual_weights/manual_weights_setter/ensure_set_weights_starter.py:140 | the option name has the argument name's length and no '_' left |
| ProcessArgs.NatToStringRoundTrip | manual_weights/manual_weights_setter/ensure_set_weights_starter.py:142 | the decimal text of a natural number parses back to it |
| ProcessArgs.IntToStringRoundTrip | manual_weights/manual_weights_setter/ensure_set_weights_starter.py:142 | `int(str(i)) == i` for every netuid |
| ProcessArgs.StartCommandNetuids | manual_weights/manual_weights_setter/ensure_set_weights_starter.py:127-145 | the command is the fixed pm2 prefix, then `--netuids` and each netuid's text, which reads back as that netuid |
| ProcessArgs.SilentFields | manual_weights/manual_weights_setter/ensure_set_weights_starter.py:131-138 | a None field and discord_notify True add nothing; False adds only `--skip-discord-notify` |
| ProcessArgs.Basename | manual_weights/manual_weights_setter/ensure_set_weights_starter.py:51-52 | `os.path.basename`: the text after the last '/' |
| ProcessArgs.BasenameIff | manual_weights/manual_weights_setter/ensure_set_weights_starter.py:51-54 | for a name without '/', the basename test is the suffix-after-'/' test |
| ProcessArgs.FirstMatch | manual_weights/manual_weights_setter/ensure_set_weights_starter.py:48-64 | the first process running the script, if any |
| ProcessArgs.EnsureSetWeightsStarter.constructor | manual_weights/manual_weights_setter/ensure_set_weights_starter.py:16-26 | an empty namespace and no existing process |
| ProcessArgs.EnsureSetWeightsStarter.FindExistingProcess | manual_weights/manual_weights_setter/ensure_set_weights_starter.py:41-64 | the first matching process becomes the existing one, its args the namespace; otherwise nothing changes |
| ProcessArgs.EnsureSetWeightsStarter.RunsStarter | manual_weights/manual_weights_setter/ensure_set_weights_starter.py:51-54 | true exactly when the script's basename is `ensure_set_weights` |
| ProcessArgs.EnsureSetWeightsStarter.UpdateProcessArgs | manual_weights/manual_weights_setter/ensure_set_weights_starter.py:66-104 | the namespace becomes the updated arguments |
| ProcessArgs.EnsureSetWeightsStarter.BuildStartCommand | manual_weights/manual_weights_setter/ensure_set_weights_starter.py:127-145 | the argv loop yields the start command |
| ProcessArgs.EnsureSetWeightsStarter.FieldWords | manual_weights/manual_weights_setter/ensure_set_weights_starter.py:131-145 | one field's words as the start command specification gives them |
| ProcessArgs.EnsureSetWeightsStarter.RestartProcess | manual_weights/manual_weights_setter/ensure_set_weights_starter.py:106-145 | an existing process is deleted first and a failed delete stops; no netuids starts nothing; otherwise the start command runs |
| ScoreSync.FirstFailure | misc/sn31/src/base/validator.py:376-378 | the first uid at which the zeroing loop raises IndexError, if any |
| ScoreSync.ResyncCorrect | misc/sn31/src/base/validator.py:375-392 | replaced uids score 0; kept uids keep their score; growth gives n entries, the prefix copied, then zeros; hotkeys become the metagraph's |
| ScoreSync.ResyncFailure | misc/sn31/src/base/validator.py:376-378 | no IndexError while every remembered uid has a hotkey and a score; one when the metagraph lost a uid |
| ScoreSync.ZeroReplacedHotkeys | misc/sn31/src/base/validator.py:376-378 | the in-place loop zeroes each replaced uid, or stops at the first uid that raises |
| ScoreSync.GrowScores | misc/sn31/src/base/validator.py:382-389 | a fresh zero array of n entries with the first min(old count, scores) entries copied |
| ScoreSync.Zeros | misc/sn31/src/base/validator.py:411 | `zeros_like`: n zeros |
| ScoreSync.Scatter | misc/sn31/src/base/validator.py:412-414 | `scatter` keeps the array's length (what lands where is stated by ScatterCorrect) |
| ScoreSync.ScatterCorrect | misc/sn31/src/base/validator.py:412-414 | with distinct uids each uid receives its reward, every other position keeps the base |
| ScoreSync.ScatteredScoresCorrect | misc/sn31/src/base/validator.py:411-414 | the length stays, each uid's score is its reward, every other score is 0; a rejected index leaves all zeros |
| ScoreSync.RunFlagsCorrect | misc/sn31/src/base/validator.py:246-297 | starting runs with should_exit clear, stopping stops with it set; both idempotent and consistent |
| Sn31Validator.BaseValidatorNeuron.constructor | misc/sn31/src/base/validator.py:53-87 | the metagraph's hotkeys, a zero score per uid, both flags false |
| Sn31Validator.BaseValidatorNeuron.ResyncMetagraph | misc/sn31/src/base/validator.py:358-392 | unchanged exactly when the axons are equal; otherwise the state is the resync specification |
| Sn31Validator.BaseValidatorNeuron.UpdateScores | misc/sn31/src/base/validator.py:394-414 | a fresh array of the same length holding the scattered rewards over zeros |
| Sn31Validator.BaseValidatorNeuron.RunInBackgroundThread | misc/sn31/src/base/validator.py:246-257 | only a stopped validator starts |
| Sn31Validator.BaseValidatorNeuron.StopRunThread | misc/sn31/src/base/validator.py:259-271 | only a running validator stops |
| Sn31Validator.BaseValidatorNeuron.Exit | misc/sn31/src/base/validator.py:277-297 | the same guarded stop |
| Sn5Validator.BaseValidatorNeuron.constructor | misc/sn5/openkaito/base/validator.py:40-70 | without a saved state, the metagraph's hotkeys and a zero score per uid; with one, load_state's scores and hotkeys (the scores' length unconstrained); both flags false |
| Sn5Validator.BaseValidatorNeuron.ResyncMetagraph | misc/sn5/openkaito/base/validator.py:292-327 | unchanged exactly when the axons and the hotkeys are both equal; otherwise the resync specification |
| Sn5Validator.BaseValidatorNeuron.RunInBackgroundThread | misc/sn5/openkaito/base/validator.py:156-167 | only a stopped validator starts |
| Sn5Validator.BaseValidatorNeuron.StopRunThread | misc/sn5/openkaito/base/validator.py:169-178 | only a running validator stops |
| Sn5Validator.BaseValidatorNeuron.Exit | misc/sn5/openkaito/base/validator.py:184-201 | the same guarded stop |
| Sn18WeightSetter.BlocksTilEpoch | misc/sn18/validators/weight_setter.py:159-160 | the countdown lies in [0, tempo] |
| Sn18WeightSetter.BlocksTilEpochStep | misc/sn18/validators/weight_setter.py:159-160 | it drops by one per block and restarts at tempo after 0; 0 exactly when (block + 20) mod (tempo + 1) = 0 |
| Sn18WeightSetter.BlocksTilEpochPeriodic | misc/sn18/validators/weight_setter.py:159-160 | it repeats every tempo + 1 blocks |
| Sn18WeightSetter.BlocksTilEpochAfter | misc/sn18/validators/weight_setter.py:159-160 | within an epoch it drops by exactly the blocks elapsed |
| Sn18WeightSetter.EpochBoundaryWithinTen | misc/sn18/validators/weight_setter.py:166 | a countdown below 10 means a boundary within the next 10 blocks, and conversely |
| Sn18WeightSetter.IsEpochEndCorrect | misc/sn18/validators/weight_setter.py:162-168 | due after two tempos without an update; otherwise exactly when a boundary is within 10 blocks and the rate limit passed |
| Sn18WeightSetter.WeightSetter.IsCycleEnd | misc/sn18/validators/weight_setter.py:243-254 | the block is remembered; the cycle ends exactly when it reaches the next block to wait for |
| Sn18WeightSetter.BaseBlacklistCorrect | misc/sn18/validators/weight_setter.py:418-429 | rejected exactly when the hotkey is neither its own nor whitelisted; the reason starts with "rejecting"/"accepting"; None without dendrite info |
| Sn18WeightSetter.PopCorrect | misc/sn18/validators/weight_setter.py:300-316 | a partition keeping order, every task once; at most 50 per uid; at most 3001; the first task batched, so the remainder is shorter |
| Sn18WeightSetter.KeptSplit | misc/sn18/validators/weight_setter.py:306-316 | batched and remaining tasks together are the tasks, as a multiset |
| Sn18WeightSetter.PopPrefix | misc/sn18/validators/weight_setter.py:306-316 | the decisions for a prefix are those of the whole list: each task is decided by the tasks before it |
| Sn18WeightSetter.PopFirst | misc/sn18/validators/weight_setter.py:307-312 | the first task is always batched |
| Sn18WeightSetter.PopDecision | misc/sn18/validators/weight_setter.py:307-316 | a task is batched exactly when fewer than 50 earlier tasks of its uid and at most 3000 earlier tasks were batched |
| Sn18WeightSetter.PopSyntheticTasks | misc/sn18/validators/weight_setter.py:300-316 | the dictionary-counting loop yields the batching specification |
| Sn18WeightSetter.DispatchBatches | misc/sn18/validators/weight_setter.py:274-282 | the loop ends; every batch holds 1 to 3001 tasks; every task's coroutine is dispatched exactly once |
| Sn30Scheduler.Countdown | misc/sn30/validator.py:65-68 | never negative; 0 exactly when the interval has elapsed; otherwise the blocks still missing |
| Sn30Scheduler.CountdownAgreesWithDue | misc/sn30/validator.py:121-138 | a due task shows 0, and a 0 countdown is due one block later at the latest; at exactly the interval it shows 0 and is not due |
| Sn30Scheduler.OrDefault | misc/sn30/validator.py:164-191 | an existing value is never overwritten; a missing one gets the default |
| Sn30Scheduler.PadScores | misc/sn30/validator.py:258-271 | length max(n, current), existing prefix kept, zeros after |
| Sn30Scheduler.PadScoresIdempotent | misc/sn30/validator.py:258-271 | padding again changes nothing, and every score is kept |
| Sn30Scheduler.FilteredScores | misc/sn30/validator.py:250-271 | None exactly when the scores and the re-initialised scores are both missing; otherwise the existing scores (else the re-initialised ones) padded to the uid count |
| Sn30Scheduler.BettensorValidator.DueAt | misc/sn30/validator.py:137 | weights are due exactly when strictly more than their interval has elapsed |
| Sn30Scheduler.BettensorValidator.CountdownsAt | misc/sn30/validator.py:65-68 | the four countdowns of the status log are never negative |
| Sn30Scheduler.BettensorValidator.Initialize | misc/sn30/validator.py:152-191 | first-run stamps (301/11/16/51/301 back); defaults only for missing attributes; a first run makes update, upload, scoring and weights due |
| Sn30Scheduler.BettensorValidator.SeedFirstRun | misc/sn30/validator.py:156-162 | the five stamps when the last updated block is not truthy |
| Sn30Scheduler.BettensorValidator.DefaultIntervals | misc/sn30/validator.py:164-178 | intervals 10/25/15/50/300 only where missing |
| Sn30Scheduler.BettensorValidator.DefaultStamps | misc/sn30/validator.py:180-191 | stamps 10/15/50/300 back only where missing |
| Sn30Scheduler.BettensorValidator.UpdateGameData | misc/sn30/validator.py:194-222 | the first call looks back 15 days; a fetch that does not raise moves the API time to now; the block is stamped regardless |
| Sn30Scheduler.BettensorValidator.QueryAndProcessAxons | misc/sn30/validator.py:287-324 | stamps its block; with game data the scores become FilteredScores, and it raises exactly when they stay missing; without game data the scores are kept |
| Sn30Scheduler.BettensorValidator.SendDataToWebsite | misc/sn30/validator.py:375-380 | stamps its block |
| Sn30Scheduler.BettensorValidator.ScoringRun | misc/sn30/validator.py:394-456 | stamps its block; the scores become the scoring result when there is one and are kept when the scoring raised |
| Sn30Scheduler.BettensorValidator.SetWeights | misc/sn30/validator.py:461-501 | success stamps the block; failure stamps block − 250; then the last updated block; without a subtensor it raises and stamps nothing |
| Sn30Scheduler.BettensorValidator.FilterAndUpdateAxons | misc/sn30/validator.py:246-271 | missing scores re-initialised; still missing returns nothing; otherwise padded to the uid count |
| Sn30Scheduler.BettensorValidator.RunIteration | misc/sn30/validator.py:121-138 | each due task runs in order; it raises exactly when the query leaves the scores missing or a weight set finds no subtensor, and a raising query stops the later tasks; the query, upload and scoring tasks stamp the block; the weight task stamps the block on success and block - 250 otherwise; the last updated block moves when the update or a weight set ran; the API time moves only when the update ran; the scores are the query's filtered scores, then the scoring result; tasks that did not run keep their stamps; afterwards nothing is due again at the same block |
| Sn30Scheduler.BettensorValidator.RunLaterTasks | misc/sn30/validator.py:127-137 | the upload, scoring and weight tasks, each stamping as above when due, with the scores replaced only by a scoring result |
| Sn30Scheduler.WeightRetryBackoff | misc/sn30/validator.py:488-495 | after a failure the next attempt is due once more than 50 blocks have passed; after a success, more than 300 |

## Left out

- Chain and wallet I/O is not modelled. This covers subtensor queries, `set_weights` extrinsics, `Wallet`, the metagraph sync and `fetch_neurons`. Their answers are parameters.
- Each chain read is taken as one block value per operation. Two reads of `subtensor.block` within one sn30 function are assumed to agree.
- Process execution is left out: the multiprocessing isolation of `run_in_subprocess`, pm2 and `subprocess`, the JSON parsing of `pm2 jlist`, and `_save_pm2`. The outcomes are parameters: the process list and whether the delete succeeded.
- Threads, asyncio and `time.sleep` are left out. Only the run-thread flags are modelled, because the thread bodies are concurrency. The sn30 upload thread is treated as running before the next check.
- `__enter__` is not modelled separately. It only calls `run_in_background_thread`.
- Randomness is replaced by inputs:
  - the endpoint index from `random.randint` is an arbitrary constructor argument;
  - `random.choice` in `choose_miner` is any available uid;
  - `random.shuffle` in sn18 is the input order of the tasks.
- Floating-point numerics are left out. This covers NaN handling in `update_scores`, the sn18 `tempo / 10` cycle step, the sn30 alpha decay in `scoring_run`, and weight normalisation. Scores and stakes are `real`.
- Sn18WeightSetter.WeightSetter.IsCycleEnd: does not model the `LastUpdate` query and log at lines 246-250. They only log.
- Argument parsing with argparse is left out. The parsed namespace is an input, and override fields arrive already parsed.
- `validators.utils.update_nested_dict` and `error_handler` are not part of this model. The first is assumed to create missing levels, replacing a None level. The second is assumed to log and return None.
- The metagraph's `n` is assumed equal to its number of hotkeys. The sn5 `scores` shape `metagraph.S.shape` is taken as that count.
- `torch.scatter` with repeated uids is modelled as "the later write wins". Torch leaves that case unspecified.
- ScoreSync.ScatterValid: checks only the index bounds and the reward count. Torch's other rejections are not modelled, such as an index tensor of the wrong dtype or rank, or a reward tensor of another dtype.
- BurnTarget.OwnerColdkey (and BurnTarget.OwnerNeurons): the source reads `coldkey or coldkey_ss58` and `hotkey or hotkey_ss58` (burn_subnet.py:262, 272, 278). An empty string therefore counts as absent and falls through to the `_ss58` attribute. The model's neuron has one optional coldkey and one optional hotkey, and treats only None as absent.
- Sn31Validator.BaseValidatorNeuron.UpdateScores: with an empty `uids` list, `torch.tensor([])` is a float tensor, so `scatter` raises. The model treats that call as valid and returns all-zero scores.
- BurnScheduler.RunBurnCode: states the round of the corrected program. It resolves the burn uid with the corrected `GetBurnUid` and chooses the mechanisms with the corrected `MechanismIds`. As written, every round that reaches `submit_weights` raises TypeError at burn_subnet.py:459 (`Submission.SubmitWeightsAsWritten`). A uid-less owner neuron found through the subnet info raises UnboundLocalError at :306 (`BurnTarget.UnboundOwnerUidWitness`).
- Sn5Validator.BaseValidatorNeuron.constructor: the `step` counter that load_state also restores is not modelled. The `sync()` that `__init__` ends with (in sn5 and sn31 alike) is a separate `ResyncMetagraph` call in the model.
- `base_blacklist` callers that index its None result are not modelled.
- sn30 `perform_update`, `get_uids_to_query`, the queries and response processing, and the website upload are left out. Only their block stamps and the query's score filtering are modelled.
- Sn30Scheduler.BettensorValidator.ScoringRun: the scoring system and the alpha decay of blacklisted and unqueried uids are floating-point work, so their result is the input `scored`. A failure part-way through the decay loops, which leaves some uids decayed, is folded into that input.
- Sn30Scheduler.BettensorValidator.QueryAndProcessAxons: whether game data and a synapse exist is the input `hasGameData`, and what `init_default_scores` leaves is the input `defaultScores`.
- Sn30Scheduler.BettensorValidator.Initialize: `hasattr` on `last_updated_block` is assumed true. `serve_axon` and `initialize_connection` are left out.
- Sn30Scheduler.BettensorValidator.UpdateGameData: the API time is an integer seconds value, not a datetime.

## Findings

| source | as written | input that shows it | evidently intended | confidence | as-written member | corrected member |
|---|---|---|---|---|---|---|
| burn_code_stuff/burn_subnet.py:303-306 | when the owner coldkey comes from the subnet info, `sn_owner_uid` is never assigned, so a burn candidate without a uid raises UnboundLocalError | one neuron with uid None, coldkey "ck"; subnet owner "ck" | fall back to the owner-hotkey uid, as the log message says | high; not executed | BurnTarget.UnboundOwnerUidWitness | BurnTarget.GetBurnUid |
| burn_code_stuff/burn_subnet.py:459 | `len(mech_count)` applies `len` to the integer mechanism count, which raises TypeError before any weights are submitted | mechanism count 1, split [100] | `mech_count == 1` | high; not executed | Submission.SubmitWeightsAsWritten | Submission.MechanismIdsCorrect |

