# Verified model of the darktable agent bridge and four darktable algorithms

This project models, in Dafny, the logic of a server that lets a language-model planner edit a darktable
image while it plans, and four index or arithmetic algorithms of darktable itself. It proves what each
operation computes and what holds over every run.

**The live-edit engine** (`Settings`, `WhiteBalance`, `OperationIds`, `Binder`, `Guardrails`, `LiveTurn`).
A turn owns a map of controls. The control objects are shared with the payload shown to the planner, so an
edit made through the map is seen through the payload; `LiveTurn` keeps them as heap objects for this reason.
A batch of operations is normalised (raw form) or bound (canonical actions), reordered, tried on a deep copy,
committed step by step, and finally turned into a plan with fresh ids and sequence numbers. `Settings` gives
the meaning of a sequence of operations as a function (`Run`); everything else is stated against it.

**The request and turn protocol** (`RequestState`, `TurnProtocol`, `RenderHandoff`). Planning threads,
cancellations and render deliveries interleave. `RequestState` has one function for each critical section and a
class that performs it on objects; `TurnProtocol` interleaves those functions with the program counters of the
planning threads; `RenderHandoff` goes down to single field writes for the preview slot. The theorems are about
every legal sequence of events from the initial state.

**darktable algorithms.** `HolderRing`: the three slide holders of the gallery, with the holder objects and the
items' container elements. `ThinPlate`: greedy column selection for a sparse spline fit, with the solver as an
oracle. `ChartLabels`: the in-place successor of a C string and the labels of a chart axis. `Gamut` and
`ColorModels`: chroma clipping and colour-model round trips over the reals. `Rebin` (from the server): histogram
rebinning.

Methods and the larger theorems speak through specification functions such as `Run`, `Ordered`, `Bound` or
`Register`. What those functions mean is stated beside them over the inputs alone: which edits are accepted and where
they land, in terms of the controls of the request (`AcceptedIff`, `EditLands`); the order of white-balance edits by
position (`OrderedInOrder`); what each canonical action does to controls found by literal paths (`ExposureLands` to
`CropLandsOnItsAxes`); which calls pass (`LiveDecision`); what a cancelled thread may still do (`CancelledInTime` to
`CancelledThreadEndsSoon`).

`StableSort`, `Counting`, `Text` and `Wrappers` hold what several modules need: a stable sort restricted to
slots, the size of subsets, decimal numerals and string order, option and result types.

Where the code does not do what one might expect, the project says so by a proved example or an exact condition:

- An id that is unique in its batch can still be renamed, when a renamed duplicate took it (`UniqueIdMayBeRenamed`);
  an id is kept exactly when it is non-empty and not taken by an earlier output (`IdKeptIff`), and all ids of a
  batch are exactly when they are non-empty and distinct (`AllIdsKeptIff`).
- When setting ids repeat, only the last payload entry follows the edits (`PayloadAgrees`, an equivalence).
- The final plan replays to the live settings exactly when something was applied or the plan changes nothing
  (`FinalizePlan`); a live turn that applied nothing may return a plan that does (`UnappliedPlanMayDiffer`).
- A relative edit of a control that only offers "set" is computed from the snapshot, not from the live value, so
  two of them do not add up (`SetOnlyRelativeEditsDoNotAccumulate`).
- Request validation does not make setting ids unique. A bound operation is accepted exactly when the last control
  with its id has the path, kind, mode and choice of the control that was found (`BinderIsSound`, over the requests
  of the actions); with repeated ids it may be refused (`RepeatedIdMayBeRefused`). With unique ids only crops can be
  refused, exactly when a control found for an axis does not support "set" (`UniqueIdsAreAccepted`,
  `DeltaOnlyCropIsRefused`). A box that starts at the far edge and has no padding gives an empty crop (`BoxCropExtent`).
- A cancel reaches a planning request exactly as long as no other request arrived with its id and no holder of its id
  has left (`CancelReachesUnlessDisplaced`). So re-use of an id cuts off the first holder (`ReusedIdLosesCancel`), and
  once that one leaves the second (`LeavingHolderLosesCancel`); with ids that are not active at arrival every cancel
  arrives (`FreshIdsMakeCancelReliable`).
- A render delivery that began during one edit step can serve a later one (`LateDeliveryMayServeNextStep`), exactly
  when a step cleared the slot while the delivery was under way (`AdoptedServesItsStepIff`).
- In the gallery, a jump during a pending swipe, or a re-rendering resize during one, breaks the ring
  invariant; every other operation keeps it (`GoTo`, `UpdateSize`, `JumpDuringSwipe`, `ResizeDuringSwipe`).
- The greedy selection repeats a column exactly when no column is useful any more and column 0 is already taken
  (`RepeatsOnlyColumnZero`, `ColumnZeroMayRepeat`).
- Clipping forgets: relative edits add up while no partial sum leaves the range, and in one direction they clip once
  (`DeltasAddUpIff`, `OneSidedDeltasClipOnce`, `ClippingForgets`).
- A label whose counted-up byte is 255 gets shorter (`SuccessorIsLater`). An axis whose first label starts with a byte
  above 'z' and whose last label does not is enumerated for ever, exactly then (`EndsIffStartable`), as from "{" to "aa"
  (`BraceNeverEnds`); if the last label starts with such a byte too, it ends exactly when it is met
  (`UnstartableEndsIff`). A digit axis whose last label is longer than the first and starts with a zero never reaches
  it (`DigitAxisEndsWell`).
- Two boxes can share a name, exactly when a part of it can belong to either axis (`SameNameIff`,
  `ChartNamesDifferIff`, `DigitAxesMayCollide`). Labels of one length on either axis exclude it
  (`ChartNamesAreDistinct`); equally long first and last labels give one length unless bytes above 'z' occur
  (`EqualEndsGiveOneLength`, `HighByteShortens`). darktable notices afterwards: it rejects a chart whose tables hold
  fewer boxes than declared (darktable/src/chart/colorchart.c:376).

To verify all modules together: `dafny verify dfyconfig.toml`.

## Model

| member | source | states |
|---|---|---|
| Settings.RunSucceedsIff | server/codex_bridge/operations.py:456-585 | a sequence of operations runs to its end exactly when each is acceptable to the initial controls, because no operation changes a field that acceptance looks at |
| Settings.RunPointwise | server/codex_bridge/operations.py:456-585 | a successful run acts on each control by the operations aimed at it alone, so edits of different controls commute |
| Settings.SameOutcome | server/codex_bridge/operations.py:392-409 | two batches that agree control by control are both refused or give the same settings |
| Settings.RunSameEdits | server/codex_bridge/operations.py:456-585 | operation ids and sequence numbers have no influence on what a run does |
| Settings.LastEditShows | server/codex_bridge/operations.py:495-585 | after a successful run every control shows the last edit aimed at it: the clamped number, the choice with its own (and the requested) choice id, or the flag |
| Settings.DeltasAddUp | server/codex_bridge/operations.py:500-520 | relative edits of a control with a range add up as long as no partial sum leaves it |
| Settings.DeltasAddUpIff | server/codex_bridge/operations.py:500-520 | the value is the partial sum after every edit exactly when no partial sum leaves the range |
| Settings.OneSidedDeltasClipOnce | server/codex_bridge/operations.py:500-520 | relative edits in one direction lose exactly what exceeds the limit: from a value in range they together clip once; from any other the first one enters the range and the others together clip once |
| Settings.ClippingForgets | server/codex_bridge/operations.py:500-520 | up and down again against a limit does not return to the start |
| Settings.OtherFieldsAreKept | server/codex_bridge/operations.py:495-585 | no edit touches the current value of another kind |
| Settings.EditedFloatsAreInBounds | server/codex_bridge/operations.py:505-520 | after any run every edited float control with a valid range is inside it, whatever values were asked for |
| Settings.SnapshotIsLast | server/codex_bridge/prompting.py:79-96 | the map knows exactly the ids of the request's controls, and under each the compact form of the last control that has it |
| Settings.ChoiceMappingHas | server/codex_bridge/operations.py:338-351 | with distinct choice values every offered choice is in the mapping under its own id |
| Settings.AcceptedIff | server/codex_bridge/operations.py:471-558 | on a validated snapshot and in any later state of its controls an operation from any source is accepted exactly when the last control with its id has its path and kind, supports the mode of a number, and for a choice offers the value under the id asked for, or under any if none is |
| Settings.BatchAcceptedIff | server/codex_bridge/operations.py:54-73 | a batch runs exactly when that holds of each of its operations |
| Settings.RefusedBecause | server/codex_bridge/operations.py:471-555 | an operation that is refused is refused for the first that applies of unknown id, other path, other kind, unsupported mode, value not offered, other choice id |
| Settings.EditLands | server/codex_bridge/operations.py:496-583 | an accepted operation changes the current value of its own control and nothing else: to the number of the range nearest to the one asked for, the value with the id it is offered under, or the flag |
| Settings.StartsWithCurrentValues | server/codex_bridge/prompting.py:79-96 | a turn starts with the current value of the last control with each id |
| WhiteBalance.OrderedShape | server/codex_bridge/operations.py:392-409 | the reordered batch is a permutation; other operations keep their index; white-balance slots stay white balance and are sorted by the rank comparison, whose meaning OrderedInOrder states |
| WhiteBalance.OrderedInOrder | server/codex_bridge/operations.py:360-409 | of any two white-balance operations of the result the earlier one is a flag if the later is, is not a number if the later is a choice, and of two numbers comes in the order finetune, temperature, tint, red, green, blue, emerald, yellow or various, all others; equals in leaf order |
| WhiteBalance.RankIsTotalPreorder | server/codex_bridge/operations.py:360-390 | the rank with its leaf as tie-break is a total preorder, so sorting by it is well defined |
| WhiteBalance.AcceptableKeepsEachControl | server/codex_bridge/operations.py:360-409 | in an acceptable batch the operations of each control keep their order, since they share a rank and the sort is stable |
| WhiteBalance.OrderingPreservesMeaning | server/codex_bridge/operations.py:360-409 | for every batch the reordered one is accepted exactly when the original is, and then leaves the same settings |
| WhiteBalance.OrderOperationsForApply | server/codex_bridge/operations.py:392-409 | the loop permutes the batch, leaves operations under other paths than iop/temperature/ at their positions, and puts the others in that order, position by position |
| StableSort.SortStable | server/codex_bridge/operations.py:405-408 | sorting keeps the relative order of any class of elements that are mutually ordered both ways |
| StableSort.SortInSlots | server/codex_bridge/operations.py:395-409 | writing the sorted selection back into the slots it came from, by a loop over the slots |
| OperationIds.NormalizedIsSound | server/codex_bridge/canonical_binder.py:79-100 | for every list: distinct non-empty ids, sequences 1..n, same edits in the same order |
| OperationIds.IdKeptIff | server/codex_bridge/canonical_binder.py:85-95 | an id survives exactly when it is non-empty and no earlier output operation has it |
| OperationIds.AllIdsKeptIff | server/codex_bridge/canonical_binder.py:85-95 | all ids of a list survive exactly when they are non-empty and pairwise distinct |
| OperationIds.DistinctIdsAreKept | server/codex_bridge/canonical_binder.py:85-95 | a list with distinct non-empty ids keeps them all |
| OperationIds.AssignedId | server/codex_bridge/canonical_binder.py:85-97 | each operation gets its own id, or without one the prefix and its position, or if that is taken the first of the variants -2, -3, ... that is not |
| OperationIds.NormalizationIsIdempotent | server/codex_bridge/canonical_binder.py:79-100 | normalising twice is normalising once |
| OperationIds.UniqueIdMayBeRenamed | server/codex_bridge/canonical_binder.py:88-95 | the ids a, a, a-2: the unique third one is renamed |
| OperationIds.NormalizedPassesValidator | shared/protocol.py:417-425 | the result always passes the plan's check that ids and sequences are unique |
| OperationIds.TriedBound | server/codex_bridge/canonical_binder.py:90-93 | names tried are pairwise distinct, so no more of them can be taken than there are seen ids: the renaming loop ends |
| OperationIds.FindFree | server/codex_bridge/canonical_binder.py:90-94 | the renaming loop ends, with the first name not yet taken |
| OperationIds.NormalizeOperationsWithUniqueIds | server/codex_bridge/canonical_binder.py:79-100 | the loop over the operations, with the renaming loop `FindFree` inside, computes the normalised list |
| Binder.FindSettingIsBest | server/codex_bridge/canonical_binder.py:421-458 | nothing is found exactly when there is no candidate; otherwise a candidate that no other precedes by score and then module, path and id |
| Binder.FindSettingIgnoresOrder | server/codex_bridge/canonical_binder.py:421-458 | with unique setting ids the result is the same for every ordering of the list |
| Binder.ExactPathWins | server/codex_bridge/canonical_binder.py:433-446 | with at most two keywords per list an exact action path beats every other candidate |
| Binder.FindSettingBreaksTies | server/codex_bridge/canonical_binder.py:448-458 | among candidates with the best score the first by module id, action path and setting id is found |
| Binder.ScoreOrder | server/codex_bridge/canonical_binder.py:436-446 | which of two candidates scores higher by the difference of their module, path and label hits alone, with the only ties |
| Binder.CandidatesAre | server/codex_bridge/canonical_binder.py:125-225 | exactly which controls can serve an exposure, preset, temperature, tint, highlight or rotation request, by path, module and words |
| Binder.GradeCandidatesAre | server/codex_bridge/canonical_binder.py:264-312 | likewise for the four grading targets |
| Binder.ChannelCandidatesAre | server/codex_bridge/canonical_binder.py:232-261 | likewise for a noise channel and a crop axis |
| Binder.FindSettingLoop | server/codex_bridge/canonical_binder.py:421-458 | the scoring loop and sort compute that result |
| Binder.BindCanonicalActions | server/codex_bridge/canonical_binder.py:62-76 | the loop over the actions binds their requests in order, followed by id normalisation |
| Binder.FloatAccepted | server/codex_bridge/canonical_binder.py:461-490 | a number aimed at any control of a validated snapshot is accepted exactly when the last control with its id has the same path and kind and offers the mode |
| Binder.ChoiceAccepted | server/codex_bridge/canonical_binder.py:493-522 | a choice likewise, and exactly when that last control offers the same value under the same choice id |
| Binder.BinderIsSound | server/codex_bridge/canonical_binder.py:62-76 | on a validated snapshot, in any later state of its controls, the bound batch is accepted exactly when every request of its actions meets the snapshot; setting ids may repeat |
| Binder.UniqueIdsAreAccepted | server/codex_bridge/canonical_binder.py:392-414 | with unique setting ids: accepted exactly when there is no crop, or every crop axis that has a control has one that supports "set" |
| Binder.RepeatedIdMayBeRefused | server/codex_bridge/canonical_binder.py:125-141 | a validated snapshot with two controls of one id on which an exposure edit is refused |
| Binder.DeltaOnlyCropIsRefused | server/codex_bridge/canonical_binder.py:392-414 | a validated snapshot with unique ids on which every crop is refused, its axis offering only "delta" |
| Binder.EveryRequestIsAnswered | server/codex_bridge/canonical_binder.py:103-122 | every control an action asks for yields exactly one operation or one failure note |
| Binder.NotesInOrder | server/codex_bridge/canonical_binder.py:62-76 | the notes of a list of actions are those of its parts, in order |
| Binder.NotesWithoutControls | server/codex_bridge/canonical_binder.py:125-414 | without any control every action yields no operation and its own notes, one for each control it asks for |
| Binder.RelativeEditLandsOnClampedSum | server/codex_bridge/canonical_binder.py:461-490 | applied alone to its snapshot a relative edit of the control the engine edits gives clamp(current + amount), in delta and in set mode |
| Binder.RelativeEditInLiveState | server/codex_bridge/canonical_binder.py:461-490 | for every control of a validated snapshot and every later state: when it is refused, and else what it gives, starting from the live value with "delta" and from the snapshot value without |
| Binder.SetOnlyRelativeEditsDoNotAccumulate | server/codex_bridge/canonical_binder.py:461-490 | two relative edits of a set-only control in one run: the first is lost |
| Binder.CropLandsOnItsAxes | server/codex_bridge/canonical_binder.py:341-414 | a crop in either form, with the four axis controls found by their two paths each: accepted exactly when the engine edits all four and lets them be set; then left, top, right and bottom edge land on cx, cy, cw and ch and nothing else changes; the edges of a box are those of the padded box cut off at the unit square |
| Binder.ExposureLands | server/codex_bridge/canonical_binder.py:125-141 | an exposure action, with its control found by its path, becomes one operation on it, is accepted exactly when the engine edits that control, and moves it by the stops asked for and nothing else |
| Binder.RotationLands | server/codex_bridge/canonical_binder.py:321-338 | a rotation likewise, by the angle |
| Binder.HighlightsLand | server/codex_bridge/canonical_binder.py:207-229 | recovering highlights likewise, by -0.25, -0.5 or -0.75 |
| Binder.GradeLands | server/codex_bridge/canonical_binder.py:264-318 | each grading target likewise, on its own control by the amount given |
| Binder.NoiseLands | server/codex_bridge/canonical_binder.py:232-261 | noise reduction on one channel likewise, on that channel's control by 0.1, 0.2 or 0.35 |
| Binder.BothNoisesLand | server/codex_bridge/canonical_binder.py:232-261 | noise reduction on both channels moves both controls by that amount and nothing else |
| Binder.WhiteBalanceLandsOnItsAxes | server/codex_bridge/canonical_binder.py:144-204 | any white-balance action, with the controls it needs found by their paths: accepted exactly when the engine edits each; then the preset becomes the named choice, temperature and tint move by their own amounts, and nothing else changes; a preset that is not offered is noted and left out |
| Binder.BoxCropExtent | server/codex_bridge/canonical_binder.py:362-389 | a box crop stays in the unit square, contains the visible box, and has extent along an axis exactly when the box starts before the far edge or is padded |
| Binder.BoxEdges | server/codex_bridge/canonical_binder.py:362-389 | the two-stage clamping gives the edges of the padded box cut off at the unit square |
| Guardrails.BudgetHolds | server/codex_bridge/tool_routing.py:339-341 | a call that passes is among the first maxToolCalls calls |
| Guardrails.PassesWithinBudget | server/codex_bridge/tool_routing.py:336-372 | over every sequence of calls the number that pass never exceeds the budget |
| Guardrails.EarlyApplyIsForced | server/codex_bridge/tool_routing.py:343-352 | live: before the first applied edit a passing call other than apply is among the first configured number of calls |
| Guardrails.ReadOnlyStreakIsBounded | server/codex_bridge/tool_routing.py:354-372 | live: in any stretch where only read-only calls pass, with any refusals in between, at most the configured number pass |
| Guardrails.NoEditsOutsideLiveMode | server/codex_bridge/operations.py:26-29 | outside live mode no sequence of calls ever applies an operation |
| Guardrails.ApplyPassesIff | server/codex_bridge/tool_routing.py:336-372 | an apply call passes exactly when it is within the budget, whatever came before |
| Guardrails.ReadOnlyPassesIff | server/codex_bridge/tool_routing.py:354-372 | live: after any passing call of another kind exactly the configured number of read-only calls pass, refused ones included in the count |
| Guardrails.BudgetOfATurn | server/codex_bridge/prompting.py:383-387 | with a turn's own budget: one call outside live mode; live, fifteen or three per pass, within which every apply call passes |
| Guardrails.LiveDecision | server/codex_bridge/tool_routing.py:328-372 | live: for every call of every sequence whether it passes and why not, in terms of the calls before it: budget, no edit yet, or the preview, state and playbook calls in a row |
| Guardrails.PlainDecision | server/codex_bridge/tool_routing.py:336-372 | outside live mode exactly the calls within the budget pass, whatever the tool |
| LiveTurn.BuildPayload | server/codex_bridge/prompting.py:75-96 | one fresh object per request setting, and a map onto those same objects |
| LiveTurn.ByIdPicksLast | server/codex_bridge/prompting.py:79-86 | a payload entry is the object the engine edits exactly when no later entry has its id |
| LiveTurn.ViewOfById | server/codex_bridge/prompting.py:75-96 | read through the objects, the map is the snapshot |
| LiveTurn.ApplyOperationToSettings | server/codex_bridge/operations.py:456-585 | the in-place update does what `Apply` says, and on an error changes nothing |
| LiveTurn.DeepCopy | server/codex_bridge/operations.py:60 | a copy with the same values in fresh, unshared objects |
| LiveTurn.Simulate | server/codex_bridge/operations.py:60-73 | reports the first refusal of the run on the live settings, without touching them |
| LiveTurn.NormalizeToolOperation | server/codex_bridge/operations.py:267-335 | accepted exactly when the entry's id is known or exactly one control has its path; it then has that target, the given sequence number, its own id or one from that number, and the edit it had |
| LiveTurn.RawEntry | server/codex_bridge/operations.py:267-335 | the specification function of an entry means just that |
| LiveTurn.RawBatch | server/codex_bridge/apply_batch.py:75-91 | a raw batch is prepared exactly when all entries resolve, in order and numbered from the next sequence number on |
| LiveTurn.PreparedBatch | server/codex_bridge/apply_batch.py:19-91 | what each form of an apply call stands for, and which error each faulty form gives |
| LiveTurn.PrepareApplyBatch | server/codex_bridge/apply_batch.py:19-91 | empty and mixed requests are refused; a canonical batch is bound against the base snapshot; a raw one is normalised entry by entry up to the first error |
| LiveTurn.TurnContext.constructor | server/codex_bridge/prompting.py:67-112 | registration establishes the turn invariant with the snapshot's values and an empty log |
| LiveTurn.TurnContext.PayloadAgrees | server/codex_bridge/prompting.py:79-96 | in every valid state a payload entry is the object the engine edits exactly when it is the last with its id; it then shows the live value, and an earlier one the snapshot value |
| LiveTurn.TurnContext.ApplyLiveOperationStep | server/codex_bridge/operations.py:151-174 | one step edits the settings and logs the operation, or changes nothing; log replay, sequence and revision stay consistent |
| LiveTurn.TurnContext.ApplyOperations | server/codex_bridge/operations.py:18-149 | all or nothing: applied exactly when the turn is live and the prepared batch runs in its given order; then the settings are those of that run and the log grows by the reordered batch; otherwise nothing changes and the error is the first one |
| LiveTurn.TurnContext.CommitStep | server/codex_bridge/operations.py:79-91 | the error branch of the commit loop is unreachable after the simulation |
| LiveTurn.TurnContext.Commit | server/codex_bridge/operations.py:79-114 | the committed steps amount to the run of the whole batch, with the replay invariant kept at every step |
| LiveTurn.TurnContext.RegisterToolCall | server/codex_bridge/tool_routing.py:336-372 | the counters in the context follow the guardrail state machine |
| LiveTurn.TurnContext.FinalizePlan | server/codex_bridge/prompting.py:122-175 | each merged operation in order with its own id, or one from its position, or the first free variant; distinct ids, sequences 1..n; replayed from the snapshot it gives the live settings exactly when something was applied or the plan changes nothing |
| LiveTurn.TurnContext.CanonicalCallRuns | server/codex_bridge/apply_batch.py:48-72 | in any state of a turn a canonical call that binds something runs exactly when every request meets the turn's snapshot; with unique setting ids and no crop always |
| LiveTurn.TurnContext.RawCallRuns | server/codex_bridge/operations.py:18-149 | in any state of a turn a call with operations can be prepared and runs exactly when each entry is for a control whose entry in the request allows the edit |
| LiveTurn.UnappliedPlanMayDiffer | server/codex_bridge/prompting.py:130-138 | a live turn with nothing applied whose finalised plan, replayed from the snapshot, does not give the live settings |
| RequestState.RegisterKeeps | server/codex_bridge/request_state.py:56-70 | registration keeps "event set exactly when the full key is recorded", taking up a cancel recorded earlier |
| RequestState.UnregisterKeeps | server/codex_bridge/request_state.py:72-76 | so does unregistering |
| RequestState.CancelKeeps | server/codex_bridge/request_state.py:78-107 | so does a cancel, for every key |
| RequestState.CancelDoes | server/codex_bridge/request_state.py:78-107 | a cancel is recorded under its key and sets event, reason and status of the active request with that full key, and of no other |
| RequestState.CancelIsRemembered | server/codex_bridge/request_state.py:56-107 | a request that arrives after a cancel of its key is cancelled from the start with that reason, or the standard one; under any other key it is not affected |
| RequestState.LeavingForgets | server/codex_bridge/request_state.py:72-76 | a request that leaves takes its entry and the recorded cancel of its own key with it, and no other |
| RequestState.StatusTouchesNothingElse | server/codex_bridge/request_state.py:208-225 | a status update sets the status of one request and raises its version by one; nothing else changes |
| RequestState.StatusKeeps | server/codex_bridge/request_state.py:208-225 | so it keeps the cancellation invariant |
| RequestState.Registry.RegisterRequest | server/codex_bridge/request_state.py:56-70 | the method performs the registration function on the objects |
| RequestState.Registry.UnregisterRequest | server/codex_bridge/request_state.py:72-76 | the method performs the unregistration function |
| RequestState.Registry.CancelRequest | server/codex_bridge/request_state.py:78-107 | the method performs the cancel function and reports whether the active request with the id has the full key |
| RequestState.Registry.SetActiveRequestStatus | server/codex_bridge/request_state.py:208-225 | the method performs the status function |
| RequestState.Registry.SetActiveRequestStatusForTurn | server/codex_bridge/request_state.py:227-247 | updates one active request that has both the thread id and the turn id, or none exactly if none has |
| RequestState.Registry.FindRenderContext | server/codex_bridge/request_state.py:249-268 | finds an active request with exactly this image session and client turn and with both Codex ids present, and the context under those two ids; none exactly when there is no such request |
| RequestState.Registry.RegisterTurnContext | server/codex_bridge/prompting.py:97-112 | the method performs the registration of a context that the protocol steps use |
| RequestState.Registry.ClearTurnContext | server/codex_bridge/prompting.py:114-116 | and its removal |
| RequestState.Registry.ForgetTurnContexts | server/codex_bridge/transport.py:71-87 | and the removal of all contexts by a process reset |
| TurnProtocol.InvStep | server/codex_bridge/turns.py:89-277 | every event of every thread keeps the protocol invariant |
| TurnProtocol.TurnOwnership | server/codex_bridge/turns.py:138-277 | in every reachable state: at most one context, keyed by the lock holder's thread and turn id; only the lock holder has a turn id; no context while the lock is free |
| TurnProtocol.AtMostOneMatch | server/codex_bridge/request_state.py:227-275 | two active requests with a Codex turn id, as a status update or a render callback needs, are the same |
| TurnProtocol.ContextIsOwn | server/codex_bridge/request_state.py:256-268 | in every reachable state the context under an active request's two Codex ids is the one its own thread registered, there is no other context, and the turn id is not empty |
| TurnProtocol.ContextsAfter | server/codex_bridge/turns.py:138-277 | which steps register, clear or forget turn contexts; a raised cancellation and a process reset forget all |
| TurnProtocol.CancelledIffRecorded | server/codex_bridge/request_state.py:56-107 | in every reachable state an active request's event is set exactly when its full key is recorded |
| TurnProtocol.CancellationIsExact | server/codex_bridge/bridge.py:62-101 | a cancel recorded before arrival stops the request before turn/start; only a cancel with the full key stops it; after the event at most one more message is handled, the response to turn/start included |
| TurnProtocol.CancelledInTime | server/codex_bridge/bridge.py:68-89 | over every run: a thread whose event is set before it has passed the second check asks for no Codex thread and sends no turn/start |
| TurnProtocol.CancelledBeforeArrival | server/codex_bridge/bridge.py:55-89 | so neither does one whose key was recorded as cancelled before it arrived |
| TurnProtocol.CheckSeesTheEvent | server/codex_bridge/request_state.py:181-206 | a check raises the cancellation exactly when the event is set |
| TurnProtocol.NoCheckIsPassed | server/codex_bridge/request_state.py:181-206 | over every run: a thread with its event set leaves any of the six checks only to raise the cancellation, or out of a read by another error |
| TurnProtocol.OneMessageAtMost | server/codex_bridge/turns.py:176-206 | over every run: it handles one message at most, and none unless it was waiting for one or handling one |
| TurnProtocol.CancelledThreadEndsSoon | server/codex_bridge/turns.py:176-277 | over every run: it takes at most nine more steps of its own, seven if it still waits for the lock |
| TurnProtocol.HistoryRecords | server/codex_bridge/bridge.py:55-101 | the history that the statements speak of records exactly the steps in question: turn/start sent, cancellation raised, messages handled after the event, cancelled before arrival |
| TurnProtocol.RaisedOnlyIfAsked | server/codex_bridge/request_state.py:78-107 | a cancellation is raised only if a cancel call of the run had the request's full key |
| TurnProtocol.OnlyCancelCallsAreRecorded | server/codex_bridge/request_state.py:78-107 | the recorded keys of a run are those of its cancel calls |
| TurnProtocol.CancelReachesRegistered | server/codex_bridge/request_state.py:98-105 | a cancel under a thread's own key sets its event exactly when the event was set or the thread is the active request of its id |
| TurnProtocol.RegisteredUnlessDisplaced | server/codex_bridge/request_state.py:56-76 | over every run a thread stays the active request of its id exactly as long as no request with the id arrives and no holder of the id leaves |
| TurnProtocol.CancelReachesUnlessDisplaced | server/codex_bridge/request_state.py:56-107 | for every run from a thread's arrival: a cancel under its key reaches it exactly if that never happened |
| TurnProtocol.FreshIdsMakeCancelReliable | server/codex_bridge/request_state.py:56-107 | if no arrival re-uses an active id, every planning thread is reachable, and its event is set exactly when its key is recorded |
| TurnProtocol.ReusedIdLosesCancel | server/codex_bridge/request_state.py:64-65 | two arrivals with one request id: the first keeps running with its cancel recorded but not delivered |
| TurnProtocol.LeavingTakesTheEntry | server/codex_bridge/request_state.py:72-76 | a leaving thread removes the entry of its id, whoever holds it, and that holder's recorded cancel |
| TurnProtocol.LeavingHolderLosesCancel | server/codex_bridge/request_state.py:72-76 | so once the first of two such requests has left, the second is the one whose cancel is not delivered |
| RenderHandoff.AdoptedImagesAreFresh | server/codex_bridge/operations.py:170-214 | over every interleaving: an adopted image was written after its edit step cleared the slot; no image and no step is adopted twice |
| RenderHandoff.WaitAdopts | server/codex_bridge/operations.py:176-214 | for every interleaving of a wait with deliveries: woken by the event, which some delivery set, it adopts the image written last before it read the slot; at its deadline it adopts none |
| RenderHandoff.LateWaitIsUnreachable | server/codex_bridge/tool_routing.py:274-324 | outside an edit step no render is required, so the router's own wait is never entered |
| RenderHandoff.LateIffCleared | server/codex_bridge/request_state.py:256-275 | for every run and written image: found for an earlier step than the one it was written for exactly when some step cleared the slot between its finding and its writing |
| RenderHandoff.AdoptedServesItsStepIff | server/codex_bridge/operations.py:170-214 | an adopted image serves the step it was found for exactly when that did not happen to it |
| RenderHandoff.QuietClearsServeTheirStep | server/codex_bridge/operations.py:170-174 | if no delivery is under way whenever a step clears the slot, every adopted image serves the step it was found for |
| RenderHandoff.LateDeliveryMayServeNextStep | server/codex_bridge/request_state.py:256-275 | a reachable state in which a delivery begun for one step served the next |
| HolderRing.WrapDistinct | darktable/data/pswp/photoswipe.js:407-416 | positions less than one turn apart show different items |
| HolderRing.LoopedIdIsWrap | darktable/data/pswp/photoswipe.js:407-416 | one wrap gives a valid index exactly for indexes less than one turn outside the list, and then the strip's item |
| HolderRing.Gallery.constructor | darktable/data/pswp/photoswipe.js:910-941 | the opened gallery satisfies the ring invariant |
| HolderRing.Gallery.WhatIsOnScreen | darktable/data/pswp/photoswipe.js:1041-1169 | under the invariant holder j is seen j - 1 - pending slide widths from the centre and shows the item that many places from the current one |
| HolderRing.Gallery.SetContent | darktable/data/pswp/photoswipe.js:3007-3031 | the holder shows the looped item, and the container moves from the item shown before to it |
| HolderRing.Gallery.UpdateCurrItem | darktable/data/pswp/photoswipe.js:1106-1169 | for every pending distance the three holders end up around the current item, each at its offset; exactly the shown items own a container |
| HolderRing.Gallery.GoTo | darktable/data/pswp/photoswipe.js:1041-1059 | a jump of any size keeps the ring and moves the position by the distance jumped; position + shift + pending stays -1 exactly when no swipe was pending |
| HolderRing.Gallery.Next | darktable/data/pswp/photoswipe.js:1060-1062 | one item forward, with wrap-around; keeps the ring when no swipe is pending |
| HolderRing.Gallery.Prev | darktable/data/pswp/photoswipe.js:1063-1065 | one item back, with wrap-around; keeps the ring when no swipe is pending |
| HolderRing.Gallery.FinishSwipe | darktable/data/pswp/photoswipe.js:2280-2376 | a swipe moves the indexes, wraps at either end, keeps the ring, and adds to the pending distance unless that reaches two items and is worked off; the item counts as changed against the one current when no animation ran |
| HolderRing.Gallery.AnimationEnd | darktable/data/pswp/photoswipe.js:2358-2369 | the end of the animation leaves nothing pending and keeps the ring |
| HolderRing.Gallery.UpdateSize | darktable/data/pswp/photoswipe.js:1207-1252 | a resize keeps the ring exactly when nothing is pending or nothing is re-rendered |
| HolderRing.JumpDuringSwipe | darktable/data/pswp/photoswipe.js:1041-1059 | five items, one swipe, a jump to the fourth item before its animation ends: the balance is broken |
| HolderRing.ResizeDuringSwipe | darktable/data/pswp/photoswipe.js:1207-1252 | the same swipe and a resize that re-renders the left slide: the ring is broken |
| ThinPlate.NextColumn | darktable/src/chart/thinplate.c:229-287 | the scan returns the first of the most useful unchosen columns, or column 0 when none is useful |
| ThinPlate.RepeatsOnlyColumnZero | darktable/src/chart/thinplate.c:229-296 | a column is chosen again exactly when nothing is useful and column 0 was chosen; it is then column 0 |
| ThinPlate.ColumnZeroMayRepeat | darktable/src/chart/thinplate.c:229-296 | a problem on which the run that has chosen column 0 goes on and picks column 0 again |
| ThinPlate.AtMostFourPolynomials | darktable/src/chart/thinplate.c:289-296 | chosen columns are the patches plus at most four distinct polynomial ones |
| ThinPlate.RoomForAnother | darktable/src/chart/thinplate.c:209-296 | while patches are wanted the next write to `permutation` is below S |
| ThinPlate.SolverIndices | darktable/src/chart/thinplate.c:118-143 | every index into the solver's packed v matrix is below S * S |
| ThinPlate.FillColumns | darktable/src/chart/thinplate.c:386-387 | the chosen columns are copied into the work matrix at column indexes below S |
| ThinPlate.SolveChannels | darktable/src/chart/thinplate.c:379-409 | reports failure exactly when some channel's system is rejected |
| ThinPlate.ThinplateMatch | darktable/src/chart/thinplate.c:209-435 | every choice is the greedy one and was accepted by the solver; the result is -1, or the number of columns with enough patches, or the length up to which the solver accepted |
| ThinPlate.OutcomeIsSound | darktable/src/chart/thinplate.c:209-435 | result between -1 and S; if rank deficiency is rejected the reported columns are pairwise distinct; at most four are not patches |
| ThinPlate.SelectionIsDeterministic | darktable/src/chart/thinplate.c:229-296 | of two selections for one problem one is the beginning of the other |
| ThinPlate.OutcomeIsUnique | darktable/src/chart/thinplate.c:209-435 | the problem determines the number returned and the columns reported |
| ChartLabels.RankIsShortlex | darktable/src/chart/colorchart.c:68-99 | the rank used to compare labels is the shortlex order |
| ChartLabels.SuccessorIsLater | darktable/src/chart/colorchart.c:68-99 | on every non-empty label: full buffer exactly when all letters carry and no byte is left; a later label that fits otherwise, except an earlier one exactly when the byte counted up is 255 |
| ChartLabels.EndsIffStartable | darktable/src/chart/colorchart.c:309-364 | towards a last label with a first byte up to 'z' the loop ends exactly when the first label is not empty and starts with such a byte; else it has runs of every length |
| ChartLabels.UnstartableEndsIff | darktable/src/chart/colorchart.c:309-364 | from any other first label it ends exactly when some run is counted up to the last label |
| ChartLabels.UnstartableRun | darktable/src/chart/colorchart.c:309-364 | every label of such a run is empty or starts with a byte above 'z', and is no longer than the first |
| ChartLabels.EmptyStaysEmpty | darktable/src/chart/colorchart.c:68-99 | a run that has been cut to the empty label stays there |
| ChartLabels.BraceNeverEnds | darktable/src/chart/colorchart.c:309-364 | an axis from { to aa counts up to byte 255, is cut to the empty label and never ends |
| ChartLabels.UnstartableStep | darktable/src/chart/colorchart.c:68-99 | counting up an empty label or one with a first byte above 'z' never fills the buffer and gives such a label again |
| ChartLabels.LettersCountByOne | darktable/src/chart/colorchart.c:76-98 | on letters of one case the successor is +1 in bijective base 26 |
| ChartLabels.DigitsCountByOne | darktable/src/chart/colorchart.c:76-98 | on digits the successor is decimal +1 |
| ChartLabels.Strinc | darktable/src/chart/colorchart.c:68-99 | the in-place loop over the buffer leaves the successor with its terminator, or reports that there is no room |
| ChartLabels.EnumerateAxis | darktable/src/chart/colorchart.c:296-364 | whenever the loop ends at all: each label follows the one before, and it stops at the last label or with a full buffer; a first label longer than the last is an error |
| ChartLabels.RunIsDistinct | darktable/src/chart/colorchart.c:312-364 | no label of an axis with a startable first label appears twice, ended or not |
| ChartLabels.EndedRunIsDistinct | darktable/src/chart/colorchart.c:312-364 | nor does one of any enumeration that ends |
| ChartLabels.RunIsIncreasing | darktable/src/chart/colorchart.c:312-364 | without bytes above 'z' the labels of an axis come in shortlex order and never get shorter |
| ChartLabels.LetterAxisEndsWell | darktable/src/chart/colorchart.c:345-353 | with letters of one case the last label is reached exactly when it is not before the first, after one label per number in between |
| ChartLabels.DigitAxisEndsWell | darktable/src/chart/colorchart.c:345-353 | the same for digits, with the exact condition on leading zeros |
| ChartLabels.BoxLabelIs | darktable/src/chart/colorchart.c:319-330 | the name of a box is both labels, the row's first for that kind of line, or the other label where an axis has an underscore |
| ChartLabels.OneLabelledAxis | darktable/src/chart/colorchart.c:309-364 | on a chart with an underscore for one axis each box has the other axis's label for its name |
| ChartLabels.BoxLabelsAreDistinct | darktable/src/chart/colorchart.c:316-330 | with letters on one axis and digits on the other no two boxes share a name |
| ChartLabels.SameNameIff | darktable/src/chart/colorchart.c:316-330 | two boxes of labelled axes share a name exactly when one first part continues the other by what its second part lacks |
| ChartLabels.ChartNamesDifferIff | darktable/src/chart/colorchart.c:304-364 | on a whole chart with labels on both axes all names differ exactly when no label of the axis that comes first properly continues another by what a label of the other axis lacks |
| ChartLabels.ChartNamesAreDistinct | darktable/src/chart/colorchart.c:304-364 | if the labels of either axis have one length, no two boxes of the chart share a name |
| ChartLabels.EqualEndsGiveOneLength | darktable/src/chart/colorchart.c:312-364 | without bytes above 'z', equally long first and last labels give an axis of one length |
| ChartLabels.HighByteShortens | darktable/src/chart/colorchart.c:68-99 | with one they need not: the label a followed by byte 255 is followed by a |
| ChartLabels.DigitAxesMayCollide | darktable/src/chart/colorchart.c:304-364 | two axes that run from 1 to 11: boxes (1, 11) and (11, 1) share the name 111 |
| Gamut.InGamutIff | darktable/data/kernels/colorspace.h:574-583 | the gamut in terms of chroma and hue, with the white point's numbers |
| Gamut.ClipIsExact | darktable/data/kernels/colorspace.h:750-780 | for every lower chroma of the same hue: in gamut exactly when not above the clipped chroma |
| Gamut.ClipIsMaximal | darktable/data/kernels/colorspace.h:750-780 | the result has r >= 0, g >= 0, r + g <= 1, keeps luminance and hue, and is the largest such chroma not above the input |
| Gamut.ClipFixesGamut | darktable/data/kernels/colorspace.h:750-780 | a colour is left alone exactly when it is in gamut |
| Gamut.ClipIsIdempotent | darktable/data/kernels/colorspace.h:574-583 | clipping twice is clipping once |
| ColorModels.HslRoundTrip | darktable/data/kernels/colorspace.h:169-247 | RGB to HSL and back over the unit cube: exact when the spread exceeds 1e-6, else within half of that |
| ColorModels.ThreeReadings | darktable/data/kernels/colorspace.h:207-216 | the three channels a hue ramp gives around any hue, over all wrap-arounds |
| ColorModels.HueBySector | darktable/data/kernels/colorspace.h:186-198 | the hue is the sector of the largest channel plus the normalised difference of the other two |
| ColorModels.HsvRoundTrip | darktable/data/kernels/colorspace.h:249-327 | RGB to HSV and back: exact when spread and maximum exceed 1e-6, else within 1e-6 |
| Rebin.GroupsAreNonEmpty | server/codex_bridge/prompting.py:177-189 | with fewer groups than bins no group is empty and the last one ends at the last bin |
| Rebin.GroupOf | server/codex_bridge/prompting.py:182-185 | every bin belongs to a group |
| Rebin.GroupsAreDisjoint | server/codex_bridge/prompting.py:182-185 | and to no other |
| Rebin.Rebin | server/codex_bridge/prompting.py:177-189 | the length is the target, the total is kept and so is every total up to a group boundary; the fallback for an empty group is never taken |

## Left out

- Numbers are exact reals: rounding, NaN and infinity of floating point are not modelled anywhere.
- Text is a sequence of characters; lower-casing is that of ASCII letters.
- JSON, schema validation and base64: the model starts from typed, validated data, and an operation's malformed
  fields are not representable.
- Processes, pipes, select, timeouts and clocks: messages, failures, deadlines and render arrivals are free choices
  of a run. The match of a response to its request id is one such event.
- Status texts, logs, summaries, progress reports, verifier feedback, conversation histories and the thread map;
  status values are kept in `RequestState`, and the protocol steps omit them (see StatusKeeps).
- The appending of bound canonical actions to a plan's own operations at the end of a live turn: `FinalizePlan` takes
  the resulting list.
- Binder: effects of actions are stated for controls found by one of their paths; which control is found without such a
  path is the subject of FindSettingIsBest, FindSettingBreaksTies, ScoreOrder and CandidatesAre.
- The order in which Python iterates over a dictionary: where a match is searched the model allows any order.
- LiveTurn.TurnContext.WaitForLiveRender: only the render flag; the image slot is the subject of RenderHandoff.
- RenderHandoff: one turn's slot; a turn that ends while a delivery is under way leaves that delivery without effect.
- HolderRing: the looping gallery of at least three items, from the end of the opening zoom on; gestures, zoom, history
  and the DOM are absent, and a swipe is its outcome -1, 0 or 1.
- HolderRing.Gallery.GoTo: indexes less than one turn outside the list, where the source finds an item.
- ThinPlate: the kernel matrix, the singular value decomposition, residuals and error figures; what the solver does
  depends only on the channel and the chosen columns, and that it rejects repeated columns is a hypothesis of
  the distinctness result. A column of zeros, whose norm is infinite in floating point and which is then never
  chosen, is one whose score is zero.
- ThinPlate, variants: the compile-time alternatives REPLACEMENT and EXACT.
- ChartLabels.EnumerateAxis: requires that the loop ends (Ends), which EndsIffStartable and UnstartableEndsIff decide.
- ChartLabels: the parsing of chart files and the boxes' geometry.
- Gamut: chroma is not negative, as it is a distance from the white point where it is computed.
- ColorModels: channels in [0, 1], which the source assumes.
- Rebin.Rebin: for target 0 and a non-empty source the result is empty, and the total is lost.
- Image heuristics, prompt texts, playbooks, scripts and the remaining darktable sources.
