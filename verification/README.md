# Verified model of the token payments kernel

This project models the algorithmic and protocol code of the token payments system in Dafny and proves what
that code keeps, for every input, run or interleaving. `dafny verify dfyconfig.toml` checks all of it.

| module | models |
|---|---|
| `RefreshProtocol`, `RefreshHistory` | the single-flight session refresh of the browser client: a transition system whose steps are the code between `await`s, with arbitrary server answers and a monotone clock |
| `StepExecutor`, `HarnessProcess` | the harness that runs the steps of a phase with retries, an agent that rewrites the running record, early exits and restarts; first as functions, then as the process that updates the index files |
| `Retries` | the calls of an agent about one step |
| `LoopTermination`, `FailedRuns` | when the loop of the harness ends, and what a run that fails leaves to the next one, for every agent |
| `PhaseValidator`, `PhaseReports`, `HarnessContract` | the validator of the same metadata, and how the two depend on each other |
| `VariantCombinations`, `VariantReuse`, `ProductForm` | the product option combinations and the reuse of existing variants, and both over the unfiltered options of the merchant form |
| `OptionSelection`, `DeadEnds` | the option choice of the product page, and for which products it never dead-ends |
| `PaymentEncoding` | decimal amounts, hexadecimal amounts and ERC-20 transfer calldata (the words of the Contract ABI Specification, section "Formal Specification of the Encoding") |
| `SeedSql`, `SeedRows` | the seed script of the smoke environment and a reader for the SQL it consists of (section 4.1.2.1 of the PostgreSQL manual) |
| `HttpRouting`, `RouteTemplates`, `RouteManifest` | path templates, dispatch with 405 and 404 (section 15.5.6 of RFC 9110), and the published routes |
| `RequestBody` | the bounded request body reader |
| `JsonSafe`, `JsonShape` | the normaliser of response values |
| `ShoppingCart`, `CheckoutRules`, `CartRules`, `CartEdits` | the stored cart, the cart page with store groups and checkouts, and edits while a checkout waits |
| `OperatorActions`, `OperatorRecords` | the operator action executors, their audit log and their keys |
| `InventoryAggregate` | the stock of a product and its reservations |
| `Wrappers`, `TextTools`, `StringSets`, `Numerals`, `Arithmetic` | shared helpers |

Classes with methods stand for the code that updates variables, records or lists in place; each method is
proved against a function of the old state, and the properties are proved of these functions. Server answers,
clocks, agents, handlers, ports and repositories are arbitrary parameters.

## Where the code differs from what one would expect

The model follows the code. These are proved, most of them with the exact condition:

- A refresh closure that throws before its first `await` leaves the in-flight variable set for good
  (`InflightIsExact`, `JamIsPermanent`).
- Before the clock reaches 15000 ms the initial refresh time counts as a recent success (`JustifiedFromStartIff`).
- An earlier failed step that a completed one follows is overlooked (`OverlookedFailure`, `ExitZeroIff`), and a
  shared number can keep the executor going forever (`StopsIff`).
- An agent that dies with an undocumented status or takes the number of another step breaks the shape of the index
  (`RunKeepsSoundIff`, `UnknownStatusBreaksShape`, `TakenNumberBreaksShape`); a step that it renumbers, or whose
  file is missing, fails the run but does not block the next (`RenumberedStepEscapes`, `RerunIff`).
- A row of the merchant form can take the variant of a later one (`LaterVariantIsLost`).
- A product whose variants leave out a required option or have a key of another one can dead-end, or never be selected
  (`NeverStuckIff`).
- The fraction of a negative decimal is added, not subtracted (`NegativeIff`), and amounts from 2^256 on are
  encoded into too many digits (`TransferLengthIff`).
- A seed record without columns is rendered to something that is not SQL (`ScriptRoundTripIff`).
- An infinite quantity removes the line it is added to (`AddByCases`), page keys of different lines can be equal
  (`KeysCollideIff`), overlapping checkouts bring ordered lines back (`CheckoutsConserveIff`), and a confirmation
  undoes the edits since its start (`EditsSurviveIff`).
- An audit record can be kept for a call that raises (`LostReplyIff`).
- A negative amount is rendered as `0x-` and digits (`ToHexWeiDecodesIff`).
- A reservation for a known order is accepted with any positive quantity and changes nothing (`ReserveIff`).
- The branch of the JSON normaliser for enumeration members is never taken: they are texts, and stay as they are.

## Model

| member | source | states |
|---|---|---|
| RefreshProtocol.AuthClient.TryRefreshSession | frontend/lib/auth-client.js:202-240 | The code up to the first `await`: which wait a caller gets (grace period, the shared promise, a new refresh) and how the shared variables change, including a closure that throws before its first `await`. |
| RefreshProtocol.AuthClient.FinishRefresh | frontend/lib/auth-client.js:220-236 | After an answer the in-flight variable is cleared; success also sets the refresh time and, if there is one, the token. |
| RefreshProtocol.AuthClient.ForgetToken | frontend/lib/auth-client.js:276-282 | An unauthorized answer clears the cached token and nothing else. |
| RefreshProtocol.RunsAreSound | frontend/lib/auth-client.js:202-274 | The invariant of the protocol over every interleaving of any number of calls, answers, timers and clock ticks. |
| RefreshProtocol.SingleFlight | frontend/lib/auth-client.js:194-240 | In every reachable state two outstanding refreshes are the same one, and the shared variable holds it. |
| RefreshProtocol.InflightIsExact | frontend/lib/auth-client.js:206-237 | The in-flight variable is set exactly while a refresh is outstanding, if and only if no refresh closure has thrown before its first `await`: then `finally` comes before the assignment and the variable stays set. |
| RefreshProtocol.JamIsPermanent | frontend/lib/auth-client.js:208-239 | After such a throw no refresh is ever issued again, the variable stays set, and no later call retries. |
| RefreshProtocol.WaitersAgree | frontend/lib/auth-client.js:206-239 | All callers that waited on the same refresh saw the same boolean. |
| RefreshProtocol.RetriesAreJustified | frontend/lib/auth-client.js:202-206 | Every retry follows a refresh that succeeded while the caller waited, or less than 15000 ms before its check. |
| RefreshProtocol.JustifiedFromStartIff | frontend/lib/auth-client.js:198-206 | This holds of all runs from a start clock if and only if the clock is at least 15000 ms: an earlier clock makes the initial value 0 look like a recent success. |
| RefreshProtocol.SuccessesAreSpaced | frontend/lib/auth-client.js:203-230 | A refresh success and any later refresh are at least 15000 ms apart. |
| RefreshProtocol.RequestsAreBounded | frontend/lib/auth-client.js:254-273 | N calls make at most 3N requests in any run. |
| RefreshHistory.CachedTokenIs | frontend/lib/auth-client.js:222-226 | Over every run: the cached token is the last one that a refresh has brought, if no call has ended with a final 401 or 403 since, and otherwise none; a refresh without a token leaves it. |
| RefreshHistory.AnswerDecides | frontend/lib/auth-client.js:260-301 | After an answer a call waits for a refresh if and only if it is its first, a 401 or a 403 with a token code, and not for the session itself; otherwise it ends, and returns if and only if the answer is a 2xx, or a 400, 401 or 403 for a session page. |
| RefreshHistory.ResumeDecides | frontend/lib/auth-client.js:267-273 | A caller that has waited goes on if and only if it did by the grace period or the refresh succeeded; else it ends with its first answer. |
| RefreshHistory.RetryIsDelayed | frontend/lib/auth-client.js:270-273 | A request is sent again no sooner than 50 ms after its caller went on, and then it is. |
| RefreshHistory.SuccessNeedsResponse | frontend/lib/auth-client.js:220-232 | A refresh succeeds only after its response was a success. |
| RefreshHistory.SixPerCall | frontend/lib/auth-client.js:248-274 | A run from the start has at most six events for each call that it starts, besides the starts and ticks. |
| RefreshHistory.CountsAppend | frontend/lib/auth-client.js:248-274 | How starts of calls and working events are counted. |
| RefreshProtocol.WorkDecreases | frontend/lib/auth-client.js:248-274 | Each step other than a tick or a new call lowers a measure over call and refresh phases. |
| RefreshProtocol.RunsAreShort | frontend/lib/auth-client.js:248-274 | A run has at most as many working steps as its calls and refreshes allow. |
| RefreshProtocol.EveryCallCanEnd | frontend/lib/auth-client.js:267-273 | From every reachable state some schedule ends every call: nothing waits forever. |
| HarnessProcess.StepExecutorProcess.UpdateTopIndex | scripts/execute.py:161-173 | The first row of the phase gets the status; nothing else changes. |
| HarnessProcess.StepExecutorProcess.AttemptStep | scripts/execute.py:309-366 | One agent call and the marks that the harness makes after it are the effect `StepExecutor.Attempt`. |
| HarnessProcess.StepExecutorProcess.ExecuteSingleStep | scripts/execute.py:299-368 | The retry loop ends in the state and outcome of `StepExecutor.RunStep`. |
| HarnessProcess.StepExecutorProcess.ExecuteAllSteps | scripts/execute.py:370-385 | The endless loop, on an index whose pending numbers are unique, ends, with the effect `StepExecutor.ExecuteAll`. |
| HarnessProcess.StepExecutorProcess.CheckForBlockers | scripts/execute.py:275-289 | The exit code of the blocker scan, if it stops the run. |
| HarnessProcess.StepExecutorProcess.Execute | scripts/execute.py:83-91 | A whole run: its final index files, agent calls and outcome. |
| StepExecutor.MarksEffect | scripts/execute.py:320-321 | Marks made by step number touch just the running record, and none if the agent has changed its number. |
| StepExecutor.ExecuteAllEffect | scripts/execute.py:370-385 | For any index with unique pending numbers, any agent and any ending: pending steps before the stop are completed, later ones untouched, completed ones never called, and at most three calls per pending step are made. |
| Retries.StepIsConversation | scripts/execute.py:299-366 | Where the number of a step is nobody else's: the agent is asked until it died, its file is missing, or it left "completed" or "blocked" under the number, and otherwise three times; each further call carries the message that the reply before left, and the records, the outcome and the final error are what the last reply decides. |
| Retries.ConversationIsUnique | scripts/execute.py:305-366 | An agent has one such conversation about a step. |
| Retries.LoopIsConversations | scripts/execute.py:370-385 | The loop has one such conversation after another, each about the first step that is pending then, until one ends it or none is pending. |
| Retries.RunIs | scripts/execute.py:83-91 | A run stops at the last step that is not pending if that has failed, with its code, else if there is no branch; otherwise it does what its loop does, and after a normal end marks the first row of the phase completed and lets the push decide. |
| Retries.PendingCountIs | scripts/execute.py:370-385 | How pending steps are counted in the bounds on calls and turns. |
| LoopTermination.StopsIff | scripts/execute.py:370-385 | For every index, whatever its statuses, the loop ends for every agent if and only if there is neither a reachable pair (one number, the first match pending or completed, one of the two pending) nor a reachable pending step that its completed twin lets the agent renumber to the number of a third record. |
| LoopTermination.PairGoesOn | scripts/execute.py:305-321 | With a reachable pair, wherever the index holds it and whatever failed records there are, some agent keeps the loop going forever. |
| LoopTermination.EscapeGoesOn | scripts/execute.py:319-321 | So does some agent that renumbers its record, where a completed record with the old number hides it. |
| LoopTermination.EscapeWithoutPair | scripts/execute.py:319-321 | Such an index need not hold a pair, so both clauses are needed. |
| LoopTermination.CannotGoOnStops | scripts/execute.py:370-385 | Without both the loop ends, whatever the agent writes in its own record, the number included. |
| LoopTermination.StopsIffUnique | scripts/execute.py:370-385 | Without failed records the condition is that no pending step shares its number. |
| LoopTermination.UniqueNumbersStop | scripts/execute.py:370-385 | With unique pending numbers the loop leaves within one turn more than there are pending steps. |
| StepExecutor.RunInvocations | scripts/execute.py:309-320 | A run makes at most MAX_RETRIES calls per pending step, and none for a step that was not pending. |
| StepExecutor.ExitZeroIff | scripts/execute.py:275-289 | A run that ends normally leaves all steps completed if and only if every step that was not pending before was completed. |
| StepExecutor.OverlookedFailure | scripts/execute.py:275-289 | A failed step that a completed one follows is overlooked: the phase is reported completed. |
| StepExecutor.BlockersIff | scripts/execute.py:275-289 | The scan stops a run exactly when the last step that is not pending has failed, with that step's code. |
| StepExecutor.RerunDoesNothing | scripts/execute.py:275-289 | After a failure a rerun changes nothing and calls no agent. |
| StepExecutor.FailureBlocksRuns | scripts/execute.py:275-289 | Wherever a history has led, once a step has failed every run exits with its code, calls no agent and changes nothing, until that step is reset. |
| StepExecutor.RunOutcome | scripts/execute.py:275-391 | From completed\*·X·pending\*, with an agent that keeps its number and a documented status: exit 0 means all completed, exit 2 a blocked step followed by pending ones, exit 1 an error or a pending step followed by pending ones, or all completed. |
| StepExecutor.ExecuteTop | scripts/execute.py:161-173 | A run that stops never writes "completed" into the row of the phase. |
| StepExecutor.HistoriesAreSound | scripts/execute.py:275-391 | Over any sequence of resets and of runs with agents that keep the number of their step and a documented status in every reply, the shape is kept, and the phase is reported completed only while all steps are. |
| FailedRuns.HistoryIsSoundIff | scripts/execute.py:275-391 | For all agents: over a sequence of runs and resets that starts from a sound index the index stays sound throughout if and only if every run does not stop in the loop or its last writing reply there does no harm. |
| FailedRuns.RunKeepsSoundIff | scripts/execute.py:275-391 | For every agent: a run from a sound index leaves a sound index if and only if it does not stop in the loop, or the last reply that rewrote the record there kept the number and, if it died, a documented status, or took a free number and a documented status. |
| FailedRuns.UnknownStatusBreaksShape | scripts/execute.py:275-321 | From every sound index that can be worked on, an agent that dies and leaves an undocumented status makes an index that is not sound. |
| FailedRuns.TakenNumberBreaksShape | scripts/execute.py:319-366 | From every sound index with a second step, an agent that writes the number of that step makes an index that is not sound, without dying and with any status. |
| FailedRuns.ExitOneLeaves | scripts/execute.py:275-391 | What exit 1 of a run from a sound index leaves: the index as it was; all completed (only the push failed); or at the step of the stop, if its number was changed, the record as the agent wrote it, else an error with the prefix of the harness, which blocks the next run, or, if and only if the step file was missing, a pending step, which does not. |
| FailedRuns.RerunIff | scripts/execute.py:275-366 | A run that stops in the loop blocks every next run, which then calls no agent and changes nothing, if and only if the record at the stop is failed or blocked. |
| FailedRuns.BlockedIff | scripts/execute.py:275-289 | No agent is called and nothing changes in any next run if and only if the blocker scan stops it. |
| StepExecutor.UnknownStatusIsPassedOver | scripts/execute.py:275-289 | A step left with an undocumented status is passed over and the phase reported completed. |
| StepExecutor.RenumberedStepEscapes | scripts/execute.py:320-366 | What renumbering breaks: a record completed under another number fails the run with exit 1, but no failed record is left that blocks the rerun, which passes on to the next step. |
| PhaseValidator.Report.ValidatePhaseDir | scripts/validate_phases.py:77-138 | The loops append to the shared list exactly the problems of `ReportPhase`. |
| PhaseValidator.Report.ValidateStep | scripts/validate_phases.py:99-134 | The checks of one step append exactly the problems of `ReportStep`. |
| PhaseValidator.NoProblemsIff | scripts/validate_phases.py:77-138 | Nothing is added if and only if the metadata is well-formed, and earlier problems always stay: the validator is sound and complete. |
| PhaseReports.ReportedIff | scripts/validate_phases.py:77-138 | For every problem: it is reported if and only if there is it: a missing directory or index, a blank field, a step that is no object or has no number, a repeated number, a blank name, an unknown status, a missing text or file, a gap in the numbers. |
| PhaseValidator.ContiguousIff | scripts/validate_phases.py:135-138 | A sorted set of numbers equals its range if and only if it is 0..n-1. |
| PhaseValidator.PermutationIff | scripts/validate_phases.py:102-138 | No duplicates and a contiguous set, as the code checks them, if and only if the numbers are a permutation of 0..n-1. |
| PhaseValidator.SeenSizeIff | scripts/validate_phases.py:98-110 | The set of seen numbers is as large as the list if and only if there are no duplicates. |
| HarnessContract.ValidatedPhaseStops | scripts/validate_phases.py:77-138 | Metadata that the validator accepts is metadata on which the executor ends for every agent. |
| HarnessContract.ReadingUndoesWriting | scripts/execute.py:99-107 | Reading a record that was written gives the record, status, texts and all. |
| HarnessContract.WritingUndoesReading | scripts/execute.py:99-107 | Writing a record that was read gives the record, where its texts are there. |
| HarnessContract.MissingIsEmpty | scripts/execute.py:99-107 | A text that is missing is read as an empty one, and a missing error message as none. |
| HarnessContract.RunStaysValidIff | scripts/execute.py:299-391 | For every agent: a run from metadata that the validator accepts leaves metadata that it accepts, however it ends, if and only if it does not get to the loop, or in each of its turns the last writing reply kept the number, a name, the texts that "completed" and "blocked" need, and, if the agent died, a documented status with its texts. |
| HarnessContract.ValidatedRunStaysValidIff | scripts/execute.py:299-391 | The same from every index file that the validator accepts, with optional texts or without. |
| HarnessContract.RunKeepsMetadataValid | scripts/execute.py:299-391 | So an agent that supplies the texts its instructions ask for and keeps its number leaves metadata that the validator accepts. |
| HarnessContract.ValidatedRunStaysValid | scripts/execute.py:299-391 | The same from such index files. |
| VariantCombinations.CombinationCount | frontend/components/MerchantDashboard.jsx:302-316 | The reduce over the options that take part gives exactly as many rows as the numbers of values multiply to. |
| VariantCombinations.RowAtLast | frontend/components/MerchantDashboard.jsx:302-316 | Row i of the reduce holds the mixed-radix expansion of i, the last option varying fastest: its labels, the sum of the clamped price deltas and, for each key, the entry of the last option with it, whatever the keys are. |
| VariantCombinations.RowAt | frontend/components/MerchantDashboard.jsx:302-316 | With distinct keys each option has its own option value and display value in the row. |
| VariantCombinations.DigitsOfIndex | frontend/components/MerchantDashboard.jsx:302-316 | The expansion of an index is a choice, and its index is that index. |
| VariantCombinations.IndexOfDigits | frontend/components/MerchantDashboard.jsx:302-316 | The index of a choice expands to that choice. |
| VariantCombinations.EveryChoiceOnce | frontend/components/MerchantDashboard.jsx:302-316 | Every choice of one value per option has exactly one row of the reduce. |
| VariantCombinations.RowsDistinctIff | frontend/components/MerchantDashboard.jsx:302-316 | With distinct option keys, rows of the reduce have distinct option values if and only if no option lists a value twice. |
| VariantCombinations.RowMapIff | frontend/components/MerchantDashboard.jsx:302-316 | The option values of the rows are exactly the maps that give each option one of its values. |
| VariantCombinations.SameOptionValuesIff | frontend/components/MerchantDashboard.jsx:252-257 | The comparison by sorted keys is equality of maps. |
| VariantCombinations.ReuseVariants | frontend/components/MerchantDashboard.jsx:317-325 | The loop that fills the set of used ids gives each row what the recursive definition gives it. |
| VariantCombinations.ReuseIsInjective | frontend/components/MerchantDashboard.jsx:268-290 | No existing variant id is given to two rows. |
| VariantReuse.GivenIs | frontend/components/MerchantDashboard.jsx:268-290 | A row is given the first free variant with its option values; else the first with its display values; else the first with its label; else, when a product with as many variants as rows is edited, the one at its position if that is free; else none. |
| VariantReuse.NoneOnlyIfTaken | frontend/components/MerchantDashboard.jsx:284-289 | When a product with as many variants as rows is edited, a row goes without a variant only if an earlier row has taken the one at its position. |
| VariantReuse.LabelTextIs | frontend/components/MerchantDashboard.jsx:259-266 | The label text of a variant is that of the labels which its name has after the first part, or of a name of one part. |
| VariantReuse.BlankLeftOut | frontend/components/MerchantDashboard.jsx:259-266 | Blank labels are left out, wherever they stand. |
| VariantReuse.AmountIs | frontend/components/MerchantDashboard.jsx:238-241 | A price delta counts if it is finite and positive, and is nothing otherwise. |
| VariantReuse.ExistingAppend | frontend/components/MerchantDashboard.jsx:269 | The variants that can be reused are those with an id, in order. |
| VariantCombinations.EachRowKeepsItsOwn | frontend/components/MerchantDashboard.jsx:268-290 | If rows are distinct and all up to k have an exact match, row k gets its own variant. |
| VariantCombinations.LaterExactMatchIsLost | frontend/components/MerchantDashboard.jsx:271-276 | Of two rows, the first can take the exact match of the second by its display values. |
| ProductForm.LaterVariantIsLost | frontend/components/MerchantDashboard.jsx:268-325 | A form in which this happens, with distinct keys and values: one option with a value that is shown as the next one is stored, and a variant saved for the next. |
| ProductForm.RowCount | frontend/components/MerchantDashboard.jsx:292-316 | The options of the form give no row without a usable option, otherwise as many as their usable values multiply to. |
| ProductForm.RowOfIndex | frontend/components/MerchantDashboard.jsx:292-316 | Row i of the form is the mixed-radix expansion of i over the usable options and values. |
| ProductForm.EveryUsableChoiceOnce | frontend/components/MerchantDashboard.jsx:292-316 | Every choice of one usable value per usable option has exactly one row. |
| ProductForm.DistinctRowsIff | frontend/components/MerchantDashboard.jsx:292-316 | With distinct usable keys, rows have distinct option values if and only if no usable option lists a usable value twice, or there is no row. |
| ProductForm.RequiredReordered | frontend/components/MerchantDashboard.jsx:248-300 | Filtering commutes with reordering the options. |
| ProductForm.RequiredOptionCombinations | frontend/components/MerchantDashboard.jsx:292-325 | The rows of the form, and the existing variant each of them is given. |
| ProductForm.AllGetOwnIff | frontend/components/MerchantDashboard.jsx:268-325 | All rows are given the variant with their own option values if and only if every row has one, display values and labels of other rows notwithstanding. |
| ProductForm.ReorderedFormKeepsVariants | frontend/components/MerchantDashboard.jsx:248-325 | After the options of the form are reordered, whatever unusable ones are among them, every row still gets exactly its own variant, and no two the same. |
| OptionSelection.OptionPicker.ChangeOptionValue | frontend/components/ProductDetail.jsx:162-176 | The handler sets or deletes the key and deletes the keys of later required options. |
| OptionSelection.OptionPicker.ChangeMultiOptionValue | frontend/components/ProductDetail.jsx:178-192 | The handler, with the loops of `new Set` and `filter`, makes the selection of `ChangedMulti`. |
| OptionSelection.ToggledContents | frontend/components/ProductDetail.jsx:178-192 | Checking puts a value into the list of its key, where each value is once; unchecking removes it; an empty list goes; other values and keys stay. |
| OptionSelection.OptionCandidateSelection | frontend/components/ProductDetail.jsx:606-614 | The candidate holds the chosen earlier options and the value. |
| OptionSelection.NextIsSelectable | frontend/components/ProductDetail.jsx:586-590 | Where a prefix is matched by a variant, the next option has a value that can be selected. |
| OptionSelection.CompleteSelectsVariant | frontend/components/ProductDetail.jsx:616-642 | A complete selection that some variant matches has a selected variant, and it agrees with every choice. |
| OptionSelection.ChangedKeys | frontend/components/ProductDetail.jsx:162-176 | A change leaves earlier required keys alone, sets or clears its own and clears the later ones. |
| OptionSelection.OptionalChangeIs | frontend/components/ProductDetail.jsx:162-192 | A change of an optional option touches its key alone: a choice is set or deleted, a list gains or loses the value. |
| OptionSelection.OneControl | frontend/components/ProductDetail.jsx:108-109 | An option has at most one control, and none if and only if it is required and neither a variant nor an add-on. |
| OptionSelection.ChangeKeepsPrefix | frontend/components/ProductDetail.jsx:307-327 | Every change that an enabled control can make keeps the chosen options a matched prefix. |
| OptionSelection.NoDeadEnd | frontend/components/ProductDetail.jsx:307-327 | Where every variant gives each required option a listed value and has no other key: in every state that enabled changes can reach the chosen options are a matched prefix, the next has a selectable value, and a complete selection has a variant. |
| DeadEnds.NeverStuckIff | frontend/components/ProductDetail.jsx:307-327 | For every product with distinct option keys: choosing never dead-ends, whatever enabled changes are made, if and only if there is a variant and every choice of listed values for the first required options that some variant matches goes on: to a value of the next option that a variant agrees with too, or at the end to a matching variant with as many keys as there are required options. |
| DeadEnds.NotStuckIff | frontend/components/ProductDetail.jsx:606-642 | A selection that holds such a choice is not stuck if and only if a variant matches the choice and it goes on. |
| DeadEnds.MatchedIsReached | frontend/components/ProductDetail.jsx:586-590 | Every choice that a variant matches is reached by picking its values in order. |
| DeadEnds.ReachedHolds | frontend/components/ProductDetail.jsx:162-192 | Every state that enabled changes can reach holds a choice of listed values for the first required options that a variant matches. |
| DeadEnds.SelectedVariantIs | frontend/components/ProductDetail.jsx:616-656 | A complete choice selects the first variant that carries every chosen text, as value or display value of the listed value, and has as many keys as there are required options; and none if there is none. |
| DeadEnds.SelectedVariantHolds | frontend/components/ProductDetail.jsx:644-656 | So it holds, under the key of each required option, the value or the display value of the listed value that was chosen there. |
| DeadEnds.SelectableIff | frontend/components/ProductDetail.jsx:586-590 | A value of the next option is enabled if and only if some variant carries the texts chosen so far and this one. |
| OptionSelection.IncompleteVariantDeadEnds | frontend/components/ProductDetail.jsx:644-656 | An example: where the only variant leaves out a required key, the first choice leads to a dead end. |
| DeadEnds.IncompleteBesideComplete | frontend/components/ProductDetail.jsx:644-656 | Another: beside a complete variant that agrees with it, an incomplete one makes none. |
| DeadEnds.ExtraKeyDeadEnds | frontend/components/ProductDetail.jsx:638-642 | Another: where the only variant has a key that no required option has, a complete choice selects nothing. |
| PaymentEncoding.ToMinorUnitsIsFloor | frontend/lib/checkout-client.js:178-182 | On every non-negative decimal text the result is the floor of its value times 10^d, and exact when the fraction has at most d digits. |
| PaymentEncoding.ToMinorUnitsIsMonotone | frontend/lib/checkout-client.js:178-182 | A larger decimal never converts to fewer minor units, however the two are written. |
| PaymentEncoding.ToMinorUnitsInvertsPrinting | frontend/lib/checkout-client.js:178-182 | Converting an amount printed with d places gives the amount back. |
| PaymentEncoding.NegativeIff | frontend/lib/checkout-client.js:178-182 | A negative decimal, with a point or without, is refused without whole digits; otherwise it converts to the negated amount if and only if its kept fraction digits are all zero: the fraction is added to a negative whole part. |
| PaymentEncoding.ToHexWeiDecodesIff | frontend/lib/checkout-client.js:174-176 | The hexadecimal amount can be decoded, and to the same integer, if and only if that is not negative; a negative one is a minus sign after the prefix and then the digits of its absolute value. |
| PaymentEncoding.TransferLengthIff | frontend/lib/checkout-client.js:184-192 | The calldata is a selector and two 32-byte words if and only if the amount is below 2^256. |
| PaymentEncoding.TransferRoundTripIff | frontend/lib/checkout-client.js:184-192 | Decoding gives back the lower-cased address and the amount if and only if the amount is below 2^256; larger amounts are accepted. |
| PaymentEncoding.TransferIsInjective | frontend/lib/checkout-client.js:184-192 | Calldata determines address and amount, for every accepted amount. |
| PaymentEncoding.TransferAcceptedIff | frontend/lib/checkout-client.js:184-192 | A transfer is accepted if and only if the address is forty hexadecimal digits in either case, with "0x" before them or not, and the amount is not negative; the address word has the same digits. |
| PaymentEncoding.BigIntIs | frontend/lib/checkout-client.js:181 | Which texts convert to an integer, and to which: nothing, decimal digits with a sign or without, and digits after a radix prefix. |
| SeedSql.SqlIdentifier | scripts/docker_live_smoke.py:976-982 | An identifier passes if and only if it is lower-case letters, digits and underscores, not starting with a digit, in double quotes or not. |
| SeedSql.SeedSqlFromPlan | scripts/docker_live_smoke.py:956-973 | The loop gives the script of the rows of the plan, or the first error. |
| SeedSql.RenderedIff | scripts/docker_live_smoke.py:961-971 | A script is produced if and only if every element that is an object has a valid table, valid columns and a value for each column. |
| SeedRows.PlanRows | scripts/docker_live_smoke.py:961-971 | The rows of a plan are those of its objects, in order: table, columns, and under each column the value of the record. |
| SeedRows.PlanError | scripts/docker_live_smoke.py:961-971 | The error of a plan is that of its first record that lacks something, and of that what is missing first. |
| SeedRows.IdentifierIff | scripts/docker_live_smoke.py:976-982 | An identifier is a plain name, or one in double quotes. |
| SeedRows.SignIff | scripts/docker_live_smoke.py:985-994 | A number is written with a minus sign if and only if it is negative. |
| SeedSql.ReadQuotedUndoesQuote | scripts/docker_live_smoke.py:997-998 | Reading a quoted text with doubled quotes gives the text back. |
| SeedSql.ReadValueOfLiteral | scripts/docker_live_smoke.py:985-994 | Every literal is read back as the value it was rendered from. |
| SeedSql.ReadListOfLiterals | scripts/docker_live_smoke.py:968-971 | Lexing a rendered list of values gives the list back, whatever quotes and commas its texts contain. |
| SeedSql.ReadStatementOfRow | scripts/docker_live_smoke.py:963-971 | Reading a statement gives its row and stops right after the statement. |
| SeedSql.NoColumnsIsNoStatement | scripts/docker_live_smoke.py:969-971 | A record without columns is rendered to something that is not a statement. |
| SeedSql.ScriptRoundTripIff | scripts/docker_live_smoke.py:956-973 | Reading the whole script gives back exactly the rows of the plan in order, if and only if every row has a column. |
| HttpRouting.ValidateTemplateSegments | app/token_payments/api/http.py:964-975 | A template passes if and only if its parameters have distinct non-blank names and no other segment has a brace. |
| HttpRouting.MatchPathLoop | app/token_payments/api/http.py:104-119 | The matching loop fills the parameters of the functional definition. |
| HttpRouting.FillUndoesMatch | app/token_payments/api/http.py:104-119 | Filling the template with the parameters of a match restores the path. |
| HttpRouting.MatchUndoesFill | app/token_payments/api/http.py:104-119 | Matching a filled template restores the parameters. |
| HttpRouting.MatchesInvertibleIff | app/token_payments/api/http.py:969-973 | Matches of a template can be undone if and only if its parameter names are distinct: this is what the check for duplicates gives. |
| HttpRouting.PathSegmentsAreSegments | app/token_payments/api/http.py:978-981 | What the segments of a path can be. |
| HttpRouting.SegmentsOfPath | app/token_payments/api/http.py:978-981 | Each such list is the segments of a path. |
| HttpRouting.BuiltPathMatches | app/token_payments/api/http.py:104-119 | A path built from a template is matched with the parameters it was built from. |
| RouteTemplates.TemplateMeaning | app/token_payments/api/http.py:104-119 | A path matches a template as written if and only if it starts with a slash, has as many segments and the same literals; each name is then bound to the segment of its last parameter, and nothing else is bound. |
| RouteTemplates.TemplateValidIff | app/token_payments/api/http.py:964-975 | A written template passes if and only if its parameters have distinct names that are not blank. |
| RouteTemplates.BracesValidIff | app/token_payments/api/http.py:964-975 | A segment with a brace passes if and only if it is a name in braces. |
| RouteTemplates.SlashesDoNotMatter | app/token_payments/api/http.py:978-981 | Any number of slashes around a path leaves its segments as they are. |
| RouteTemplates.RegisteredAs | app/token_payments/api/http.py:90-100 | A route is registered with the stripped texts and its method in upper case, letter by letter. |
| RouteTemplates.UpperLetter | app/token_payments/api/http.py:93 | Each ASCII letter in lower case has its upper case. |
| RouteTemplates.UpperOther | app/token_payments/api/http.py:93 | Every other character stays. |
| HttpRouting.HttpRouter.AddRoute | app/token_payments/api/http.py:179-189 | The route with stripped texts and upper-case method is appended; a blank text, a handler that cannot be called, a blank operation id or an invalid template leaves the table alone. |
| HttpRouting.HttpRouter.Handle | app/token_payments/api/http.py:214-243 | The dispatch loop, with its collected matches and early return, computes `Dispatch`. |
| HttpRouting.DispatchMeaning | app/token_payments/api/http.py:214-243 | For every table and request: the handler of the lowest accepting route with the parameters of its match, else 405 if some route matches the path, else 404. |
| HttpRouting.AllowListsWhatWorks | app/token_payments/api/http.py:222-233 | The Allow header of a 405 lists, in order and once each, exactly the methods with which the same path is handled. |
| HttpRouting.MatchedRoute | app/token_payments/runtime/api_server.py:404-408 | The second implementation picks the same route as the router, for every table and request. |
| HttpRouting.OverlapIff | app/token_payments/api/http.py:104-119 | Two routes share a request if and only if their methods agree and their templates are compatible segment by segment. |
| HttpRouting.OrderDoesNotMatterIff | app/token_payments/api/http.py:214-243 | All reorderings of a table dispatch every request alike if and only if its routes are pairwise disjoint. |
| RouteManifest.ManifestIsDisjoint | app/token_payments/api/http.py:1079-1289 | No two of the 62 published routes accept the same request. |
| RouteManifest.ManifestOrderDoesNotMatter | app/token_payments/api/http.py:1079-1289 | The published table dispatches alike in whatever order its routes are registered. |
| RequestBody.BodyFromReceive | app/token_payments/api/asgi.py:97-129 | The loop returns the one outcome that the stream has, and the number of messages it took. |
| RequestBody.OutcomeIsUnique | app/token_payments/api/asgi.py:97-129 | Every stream and limit has one outcome. |
| RequestBody.ReturnsBodyIff | app/token_payments/api/asgi.py:97-129 | Bytes are returned if and only if the stream starts with at most 128 request messages of which only the last says that nothing follows, within the limit; they are their concatenation, and exactly these messages are taken. |
| RequestBody.ChunkedBody | app/token_payments/api/asgi.py:97-129 | The result for a body in chunks: too large if the first 128 chunks exceed the limit, a stream error if there are more than 128, else the body. |
| RequestBody.ChunkingDoesNotMatter | app/token_payments/api/asgi.py:97-129 | Two deliveries of the same bytes, in at most 128 chunks each, have the same result. |
| JsonSafe.ToJsonSafeMapping | app/token_payments/api/contracts.py:218-226 | The loop that fills the output dictionary computes the functional definition, or the first error. |
| JsonSafe.SucceedsIff | app/token_payments/api/contracts.py:229-255 | Normalising fails if and only if at some depth there is a non-finite float, a naive datetime, a blank or non-text key, or an unsupported leaf. |
| JsonSafe.OutputIsJson | app/token_payments/api/contracts.py:229-255 | The output lies in the JSON subset at every depth, with distinct non-blank keys. |
| JsonSafe.FixedPointIff | app/token_payments/api/contracts.py:229-255 | The values that normalising leaves alone are exactly those of the JSON subset. |
| JsonSafe.Idempotent | app/token_payments/api/contracts.py:229-255 | Normalising a normalised value changes nothing. |
| JsonSafe.PlacesAreKept | app/token_payments/api/contracts.py:218-255 | The output has the same places as the input, and at each the normalised value of that place. |
| JsonShape.PlacesAreShown | app/token_payments/api/contracts.py:229-255 | At every depth: JSON values stay; decimals, dates with a zone and ids are shown as their texts, addresses in checksum form; mappings and records are dictionaries with the same keys, and sequences are lists as long as they were. |
| JsonShape.FirstErrorIs | app/token_payments/api/contracts.py:218-255 | Normalising raises the error of the first refusal in reading order, and none if there is none. |
| ShoppingCart.CartPage.AddCartItem | frontend/lib/cart.js:19-32 | The new stored cart and the returned list. |
| ShoppingCart.AddByCases | frontend/lib/cart.js:19-32 | Adding raises one line, or loses it if the quantity is infinite, or appends one that can be stored; nothing else changes. |
| CartRules.RequestedIs | frontend/lib/cart.js:19-32 | A requested quantity is the larger of 1 and what was asked for, 1 for what is no number, and without bound only if that was asked for. |
| CartRules.StoredIs | frontend/lib/cart.js:13-48 | Of a cart exactly the lines with an id, a public id, a title and a finite positive quantity are stored, as often as there. |
| ShoppingCart.AddRaisesTotalIff | frontend/lib/cart.js:19-48 | An add raises the total by exactly the clamped quantity if and only if that is finite and the line exists or the product has its three texts. |
| ShoppingCart.CartPage.UpdateQuantity | frontend/components/Cart.jsx:178-184 | The loop over the shown cart changes each line with the key, and the result is shown and stored. |
| ShoppingCart.CartPage.RemoveItem | frontend/components/Cart.jsx:185-189 | The loop keeps the lines with another key, and the result is shown and stored. |
| ShoppingCart.KeysCollideIff | frontend/components/Cart.jsx:675-677 | Two lines share a page key if and only if id and shown option agree or one id continues the other after a colon and the options make up for it. |
| CartRules.KeyIs | frontend/components/Cart.jsx:675-677 | The page key of a line is its id and its option, or the default text without one. |
| CartRules.ChangedIs | frontend/components/Cart.jsx:178-184 | A changed quantity is the larger of 1 and the sum. |
| ShoppingCart.PlainIdsSeparate | frontend/components/Cart.jsx:675-677 | Without colons in the ids only lines that show the same id and option share a key. |
| ShoppingCart.RemovesOneIff | frontend/components/Cart.jsx:185-189 | A removal removes just its line if and only if no other line has the key. |
| ShoppingCart.UpdatesOneIff | frontend/components/Cart.jsx:178-184 | A change by the key of a line changes just that line if and only if every other line with the key has a quantity that the change leaves as it is; no quantity falls below 1. |
| ShoppingCart.UpdatesOne | frontend/components/Cart.jsx:178-184 | With an own key one quantity changes, and the total by as much. |
| ShoppingCart.CartPage.StoreGroups | frontend/components/Cart.jsx:195-202 | The grouping loop lists the stores in order of first lines, each with its lines. |
| ShoppingCart.GroupsPartition | frontend/components/Cart.jsx:195-202 | The groups partition the cart and keep its order. |
| ShoppingCart.CartPage.StartCheckout | frontend/components/Cart.jsx:272-312 | Which checkout starts, with what order, or why none does. |
| ShoppingCart.CartPage.FinishCheckout | frontend/components/Cart.jsx:313-318 | A confirmed checkout puts the cart of its start without the ordered lines in place, by a loop over it; a failed one changes nothing. |
| ShoppingCart.ChosenIsSupported | frontend/components/Cart.jsx:213-219 | Some line of the group supports the option in effect, so the check for an empty order never fires. |
| ShoppingCart.CheckoutSplits | frontend/components/Cart.jsx:213-219 | A checkout splits the cart: ordered lines are all of the store and support the option, the others are not, and together they are the cart. |
| CheckoutRules.CheckoutDecides | frontend/components/Cart.jsx:272-312 | A checkout starts if and only if the named store has a line in the cart and there are a user, an option and a wallet, and the first that is missing is the refusal; it orders, in the order of the cart, all lines of the store that can be paid with the selected option, or with the first that is offered if that is not. |
| CartRules.StepIs | frontend/components/Cart.jsx:178-318 | Every event of the page has its effect on the shown and the stored cart and on the waiting checkouts, and no other. |
| CartRules.PurchaseIs | frontend/components/Cart.jsx:301-318 | A purchase takes its order out of the cart and the next ones buy from the rest; one that cannot start changes nothing. |
| ShoppingCart.PurchasesConserve | frontend/components/Cart.jsx:301-318 | Over any sequence of purchases one at a time no line is lost, ordered twice, or ordered and kept. |
| ShoppingCart.CheckoutsConserveIff | frontend/components/Cart.jsx:272-318 | Over every run of checkouts that start, are confirmed or fail in any order, the shown cart and all confirmed orders make up the starting cart, line by line, if and only if no order was confirmed between the start of another one and its confirmation. |
| ShoppingCart.TimelyFinish | frontend/components/Cart.jsx:313-318 | In every such run a confirmation with none since its start takes just its order out of the shown cart. |
| CartEdits.EditsSurviveIff | frontend/components/Cart.jsx:178-189 | Over every run of adds, edits and checkouts: a confirmation with none since its start takes just its order out of the shown cart, edits since included, if and only if they leave every line of the start as it was, or remove it and it was ordered. |
| CartEdits.EditedIs | frontend/components/Cart.jsx:178-189 | Edits act line by line: a cart after them is what they make of each of its lines, in order. |
| ShoppingCart.OverlappingCheckoutsRestore | frontend/components/Cart.jsx:313-318 | Of two checkouts waiting at once, the one that finishes last puts all ordered lines of the other back. |
| ShoppingCart.OverlapBringsBack | frontend/components/Cart.jsx:272-318 | Such an overlap is reachable from every state in which two stores can be ordered from. |
| ShoppingCart.RunsKeepGood | frontend/lib/cart.js:19-48 | In every run from the empty cart, overlapping checkouts included, there is at most one line for an id and option and every quantity is at least 1. |
| OperatorActions.Services.CancelOrder | app/token_payments/api/operator_actions.py:471-557 | The new audit log and handler calls, and the result, of a cancellation. |
| OperatorActions.Services.RetryOutboxMessage | app/token_payments/api/operator_actions.py:622-682 | The new audit log and port calls, and the result, of a retry. |
| OperatorActions.Services.ReplayMessage | app/token_payments/api/operator_actions.py:684-748 | The new audit log and port calls, and the result, of a replay. |
| OperatorActions.Services.RecordAudit | app/token_payments/api/operator_actions.py:889-912 | What keeping a record does, with the checks of the record and of the returned id. |
| OperatorActions.EffectOfCall | app/token_payments/api/operator_actions.py:511-557 | One call: how the log may change, and that exactly one request reaches the right collaborator for a valid call with the scopes, none for another. |
| OperatorActions.ScopesDecide | app/token_payments/api/operator_actions.py:226-232 | A valid call makes its request if and only if its actor holds "operator:action", and for a retry "outbox:retry" too; without them, if it returns, it is rejected as forbidden, and no other call is. |
| OperatorRecords.AskedIs | app/token_payments/api/operator_actions.py:471-557 | Which calls ask their collaborator, and the request field by field, keys included. |
| OperatorRecords.RecordedIs | app/token_payments/api/operator_actions.py:580-912 | The record that a call leaves field by field, with the stand-ins for missing texts, and that its reply says the same. |
| OperatorRecords.CancelStripped | app/token_payments/api/operator_actions.py:471-505 | A cancellation is taken the same with other white space around its texts. |
| OperatorRecords.OutboxStripped | app/token_payments/api/operator_actions.py:622-660 | An outbox call has its texts stripped; one of another type is taken as blank, and is safe in details only if it is JSON-safe. |
| OperatorRecords.AnswersStripped | app/token_payments/api/operator_actions.py:600-603 | The message of a refusal and the id of a repository are stripped, and nothing else of an answer changes. |
| OperatorActions.StatusIff | app/token_payments/api/operator_actions.py:1085-1096 | A result says accepted or duplicate if and only if the call reached its collaborator and that said so. |
| OperatorActions.RunReaches | app/token_payments/api/operator_actions.py:226-232 | Over any sequence of calls, handler and ports are asked once for each valid call whose actor has the scopes, in order, and never for another. |
| OperatorActions.RunAudits | app/token_payments/api/operator_actions.py:580-912 | Over any sequence of calls that return, the log gains one record a call, in order, with the outcome, key, action and target of its result. |
| OperatorActions.EndsIff | app/token_payments/api/operator_actions.py:471-912 | When a call leaves a record, and when it returns, for every call, from its arguments and the answers it gets alone. |
| OperatorActions.LostReplyIff | app/token_payments/api/operator_actions.py:580-603 | A call leaves a record and raises nevertheless if and only if it gets as far as the record (a valid call whose collaborator, if it is asked, does not raise and says why it refuses, or an outbox call with missing texts, made with claims at an aware time), and the repository keeps that but returns a blank id, or an identity or a reason in place of missing texts is not JSON-safe. |
| OperatorActions.CancelKeysSeparate | app/token_payments/api/operator_actions.py:1073-1076 | The derived key of a cancellation determines order and request. |
| OperatorActions.OutboxKeysCollideIff | app/token_payments/api/operator_actions.py:1133-1146 | Derived keys of outbox actions are equal if and only if action and kind agree and message and request do, up to moving a colon between them. |
| InventoryAggregate.PendingQuantity | app/token_payments/contexts/inventory/domain/model.py:500-508 | The validation loop sums the quantities of the pending reservations. |
| InventoryAggregate.ReserveIff | app/token_payments/contexts/inventory/domain/model.py:164-193 | A reservation is accepted if and only if its quantity is positive and the order is known or the stock covers it and its id is new; a known order changes nothing, a new one moves the quantity to reserved. |
| InventoryAggregate.ReleaseIff | app/token_payments/contexts/inventory/domain/model.py:195-205 | A release is refused if and only if the order is unknown or its reservation confirmed; a pending one gives its quantity back. |
| InventoryAggregate.ConfirmIff | app/token_payments/contexts/inventory/domain/model.py:207-217 | A confirmation is refused if and only if the order is unknown or its reservation cancelled; the quantity of a pending one leaves reserved and total stock. |
| InventoryAggregate.StockIff | app/token_payments/contexts/inventory/domain/model.py:219-245 | Stock changes are refused if and only if the quantity is not positive, exceeds what is available, or the target is below what is reserved; else they change available and total stock by the quantity, or set the total. |
| InventoryAggregate.RunsConserve | app/token_payments/contexts/inventory/domain/model.py:164-245 | Over any run of commands, refused ones included: available and reserved make up the total, reserved is what pending reservations hold, and what was confirmed has left the stock exactly once. |
| InventoryAggregate.LastCommandIs | app/token_payments/contexts/inventory/domain/model.py:164-257 | In every run each command has just its effect, or none if it is refused. |
| InventoryAggregate.OneMoreAcceptedIff | app/token_payments/contexts/inventory/domain/model.py:138-162 | One reservation more is accepted if and only if its order and id are new and its quantity is positive and, while it is pending, reserved. |
| InventoryAggregate.AcceptedIs | app/token_payments/contexts/inventory/domain/model.py:138-162 | In an accepted inventory available and reserved stock make up the total, and an order and an id have one reservation each, of a positive quantity. |
| InventoryAggregate.EmptyAcceptedIff | app/token_payments/contexts/inventory/domain/model.py:138-162 | Without reservations an inventory is accepted if and only if nothing is reserved and all of it is available. |
| InventoryAggregate.RunsKeepReservations | app/token_payments/contexts/inventory/domain/model.py:287-305 | Over any run no reservation is lost or changes its order or quantity, and a settled one stays settled. |
| InventoryAggregate.RedeliveryChangesNothing | app/token_payments/contexts/inventory/domain/model.py:174-217 | An accepted reservation, release or confirmation that is delivered again changes nothing. |

## Left out

- Rendering, hooks, browser wallets, `fetch`, cookies and storage internals: user interface and foreign calls. The two statements of `document.cookie` are not part of the refresh model.
- Git, subprocesses, containers, servers and file reading: input and output. Of the executor's git calls only whether the checkout and the push succeed is modelled.
- Timestamps and progress output of the executor: nothing depends on them. A record without a status key, on which the executor raises, is not modelled. An agent is taken to rewrite the record of its own step only, as its instructions say.
- Values of other types where metadata has a list or an object as a status, on which the validator raises; booleans, which count as integers there; white space outside ASCII.
- `generatedPublicVariantId`: the ids of new variants are truncated slugs and may collide; only reused ids are proved distinct.
- Floating-point rounding and the display of prices: deltas and cart quantities are exact numbers.
- Fractional numbers in the seed plan, identifiers that are reserved words of SQL, and what `json.dumps` writes: the JSON text is taken as given.
- Percent-decoding of path parameters, so parameters are the raw segments; upper-casing of letters outside ASCII in methods; the request guard, authentication and the decoding of query and body, which come before a handler.
- Conversion of a message body that is not bytes, and the other two ASGI scopes.
- The conservation and edit results on checkouts leave out a page that is loaded again while one waits.
- The enrichment of cart lines from the server, which keeps id, option and quantity; payment options are known by their keys, and a quantity is a number as the cart stores it.
- Response payloads, status codes and details of operator results, and the reading of requests into arguments: field tables.
- The order and payment contexts, the handlers, events and adapters of the inventory context, and the facades over them are not modelled.
- Identifiers, dates and the sale status of the inventory beyond one flag: nothing in its arithmetic depends on them.
