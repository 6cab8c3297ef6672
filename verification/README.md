# Verified model of the scenario platform

A Dafny model of the platform's core and proofs about it: the scenario compiler and
interpreter, the life of a run, the step records and the assertions that read them, the
texts hashed to identify scenarios and vendor packages, the generated vendor runtime, the
traffic generator, and the interactive demo's lock and session protocol. `dafny verify
dfyconfig.toml` checks everything.

## What is modelled

**Scenario compiler.** `Template` is `{{name}}` substitution, `Substitution` says what
comes of it in terms of the text alone, `Steps` is the step language, `Resolver` the
expansion of fragments (`Expand` and its loop form `ExpandSteps`), `FragmentCycles` and
`StepIds` its validation. The source substitutes a nested step again at every level of
nesting; `Inline` substitutes each step once. `Depth` shows that the two agree exactly on
text that has *settled*: substituted as often as its depth has it, it reads as after one
substitution. That holds at every depth exactly for *stable* text, where substituting twice
does what substituting once does. Brace-free variable values and text without braces
outside placeholders are stable; `Resolver.DepthCanShow` is an input whose text is not.

**Interpreter.** `Interpreter` is a machine whose moves are the stretches of code between
two awaits, those on the observer included: an attempt is announced, called, raced against
timeout and signal, recorded, and, once its record is written, delivers its output and
compensation. A schedule, which the theorems quantify over, chooses which activity moves
and what handlers, timers and aborts do; an activity that has lost a race stays in the tree
and keeps moving. The same machine runs resolved steps and authored steps with each
fragment in place, and `MeaningPreserved` relates the two in lock step. `Moves` follows one
move through the tree. `Attempts` shows that every run is a history of attempts and that
the step records are exactly that history; `FailFast` what failed or aborted activities can
still do, `NestedFailFast` the same of a step within a phase that goes on; `Polling` and
`AttemptBound` that each step begins a bounded number of attempts. `Words` is a grammar of
what shows of a phase, read off its resolved steps, and shows that every run keeps to it;
`Branches` and `Deliveries` draw from it which side of a condition runs and how often each
task passes; `Blame` says where the fault of a failed phase comes from. `Conditions` is
about what a condition can read, `Repository` is the in-memory store of records and leases,
`Lifecycle` adds the state machine, the phases, compensations, cleanups and the report,
`Verdicts` tells failed runs from cancelled ones, `Runs` and `Scenario` state the results
for whole runs. `Compensations` says which tasks a failed run undoes, `Coverage` in which
scenarios these are all that passed, and `Exposure`, with the schedules of `Steering`, that
there are no others.

**Hash preimages.** `CanonicalJson` works on UTF-16 code units with the escapes of section
7 of RFC 8259 and ECMAScript's escapes for unpaired surrogates, `CanonicalText` reads its
texts by the grammar of that RFC. `PackageHash` works on bytes. `Sorting` is the stable
sort both use, `Texts` separators and numerals; `Arithmetic` is division. The digests
themselves are opaque.

**Vendor runtime.** `VendorRuntime` is the generated request handler over its state,
counter and cursor stores, for arbitrary streams of requests.

**Traffic generator.** `TrafficRetry` is the retry loop with exact real backoff;
`TrafficPool` is the worker pool under every interleaving.

**Assertions.** `CallOrder` is the provider-call-order assertion; `step-passed` is in
`Attempts` and, for whole runs, in `Runs`.

**Interactive demo.** `DemoLock` is the chain of promises that serializes the operations of
a session; `DemoSession` is what hibernate, resume and stop do inside that lock.

## Where the code and its description differ

- *Package hash.* The files are sorted with `localeCompare`, which may call two different
  paths equal, so distinct paths alone do not make the hash independent of input order.
  `PackageHash.OrderIndependentIff` gives the exact condition: no two different files tie.
- *Call order.* Calls with equal timestamps keep the order in which they were recorded, and
  that order can decide the verdict (`CallOrder.OrderCanDecide`). It never does exactly when
  no selector tells two such calls apart (`CallOrder.RecordingOrderIrrelevantIff`).
- *Aborts.* An abort or the failure of a parallel member does not stop what has passed its
  last check of the signal: a handler is still called after the running record is written
  (`FailFast.CalledAfterAbort`), and output and compensation are still left after the passed
  record is (`FailFast.DeliveredAfterAbort`). `FailFast.FrozenIff` says exactly when nothing
  happens any more.
- *Compensations.* A task can be recorded PASSED and not be compensated when the run fails,
  because its compensation is registered after the compensations are listed
  (`Compensations.PassedButNotCompensated`). `Compensations.CompensatedIff` gives the exact
  condition on what is in flight, `Exposure.CompensatesIff` the one on the scenario.
- *Stopping a demo.* STOPPED says that some target was deleted. Without the action that is
  given the target's id this need not be the session's own; `DemoSession.DemoService.StopLocked`
  says when it is.
- *Conditions.* Outputs are stored under resolved step ids, in which nesting and fragments
  put dots, and paths are split at dots. So a condition cannot read the output of such a
  step by its id (`Conditions.OutputReadableIff`).
- *Substitution.* A step's text can depend on how deeply it is nested (`Resolver.DepthCanShow`);
  `Depth.DepthShowsIff` and `Depth.DepthIrrelevantIff` say exactly when.

## Model

| member | source | states |
|---|---|---|
| Template.BraceFreeIsStable | packages/scenario-engine/src/resolver.ts:167-212 | brace-free variable values and no stray opening brace in the text are enough for that |
| Template.SubstTwiceCanDifferByValue | packages/scenario-engine/src/resolver.ts:167-212 | a variable bound to a placeholder text is replaced again by a second substitution |
| Substitution.FoundIff | packages/scenario-engine/src/resolver.ts:189-190 | the scanner finds a placeholder exactly where two opening braces, a name and two closing braces stand |
| Substitution.CutUnique | packages/scenario-engine/src/resolver.ts:188-190 | a text is cut in one way into literal pieces and placeholders, such that no placeholder begins in a piece |
| Substitution.TextWoven | packages/scenario-engine/src/resolver.ts:188-205 | a text becomes these pieces with the variables' strings, numerals, "true" or "false" between them; it fails exactly when one of the names is undefined or bound to null, an array or an object, and names the first such |
| Substitution.StringBecomes | packages/scenario-engine/src/resolver.ts:171-206 | a text that is one placeholder becomes the value of the variable, of any type; every other one becomes the text just described |
| Substitution.SubstIff | packages/scenario-engine/src/resolver.ts:167-212 | substitution succeeds with a value exactly when that has the same shape and keys and each text in it is what the text there becomes; it fails exactly when some text cannot become anything |
| Substitution.OwnIff | packages/scenario-engine/src/resolver.ts:121-165 | so it is for every text field of a step: the input, the compensation's input, and both sides of a condition |
| Steps.BraceFreeStepsStable | packages/scenario-engine/src/resolver.ts:128-131 | brace-free values and templated text make every step, nested ones included, stable |
| Resolver.ExpandSteps | packages/scenario-engine/src/resolver.ts:83-119 | the loop that pushes each step's expansion and stops at the first error computes the recursive `Expand`, and always terminates |
| Resolver.ExpandConcat | packages/scenario-engine/src/resolver.ts:90-118 | expanding two lists after one another concatenates the results; the first error is the outcome |
| Resolver.FirstErrorWins | packages/scenario-engine/src/resolver.ts:91-117 | an error in a prefix of the list is the error of the whole list |
| Resolver.BraceFreeScopeStable | packages/scenario-engine/src/resolver.ts:167-212 | brace-free variables and templated fragments make a scope stable |
| Resolver.DepthCanShow | packages/scenario-engine/src/resolver.ts:128-137 | with a variable whose value is a placeholder, the same task has different text at the top of a phase and inside a parallel step |
| Depth.NestedText | packages/scenario-engine/src/resolver.ts:128-137 | inside n parallel steps a text is substituted n + 1 times, and expansion fails exactly when one of these substitutions does |
| Depth.TextAtIff | packages/scenario-engine/src/resolver.ts:128-137 | inside n parallel steps a text that can be substituted becomes what it becomes at the top of a phase exactly when n + 1 substitutions do what one does |
| Depth.DepthIrrelevantIff | packages/scenario-engine/src/resolver.ts:128-137 | it is the same at every depth exactly when substituting twice does what substituting once does |
| Depth.StableSettled | packages/scenario-engine/src/resolver.ts:128-137 | text for which that holds has settled wherever it stands, in fragments too |
| Depth.SettledExpands | packages/scenario-engine/src/resolver.ts:83-165 | where the text has settled and the expansion that substitutes each step once succeeds, the expansion of the source gives the same tree |
| Depth.AgreeSettled | packages/scenario-engine/src/resolver.ts:83-165 | where both give the same tree, every text has settled |
| Depth.DepthShowsIff | packages/scenario-engine/src/resolver.ts:83-165 | on settled text the expansion of the source succeeds exactly when the one that substitutes each step once does; and where both succeed they give the same tree exactly when the text has settled |
| Depth.ExpandIsInline | packages/scenario-engine/src/resolver.ts:83-165 | on stable text the two succeed together, with the same tree |
| FragmentCycles.ReferenceIssues | packages/scenario-engine/src/resolver.ts:242-265 | reference validation reports nothing exactly when every fragment used, at any depth, is defined |
| FragmentCycles.FailureIsCycle | packages/scenario-engine/src/resolver.ts:83-165 | with the references and substitutions of everything reachable in order, the only failure is a cycle error, and its path is a walk along uses that repeats a fragment |
| FragmentCycles.SuccessHasNoCycle | packages/scenario-engine/src/resolver.ts:83-165 | when expansion succeeds no walk along uses from the steps repeats a fragment or meets the stack, and every fragment reached is complete |
| FragmentCycles.ExpandsIff | packages/scenario-engine/src/resolver.ts:83-165 | for any steps and scope: expansion succeeds exactly when every reference and every substitution at its depth, in the steps and all fragments reachable from them, is in order and no fragment cycle is reachable |
| FragmentCycles.CycleErrorIffCycleReachable | packages/scenario-engine/src/resolver.ts:83-165 | with references and substitutions in order, expansion fails, always with a cycle error, exactly when a fragment cycle is reachable through parallel, repeat and both branches |
| FragmentCycles.JourneyExpansion | packages/browser-config/src/resolver.ts:68-87 | the journey expander gives the same actions, or the same error with the same path, as the scenario expander on the lifted journey |
| FragmentCycles.JourneyCycleIff | packages/browser-config/src/resolver.ts:68-87 | a journey with defined references fails, always with a cycle error, exactly when a fragment cycle is reachable |
| StepIds.UnderOne | packages/scenario-engine/src/resolver.ts:92-92 | no id lies below two different siblings of one list |
| StepIds.ExpandedIdsDistinct | packages/scenario-engine/src/resolver.ts:83-165 | all ids in an expanded tree are pairwise distinct and each lies below the authored step it came from |
| StepIds.AssertPhaseIdsDistinct | packages/scenario-engine/src/resolver.ts:24-31 | reserving `system-assertions` keeps the assert phase distinct when that task is appended |
| StepIds.IdValidator.constructor | packages/scenario-engine/src/resolver.ts:215-215 | validation starts with no key seen and no issue |
| StepIds.IdValidator.VisitSteps | packages/scenario-engine/src/resolver.ts:216-233 | the visit that updates the set of keys and the issue list in place computes the function `Visit` |
| StepIds.VisitSound | packages/scenario-engine/src/resolver.ts:216-233 | a list visited without an issue has distinct siblings at every level, and none of its keys was seen before |
| StepIds.SiblingsQuiet | packages/scenario-engine/src/resolver.ts:216-233 | a list with distinct siblings at every level adds no issue, and only keys within its own label |
| StepIds.ValidateIff | packages/scenario-engine/src/resolver.ts:214-240 | id validation reports nothing exactly when sibling ids are distinct in every list of every phase and fragment |
| MeaningPreserved.FetchAgreesWithTree | packages/scenario-engine/src/executor.ts:207-223 | the next authored step, entering and leaving fragments as needed, resolves to the head of the resolved steps, and what is left to their tail |
| MeaningPreserved.MembersAgree | packages/scenario-engine/src/executor.ts:313-335 | the members of an authored parallel step resolve one by one to those of the resolved step |
| MeaningPreserved.StartAgrees | packages/scenario-engine/src/executor.ts:256-380 | starting a step in either form, whichever side a condition selects, gives activities that resolve to one another; which side that is, `Branches` says |
| MeaningPreserved.NextAgrees | packages/scenario-engine/src/executor.ts:193-541 | every move takes the authored and the resolved activity to states that resolve to one another, with the same store |
| MeaningPreserved.PlayAgrees | packages/scenario-engine/src/executor.ts:193-541 | so does every schedule |
| MeaningPreserved.ResolutionPreservesMeaning | packages/scenario-engine/src/resolver.ts:83-212 | wherever repeated substitution is harmless, under every schedule of a phase, the resolved tree and the authored steps with fragments in place make the same invocations with the same inputs and attempt numbers, the same outputs, records, compensations and cleanups, and the same outcome |
| Moves.CompletedQuiet | packages/scenario-engine/src/executor.ts:309-340 | an activity whose promise is fulfilled has nothing in flight below it |
| Moves.CompletedStays | packages/scenario-engine/src/executor.ts:309-340 | a fulfilled activity makes no further move |
| Moves.MoveSwaps | packages/scenario-engine/src/executor.ts:193-541 | a move touches at most one task or poll step; everything in flight elsewhere stays as it is |
| Moves.FindTouch | packages/scenario-engine/src/executor.ts:193-541 | whatever is in flight anywhere can be moved on by some move |
| Moves.OtherMovesAddUp | packages/scenario-engine/src/executor.ts:61-68 | over any schedule the clock goes on by the time that passes, the cleanups are those registered, in order, and the run's signal keeps the reason it was first aborted for; no step changes any of them |
| Words.LeafSaysAll | packages/scenario-engine/src/executor.ts:382-541 | one move of a task or poll step, as it shows from outside, is what a grammar of attempts allows next: the race goes to the handler's answer, the timeout or the signal; a failure is recorded CANCELLED exactly on a cancellation; the step goes on exactly while attempts are left and neither that nor an aborted signal stops it; a poll step goes on exactly until its condition holds, after its interval and within its time |
| Words.NextSays | packages/scenario-engine/src/executor.ts:193-541 | whatever an activity may still show after a move, it may show that and, before it, what the move shows |
| Words.PhaseSays | packages/scenario-engine/src/executor.ts:193-541 | under every schedule what a phase shows is a word of a grammar over its resolved steps that knows nothing of activities: steps one after another, each begun when the one before has passed; all members of a parallel step in any order; a repeat's steps exactly as often as it says; the side of a condition that its verdict selects; a whole word once the phase is fulfilled |
| Branches.TraceCounts | packages/scenario-engine/src/executor.ts:478-490 | the counter of a step grows by exactly the attempts that show |
| Branches.ListChosen | packages/scenario-engine/src/executor.ts:364-380 | in every such word all that shows of a step on one side of a condition comes after the condition has started, and the outputs at its last start decided for that side |
| Branches.OutputDecides | packages/scenario-engine/src/executor.ts:364-380 | in every phase and schedule, for a condition on an output: until it starts again, no step of `else` begins an attempt if the output had the expected value when it started, and none of `then` if it had not |
| Branches.VariableDecides | packages/scenario-engine/src/executor.ts:364-380 | the same for a condition on a variable |
| Deliveries.PhaseDelivers | packages/scenario-engine/src/executor.ts:193-380 | however a phase goes, a task leaves its output at most as often as repeats, parallel steps and the larger side of each condition say, and once the phase is fulfilled at least as often as with the smaller side: exactly so often where no condition decides |
| Deliveries.SelectedSidePasses | packages/scenario-engine/src/executor.ts:364-380 | for any outputs, a condition has a schedule with which it passes and each task of the selected side leaves its output as often as that side asks, while no step of the other side begins an attempt |
| Blame.PhaseBlames | packages/scenario-engine/src/executor.ts:309-340 | what a failed phase throws is a fault with which one of its steps showed to stop, a timeout of a timer that fired, the type error of a condition whose path is no text, an abort reason of the run, or what `throwIfAborted` makes of one of these |
| Attempts.LeafEffect | packages/scenario-engine/src/executor.ts:382-541 | whatever the retry, poll or timeout branch, a move of a task or poll step has one effect or none, as the independent definition `Apply` says: an attempt takes the next number and begins its running record; its handler is called; its result is recorded; a recorded pass leaves its output and a task's compensation |
| Attempts.MoveEffect | packages/scenario-engine/src/executor.ts:193-541 | the same for a move of a run, with what it does to the attempts that are open, still to be called, and in flight |
| Attempts.EffectExact | packages/scenario-engine/src/executor.ts:482-534 | each such effect keeps the records exactly those of attempts 1..k of each step, RUNNING exactly for those without a result |
| Attempts.EffectHanded | packages/scenario-engine/src/executor.ts:494-505 | each keeps this: every attempt was invoked once, or is still to be |
| Attempts.RecordsRefineHistory | packages/scenario-engine/src/executor.ts:478-539 | every schedule keeps one record per attempt, numbers 1..k without gap or reuse, one invocation each or one outstanding, statuses RUNNING exactly while there is no result, and never changes a final record |
| Attempts.RunRecordsRefineHistory | packages/scenario-engine/src/executor.ts:478-539 | from the empty store of a fresh run this holds after any schedule |
| Attempts.HistoryExplains | packages/scenario-engine/src/executor.ts:193-541 | every schedule is explained by a history of attempts that begin, are invoked, recorded and delivered, each only while it is in flight at that stage: counters, records, invocations, outputs and compensations are those of replaying it |
| Attempts.ReplayOutputs | packages/scenario-engine/src/executor.ts:414-453 | in a history the output of a step is the last one it delivered |
| Attempts.FindUpsert | packages/scenario-engine/src/memory-repository.ts:238-249 | after an upsert a key has the new status if it is the written one, and its old status otherwise |
| FailFast.RejectedStays | packages/scenario-engine/src/executor.ts:193-541 | a rejected promise stays rejected with the same fault, whatever still moves below it |
| FailFast.NextGuarded | packages/scenario-engine/src/executor.ts:309-340 | every move keeps this: where a promise has rejected and something below it can still move, its signal is aborted |
| FailFast.CutTouch | packages/scenario-engine/src/executor.ts:478-541 | whatever a move touches in an activity that is aborted or has rejected sees an aborted signal, or has ended |
| FailFast.CutConserves | packages/scenario-engine/src/executor.ts:478-541 | once the signal of a phase is aborted, or it has rejected, it begins no attempt under any schedule; the handlers it still calls, and the compensations and outputs it still leaves, are those of the attempts announced or passing at that point, each at most once |
| FailFast.FrozenIff | packages/scenario-engine/src/executor.ts:485-517 | such a phase changes nothing under any schedule exactly when no attempt in flight is announced, or passing with a compensation or an output that differs from the one stored |
| FailFast.PhaseFailsFast | packages/scenario-engine/src/executor.ts:207-340 | so it is with every phase once it has rejected, however it came there; its fault stays |
| FailFast.AbortFreezesIff | packages/scenario-engine/src/executor.ts:478-541 | and with every phase once it is aborted |
| NestedFailFast.NextMovesNode | packages/scenario-engine/src/executor.ts:309-340 | a move of a phase is a move of the step below it that has failed or timed out, or leaves that step as it is; nothing above it completes |
| NestedFailFast.FailedConserves | packages/scenario-engine/src/executor.ts:309-340 | a parallel step that has failed, or a step that has timed out, anywhere in a phase and while everything around it goes on: it keeps its fault, no attempt begins below it, and the handlers still called there and the compensations and outputs still left there are those that were due there, each at most once |
| NestedFailFast.StepFailsFast | packages/scenario-engine/src/executor.ts:309-340 | so it is in every phase, however it came there |
| FailFast.CalledAfterAbort | packages/scenario-engine/src/executor.ts:481-505 | a run of one task, aborted while the running record is written, calls the handler nevertheless |
| FailFast.DeliveredAfterAbort | packages/scenario-engine/src/executor.ts:505-517 | aborted while the passed record is written, it leaves output and compensation nevertheless |
| Attempts.RejectionLeavesSiblings | packages/scenario-engine/src/executor.ts:313-335 | when the last failed attempt of a member has been recorded, the parallel step rejects with its fault and its group is aborted unless it was, while every other member stays where it is, whatever deadlines, signals and earlier aborts there are |
| Attempts.StepPassedIffLastAttemptPassed | packages/assertion-engine/src/evaluator.ts:128-132 | on such records `step-passed` holds exactly when the step was attempted and its last attempt passed |
| Polling.LeafSpends | packages/scenario-engine/src/executor.ts:382-541 | every move of a task or poll step pays for the attempt it begins, out of what its retries, and for a poll the rounds before its deadline, allow |
| AttemptBound.NextPays | packages/scenario-engine/src/executor.ts:193-541 | every move of a tree of activities pays for the attempt of a step it begins out of what the tree still allows that step: retries for a task, retries in each round that fits into its time for a poll, times the rounds of a repeat |
| AttemptBound.PhaseBounded | packages/scenario-engine/src/executor.ts:207-223 | whatever handlers answer and however long a phase goes on, each step begins at most the attempts its resolved steps allow it, if the polls with that id have positive intervals |
| AttemptBound.PhasesBounded | packages/scenario-engine/src/executor.ts:83-101 | so it does over all phases and until the compensations are listed |
| AttemptBound.RunBounded | packages/scenario-engine/src/executor.ts:83-122 | so it does in a whole run |
| Conditions.OutputPath | packages/scenario-engine/src/executor.ts:659-668 | a path below `outputs` walks the record of outputs by the segments between dots |
| Conditions.OutputReadableIff | packages/scenario-engine/src/executor.ts:648-668 | a condition reads the output of a step by its id, in every run, exactly when the id has no dot |
| Conditions.OutputCondition | packages/scenario-engine/src/executor.ts:648-657 | a condition on the output of a step at the top of a phase holds exactly when the step has an output and it is the expected value |
| Conditions.WalkSegments | packages/scenario-engine/src/executor.ts:659-668 | a path is walked segment by segment: each takes a member of an object, and there is nothing below anything else |
| Conditions.VariableCondition | packages/scenario-engine/src/executor.ts:648-668 | a condition on a variable holds exactly when the variable has the expected value |
| Conditions.CurrentCondition | packages/scenario-engine/src/executor.ts:648-657 | the condition `$` of a poll step holds exactly when its handler has just left the expected output |
| Repository.UpsertAtIndex | packages/scenario-engine/src/memory-repository.ts:238-249 | the recursive upsert overwrites at the first index with the key, or appends |
| Repository.MemoryRepository.RecordStep | packages/scenario-engine/src/memory-repository.ts:77-85 | recording a step upserts it under its step id and attempt and touches no other run |
| Repository.MemoryRepository.CreateResourceLease | packages/scenario-engine/src/memory-repository.ts:149-154 | a lease id is accepted once and then is active for its run |
| Repository.MemoryRepository.ReleaseResourceLease | packages/scenario-engine/src/memory-repository.ts:156-164 | afterwards the lease is active for no run, all others are unchanged, and unknown or released leases change nothing |
| Repository.MemoryRepository.ListActiveResourceLeases | packages/scenario-engine/src/memory-repository.ts:166-172 | lists the leases of the run created and not released |
| Repository.MemoryRepository.RequestCancellation | packages/scenario-engine/src/memory-repository.ts:61-66 | accepted exactly while a known run has neither ended nor begun to clean up; a refusal changes nothing |
| Lifecycle.RunStateMachine.constructor | packages/scenario-engine/src/state-machine.ts:22-24 | a machine starts in CREATED |
| Lifecycle.RunStateMachine.Transition | packages/scenario-engine/src/state-machine.ts:34-40 | a transition in the table moves the machine; any other is refused and changes nothing |
| Lifecycle.TransitionIff | packages/scenario-engine/src/state-machine.ts:3-17 | the table has exactly the steps of a run that meets no obstacle, cancelling from any of these statuses but the last, failing from those after CREATED, and CLEANUP after an outcome and the reported status after CLEANUP |
| Lifecycle.EnterPhases | packages/scenario-engine/src/executor.ts:83-102 | the phase loop ends as the specification of the phases says, with the machine in the last phase entered |
| Lifecycle.Compensate | packages/scenario-engine/src/executor.ts:122-151 | every pending compensation runs once in the order given, whatever the others do; its failures and the cleanups it registers are all kept |
| Lifecycle.RunCleanups | packages/scenario-engine/src/executor.ts:152-168 | every cleanup of the snapshot runs once in the order given, whatever the others do |
| Lifecycle.CleanUp | packages/scenario-engine/src/executor.ts:118-168 | compensations run newest first exactly when the outcome is not a pass, then all cleanups registered until then, newest first |
| Lifecycle.LeavePhases | packages/scenario-engine/src/executor.ts:102-121 | from any phase the outcome and then CLEANUP are reached by legal transitions, through CANCELLING if cancelled |
| Lifecycle.Conclude | packages/scenario-engine/src/executor.ts:102-190 | the report accounts for the phases, compensations, cleanups, leases and verdict, and its status is the machine's; `Lifecycle.StatusIff` says what the verdict is |
| Lifecycle.ExecuteScenario | packages/scenario-engine/src/executor.ts:48-191 | every run that ends gives that account and emits a legal path: VALIDATING first, exactly one CLEANUP, last the reported status, which is terminal; it is CANCELLED exactly when the phases threw a cancellation or threw while the run's signal was aborted for another reason than its timeout, FAILED exactly when they threw otherwise or, after a pass, a cleanup failed; and CANCELLING is on the path exactly for CANCELLED |
| Lifecycle.StatusIff | packages/scenario-engine/src/executor.ts:103-181 | that of every accounted run |
| Verdicts.NeverCancelled | packages/scenario-engine/src/executor.ts:103-113 | a run that its caller does not abort and whose handlers do not reject as cancelled is never CANCELLED, even if timers, its own included, abort it: it is FAILED exactly when its phases throw or a cleanup fails |
| Verdicts.LateMovesKeepVerdict | packages/scenario-engine/src/executor.ts:103-113 | what goes on after the phases have thrown, an abort included, does not change what they threw nor the verdict |
| Lifecycle.EveryPathLegal | packages/scenario-engine/src/state-machine.ts:3-17 | any number of phases followed by any outcome, CLEANUP and a terminal status is a path of the transition table (a pass only after all phases) |
| Lifecycle.PathIsLegal | packages/scenario-engine/src/executor.ts:70-174 | the path of any accounted run is legal from CREATED, with one CLEANUP and a terminal last status |
| Lifecycle.PassedIff | packages/scenario-engine/src/executor.ts:169-181 | a run is reported PASSED exactly when its phases threw nothing, every cleanup that was due succeeded, and every lease among them could be reported released |
| Lifecycle.LeasesAccounted | packages/scenario-engine/src/executor.ts:152-168 | each lease in the snapshot whose cleanup succeeds is reported released and no other is; there is one error for each cleanup that fails, its own or that of reporting the release |
| Scenario.AssertsExpand | packages/scenario-engine/src/resolver.ts:37-65 | resolving the assert phase and appending the assertion task equals resolving it with that task authored at its end |
| Scenario.BraceFreeConfigSettled | packages/scenario-engine/src/resolver.ts:167-212 | a configuration with brace-free values and no brace outside placeholders satisfies the hypothesis of the next theorems |
| Scenario.SettledConfigIff | packages/scenario-engine/src/resolver.ts:37-65 | where all phases can be expanded substituting each text once, resolution gives exactly those phases if and only if every text has settled |
| Scenario.RunPreservesMeaning | packages/scenario-engine/src/executor.ts:83-112 | on settled text, in every world, a whole run of the resolved scenario enters the same phases, leaves the same store and ends with the same error as running the authored phases with fragments in place, and every report accounts for the one exactly when it accounts for the other |
| Runs.ReplayGains | packages/scenario-engine/src/executor.ts:414-417 | in a history compensations are registered exactly by the tasks that deliver, in that order |
| Runs.RunStretch | packages/scenario-engine/src/executor.ts:83-112 | all phases of a run together, and what moves until the compensations are listed, are one history of attempts; records stay exact and final ones are kept; what was owed is registered or in flight |
| Runs.RunExplained | packages/scenario-engine/src/executor.ts:83-122 | so it is for a run from an empty store |
| Runs.StepPassedAfterRun | packages/assertion-engine/src/evaluator.ts:128-132 | after a run `step-passed` holds exactly for steps whose last attempt, in whichever phase, passed |
| Compensations.CompensatedIff | packages/scenario-engine/src/executor.ts:118-122 | when a run fails or is cancelled it compensates what is registered when the compensations are listed, the last first; these are the compensations of all tasks recorded PASSED exactly when none of those tasks is still in flight then |
| Compensations.PassedButNotCompensated | packages/scenario-engine/src/executor.ts:414-417 | a task beside one that fails in a parallel step: at the end of this schedule it is recorded PASSED, its compensation is still to be registered, and the run has compensated nothing |
| Coverage.CoveredRun | packages/scenario-engine/src/executor.ts:313-335 | where no task with a compensation stands below a timeout of a step, or below a parallel step in a member beside which another could fail, none of them is in flight when a run ends, in any schedule |
| Coverage.CoveredCompensated | packages/scenario-engine/src/executor.ts:118-122 | there a failed or cancelled run compensates exactly the tasks recorded PASSED |
| Steering.ListPasses | packages/scenario-engine/src/executor.ts:193-458 | tasks, poll steps that wait for their handler's answer, repeats, parallel steps and conditions, wherever they stand and whatever the outputs, have a schedule under which they all pass |
| Exposure.RunFails | packages/scenario-engine/src/executor.ts:309-340 | where such a task can be left behind, some schedule runs to it, passes it, and fails the run before its compensation is registered |
| Exposure.CompensatesIff | packages/scenario-engine/src/executor.ts:118-122 | for scenarios of tasks, parallel steps and repeats: every failed or cancelled run compensates exactly its tasks recorded PASSED if and only if the scenario satisfies that condition |
| Scenario.ResolvedIdsAreDistinct | packages/scenario-engine/src/resolver.ts:17-65 | a scenario that validation passes has pairwise distinct step ids in every resolved phase, repeated uses of one fragment included |
| Sorting.SortIgnoresOrder | packages/config-loader/src/hash.ts:11-13 | sorting gives the same list for every input order when no two different elements tie |
| Sorting.OrderMattersForTies | packages/config-loader/src/hash.ts:11-13 | when two different elements tie, two input orders sort differently |
| CanonicalJson.EscapeDecodes | packages/scenario-engine/src/hash.ts:8-10 | an escaped string ends where its closing quote is and stands for one string, whatever follows it |
| CanonicalJson.JoinedDecodes | packages/scenario-engine/src/hash.ts:11-18 | a comma-separated list of texts that cannot be confused splits in one way |
| CanonicalJson.DocumentsApart | packages/scenario-engine/src/hash.ts:7-19 | inside a larger document, two canonical texts followed by anything are equal only if the texts and what follows are |
| CanonicalJson.SameHasSameText | packages/scenario-engine/src/hash.ts:15-18 | documents equal up to member order have the same canonical text |
| CanonicalJson.SameTextIsSame | packages/scenario-engine/src/hash.ts:7-19 | documents with the same canonical text are equal up to member order |
| CanonicalJson.CanonicalIffSame | packages/scenario-engine/src/hash.ts:7-19 | the hashed text is equal exactly for documents equal up to the order of object members |
| CanonicalText.EscapeLiteral | packages/scenario-engine/src/hash.ts:8-10 | the inside of a string literal stands for the string, read by section 7 of RFC 8259 |
| CanonicalText.EscapeChoice | packages/scenario-engine/src/hash.ts:8-10 | a code unit is written as itself wherever it may be and is no unpaired surrogate, else by the two-unit escape if there is one, else by four lower-case hexadecimal digits |
| CanonicalText.CanonicalDenotes | packages/scenario-engine/src/hash.ts:7-19 | the canonical text is a JSON text without white space, by the grammar of RFC 8259, and stands for the document with the members of each object in order |
| CanonicalText.MembersInOrder | packages/scenario-engine/src/hash.ts:15-18 | these members are those of the document, and in the order of their keys |
| CanonicalText.TextLeIff | packages/scenario-engine/src/hash.ts:15-16 | which is by the first code unit that differs, a shorter key before those that it begins |
| PackageHash.PrefixedDecodes | packages/config-loader/src/hash.ts:20-22 | a length-prefixed byte string can be read back from any continuation, whatever bytes it holds |
| PackageHash.DecimalReads | packages/config-loader/src/hash.ts:20-22 | a length is written in ASCII decimal digits, without leading zeros |
| PackageHash.EncodeReads | packages/config-loader/src/hash.ts:20-28 | what is fed for a file is, place by place, the decimal length of the path, a colon, the path, a colon, the same for the content, and a newline |
| PackageHash.PreimageInjective | packages/config-loader/src/hash.ts:11-28 | different file lists have different preimages, also when paths or contents hold digits, colons or newlines |
| PackageHash.Hash.UpdatePrefixed | packages/config-loader/src/hash.ts:20-22 | feeding length, colon and bytes appends the length-prefixed bytes |
| PackageHash.HashPackage | packages/config-loader/src/hash.ts:8-30 | the loop of updates feeds exactly the preimage of the sorted files |
| PackageHash.OrderIndependentIff | packages/config-loader/src/hash.ts:11-13 | the preimage is the same for every input order exactly when no two different files compare as equal |
| PackageHash.SamePreimageSameFiles | packages/config-loader/src/hash.ts:8-31 | packages with the same preimage hold the same files |
| VendorRuntime.Handler.constructor | packages/vendor-compiler/src/stateful-script.ts:125-150 | the stores start preloaded: initial state, zero counters, no cursors |
| VendorRuntime.Handler.Handle | packages/vendor-compiler/src/stateful-script.ts:362-397 | the script's in-place updates of its stores and its reply are those of the specification `Serve`; `VendorRuntime.ServeStream` says what the replies are |
| VendorRuntime.SelectClosedForm | packages/vendor-compiler/src/stateful-script.ts:232-274 | with the cursor of the k-th request a sequence answers with the step its policy names and stores the cursor of request k + 1 |
| VendorRuntime.CursorClosedForm | packages/vendor-compiler/src/stateful-script.ts:232-274 | in any stream the cursor of a case depends only on how often that case was requested |
| VendorRuntime.SequenceClosedForm | packages/vendor-compiler/src/stateful-script.ts:232-274 | the k-th request to a case is answered by step k mod n, min(k, n-1), or step k and then the terminal response, by policy, as the serving state shapes it; other cases never affect it and the cursor stays within [0, n] |
| VendorRuntime.KeysDistinct | packages/vendor-compiler/src/stateful-script.ts:237-237 | operation ids without a dot give different cases different cursor keys |
| VendorRuntime.StateIssues | packages/config-loader/src/loader.ts:187-214 | the state checks of loading and compilation report nothing exactly when every state named is declared |
| VendorRuntime.EffectIssues | packages/vendor-compiler/src/compile.ts:599-643 | the check of one case reports nothing exactly when its effects and those of its steps name declared states |
| VendorRuntime.CountersExact | packages/vendor-compiler/src/stateful-script.ts:362-397 | after any stream the current state is declared, each counter is the number of requests served in its state, and the counters add up to all requests |
| VendorRuntime.CountersNeverReset | packages/vendor-compiler/src/stateful-script.ts:392-397 | a request adds one to the counter of the serving state and changes no other; re-entering a state keeps its count |
| VendorRuntime.OrderIrrelevantIff | packages/vendor-compiler/src/stateful-script.ts:365-376 | the order in which transitions are listed does not matter exactly when all those whose threshold is reached lead to the same state |
| VendorRuntime.FirstIs | packages/vendor-compiler/src/stateful-script.ts:365-376 | the transition taken is the first one listed out of the serving state whose threshold is reached, and there is none exactly when no threshold is |
| VendorRuntime.ServeAnswers | packages/vendor-compiler/src/stateful-script.ts:276-397 | one request: a state with an override answers with it; any other answers with what is written for the request, in the case or the sequence step or terminal response that its policy names, and with its own delay only where that has none; the state entered is the step's, else the case's, else that of that transition, else the same |
| VendorRuntime.ServeStream | packages/vendor-compiler/src/stateful-script.ts:232-397 | over any stream to validated cases, run in place, every reply is such an answer, the k-th request to a case with a sequence getting what the policy names k-th, and the next request is served in the state that this one leads to |
| VendorRuntime.ChainClosedForm | packages/vendor-compiler/src/stateful-script.ts:365-397 | along a chain of thresholds without explicit effects, its transitions listed in any order, request k is served in state j exactly between the sums of max(1, t) up to j and up to j + 1; the last state serves all later ones |
| TrafficRetry.DelaysGrowAndAreCapped | packages/traffic-generator/src/util.ts:197-205 | backoff delays never shrink from one retry to the next, are not negative and never exceed the limit |
| TrafficRetry.FirstDelay | packages/traffic-generator/src/util.ts:197-205 | the first wait is the configured delay up to the limit, and so is every other without a backoff factor |
| TrafficRetry.BackoffNext | packages/traffic-generator/src/util.ts:197-205 | before rounding, the delay after one more attempt is the factor times the one before |
| TrafficRetry.BackoffIsNearest | packages/traffic-generator/src/util.ts:197-205 | the delay before the cap is the whole number nearest to that, which begins with the configured delay |
| TrafficRetry.WholeDelaysMultiply | packages/traffic-generator/src/util.ts:197-205 | with a whole factor each delay is exactly that many times the one before, up to the limit |
| TrafficRetry.AttemptUntilDone | packages/traffic-generator/src/runner.ts:200-229 | the attempts recorded are the shortest prefix of the outcomes ending in one that is not retried or at the limit, each but the last with its delay; it throws only if the caller aborts an attempt or a wait it gets to |
| TrafficRetry.ExecuteRequest | packages/traffic-generator/src/runner.ts:194-229 | it throws exactly when the caller aborts an attempt or a wait that it gets to; otherwise that prefix with the delays of `retryDelayMs`, whose sum is at most the delay limit for each attempt but the last |
| TrafficRetry.OnlyTransientRetried | packages/traffic-generator/src/runner.ts:207-213 | what is retried is an answer with a listed status or, if the request says so, a failure of the network, never a response that is too large; what ends the attempts before the limit is none of these |
| TrafficRetry.StopUnique | packages/traffic-generator/src/runner.ts:207-228 | that prefix is unique, and where there is one nothing is cut short |
| TrafficPool.PlayValid | packages/traffic-generator/src/runner.ts:373-389 | under every interleaving each claimed request is held by exactly one worker or has its own result, unclaimed ones are untouched, and a worker stops only when none are left |
| TrafficPool.ClaimedOnce | packages/traffic-generator/src/runner.ts:377-380 | along any schedule requests are claimed once each, in order |
| TrafficPool.ResultsStored | packages/traffic-generator/src/runner.ts:376-388 | each result in a slot was stored by the worker that had claimed the request: as it finished it, or as not passed if the deadline cut it off |
| TrafficPool.FailedIsSize | packages/traffic-generator/src/runner.ts:399-402 | the failures counted are the results that have not passed |
| TrafficPool.BatchCorrect | packages/traffic-generator/src/runner.ts:355-417 | at most `concurrency` requests are in flight; when the workers finish every slot holds its own request's result; counts add up; the batch passed exactly when the deadline did not fire and every request passed |
| TrafficPool.BatchPool.constructor | packages/traffic-generator/src/runner.ts:373-374 | the pool starts with nothing claimed and empty result slots |
| TrafficPool.BatchPool.ClaimNext | packages/traffic-generator/src/runner.ts:376-380 | claiming in place is the model's claim step |
| TrafficPool.BatchPool.Store | packages/traffic-generator/src/runner.ts:382-382 | storing a result in place is the model's finish step |
| TrafficPool.BatchPool.Catch | packages/traffic-generator/src/runner.ts:383-387 | a request that throws either ends its worker or fills its own slot, as the model's interrupt step |
| TrafficPool.ExecuteBatch | packages/traffic-generator/src/runner.ts:355-417 | run in place along the events of workers and timers, a batch reports exactly when all workers have left their loops and the caller has not aborted; then each slot holds the result its worker stored for that request, the counts add up, and it passes exactly when the deadline has not fired and every request passed; it throws only after an abort |
| TrafficPool.RepeatedIdsDistinct | packages/traffic-generator/src/runner.ts:511-521 | the ids generated for repeats of one request differ |
| TrafficPool.RepeatedIdReads | packages/traffic-generator/src/runner.ts:511-521 | a generated id is the base, a dash and the ordinal in decimal digits; there is one exactly if that has at most 64 characters and leaves one of them to the base |
| CallOrder.FirstMatchIsBest | packages/assertion-engine/src/evaluator.ts:90-94 | taking the first matching call loses no assignment of the remaining selectors |
| CallOrder.VendorOnly | packages/assertion-engine/src/evaluator.ts:150-152 | fields that a selector does not give ask for nothing: selectors with a vendor alone can be assigned exactly as long as there are as many calls to it |
| CallOrder.SelectorsConjoin | packages/assertion-engine/src/evaluator.ts:150-152 | each field that it gives is one more condition, on that field of the call alone |
| CallOrder.EvaluateSorted | packages/assertion-engine/src/evaluator.ts:89-96 | on sorted calls the greedy search passes exactly when the selectors can be assigned to strictly later and later matching calls (and, if exact, the lengths agree) |
| CallOrder.ExactMeansPositionwise | packages/assertion-engine/src/evaluator.ts:95-95 | with equal lengths that means the calls match the selectors position by position |
| CallOrder.Evaluate | packages/assertion-engine/src/evaluator.ts:86-97 | the verdict on calls in recording order, and what `exact` makes of it |
| CallOrder.RecordingOrderIrrelevantIff | packages/assertion-engine/src/evaluator.ts:86-97 | the verdict is the same for every recording order, list of selectors and `exact` if and only if no two calls that tie in time can be told apart by a selector |
| CallOrder.OrderCanDecide | packages/assertion-engine/src/evaluator.ts:86-97 | two calls to different vendors at the same time: the selectors of both pass in one recording order and fail in the other |
| CallOrder.VerdictIgnoresOrder | packages/assertion-engine/src/evaluator.ts:86-97 | so recording order never matters when timestamps tell calls apart |
| DemoLock.PlayValid | apps/control-plane/src/demo-service.ts:609-625 | every history keeps each operation waiting on the one just before it in its session, and the map pointing at the last |
| DemoLock.MutualExclusionInOrder | apps/control-plane/src/demo-service.ts:609-625 | when an operation of a session has entered, all earlier ones of that session have ended |
| DemoLock.MayEnterIff | apps/control-plane/src/demo-service.ts:613-618 | a waiting operation may enter exactly when all earlier ones of its session have ended, failed ones included |
| DemoLock.EntryIffBusy | apps/control-plane/src/demo-service.ts:613-623 | the map holds an entry for a session exactly while an operation of that session waits or runs |
| DemoLock.TransitionLocks.constructor | apps/control-plane/src/demo-service.ts:609-613 | the map starts empty |
| DemoLock.TransitionLocks.Queue | apps/control-plane/src/demo-service.ts:613-617 | queuing in place is the model's arrival |
| DemoLock.TransitionLocks.Begin | apps/control-plane/src/demo-service.ts:618-620 | entering is the model's entry |
| DemoLock.TransitionLocks.Release | apps/control-plane/src/demo-service.ts:621-624 | releasing in place is the model's leaving, and drops the entry only if it is this operation's |
| DemoLock.Serve | apps/control-plane/src/demo-service.ts:609-625 | served in place along any events, the operations that have ended are listed without one that arrived earlier in its session coming later |
| DemoSession.DemoService.constructor | apps/control-plane/src/demo-service.ts:719-723 | a service starts without live runtimes from whatever an earlier one stored, and the invariant holds |
| DemoSession.DemoService.Invoke | apps/control-plane/src/demo-service.ts:1133-1180 | an unavailable action fails without effect; otherwise the call is logged and leases are only added |
| DemoSession.DemoService.CleanUp | apps/control-plane/src/demo-service.ts:1048-1055 | a lease registered since the runtime was made is cleaned up by its own cleanup, any other by its cleaner, which is given its key, and it fails when there is neither |
| DemoSession.OrderExact | apps/control-plane/src/demo-service.ts:1031-1070 | the leases that a suspension or a stop cleans up are the held ones, newest first and each once, but for those of a target that is excluded or has already been deleted |
| DemoSession.DemoService.SuspendRuntime | apps/control-plane/src/demo-service.ts:1031-1070 | suspending never deletes the target; when it succeeds, it has made exactly the calls that clean up each held lease but the target's once, newest first, and then run every cleanup of the runtime; no runtime is live and, with the target's lease included, no lease is active; at a failure it has made no further call |
| DemoSession.DemoService.HibernateTarget | apps/control-plane/src/demo-service.ts:660-680 | without the action, or when it fails, no further call is made and nothing is suspended; when all succeeds the calls are that of `target.hibernate-run` with the session's target and then exactly those of a suspension |
| DemoSession.DemoService.HibernateUnlocked | apps/control-plane/src/demo-service.ts:634-694 | never deletes the target; a session that was not hibernated and is returned has had `target.hibernate-run` called first, with its target, and then exactly the calls of a suspension, and is HIBERNATED without active lease or live runtime; if that action is unavailable or fails nothing is suspended and the operation throws; a failure past the checks leaves the session FAILED with its workspace kept; a session that is already hibernated is returned, one that cannot be is refused, and neither changes anything |
| DemoSession.DemoService.RecoverLeases | apps/control-plane/src/demo-service.ts:836-854 | all old leases are released without cleaning up the target; the calls are exactly those of the cleaners there are for the held ones, newest first |
| DemoSession.DemoService.RestartTarget | apps/control-plane/src/demo-service.ts:871-974 | succeeds only if the prepared target is the saved one and every action is available; the calls are then prepare, resume with the target, and each of the further actions, in order; deletes nothing |
| DemoSession.DemoService.ResumeSession | apps/control-plane/src/demo-service.ts:819-1001 | a resume ends READY with a live runtime, after exactly the calls that read the profiles, recover the leases and restart the target; or it leaves the session RESUMING with its target and password |
| DemoSession.DemoService.ResumeLocked | apps/control-plane/src/demo-service.ts:696-717 | never deletes the target, also on failure; a hibernated session that is returned has had exactly the calls of a resume; a failed resume ends HIBERNATED, or FAILED with its workspace kept; a session that is READY or ACTIVE is returned, any other that is not hibernated with its target and password is refused, and neither changes anything |
| DemoSession.DemoService.DeleteTarget | apps/control-plane/src/demo-service.ts:1188-1211 | the target counts as deleted only after a delete action succeeded: the one that is given the session's target id if it exists, else the one that goes by the run |
| DemoSession.StopDeletes | apps/control-plane/src/demo-service.ts:1182-1254 | of the calls of a stop that succeeds for a session with a target exactly one deletes a target, the one that the available actions and the leases decide |
| DemoSession.DemoService.CleanupSession | apps/control-plane/src/demo-service.ts:1182-1254 | without an error the calls are exactly the deletion, the cleanup of each held lease newest first, and the cleanups of the runtime, every lease is released and the runtime is gone; whatever fails, every lease that is left has a cleanup that was called and failed or does not exist, and all cleanups of the runtime are run at the end |
| DemoSession.DemoService.StopLocked | apps/control-plane/src/demo-service.ts:724-751 | a session that ends STOPPED has its password cleared and no active lease or runtime, otherwise it ends FAILED; its own target is confirmed deleted exactly when it is the one that is gone: always if the action given its id exists, else what goes by the run at that call if there is an action for that, else what the newest target lease's own cleanup deletes, or a cleaner by the id the lease carries; a session already STOPPED is returned without any call; the calls of a stop that succeeds are exactly those of its cleanup |
| DemoSession.DemoService.RunOperations | apps/control-plane/src/demo-service.ts:627-751 | over any sequence of locked operations the invariant holds, and without a stop nothing deletes the target or changes its id or the password |

## Left out

- Scenario ids, action names, fragment names and option numbers are not run through substitution in the model; the schema leaves no braces in them.
- The order in which two errors inside one step are reported, and of errors between assertions and phases, is not modelled; an absent `else` is the empty list.
- Names such as `constructor` that JavaScript finds on every object's prototype are not special in the model.
- Values that JSON cannot print (undefined members, NaN, infinities) are not documents of the model; a number is represented by the numeral that is printed for it.
- The observer and the repository never throw; a record is taken to be stored when its stretch of code begins to await it.
- The promise jobs that carry a rejection from a step to the parallel step or phase around it, and an abort down to the signals below, are part of the move that rejects or aborts. That move changes no store, except that a poll step whose condition path is not a string has left its output.
- An action that is not registered is a handler that fails, and is listed among the invocations.
- Timeouts may fire at any move and backoff delays may end at any move; only the deadline and the interval of a poll step are tied to the clock.
- Cleanups may be registered at any move, which allows more than handlers do. Members of a parallel step start at moves of their own rather than all at once, which allows more schedules.
- Cleanups registered after the snapshot never run, in the model as in the source; nothing is claimed about them.
- Timestamps, fingerprints, durations and error texts of step records, reports and attempts.
- Deliveries.PhaseDelivers: it counts tasks; a poll step leaves an output in every round, as many as its condition takes.
- Steering.ListPasses: of the poll steps only those whose condition is on their own answer (`$`); whether another path comes to hold depends on the steps around them.
- Coverage.CoveredCompensated: the condition is shown to be necessary, in `Exposure.CompensatesIff`, for scenarios without polls and conditions; with those it depends on outputs whether a step is reached.
- Vendor runtime: user store mutations, headers, correlation ids and content types; counters are numbers rather than decimal text. Whether a static response equals a scripted one is not claimed.
- Traffic: HTTP itself, normalization of requests, and expectations, of which a result keeps only passed or failed. A request throws only when its signal is aborted; a batch that the parent aborts throws and reports nothing.
- TrafficRetry.ExecuteRequest: real arithmetic is exact, so rounding of the binary power in `retryDelayMs` is not modelled.
- Demo: one session and atomic repository updates that do not fail; create, expiry and restart recovery, which run outside the lock; the enrichment refresh before hibernating; error messages and evidence. Calls other than the two delete actions and the cleanup of a target lease are taken not to delete a target. The cleanup that came with a target lease deletes whatever target goes by its run.
- The locale's comparison in `localeCompare` is an arbitrary total preorder.
- Paths and string contents of packages are taken as their UTF-8 bytes; JavaScript maps unpaired surrogates to one replacement character before hashing.
- The other assertions, the PostgreSQL repositories, SHA-256, YAML and schema validation, HTTP servers, runtimes in containers, browsers and user interfaces.
