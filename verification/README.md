# Code Kit Ultra: verified models

Code Kit Ultra turns an idea into a plan and carries the plan out: a run engine executes plan steps behind
policy and approval, action batches are signed and undone, audit logs are hash chains, and control services
heal, roll back and rate-limit what is deployed. This project models the parts of the system whose promises
span whole runs, all inputs or all interleavings, and proves those promises.

Check everything with `dafny verify dfyconfig.toml`.

## How the models are built

- **Run engine** (`RunModel`, `RunSafety`, `RunAttempts`, `RunApproval`, `RunWarrants`, `RunProgress`, `RunEngine`). A run is three files:
  state, step log and adapter summaries. `RunModel` gives for every operation (execute, resume, retry, roll
  back) the trace of adapter calls and file writes that it performs. A crash, and equally an error that is thrown
  out of an operation, cuts a trace at any point; the next operation starts from what the files hold. The class
  `RunEngine.Engine` is the engine as it is written, with the bundle in memory, the loops and the growing
  attempt limit; its methods are proved to perform exactly these traces, and the other modules prove what every
  run over such traces keeps. Policy, adapter and healing are answers that may be anything, except that healing is
  verified only finitely often: without that the retry loop need not end (`RunAttempts.HealingWithoutEnd`), because a
  verified healing raises the attempt limit and no configured maximum is ever read.
- **Canonical text and signatures** (`Texts`, `FieldNames`, `Canonical`, `CanonicalParser`, `CanonicalUnicode`,
  `CanonicalLayout`, `BatchSigning`, `HashedTexts`).
  Values are those of `JSON.parse`; strings are sequences of UTF-16 code units; the text is that of sections 4 to 7
  of RFC 8259 with keys in code-unit order (section 3.2.3 of RFC 8785). A parser written for the purpose reads the
  printed text back.
- **Action batches and undo** (`ActionBatch`, `ActionEffects`, `ActionUndo`, `UndoOrder`, `UndoExact`, `RunListings`,
  `WorkspaceRunner`). The workspace outside `.ck` is a map from paths to directories and files; None stands for a
  file system call that throws. `UndoOrder` and `UndoExact` say which logs restore a workspace, `RunListings` which
  listings of a run's undo files do.
- **Audit chains** (`AuditChain`, `RunAuditLog`). Concurrent transactions on the organisation-wide table are
  interleaved steps: begin, lock, read, insert, commit, or roll back at any point.
- **Hashes.** SHA-256 and HMAC (section 2 of RFC 2104) are functions of which a lemma assumes only the width of the
  result and that the particular texts it names do not collide; injectivity on all texts is never assumed, since
  with a fixed width it would be false.
- **Controllers** (`Automation`, `Priorities`, `RollbackLimiter`, `HealingDebounce`, `RateLimit`). Clock readings are
  inputs that never go back; ghost histories hold everything that the pruned or cleaned-up structures forget.
- **Consensus** (`Consensus`, `ConsensusByRisk`) in exact reals. **Incremental structures** (`RecentIdeas`, `Records`,
  `Rounding`, `HealingStats`, `Learning`). **Phases and diff** (`PhaseLoop`, `LineDiff`).

What is imperative in the source is a class or a method with loops here, proved against a function; the lemmas are
about that function. What a function means is stated without it wherever it could be defined otherwise: `RunWarrants`
and `RunProgress` speak of the answers of the outside world, `CanonicalLayout` and `HashedTexts` spell texts out,
`ActionEffects` speaks of files and `ConsensusByRisk` of votes.

## Where the code keeps less than one might expect

Each item names the lemma with the exact condition, and where there is one a concrete run as its witness.

- A retry of a step ahead of the current one skips steps (`RunSafety.RetryConsistentIffReady`,
  `RunSafety.RetryUpToDateIff`).
- A manual rollback cut off between its log write and its state write is forgotten by the next execution
  (`RunSafety.RollbackUpToDateIff`, `RunSafety.TornRollbackIsForgotten`).
- A crash between a gated success and the state write leaves the approval to be used again
  (`RunApproval.OverspendsIff`, `RunApproval.ApprovalUsedTwice`).
- The audit chain forks when creation times do not follow the lock order, which the transaction start time does
  not guarantee (`AuditChain.ChainedIffInTimeOrder`, `AuditChain.OvertakingForks`).
- A comment in `rollback-engine.ts` calls the order of undo files chronological; the code takes the reverse of the
  directory listing. In another order a directory can stay behind (`RunListings.RunRestoredIffParentsFirst` and
  `RunListings.RunRestoredIff`, `RunListings.SortedListingLeavesDirectory`).
- A write that overwrote a file, or that had to create parent directories, is not restored
  (`ActionUndo.ActionRestoredIff`; `UndoExact.RestoredIff` for whole logs).
- A failed build leaves the report waiting for approval, not failed (`PhaseLoop.BuildingOutcome`).
- A weightier vote for review dilutes approvals (`Consensus.ReviewConfidenceLowersIff`,
  `Consensus.ReviewConfidenceDilutes`).

## Model

| member | source | states |
|---|---|---|
| RunSafety.RunsStayConsistent | packages/orchestrator/src/execution-engine.ts:281-639 | Over any sequence of execute, resume, retry and rollback, each cut off between any two file writes: the stored step index stays within the plan, every earlier step has a success in the stored log, and status "completed" means that all steps do. Retries go to steps before which every step has a recorded success |
| RunSafety.RetryConsistentIffReady | packages/orchestrator/src/execution-engine.ts:553-585 | A retry keeps that invariant at every point where it can be cut off if and only if every step before its target has a recorded success |
| RunSafety.RunsStayUpToDate | packages/orchestrator/src/execution-engine.ts:553-639 | Over every run, cut off anywhere, whose retries and rollbacks, to any target, meet the two conditions below, the newest log entry of every step before the current one is a success |
| RunSafety.OrdinaryRunsAreSafe | packages/orchestrator/src/execution-engine.ts:480-639 | For a created run and any sequence of executions, resumes and retries that do not go ahead of the current step, each cut off anywhere, and rollbacks of the last logged step that are not cut off between log and state write: both invariants hold, and such a rollback never works on a step further back than the one before the current one |
| RunSafety.RetryUpToDateIff | packages/orchestrator/src/execution-engine.ts:553-585 | A retry keeps that invariant at every point where it can be cut off if and only if the newest log entry of every step before its target is a success |
| RunSafety.RollbackUpToDateIff | packages/orchestrator/src/execution-engine.ts:587-639 | A rollback of a given step or of the last one, whole or cut off at any effect, keeps the invariant exactly when it is cut off before its log write or the step that it rolls back is not before the step index that it leaves |
| RunSafety.TornRollbackIsForgotten | packages/orchestrator/src/execution-engine.ts:587-639 | A run of three operations that ends completed although its log shows the first step as rolled back |
| RunSafety.OpConsistent | packages/orchestrator/src/execution-engine.ts:43-478 | A single operation keeps the invariant after each of its effects, not only at its end |
| RunSafety.BodyLogsSuccess | packages/orchestrator/src/execution-engine.ts:281-307 | When a task completes, its success is the newest log entry before the run state moves on |
| RunSafety.TaskShape | packages/orchestrator/src/execution-engine.ts:43-478 | On every path a task writes the run state exactly once, and only a log entry for a pause may follow it |
| RunAttempts.TaskAttempts | packages/orchestrator/src/execution-engine.ts:235-470 | A task calls its adapter at most as often as its attempt limit plus its verified healings; calls and logged failures are numbered 1, 2, 3 and so on in step; the automatic rollback runs at most once, and no call or failure comes after it |
| RunAttempts.CompletedTally | packages/orchestrator/src/execution-engine.ts:256-308 | A task that completes never rolls back, all its attempts but the last are logged as failures, and it was healed once for each attempt beyond its limit |
| RunAttempts.GivenUpTally | packages/orchestrator/src/execution-engine.ts:345-468 | A task that is given up rolls back exactly when it has a payload and a hook and healing is not waiting for approval |
| RunAttempts.GatedTally | packages/orchestrator/src/execution-engine.ts:67-232 | A task that policy, adapter lookup, approval or validation stops, or whose limit allows no attempt, makes no adapter, healing or rollback call |
| RunAttempts.HealingWithoutEnd | packages/orchestrator/src/execution-engine.ts:235-388 | With answers under which every attempt fails and every healing is verified, no attempt is ever the last one, however many have been made |
| RunAttempts.ExecuteSettles | packages/orchestrator/src/execution-engine.ts:480-551 | An execution that is not cut off leaves the run completed, paused or failed, for every plan, state and answer; completed only behind the last step |
| RunApproval.ApprovalsAreConserved | packages/orchestrator/src/execution-engine.ts:151-188 | Over every run, successful gated executions plus an approval still held are at most the approvals granted, plus one if created approved, plus one for each event cut off between a gated success and its state write; no gated adapter call starts without approval |
| RunApproval.TaskSpends | packages/orchestrator/src/execution-engine.ts:303-307 | At every point of a task's effects it has spent at most the approval it held, plus one while its success has not reached the run state |
| RunApproval.GrantSpends | packages/orchestrator/src/resume-run.ts:15-20 | A resume that grants approval adds at most one to what can be spent |
| RunApproval.OverspendsIff | packages/orchestrator/src/execution-engine.ts:281-307 | An event, whole or cut off anywhere, spends more approvals than the run held and the event granted exactly when one of its gated successes has no later state write, unless it granted an approval on top of one still held; and then it overspends by one |
| RunApproval.WholeEventSaves | packages/orchestrator/src/execution-engine.ts:303-307 | An event that is not cut off leaves no approval to be used again |
| RunApproval.ApprovalUsedTwice | packages/orchestrator/src/execution-engine.ts:281-307 | A run created with one approval and granted none that carries out its gated step twice, cut off before the state write each time |
| RunWarrants.TaskIsWarranted | packages/orchestrator/src/execution-engine.ts:67-470 | Every effect of a task is warranted by the answers it got: an adapter is called without approval only if plan, policy and simulation ask for none and nothing rates the step as a high risk; a success is logged only of an attempt that was carried out and verified; a pause, a failure and a rollback each have their reason |
| RunWarrants.UnapprovedTaskWaits | packages/orchestrator/src/execution-engine.ts:148-188 | If somebody asks for an approval that the run does not have, and policy and adapter are there, the task makes no call and the run waits at it for the approval |
| RunWarrants.RunsAreWarranted | packages/orchestrator/src/execution-engine.ts:43-639 | Over every run, cut off anywhere, every effect is warranted by the answers of one of its operations |
| RunWarrants.UnapprovedRunsAreHarmless | packages/orchestrator/src/execution-engine.ts:148-188 | A run that is never approved calls adapters only for steps of which nobody asked for an approval and which nothing rated as a high risk |
| RunWarrants.UnapprovedRunWaits | packages/orchestrator/src/execution-engine.ts:148-188 | However often such a run is executed or resumed and wherever it is cut off, it stays at the step that needs the approval, calls no adapter, and waits |
| RunWarrants.ApprovalsLast | packages/orchestrator/src/execution-engine.ts:281-307 | Over every run in which no step works an approval is held at the end exactly when there was one or one was stored: nothing else grants one, and only a step that works uses one up |
| RunProgress.ApprovedResumeCarriesOut | packages/orchestrator/src/resume-run.ts:15-28 | Resuming with an approval calls the adapter of the current step under it, gated or not, and moves past the step when an attempt works |
| RunProgress.SmoothRunCompletes | packages/orchestrator/src/execution-engine.ts:509-545 | If nothing hinders the steps that are left and each has an attempt that works within its retry limit, learned or planned, the execution completes with a success logged for each |
| RunProgress.OutcomeIsRecorded | packages/orchestrator/src/execution-engine.ts:515-549 | An execution records a success exactly when it leaves the run completed, a failure exactly when failed, and nothing when the run waits |
| RunProgress.TaskLeaves | packages/orchestrator/src/execution-engine.ts:33-41 | A task leaves the run past the step with its approval used up, failed at it, or waiting at it for one of two approvals; all else in the state stays |
| RunProgress.ExecutionBegins | packages/orchestrator/src/execution-engine.ts:480-483 | An execution first clears the reason of a pause and makes a planned run running; a resume first stores its approval, and ends there when the run is completed |
| RunProgress.RetryTakesStep | packages/orchestrator/src/execution-engine.ts:557-565 | A retry goes to the given step, or to the current one, makes it current in a running run and calls no adapter for any other |
| RunProgress.UnknownRetryDoesNothing | packages/orchestrator/src/execution-engine.ts:557-559 | A retry of a step that is not there does nothing |
| RunProgress.RollbackTakesStep | packages/orchestrator/src/execution-engine.ts:591-635 | A rollback of the given step, or of the last logged one, calls the rollback for it, logs it and steps back by one; without hook or payload it does nothing |
| RunProgress.UnknownRollbackDoesNothing | packages/orchestrator/src/execution-engine.ts:591-593 | A rollback of a step that is not there does nothing |
| RunProgress.SummaryIsNewest | packages/orchestrator/src/execution-engine.ts:16-31 | Storing a summary keeps one for each task, the newest, and leaves those of other tasks alone |
| RunProgress.RunsKeepOneEach | packages/orchestrator/src/execution-engine.ts:16-31 | Over all effects of a run there is at most one summary for each task |
| RunEngine.Engine.PushStepLog | packages/orchestrator/src/execution-engine.ts:11-14 | The entry is appended in memory and the whole log is written, and nothing else changes |
| RunEngine.Engine.UpsertAdapterSummary | packages/orchestrator/src/execution-engine.ts:25-31 | The summary replaces the task's earlier one or is appended, and is written |
| RunEngine.Engine.UpdateRunState | packages/orchestrator/src/execution-engine.ts:33-41 | The given state is in memory and on file |
| RunEngine.Engine.TryOnce | packages/orchestrator/src/execution-engine.ts:238-343 | One attempt performs the effects of a success or of a failure with healing when it is the last one allowed |
| RunEngine.Engine.GiveUp | packages/orchestrator/src/execution-engine.ts:390-467 | After the last failure: pause for the healing, or roll back if possible, record the failure and fail the run |
| RunEngine.Engine.Attempt | packages/orchestrator/src/execution-engine.ts:234-475 | The retry loop, whose limit grows with verified healings, ends and performs exactly the attempts that the trace lists |
| RunEngine.Engine.ExecuteTask | packages/orchestrator/src/execution-engine.ts:43-478 | One task performs exactly its trace, says whether it completed, and leaves the state that the trace leaves |
| RunEngine.Engine.RunTasks | packages/orchestrator/src/execution-engine.ts:515-550 | The step loop performs exactly the traces of the tasks from the current step on, up to the first that does not complete |
| RunEngine.Engine.ExecuteRunBundle | packages/orchestrator/src/execution-engine.ts:480-551 | An execution performs exactly its trace, with the retry limits that learning suggests |
| RunEngine.Engine.ExecuteStored | packages/orchestrator/src/phase-engine.ts:98-147 | The building phase loads the stored bundle and performs exactly the trace of an execution |
| RunEngine.Engine.ResumeRun | packages/orchestrator/src/resume-run.ts:9-29 | A resume performs exactly its trace from the stored files: an optional grant, then an execution unless the run is completed |
| RunEngine.Engine.RetryTask | packages/orchestrator/src/execution-engine.ts:553-585 | A retry performs exactly its trace from the stored files, or nothing when the step is unknown |
| RunEngine.Engine.RollbackTask | packages/orchestrator/src/execution-engine.ts:587-639 | A manual rollback performs exactly its trace from the stored files, or nothing when it is not possible |
| CanonicalParser.StableStringifyIffEquivalent | packages/security/src/batch-provenance.ts:16-21 | Two values have the same canonical text exactly when they are equal up to the order of object keys |
| CanonicalParser.StableRoundTrip | packages/security/src/batch-provenance.ts:16-21 | Parsing the canonical text gives the value with its keys sorted, and nothing is left over |
| CanonicalParser.RoundTrip | packages/security/src/batch-provenance.ts:16-21 | The parser reads a printed value back whatever follows it, for all values |
| CanonicalParser.PrintInjective | packages/security/src/batch-signing.ts:30-35 | The text that `JSON.stringify` prints determines the value with its key order |
| Canonical.StableIsPrintCanon | packages/security/src/batch-provenance.ts:16-21 | Printing while sorting is sorting all the way down and then printing |
| Canonical.CanonIffEquivalent | packages/security/src/batch-provenance.ts:16-21 | Sorted forms are equal exactly when the values are equal up to key order |
| CanonicalUnicode.StableStringifyWellFormed | packages/security/src/batch-provenance.ts:23-25 | The canonical text has no lone surrogate, that is, it is well-formed UTF-16, whatever surrogates the strings of the value contain |
| CanonicalLayout.StableTextInOrder | packages/security/src/batch-provenance.ts:16-21 | Read back, the canonical text is the value up to key order, and in every object, however deep, for two keys one behind the other: where they first differ the first one ends or has the smaller code unit |
| CanonicalLayout.PrintedString | packages/security/src/batch-provenance.ts:17 | Strings are printed with the escapes of JSON, spelled out; surrogate pairs stay, lone surrogates become digits |
| CanonicalLayout.PrintedObject | packages/security/src/batch-provenance.ts:20 | Objects are printed as their members, name, colon and value, between braces with commas, spelled out |
| CanonicalLayout.PrintedArray | packages/security/src/batch-provenance.ts:18 | The same for arrays |
| BatchSigning.SignedIsAccepted | packages/security/src/batch-signing.ts:24-77 | Every signed batch is accepted, also after any number of approvals |
| HashedTexts.SignedText | packages/security/src/batch-signing.ts:29-36 | A signature covers the text of runId, phase, batchHash and provenance, in this order, where the hash is that of the canonical text of the batch |
| BatchSigning.ApprovalKeepsVerdict | packages/security/src/batch-signing.ts:50-56 | Approvals never change a verdict, and the last one is recorded |
| BatchSigning.SameSignatureSameBatch | packages/security/src/batch-signing.ts:58-77 | Accepted envelopes with the same signature carry the same provenance and the same batch up to key order |
| BatchSigning.ExchangedBatch | packages/security/src/batch-signing.ts:58-62 | Exchanging the batch of an accepted envelope is noticed exactly when the new batch differs by more than key order |
| BatchSigning.ExchangedProvenance | packages/security/src/batch-signing.ts:64-74 | Exchanging the provenance of an accepted envelope is always noticed |
| ActionBatch.LogListsExecuted | packages/orchestrator/src/action-runner.ts:126-217 | The undo log lists exactly the executed actions, in order |
| ActionBatch.ExecutedIffPermitted | packages/orchestrator/src/action-runner.ts:129-216 | An action is executed exactly when policy, risk approval, dry run and command setting permit it and it does not throw in the workspace left by the actions before it; it waits for approval exactly when the policy allows it and its risk lacks one |
| ActionBatch.UnpermittedBatchDoesNothing | packages/orchestrator/src/action-runner.ts:129-192 | A batch of which nothing is permitted leaves workspace and undo log as they were |
| ActionBatch.PerformWellFormed | packages/orchestrator/src/action-runner.ts:29-56 | After every file system action each entry still lies in an existing directory |
| ActionEffects.ExecutedLeaves | packages/orchestrator/src/action-runner.ts:29-56 | An executed action leaves a directory, the written text, or the old text followed by the appended one; nothing else changes but that missing directories above are made |
| ActionEffects.ExecutedUnlessTaken | packages/orchestrator/src/action-runner.ts:29-56 | A permitted file system action is executed exactly when no file stands above its path and the path is not taken by the other kind |
| ActionEffects.LastWriteThenAppends | packages/orchestrator/src/action-runner.ts:126-217 | The text of a file after a batch without commands is that of its last executed write followed by all that is appended behind it, in order |
| ActionEffects.OldTextThenAppends | packages/orchestrator/src/action-runner.ts:126-217 | Without an executed write the old text stays, followed by what is appended; a file that nobody touches stays as it is |
| UndoExact.RestoredIff | packages/orchestrator/src/rollback-engine.ts:30-78 | For any log and any two workspaces, calls that throw included: undoing the log leads from one to the other exactly when nothing of the other was lost or overwritten and, down to the entry that throws if one does, each new path has a turn at which it is removed and every other entry finds its path gone or a directory with something in it |
| UndoExact.RollbackSchedule | packages/orchestrator/src/rollback-engine.ts:30-78 | Whatever a rollback does, from any workspace and by any log, follows such a schedule |
| UndoOrder.RestoredIffRemovable | packages/orchestrator/src/rollback-engine.ts:30-78 | For any log, in any order, that names nothing from before but directories with something in them: undoing it restores the workspace exactly when every new path has an entry of its kind that can be given a turn behind the turns of what lies in it |
| UndoOrder.RemovalTurns | packages/orchestrator/src/rollback-engine.ts:30-78 | Whatever a rollback removes, from any workspace and by any log, has entries in such an order |
| UndoOrder.RestoredIffParentsFirst | packages/orchestrator/src/rollback-engine.ts:30-78 | For a log that names each new thing once, in any order: undoing it restores the workspace exactly when the entry of each directory stands before the entries of the things created in it |
| UndoOrder.BatchIsUndone | packages/orchestrator/src/rollback-engine.ts:33-78 | Undoing a batch restores the workspace exactly, and reverts as many entries as there are new things, when each executed action makes one new thing, or rewrites or appends to a file made by the batch, or asks for a directory that is new or not empty, or changes nothing and is no file write |
| UndoOrder.RunIsUndone | packages/orchestrator/src/rollback-engine.ts:27-78 | The same for a run of several such batches, undone from the last to the first |
| ActionUndo.UndoOnlyRemoves | packages/orchestrator/src/rollback-engine.ts:30-78 | For any undo log and workspace: undoing only removes, only what the log says was created, as many paths as it counts as reverted, and every entry taken counts as reverted or skipped, but for one at which a call throws |
| ActionUndo.ActionRestoredIff | packages/orchestrator/src/rollback-engine.ts:36-61 | One creation or write is undone exactly when it made one new thing, or asked for a directory that was already there and is not empty |
| ActionEffects.AppendsAreNotUndone | packages/orchestrator/src/rollback-engine.ts:63-74 | Undoing appends and commands changes nothing and skips every entry |
| RunListings.AnyRunRestoredIff | packages/orchestrator/src/rollback-engine.ts:12-82 | For all batches, whatever their actions and phases, and every order of the listing: the rollback restores the workspace exactly when the run lost and overwrote nothing of it and the entries, as they are read, have such a schedule |
| RunListings.RunRestoredIff | packages/orchestrator/src/rollback-engine.ts:12-82 | For every order in which the directory may list the undo files of a run of such batches under distinct phases: the rollback restores the workspace exactly when the entries, as they are read, can be given such turns |
| RunListings.RunRestoredIffParentsFirst | packages/orchestrator/src/rollback-engine.ts:12-82 | When every executed action made one new thing: for every order of the listing the rollback restores the workspace exactly when, in the entries as they are read, each created directory stands before the things created in it |
| RunListings.RollbackRestoresRun | packages/orchestrator/src/rollback-engine.ts:12-82 | If the listing is in the order of the batches, the rollback restores the workspace and no call throws |
| RunListings.SortedListingLeavesDirectory | packages/orchestrator/src/rollback-engine.ts:27-28 | A qa batch makes a directory and a deploy batch writes a file into it: with the sorted listing deploy, qa the rollback leaves the directory behind |
| RunListings.FilesHoldRun | packages/orchestrator/src/action-runner.ts:227-232 | Under distinct phases the undo files hold every executed action of the run, in order |
| RunListings.FilesHoldLatest | packages/orchestrator/src/action-runner.ts:227-232 | With repeated phases too, the undo file of a phase holds the executed actions of its last batch and of no other |
| WorkspaceRunner.Workspace.Execute | packages/orchestrator/src/action-runner.ts:35-67 | A permitted action changes the workspace as its kind says, or throws and leaves it |
| WorkspaceRunner.Workspace.RunActionBatch | packages/orchestrator/src/action-runner.ts:108-232 | The batch loop gives the results, the workspace and the undo file that the batch specification gives |
| WorkspaceRunner.Workspace.Revert | packages/orchestrator/src/rollback-engine.ts:33-78 | One entry is reverted, skipped, or ends the rollback when a call throws |
| WorkspaceRunner.Workspace.RollbackRun | packages/orchestrator/src/rollback-engine.ts:12-82 | The nested loops undo all entries of the listed files from the last to the first and count them |
| AuditChain.AtMostOnePastLock | packages/audit/src/audit-logger.ts:53-94 | In every interleaving at most one client is between lock and commit |
| AuditChain.OneUnforkedChain | packages/audit/src/audit-logger.ts:53-94 | In every interleaving in which creation times follow the lock order, each row names the row committed before it, no two rows name the same one, and none has the genesis hash |
| AuditChain.RowsFormChain | packages/audit/src/audit-logger.ts:55-94 | In every interleaving in which creation times follow the lock order, each organisation's rows form one chain from the genesis hash in commit order |
| AuditChain.ChainUnforked | packages/audit/src/audit-logger.ts:43-70 | No two rows of such a chain name the same predecessor |
| AuditChain.RowsAreHashed | packages/audit/src/audit-logger.ts:43-70 | In every interleaving an organisation's first row names the hash of "0", and each hash is that of the named hash followed by the row's data |
| AuditChain.TipDetermines | packages/audit/src/audit-logger.ts:43-46 | Two chains with the same last hash record the same events |
| AuditChain.GenesisIsNoRow | packages/audit/src/audit-logger.ts:64-66 | The genesis hash is never the hash of a row |
| AuditChain.ChainedIffInTimeOrder | packages/audit/src/audit-logger.ts:55-94 | For every interleaving: an organisation's rows form one chain if the creation times of all its rows but the last increase in the order of their commits, and only if these times never fall; when creation times differ the two are the same |
| AuditChain.OvertakingForks | packages/audit/src/audit-logger.ts:55-78 | A possible interleaving in which a transaction that began earlier gets the lock later, and two rows name the same predecessor |
| AuditChain.TurnAppends | packages/audit/src/audit-logger.ts:55-94 | While the lock is free a waiting client can append its row and release the lock |
| RunAuditLog.FinalShaDetermines | packages/core/src/audit-logger.ts:44-72 | Two run logs with the same final hash are the same log, event by event |
| HashedTexts.LogIsHashChain | packages/core/src/audit-logger.ts:44-76 | The first event names GENESIS_BLOCK, every other one the hash before it; a hash is that of the text of the members in their order, absent ones left out |
| RunAuditLog.FinalHashDetermines | packages/core/src/audit-logger.ts:48-74 | The same for any digest of fixed width that tells the events of the two logs apart |
| RunAuditLog.BodyDetermined | packages/core/src/audit-logger.ts:60-70 | The hashed object determines all fields of the event, the absent ones included, and the previous hash |
| RunAuditLog.Logger.AppendAuditEvent | packages/core/src/audit-logger.ts:48-85 | The event continues the chain of its run, and the shared stream restricted to a run stays that run's log |
| Priorities.Stable | apps/control-service/src/services/rollback-automation.ts:103-105 | Ordering strategies by priority loses none, repeats none and keeps the order of equals |
| Priorities.Sorts | apps/control-service/src/services/healing-engine.ts:94-96 | Strategies are tried by falling priority |
| RollbackLimiter.EveryRunKeepsLimits | apps/control-service/src/services/automation-orchestrator.ts:230-256 | Over any sequence of decide-then-execute cycles every hour holds at most the maximum of a strategy's rollbacks, and successive ones are at least its cooldown apart |
| RollbackLimiter.EveryHourIsLimited | apps/control-service/src/services/rollback-automation.ts:303-317 | The same with the rollbacks of any 3,600,000 milliseconds counted as a set, and the cooldown in seconds |
| RollbackLimiter.AllowedKeepsLimits | apps/control-service/src/services/rollback-automation.ts:107-120 | A rollback allowed by the full history and recorded afterwards keeps every hour within the maximum and successive ones at least the cooldown apart |
| RollbackLimiter.RefusedWouldBreak | apps/control-service/src/services/rollback-automation.ts:107-120 | A refused one would have broken one of the two limits |
| RollbackLimiter.PruningKeepsCount | apps/control-service/src/services/rollback-automation.ts:303-317 | However often the stored times were pruned, what is left of them is as many as the full history has in the last hour |
| RollbackLimiter.DecisionKeepsLimits | apps/control-service/src/services/automation-orchestrator.ts:230-256 | Carrying out what was decided keeps all strategies within their limits |
| RollbackLimiter.DecidedIsAllowed | apps/control-service/src/services/rollback-automation.ts:98-136 | The chosen strategy is allowed by its full history; if none is chosen, every strategy is refused or has no trigger that fires |
| RollbackLimiter.DecisionIsFirst | apps/control-service/src/services/rollback-automation.ts:98-136 | The decision takes the first enabled strategy, by falling priority, that its limits allow and one of whose metrics is above, or below, its threshold as the trigger says; all before it are turned down |
| RollbackLimiter.RankedMembers | apps/control-service/src/services/rollback-automation.ts:103-105 | Exactly the enabled strategies are tried |
| RollbackLimiter.RollbackAutomationService.IsInCooldown | apps/control-service/src/services/rollback-automation.ts:290-298 | The stored time answers as the full history would |
| RollbackLimiter.RollbackAutomationService.HasExceededRollbackLimit | apps/control-service/src/services/rollback-automation.ts:303-317 | The pruned times answer as the full history would |
| RollbackLimiter.RollbackAutomationService.CheckStrategy | apps/control-service/src/services/rollback-automation.ts:107-132 | One turn of the loop decides by the full history |
| RollbackLimiter.RollbackAutomationService.ShouldRollback | apps/control-service/src/services/rollback-automation.ts:98-136 | The decision is the one that the full histories give, although the times are pruned on the way |
| RollbackLimiter.RollbackAutomationService.ExecuteRollback | apps/control-service/src/services/rollback-automation.ts:141-243 | Succeeds exactly when no critical action fails, performs the actions before the failure, and is recorded only on success |
| RollbackLimiter.RollbackAutomationService.RecordRollback | apps/control-service/src/services/rollback-automation.ts:322-328 | Both stored times are extended by this rollback, for this strategy only |
| RollbackLimiter.RollbackAutomationService.EvaluateRollbackStrategies | apps/control-service/src/services/automation-orchestrator.ts:230-256 | A cycle moves the histories on exactly as one cycle of the runs above: the decided rollback is carried out, and counts exactly when no critical action fails; every strategy stays within its cooldown and its hourly limit |
| HealingDebounce.TrackerDecides | apps/control-service/src/services/healing-engine.ts:127-139 | Asking the tracker how long a condition has held is asking whether it was met at every evaluation since one at least the duration ago |
| HealingDebounce.RunStartIsFirst | apps/control-service/src/services/healing-engine.ts:127-147 | The tracked time is that of the first evaluation of the unbroken run |
| HealingDebounce.OthersUntouched | apps/control-service/src/services/healing-engine.ts:128-147 | With distinct tracker keys the evaluation of one strategy leaves the others' histories alone, so each is offered by the history that its condition had before the cycle |
| HealingDebounce.OfferedMembers | apps/control-service/src/services/healing-engine.ts:118-163 | Exactly the enabled strategies are offered whose metric stands to its threshold as its operator says, now and at every evaluation since one at least its duration in seconds ago |
| HealingDebounce.EvaluationIsRecorded | apps/control-service/src/services/healing-engine.ts:118-163 | One evaluation tells how the metric of an enabled strategy stands to its threshold, under its key and no other |
| HealingDebounce.ReversalsTurnAround | apps/control-service/src/services/healing-engine.ts:324-342 | Only successful actions are reversed, and the later ones earlier |
| HealingDebounce.HealingEngine.Evaluate | apps/control-service/src/services/healing-engine.ts:124-147 | One evaluation keeps the tracker equal to the start of the unbroken run |
| HealingDebounce.HealingEngine.FindApplicableStrategies | apps/control-service/src/services/healing-engine.ts:118-148 | A strategy is offered exactly when it is enabled, its condition is met now, and at every evaluation recorded under its key since one at least its duration ago the condition was met, even if strategies share a key |
| HealingDebounce.HealingEngine.ExecuteStrategy | apps/control-service/src/services/healing-engine.ts:169-250 | Succeeds exactly when no critical action fails; otherwise reverses what had succeeded |
| HealingDebounce.HealingEngine.Rollback | apps/control-service/src/services/healing-engine.ts:324-342 | Reverses exactly the successful actions, last first |
| HealingDebounce.HealingEngine.EvaluateAndHeal | apps/control-service/src/services/healing-engine.ts:90-113 | The offered strategies are carried out by priority up to the first none of whose critical actions fails; every one before it is rolled back |
| RateLimit.CleanupIsInvisible | apps/control-service/src/middleware/rate-limit.ts:15-44 | Cleaning up at arbitrary moments never changes any decision, for all sequences of requests of all keys |
| RateLimit.EveryRunIsBounded | apps/control-service/src/middleware/rate-limit.ts:15-52 | Over any sequence of requests through any limiters that share the map, with cleanups anywhere, and for every m: the requests of a key admitted through limiters with a maximum of at most m are at most m in its latest window and at most 2 m - 1 in any interval of a window's length |
| RateLimit.RequestTracked | apps/control-service/src/middleware/rate-limit.ts:28-44 | A request through a limiter of any maximum keeps these bounds for every m, whether it opens a window or not and whether it is admitted or not |
| RateLimit.PeakIsReached | apps/control-service/src/middleware/rate-limit.ts:28-44 | That bound is reached, for every window and maximum |
| RateLimit.RateLimiters.Admit | apps/control-service/src/middleware/rate-limit.ts:26-52 | The decision depends only on the key's latest window, cleaned up or not, and the bounds hold for every key and every m |
| RateLimit.RateLimiters.Cleanup | apps/control-service/src/middleware/rate-limit.ts:15-20 | Exactly the entries whose windows are over are deleted, and the bounds stay |
| Consensus.RaisingVotes | packages/governance/src/adaptive-consensus.ts:61-109 | Moving any number of votes up, or changing confidence in favour of approval, never lowers the final decision |
| Consensus.RaisingOneVote | packages/governance/src/adaptive-consensus.ts:61-109 | The same for one vote |
| Consensus.OrderIsIrrelevant | packages/governance/src/adaptive-consensus.ts:73-109 | Permuting the votes changes neither scores nor veto nor decision |
| Consensus.DecisionMeans | packages/governance/src/adaptive-consensus.ts:86-109 | With a vote of a known agent: rejected exactly when vetoed or at least 35 % of the weight rejects; approved exactly when not vetoed, the threshold is reached and less than 20 % rejects |
| ConsensusByRisk.DecisionAtRisk | packages/governance/src/adaptive-consensus.ts:24-28 | The same at each risk with the policy's own threshold for it and the vetoes spelled out |
| ConsensusByRisk.RaisingRisk | packages/governance/src/adaptive-consensus.ts:24-28 | With thresholds that do not fall and vetoes that only grow with the risk, a higher risk never raises the decision |
| ConsensusByRisk.VetoMeans | packages/governance/src/adaptive-consensus.ts:44-59 | A run is vetoed exactly when a reviewer or security vote rejects, its first profile may veto, and the policy lets that agent veto at the risk |
| ConsensusByRisk.VoteAdds | packages/governance/src/adaptive-consensus.ts:68-84 | One more vote adds its weight to the total and to its own side; one of an unknown agent adds nothing |
| ConsensusByRisk.WeightScales | packages/governance/src/adaptive-consensus.ts:34-42 | The weight is the base weight scaled for reliability and confidence by the influences, 0.35 and 0.65 by default, and never below 0.05 |
| ConsensusByRisk.WeightClamps | packages/governance/src/adaptive-consensus.ts:30-42 | Reliability and confidence outside [0, 1] count as the nearer end |
| Consensus.NobodyVoted | packages/governance/src/adaptive-consensus.ts:73-109 | Without one, a positive threshold asks for a review and nothing is rejected |
| Consensus.WeightRises | packages/governance/src/adaptive-consensus.ts:34-42 | With nonnegative base weights and influences in [0, 1], more confidence never means less weight |
| Consensus.ReviewConfidenceLowersIff | packages/governance/src/adaptive-consensus.ts:86-109 | More confidence in a vote for review lowers the decision exactly when that was an approval and the approvals' share of the greater total is below the threshold |
| Consensus.ReviewConfidenceDilutes | packages/governance/src/adaptive-consensus.ts:93-109 | Two votes with which that happens |
| Consensus.TallyProper | packages/governance/src/adaptive-consensus.ts:73-95 | Scores are not negative and add up to the total weight |
| Consensus.CheckVeto | packages/governance/src/adaptive-consensus.ts:44-59 | A veto is found exactly when some vote is one, and it is attributed to the first |
| Consensus.AddScores | packages/governance/src/adaptive-consensus.ts:68-84 | The loop accumulates the sum over all votes of known agents |
| Consensus.RunAdaptiveConsensus | packages/governance/src/adaptive-consensus.ts:61-129 | The result is the decision by the shares, and the run pauses unless it is approved at low risk |
| RecentIdeas.KeptIsPrefix | packages/memory/src/run-store.ts:239-258 | After any number of recorded ideas the bounded list is the first entries of the de-duplicated full history, newest first |
| RecentIdeas.KeptAtMost | packages/memory/src/run-store.ts:256-258 | The bounded list holds as many entries as the maximum allows and there are, the newest first |
| RecentIdeas.RecordAgrees | packages/memory/src/run-store.ts:414-421 | Recording into the bounded list gives the first entries of the de-duplicated full history |
| RecentIdeas.KeepAgrees | packages/memory/src/run-store.ts:414-417 | A run without an idea leaves the list as it is |
| RecentIdeas.DedupeIsClean | packages/memory/src/run-store.ts:239-254 | No value occurs twice, and all are trimmed and not empty |
| RecentIdeas.DedupeMembers | packages/memory/src/run-store.ts:239-254 | Exactly the trimmed values that are not empty occur |
| RecentIdeas.DedupeCons | packages/memory/src/run-store.ts:414-421 | A newest value comes first and is taken out of the rest |
| RecentIdeas.TrimIdempotent | packages/memory/src/run-store.ts:244 | A trimmed value has no white space at its ends and trimming it again changes nothing |
| RecentIdeas.DedupePreserveOrder | packages/memory/src/run-store.ts:239-254 | The loop with its set of seen values gives each value at its first occurrence |
| RecentIdeas.ProjectMemory.RecordIdea | packages/memory/src/run-store.ts:413-417 | The recent ideas stay the first entries of the de-duplicated history of ideas |
| RecentIdeas.ProjectMemory.RecordDirectory | packages/memory/src/run-store.ts:418-421 | The same for artifact directories |
| RecentIdeas.ProjectMemory.RecordRun | packages/memory/src/run-store.ts:404-423 | All three bounded lists and the last idea agree with everything ever recorded |
| HealingStats.StatisticsAreClose | packages/healing/src/healing-store.ts:33-57 | Attempts are counted exactly, successes never exceed them, and the stored mean is within 0.0025 (n + 1) of the exact mean of all durations |
| HealingStats.StatsAfterSummarise | packages/healing/src/healing-store.ts:33-57 | After any series of attempts there is one record per attempted strategy and it agrees with all of them |
| HealingStats.UpdatedSummarises | packages/healing/src/healing-store.ts:33-57 | Each update keeps one record per attempted strategy in agreement with all attempts |
| HealingStats.NextMeanWithin | packages/healing/src/healing-store.ts:51 | The accumulated rounding error grows by at most half a hundredth per attempt so far |
| HealingStats.MeanIsClose | packages/healing/src/healing-store.ts:51 | The accumulated error divided by the attempts |
| HealingStats.HealingStatsStore.UpdateHealingStats | packages/healing/src/healing-store.ts:33-57 | Only the record of the strategy changes or is added, and the statistics stay in agreement |
| Learning.PatternsAfterAgree | packages/learning/src/learning-engine.ts:7-14 | After any series of outcomes the patterns agree with all of them |
| Learning.UpdatedPatternsAgree | packages/learning/src/pattern-engine.ts:17-45 | Pattern ids stay unique, occurrences are the number of matching failed outcomes, and confidence is min(0.95, 0.55 + 0.05 (occurrences - 1)) |
| Learning.FailureHasPattern | packages/learning/src/pattern-engine.ts:3-27 | After a named failure its pattern is there, under the first used adapter, or "unknown", and the failure type in lower case |
| Learning.NoFailureNoPattern | packages/learning/src/pattern-engine.ts:18-20 | A success or an unnamed failure changes no pattern |
| Learning.NextConfidenceIsExact | packages/learning/src/pattern-engine.ts:42 | The rounding at each step never shows |
| Learning.ReliabilityAddsUp | packages/learning/src/reliability-engine.ts:3-36 | One row per used adapter; its runs are its uses; scores lie in [0, 1]; the runs of all rows add up to the lengths of all adapter lists |
| Learning.ScoreRises | packages/learning/src/reliability-engine.ts:16-25 | More successes, fewer retries and more quality never lower a score, and both ends of [0, 1] are reached |
| Learning.ScoreMoves | packages/learning/src/reliability-engine.ts:23-25 | While no bound is reached a score moves by 0.6 of the success rate, 0.2 of the quality and 0.2 for three retries, up to rounding |
| Learning.RatedMeans | packages/learning/src/reliability-engine.ts:15-33 | A row holds the share of successful uses, the mean of the retries and the score of these and of the mean quality |
| Learning.BucketsHoldUses | packages/learning/src/reliability-engine.ts:4-12 | Each adapter has one bucket, with the outcomes of its uses in order |
| Learning.UpdatePatterns | packages/learning/src/pattern-engine.ts:17-45 | A failed outcome with a named failure type changes or adds exactly its pattern |
| Learning.RebuildReliability | packages/learning/src/reliability-engine.ts:3-36 | The nested loops rate every adapter by all its uses |
| Learning.LearningStore.LearnFromOutcome | packages/learning/src/learning-engine.ts:7-14 | The derived tables agree with all outcomes after every call |
| PhaseLoop.StepGoesForward | packages/orchestrator/src/phase-engine.ts:192-231 | A successful step moves to the next phase, finishes, or waits where it is, provided the engine settles the run |
| PhaseLoop.AnswersSettle | packages/orchestrator/src/phase-engine.ts:147-153 | The engine behind the building phase does settle every run |
| PhaseLoop.StepKeepsOrder | packages/orchestrator/src/phase-engine.ts:215-224 | The completed phases are always those before the current one, in order |
| PhaseLoop.RunThrowsIff | packages/orchestrator/src/phase-engine.ts:51-69 | In a run from a report that holds what its phase needs, a step throws exactly when something that its handler calls throws: the checks for missing intake and plan never fail |
| PhaseLoop.BuildingOutcome | packages/orchestrator/src/phase-engine.ts:149-170 | The building phase is left exactly when the engine completes the run; a failed run leaves the report waiting for approval |
| PhaseLoop.GatingOutcome | packages/orchestrator/src/phase-engine.ts:66-95 | The gating phase is left exactly when the gates pass; blocked gates block the report, any other answer leaves it waiting |
| PhaseLoop.UnsettledWouldRepeat | packages/orchestrator/src/phase-engine.ts:161-170 | Exactly the statuses that the engine never leaves would make the loop repeat the building phase |
| PhaseLoop.PhaseOfStep | packages/orchestrator/src/run-vertical-slice.ts:59-68 | Each further step of an autonomous run works on the next phase |
| PhaseLoop.SuccessPassedEverything | packages/orchestrator/src/run-vertical-slice.ts:54-68 | A fresh run that finishes took eight steps, passed its gates and was built by a completed engine run |
| PhaseLoop.Drive | packages/orchestrator/src/run-vertical-slice.ts:54-68 | The loop ends after at most one step per remaining phase, in expert mode after one |
| PhaseLoop.RunVerticalSlice | packages/orchestrator/src/run-vertical-slice.ts:23-80 | The same for every engine and every gate, without a hypothesis on them |
| LineDiff.DiffRecoversBoth | packages/orchestrator/src/diff-preview.ts:18-38 | Both line lists are recovered exactly from the text of the diff |
| LineDiff.OldTextRecoveredIff | packages/orchestrator/src/diff-preview.ts:19 | The old file itself is recovered exactly when it has no return before a newline |
| LineDiff.DiffRead | packages/orchestrator/src/diff-preview.ts:24-37 | The marked lines can be read off the text of the diff |
| LineDiff.DiffSpells | packages/orchestrator/src/diff-preview.ts:24-35 | The marks of the first n turns spell the first n lines of both sides |
| LineDiff.DiffIsTruthful | packages/orchestrator/src/diff-preview.ts:24-35 | A line is shown as equal only if both sides have it at its number, as removed or added only if the other side does not, and an added line follows the removed one with its number |
| LineDiff.ShownLine | packages/orchestrator/src/diff-preview.ts:28-38 | Equal, removed and added lines begin with two blanks, a minus or a plus and a blank, and are joined by newlines |
| LineDiff.JoinSplit | packages/orchestrator/src/diff-preview.ts:19-20 | Joining the lines of a text gives the text with every line end a single newline |
| LineDiff.LinesOfDiff | packages/orchestrator/src/diff-preview.ts:21-35 | The loop pushes exactly the shown marks |
| LineDiff.SimpleLineDiff | packages/orchestrator/src/diff-preview.ts:18-38 | The text is that of the marks of all lines |

## Left out

- Run engine: audit events, titles, times, outputs and fix suggestions in log entries, and run metrics; a file write is one atomic step, and one operation works on a run at a time.
- The creation of a run's files when the building phase finds none; runs begin with the files as they are created.
- Second writes of run files: the local storage provider writes each of them once more without being awaited; the crash model takes these writes as done, so a stale one that arrives late is not modelled.
- Errors thrown by adapters outside the retry loop: they end an operation and are the same as cutting off its trace.
- Real adapters, policy rules, gate rules, planner, intake and skill tables: their answers are parameters.
- RunAttempts.TaskAttempts: healing is verified only finitely often; the configured maximum of healing attempts is not read by the code.
- RecentIdeas.ProjectMemory.RecordRun: an idea that is present is not empty, as the extraction of ideas from reports guarantees.
- CanonicalUnicode.StableStringifyWellFormed: does not model the encoding as UTF-8 for the hash, which loses nothing on well-formed UTF-16.
- Canonical text: numbers are their texts, and `undefined` and -0 do not occur, as after `JSON.parse`.
- SHA-256, HMAC and the encoding of secrets and clocks in signatures.
- Undo: permissions, links, names that only differ in case, and concurrent changes to the workspace; shell commands may do anything to it.
- Undo of commands with effects, of changes to files from before the run, and of several batches under one phase, which the code does not restore.
- Markdown artifacts, action logs and summaries that a batch writes beside its undo file.
- AuditChain.RowsFormChain: needs the hypothesis TimestampsFollowLockOrder; the lemma AuditChain.OvertakingForks shows why.
- The unlocked reads of the audit table, and SQL, connection pooling and isolation below the level of committed rows.
- RunAuditLog.Logger.AppendAuditEvent: does not model an interruption between saving the log and appending to the stream.
- Rollbacks: canary delay, action timeouts, the list of executions and deployment versions; strategies are fixed, and cycles do not overlap.
- Healing: timeouts, the list of executions, and what a reversal does: the code only logs it and waits.
- Rate limits: response headers and the derivation of keys from requests.
- Consensus: floating point, explanations and summaries; the default policy and profiles.
- Learning: adaptive policy overlays, the learning report, fix suggestions, times, and how lower-casing works.
- Phases: everything a report carries besides phases, status, and whether it holds an intake result and a plan; events and the storing of reports.
- Diff: the preview around the line diff.
