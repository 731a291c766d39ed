# CycleWarden: what its protocols guarantee

This project models the crash and concurrency protocols of CycleWarden, and the pure functions they
trust, and proves what holds of them for all inputs and in all runs. A property that the code does
not have is kept as a result: an input or run that breaks it, or the whole family of them, and the
exact condition under which it holds. `dafny verify dfyconfig.toml` checks everything.

| part | modules |
|---|---|
| the evolution cycle and its policy | `Lifecycle`, `LifecycleRules` |
| the journaled cycle store: file formats, one process, many processes | `Journal`, `EvolutionStoreModel`, `StoreProtocol`, `StoreRuns` |
| governed delivery: lease, execute and verify, crash recovery, scope rules, progress journal | `Lease`, `LeaseFiles`, `Delivery`, `DeliveryRecovery`, `DeliveryOutcomes`, `Scope`, `Progress` |
| the Forge run log and idempotency table in PostgreSQL | `EventLog`, `EventLogSafety`, `EventLogCommits`, `RunLog`, `IdempotencyTable` |
| the in-memory Forge store: gate, review, publication, idempotent calls | `Runs`, `ForgeStore`, `ForgeProtocol`, `ForgeAnswers`, `Idempotency` |
| canonical JSON and payload graphs | `Json`, `CanonicalJson`, `PayloadGraph` |
| citations and rate limits | `Citation`, `PublicText`, `RateLimit` |

Where processes, transactions or asynchronous calls interleave, the model is a step relation: one
step is one file-system effect, one SQL statement, or the code between two awaits, and the theorems
quantify over every sequence of steps; that a call nobody disturbs ends, and on which answer, is proved
beside them. Loops, in-place updates and objects are methods and classes
proved against a function whose properties are then proved as lemmas.

Results that correct an expectation:

- Request and event digests are canonical only where `localeCompare` ties no two keys of one object.
  U+00E9 and its decomposition are two keys that tie, and two values equal up to key order then hash
  differently (`CanonicalJson.PrintsCanonicallyIffNoTies`, `CanonicalJson.ComposedKeysPrintTwoWays`).
- `executeDelivery` and `verifyDelivery` never look at the branch, recovery does. With HEAD detached
  and the branch elsewhere, an interrupted run recovers to inconclusive although the uninterrupted
  one is implemented or verified (`DeliveryRecovery.CrashAfterSidecar`, `DeliveryRecovery.MovedBranchIsGivenUp`,
  `DeliveryRecovery.CrashAfterVerdict`, `DeliveryRecovery.DetachedCommitIsGivenUp`).
- `verifyDelivery` never looks whether a verdict is already recorded, recovery does. A verification that
  rejected and was killed before its transition can be run again; killed before its own record, the second
  one recovers to the first one's rejection although it had accepted (`DeliveryRecovery.CrashBeforeVerdict`,
  `DeliveryRecovery.ResumesOrGivesUpIffNotSettled`, `DeliveryRecovery.RejectedThenAccepted`).
- `save` writes a cycle that assertCycle refuses, and `create` also one that already has a history; both
  return it, and the journal is sound exactly when they did not (`EvolutionStoreModel.CommittedJournal`,
  `EvolutionStoreModel.RefusedCycleIsWritten`).
- The composed key of an idempotent call is shared by another workspace, operation and key exactly when one
  of the three contains a colon (`Idempotency.KeyIsSharedIffColon`, `Idempotency.ColonMovesBetweenParts`).
- A create killed between opening the journal and its first record leaves a cycle that nothing makes
  loadable again, and a journal whose last line is torn is lost at the next append
  (`StoreProtocol.CreateCanWedge`, `StoreProtocol.TornAppend`).
- Clearing a lease whose terminal record still has a lock is safe exactly when its owner is dead;
  otherwise two callbacks can run at once (`Lease.ClearingIsSafeIffOwnerDead`,
  `Lease.UngatedClearingBreaksExclusion`).
- A payload key that trims to `__proto__`, or to another key of its object, is lost from the
  normalised payload (`PayloadGraph.BuiltIsUnfoldingIffKeysStay`, `PayloadGraph.ProtoEntryIsLost`,
  `PayloadGraph.EarlierEntryIsLost`).
- A progress journal accepts an append exactly while the new file name is well formed and sorts behind
  the last one, which for its own names ends at sequence 99,999,999 (`Progress.AppendKeepsReadableIff`).
- The rate limiter allows at most `2 * limit - 1` successes in a closed window-long interval, and the
  bound is met (`RateLimit.LessThanTwiceTheLimit`, `RateLimit.BoundIsMet`). The first check of a window passes at any
  limit, with -1 remaining at limit 0 (`RateLimit.EveryAnswer`).
- A cancelled run can be brought back to running by its own execution (`ForgeProtocol.CancelledRunCanComeBack`).
- A scope rule whose last segment contains a dot is compared whole, so `.github` does not cover the
  files below that directory (`Scope.DottedNameMissesItsDirectory`).

## Model

| member | source | states |
|---|---|---|
| Lifecycle.EveryReachableCycle | packages/evolution-core/src/state-machine.ts:116-219 | any run of accepted transitions from createCycle has at most 13 steps and ends in a cycle with a connected legal history from created, every visited stage's artifacts present, authorised executions, normal artifact lists and distinct research ids |
| Lifecycle.TransitionKeepsInv | packages/evolution-core/src/state-machine.ts:151-219 | one accepted transition keeps all of that, and history, approvals, artifacts and research records only grow |
| Lifecycle.RunKeepsInv | packages/evolution-core/src/state-machine.ts:151-219 | the same over any sequence of transitions, one history entry per transition |
| Lifecycle.AllowedExecutionIsApproved | packages/evolution-core/src/policy.ts:55-143 | modify-code is allowed iff autonomy is A3 or A4 and, at R3 and R4, an unrevoked unexpired approval for this cycle and exact scope is held |
| Lifecycle.MatchingApproval | packages/evolution-core/src/policy.ts:55-74 | finds a matching approval whenever there is one, and only a matching one; an unparseable expiry counts as none |
| Lifecycle.TransitionCycle | packages/evolution-core/src/state-machine.ts:151-219 | the guards in order and the two merge loops compute the transition function, errors included |
| Lifecycle.TransitionAccepts | packages/evolution-core/src/state-machine.ts:156-193 | a transition no guard refuses is accepted, with the merged artifacts and records |
| Lifecycle.MergeArtifacts | packages/evolution-core/src/state-machine.ts:97-106 | the loop over a copy merges exactly the named buckets and leaves the others |
| Lifecycle.MergedKeepsEverything | packages/evolution-core/src/state-machine.ts:93-106 | merging keeps lists trimmed and duplicate-free and keeps every old entry, in place |
| Lifecycle.AddUniqueMembers | packages/evolution-core/src/state-machine.ts:93-95 | a list gains exactly the trimmed non-empty values it is given |
| Lifecycle.MergeResearchRecords | packages/evolution-core/src/research-records.ts:117-142 | the nested loops with their seen set succeed iff no added id repeats any other, in whatever buckets, and append bucket by bucket |
| Lifecycle.JoinedKeepsDistinct | packages/evolution-core/src/research-records.ts:117-142 | an accepted merge keeps record ids distinct across all buckets |
| LifecycleRules.LegalSteps | packages/evolution-core/src/state-machine.ts:12-50 | the stages that may follow a stage, as ranks: one rank on, the early ends from diagnosed to learned, rolling back from executing to measured, and nothing else |
| LifecycleRules.EveryBucketIsAskedOnce | packages/evolution-core/src/state-machine.ts:52-64 | each artifact bucket is asked for by exactly one stage |
| LifecycleRules.AuthorizationAnswers | packages/evolution-core/src/policy.ts:76-143 | for every action, level and risk: whether approval is wanted, whether the action is allowed, and which approval serves, on the fields of cycle, scope and approvals |
| LifecycleRules.CycleIds | packages/evolution-core/src/state-machine.ts:117-119 | a cycle id is accepted iff it has 3 to 128 letters, digits and, behind the first character, dots, underscores, colons or hyphens |
| LifecycleRules.CreationAnswers | packages/evolution-core/src/state-machine.ts:116-149 | which inputs createCycle refuses and for what, and every field of the cycle it makes |
| LifecycleRules.TransitionAnswers | packages/evolution-core/src/state-machine.ts:156-193 | every error of a transition and its acceptance as an iff on the input's fields, the first reason in source order named |
| LifecycleRules.AcceptedTransition | packages/evolution-core/src/state-machine.ts:195-219 | every field of the cycle an accepted transition gives back, its history entry and evidence references |
| LifecycleRules.MergedBuckets | packages/evolution-core/src/state-machine.ts:93-106 | a merged bucket holds its old references and the trimmed new ones, no other |
| Journal.ReadJournalLoop | packages/evolution-core/src/persistence.ts:526-560 | the line loop, with its torn-tail rule, reads what the recursive reader reads |
| Journal.AppendStages | packages/evolution-core/src/persistence.ts:234-250 | after each stage of one append a reader sees the old records or exactly one more |
| Journal.AppendKeepsReadable | packages/evolution-core/src/persistence.ts:134-180 | an append leaves a readable journal iff the text before ended in a newline, number and chain fit, and the cycle passes assertCycle |
| Journal.LoadIgnoresSnapshot | packages/evolution-core/src/persistence.ts:572-600 | whatever state.json holds, load answers with the last journal record and heals with that record |
| Journal.HealingSettles | packages/evolution-core/src/persistence.ts:582-600 | what one load writes to state.json the next load accepts without writing |
| Journal.ChainGrows | packages/evolution-core/src/persistence.ts:464-477 | the record save builds extends sequence, history length and checksum chain |
| Journal.CommitStages | packages/evolution-core/src/persistence.ts:516-519 | opening, appending and snapshotting keep the journal sound and leave nothing to heal |
| Journal.RecordReads | packages/evolution-core/src/persistence.ts:134-180 | a stored record is read iff version, sequence, metadata, cycle and checksum are right, and at version 2 the chain; each fault has its error |
| Journal.LegacyJournalReads | packages/evolution-core/src/persistence.ts:171-180 | a version 1 journal is read as the version 2 journal of its cycles |
| Journal.LoadAnswers | packages/evolution-core/src/persistence.ts:572-600 | when a load throws, and which error, on the journal alone |
| EvolutionStoreModel.EvolutionStore.AppendJournal | packages/evolution-core/src/persistence.ts:234-250 | the file after an append interrupted at any named crash point |
| EvolutionStoreModel.EvolutionStore.AtomicWriteJson | packages/evolution-core/src/persistence.ts:205-232 | the snapshot is the old one or the new one at every crash point, with at most one orphan left |
| EvolutionStoreModel.EvolutionStore.Load | packages/evolution-core/src/persistence.ts:572-600 | load answers with the journal's last cycle or dies healing, and never touches the journal |
| EvolutionStoreModel.EvolutionStore.Create | packages/evolution-core/src/persistence.ts:479-496 | create refuses an existing cycle, and otherwise leaves the cycle loadable unless killed right after opening the journal or assertCycle refuses it; the journal stays sound iff also the history is empty |
| EvolutionStoreModel.EvolutionStore.Save | packages/evolution-core/src/persistence.ts:498-524 | for every crash point the log is the old one or the old one and next, the latter iff previous was current and the line was written; the answer is named for every input and fault, and the lock stays only behind a kill; a written next that assertCycle refuses makes the journal unreadable |
| EvolutionStoreModel.CommittedJournal | packages/evolution-core/src/persistence.ts:516-519 | a committed line keeps the journal sound iff its cycle passes assertCycle and has the history length of its place |
| StoreProtocol.EveryRunKeepsInv | packages/evolution-core/src/persistence.ts:205-600 | the invariant in every interleaving of creates, saves and healing loads with kills between effects |
| StoreProtocol.StepRefinesAtomicLog | packages/evolution-core/src/persistence.ts:479-600 | each step is invisible in the log or is one atomic compare-and-append by its process |
| StoreProtocol.AtMostOneInCriticalSection | packages/evolution-core/src/persistence.ts:292-337 | at most one live process is between taking and releasing the lock |
| StoreProtocol.LoadReturnsLogEntry | packages/evolution-core/src/persistence.ts:572-600 | a load returns the last log entry as of its own journal read |
| StoreProtocol.ReadRecordsItsLength | packages/evolution-core/src/persistence.ts:526-560 | that read saw the whole log of its moment |
| StoreProtocol.ReturnedSaveIsInLog | packages/evolution-core/src/persistence.ts:498-524 | a save that returned has its cycle in the log directly on top of the one it replaced |
| StoreProtocol.ThrownSaveIsNotInLog | packages/evolution-core/src/persistence.ts:498-524 | a call that threw appended nothing |
| StoreProtocol.CompetingSavesAppendOnce | packages/evolution-core/src/persistence.ts:506-519 | of the saves from one cycle at most one ever appends |
| StoreProtocol.JournalStaysChained | packages/evolution-core/src/persistence.ts:134-180 | in every reachable state sequence, index and history length agree and the chain is intact |
| StoreProtocol.FreshLoadIsLast | packages/evolution-core/src/persistence.ts:572-600 | a load from the files of any reachable state answers with the last log entry |
| StoreProtocol.InterruptedSaveIsAtomic | packages/evolution-core/src/persistence.ts:498-524 | after a kill anywhere in a save the next load gives the new cycle iff its record became readable, else the old one |
| StoreProtocol.ReadSucceedsOnceCreated | packages/evolution-core/src/persistence.ts:556-558 | the shared journal can be read exactly once a first record is there |
| StoreProtocol.DeadOwnersLockIsReclaimable | packages/evolution-core/src/persistence.ts:282-330 | a killed owner's lock can be taken over by any waiting process |
| StoreProtocol.LiveTempsSurvive | packages/evolution-core/src/persistence.ts:222-231 | a live writer's temporary file is there to rename, whoever sweeps orphans |
| StoreProtocol.WedgedForever | packages/evolution-core/src/persistence.ts:484-488 | with an empty journal every later step keeps the cycle unloadable |
| StoreProtocol.CreateCanWedge | packages/evolution-core/src/persistence.ts:479-490 | one create and one kill reach that state from nothing |
| StoreProtocol.TornAppend | packages/evolution-core/src/persistence.ts:237-250 | after a kill inside the write, in every run up to the next append, each later load returns the new cycle if all its text had arrived and the old one otherwise; the next append loses the journal |
| StoreRuns.SoloSave | packages/evolution-core/src/persistence.ts:498-524 | from every reachable state without a living lock owner, an undisturbed save ends on exactly one named answer, with the new record appended iff it returns, lock and temporary file gone, and no other process touched |
| StoreRuns.SoloCreate | packages/evolution-core/src/persistence.ts:479-496 | an undisturbed create ends, and takes exactly a directory without journal and snapshot |
| StoreRuns.SoloLoad | packages/evolution-core/src/persistence.ts:572-600 | an undisturbed load ends, beside any lock, on the last cycle or the reader's error, and leaves nothing to heal |
| StoreRuns.AloneIsReachable | packages/evolution-core/src/persistence.ts:479-600 | such calls stay within the runs of the protocol |
| StoreRuns.ErrorsAreTrue | packages/evolution-core/src/persistence.ts:479-600 | in every reachable state, whatever runs beside it, a call has been told none but these errors, and each only where it is true of its arguments |
| Lease.EveryGatedRunKeepsInv | packages/evolution-core/src/delivery-operation.ts:211-547 | the invariant of checkpoint, lock, candidates and positions in every run whose reconciliations touch dead owners only |
| Lease.CallbackMutualExclusion | packages/evolution-core/src/delivery-operation.ts:376-478 | in every such run at most one live process is inside the callback, and the lease reads active |
| Lease.AtMostOneHolder | packages/evolution-core/src/delivery-operation.ts:335-354 | at most one live process is between linking and removing the lock |
| Lease.HolderIsNeverHealthy | packages/evolution-core/src/delivery-operation.ts:277-333 | from the link on, inspection is never healthy, so no other process starts |
| Lease.InsideIsActive | packages/evolution-core/src/delivery-operation.ts:277-333 | while the callback runs, inspection says active for that very operation |
| Lease.InspectionWithoutRecord | packages/evolution-core/src/delivery-operation.ts:212-276 | without a record in charge: healthy iff neither file is there, blocked where one is corrupt |
| Lease.InspectionOfRecord | packages/evolution-core/src/delivery-operation.ts:277-333 | owner, child and disposition of a record as iffs on its status, host, processes and the lock: a living owner or child is active, a running record of another host blocked |
| Lease.LivingChildKeepsLease | packages/evolution-core/src/delivery-operation.ts:300-321 | in every reachable state, a running record whose child lives reads active, and reconciliation neither begins nor changes a file |
| Lease.DeadLeaseIsStaleOrHealthy | packages/evolution-core/src/delivery-operation.ts:277-333 | with owner and child dead nothing is blocked or invalid |
| Lease.ReconciliationHeals | packages/evolution-core/src/delivery-operation.ts:480-547 | from every reachable crash state, inside an earlier reconciliation too, one completed reconciliation of a dead lease makes it healthy |
| Lease.ClearingIsSafeIffOwnerDead | packages/evolution-core/src/delivery-operation.ts:319-321 | clearing a stale lease keeps the invariant iff its recorded owner is dead |
| Lease.UngatedClearingBreaksExclusion | packages/evolution-core/src/delivery-operation.ts:447-455 | a run in which clearing a live owner's lease lets two callbacks run at once |
| Lease.ReconciledRecord | packages/evolution-core/src/delivery-operation.ts:506-547 | a cleared record keeps its operation and beat, loses its child, and is abandoned iff it was running |
| Lease.OperationStarts | packages/evolution-core/src/delivery-operation.ts:376-441 | from every reachable healthy lease a new process gets to its callback with its child recorded |
| Lease.OperationEnds | packages/evolution-core/src/delivery-operation.ts:442-478 | and ends with a terminal record on a healthy lease |
| Lease.OperationIsRefused | packages/evolution-core/src/delivery-operation.ts:382-398 | one that finds the lease not healthy ends and leaves it as it is |
| Lease.LockIsGivenBack | packages/evolution-core/src/delivery-operation.ts:417-428 | one whose candidate cannot be renamed gives the lock back |
| LeaseFiles.OperationDirectory.InspectDeliveryOperation | packages/evolution-core/src/delivery-operation.ts:212-333 | the record-by-record inspection of lock and checkpoint, malformed files included, decides as the protocol's inspection |
| LeaseFiles.OperationDirectory.PrepareOperation | packages/evolution-core/src/delivery-operation.ts:376-416 | starting keeps the invariant, and writes a candidate iff the lease is healthy |
| LeaseFiles.OperationDirectory.AcquireOperationLock | packages/evolution-core/src/delivery-operation.ts:335-428 | the lock is taken iff there is none, given back if the rename fails, kept if the process dies between, and the invariant holds each time |
| LeaseFiles.OperationDirectory.FinishOperation | packages/evolution-core/src/delivery-operation.ts:442-474 | the terminal record and the unlock leave a healthy lease, a kill between them a stale one |
| LeaseFiles.OperationDirectory.ApplyReconciliation | packages/evolution-core/src/delivery-operation.ts:506-547 | it clears iff the same operation is still stale, else changes nothing; killed after any effect the lease stays clearable; the invariant is lost iff it completes under a live owner |
| LeaseFiles.ReconciliationStages | packages/evolution-core/src/delivery-operation.ts:536-545 | the files after each effect keep the invariant, stale for the same operation until the unlock makes them healthy, and past the unlock iff the owner is dead |
| Delivery.DeliveryRun.ExecuteDelivery | packages/evolution-core/src/delivery.ts:548-694 | the durable state at the end or at each crash point, step by step |
| Delivery.DeliveryRun.VerifyDelivery | packages/evolution-core/src/delivery.ts:711-896 | the same for verify, with its patch comparisons, verdict and commit |
| Delivery.DeliveryRun.RecoverDelivery | packages/evolution-core/src/delivery-recovery.ts:640-715 | inspection, plan and transition as they run |
| DeliveryRecovery.PlannedStepIsLegal | packages/evolution-core/src/delivery-recovery.ts:448-595 | every planned target is a legal transition out of executing or implemented |
| DeliveryRecovery.RecoveryCompletes | packages/evolution-core/src/delivery-recovery.ts:597-715 | an applied recovery is never refused and ends on the planned stage, handoff kept |
| DeliveryRecovery.VerifiedExactlyWhenBacked | packages/evolution-core/src/delivery-recovery.ts:528-546 | recovery verifies iff a sealed accepted record with evidence is backed by its clean commit on the branch |
| DeliveryOutcomes.WorktreeReads | packages/evolution-core/src/delivery-recovery.ts:342-446 | each status of the inspected worktree as a condition on tree and record |
| DeliveryOutcomes.ExecutingPlan | packages/evolution-core/src/delivery-recovery.ts:448-495 | the plan for an executing cycle: its recorded status, an implementation only where it is intact |
| DeliveryOutcomes.ImplementedPlan | packages/evolution-core/src/delivery-recovery.ts:497-557 | the plan for an implemented cycle by its recorded verdict |
| DeliveryOutcomes.SettledPlan | packages/evolution-core/src/delivery-recovery.ts:559-595 | the plan for every other stage, which moves nothing |
| DeliveryOutcomes.RecoveryLinksEvidence | packages/evolution-core/src/delivery-recovery.ts:597-638 | an applied recovery links its own evidence and that of the record it relied on |
| DeliveryRecovery.CrashBeforeSidecar | packages/evolution-core/src/delivery.ts:588-680 | a crash before the sidecar recovers to inconclusive |
| DeliveryRecovery.CrashBeforeStart | packages/evolution-core/src/delivery.ts:579-593 | a crash before the start is saved leaves the planned cycle alone |
| DeliveryRecovery.CrashAfterSidecar | packages/evolution-core/src/delivery-recovery.ts:455-495 | recovery reaches the uninterrupted run's stage iff an implemented run's branch is at its base commit, else inconclusive |
| DeliveryRecovery.MovedBranchIsGivenUp | packages/evolution-core/src/delivery-recovery.ts:455-495 | a concrete implementation off its branch: implemented without the crash, inconclusive after it |
| DeliveryRecovery.UninterruptedExecution | packages/evolution-core/src/delivery.ts:537-694 | without a crash execute ends where its status says |
| DeliveryOutcomes.ExecutionStartsIff | packages/evolution-core/src/delivery.ts:548-577 | execute goes past its checks iff trust, repository, handoff, actor, stage, autonomy and approval allow it, and else changes nothing |
| DeliveryOutcomes.ExecutionEndsOn | packages/evolution-core/src/delivery.ts:537-694 | with kept for a digested tree on the base commit, in scope and without a boundary error: implemented iff kept, passed and something changed; rejected iff not kept or the command failed; inconclusive otherwise |
| DeliveryOutcomes.ExecutionIsRecorded | packages/evolution-core/src/delivery.ts:626-680 | every field of the control record the sidecar gets |
| DeliveryOutcomes.ExecutionAtItsCrash | packages/evolution-core/src/delivery.ts:588-680 | cycle, sidecar and worktree at each crash point |
| DeliveryOutcomes.ExecutionAnswers | packages/evolution-core/src/delivery.ts:588-694 | without a crash it is refused or finished, and what was written before a refusal stays |
| DeliveryRecovery.CrashBeforeVerdict | packages/evolution-core/src/delivery-recovery.ts:497-557 | before its own verdict is recorded, a verification killed recovers by the earlier record: none resumes on the intact patch and branch or gives up, a rejection rejects, an acceptance verifies iff its clean commit is still there |
| DeliveryRecovery.ResumesOrGivesUpIffNotSettled | packages/evolution-core/src/delivery-recovery.ts:497-557 | recovery resumes or gives up iff no earlier record settles the cycle by a rejection or by an acceptance still backed by its commit |
| DeliveryRecovery.UnrecordedCommitIsGivenUp | packages/evolution-core/src/delivery-recovery.ts:510-527 | a first verification killed behind its commit recovers to inconclusive |
| DeliveryRecovery.EarlierRejectionWins | packages/evolution-core/src/delivery.ts:711-742 | after an interrupted rejection, a second verification that would be verified recovers to rejected when killed before its own record |
| DeliveryRecovery.RejectedThenAccepted | packages/evolution-core/src/delivery.ts:815-896 | a concrete pair of verifications where it does |
| DeliveryRecovery.CrashAfterVerdict | packages/evolution-core/src/delivery-recovery.ts:528-557 | recovery reaches the uninterrupted stage iff an accepted commit is also the branch head, else inconclusive |
| DeliveryRecovery.DetachedCommitIsGivenUp | packages/evolution-core/src/delivery-recovery.ts:528-546 | a concrete accepted commit on a detached HEAD: verified without the crash, inconclusive after it |
| DeliveryRecovery.UninterruptedVerification | packages/evolution-core/src/delivery.ts:815-896 | without a crash verify ends where its verdict says |
| DeliveryOutcomes.VerificationStartsIff | packages/evolution-core/src/delivery.ts:711-742 | verify goes past its checks iff stage, sealed sidecar, handoff, evidence link and a second actor are right, and else changes nothing |
| DeliveryOutcomes.VerificationEndsOn | packages/evolution-core/src/delivery.ts:743-896 | verified iff the patch is untouched before and after, there are checks, every one passed and the commit is clean; rejected iff it is touched, a check failed or the commit is dirty; inconclusive otherwise |
| DeliveryOutcomes.VerificationAtItsCrash | packages/evolution-core/src/delivery.ts:743-857 | the worktree after the checks and after the commit, which there is only on a kept patch with every check passed |
| DeliveryOutcomes.VerdictIsRecorded | packages/evolution-core/src/delivery.ts:859-882 | before the cycle moves, the sidecar names verdict, verifier and evidence, and a commit iff it accepts |
| DeliveryOutcomes.AcceptanceIsRecorded | packages/evolution-core/src/delivery.ts:815-896 | an accepted verification leaves its record and a clean commit that moves the branch only under an attached HEAD |
| DeliveryRecovery.AcceptedIsCommitted | packages/evolution-core/src/delivery.ts:815-857 | an accepted verdict means unchanged patch before and after, every check passed, and a clean commit |
| DeliveryRecovery.RecoveredImplementationCanBeVerified | packages/evolution-core/src/delivery.ts:711-742 | an execution killed after its sidecar and recovered to implemented passes all of verify's checks, the evidence link among them, iff the verifier is another actor |
| Scope.RuleMatchesOnSegments | packages/evolution-core/src/delivery.ts:347-362 | string matching equals the segment meaning of the rule, for every path and rule, and raises exactly on other globs |
| Scope.AtOrBelowIsSegmentPrefix | packages/evolution-core/src/delivery.ts:352-361 | equal or starting with the rule and a slash is being a prefix of segments |
| Scope.EnforceableByTrim | packages/evolution-core/src/delivery.ts:343-345 | a rule is enforceable iff it is non-empty without white space |
| Scope.SomeMatches | packages/evolution-core/src/delivery.ts:374-374 | the scan raises iff an unsupported rule comes before every covering one, and otherwise finds whether one covers |
| Scope.ScopeViolations | packages/evolution-core/src/delivery.ts:364-382 | it raises exactly when some file's check does, and otherwise reports nothing iff some allowed rule is enforceable and every file is covered by an allowed rule and by no forbidden one |
| Scope.ViolationsExactly | packages/evolution-core/src/delivery.ts:371-380 | reported are exactly the files no allowed rule covers and the forbidden rules that cover a file |
| Scope.DottedNameMissesItsDirectory | packages/evolution-core/src/delivery.ts:360-361 | a dotted rule matches itself and nothing below it |
| Scope.PathReads | packages/evolution-core/src/delivery.ts:335-341 | a path is read with backslashes turned and one leading dot-slash gone, and refused where empty, absolute or above the repository |
| Scope.RuleMeans | packages/evolution-core/src/delivery.ts:347-362 | what each form of rule means, read off its text |
| Progress.ReadAllEvents | packages/evolution-core/src/delivery-progress.ts:255-284 | the loop with its running digest reads what the recursive reader reads |
| Progress.ReadsExactlyChained | packages/evolution-core/src/delivery-progress.ts:255-284 | a directory is read iff it stores a numbered, sealed, chained journal of the cycle, and then as that journal |
| Progress.SameLastDigestSameJournal | packages/evolution-core/src/delivery-progress.ts:264-280 | two journals that end in one digest are identical |
| Progress.AppendKeepsReadableIff | packages/evolution-core/src/delivery-progress.ts:355-380 | an append leaves a readable journal iff the name is well formed and sorts last, and then adds exactly the event |
| Progress.OwnJournalStaysReadable | packages/evolution-core/src/delivery-progress.ts:376-379 | a journal of its own names stays readable iff the sequence has at most eight digits |
| Progress.OwnNamesStay | packages/evolution-core/src/delivery-progress.ts:376-379 | such an append keeps the names the journal's own |
| Progress.NameOrderIsSequenceOrder | packages/evolution-core/src/delivery-progress.ts:247-253 | below 10^8 file-name order is sequence order, whatever the ids |
| Progress.NameIsGoodIffSequenceFits | packages/evolution-core/src/delivery-progress.ts:264-266 | the reader's pattern accepts a written name iff the sequence is below 10^8 |
| Progress.TemporaryFilesAreIgnored | packages/evolution-core/src/delivery-progress.ts:137-163 | a leftover temporary file changes neither the listing nor what is read |
| Progress.ProgressJournal.Append | packages/evolution-core/src/delivery-progress.ts:355-380 | the directory after an append, or after a crash before the rename |
| Progress.FileReads | packages/evolution-core/src/delivery-progress.ts:255-284 | a file is accepted iff name, cycle, sequence, previous digest and own digest are right, each fault with its error |
| Progress.FirstFaultIsNamed | packages/evolution-core/src/delivery-progress.ts:255-284 | a directory's error is that of its first faulty file |
| Json.NumberTextInjective | packages/forge-application/src/store/in-memory-store.ts:33-33 | distinct finite numbers print differently, through all four layouts of Number::toString |
| Json.PrintUnique | packages/forge-application/src/store/in-memory-store.ts:23-34 | a printed value can be read back in one way only, whatever follows it |
| CanonicalJson.SerializePrintsCanon | packages/forge-application/src/store/in-memory-store.ts:23-34 | stableSerialize is the plain printer applied to the value with sorted fields |
| CanonicalJson.SameTextIsEquivalent | packages/forge-application/src/events/postgres-live-provider-event-sink.ts:45-56 | one text means equal up to key order at every level, whatever the locale |
| CanonicalJson.SameTextIffEquivalent | packages/forge-application/src/persistence/postgres-idempotency-repository.ts:26-35 | without ties, same text iff equal up to key order |
| CanonicalJson.PrintsCanonicallyIffNoTies | packages/forge-application/src/store/in-memory-store.ts:27-31 | a value prints like every value equal to it up to key order iff no two keys of one of its objects tie |
| CanonicalJson.ComposedKeysPrintTwoWays | packages/forge-application/src/store/in-memory-store.ts:28-28 | a concrete pair of equal values with two texts, where the locale ties composed and decomposed keys |
| CanonicalJson.SortIsStable | packages/forge-application/src/store/in-memory-store.ts:27-28 | tied entries keep their order |
| CanonicalJson.SortSorts | packages/forge-application/src/store/in-memory-store.ts:27-28 | the result is sorted for every total preorder |
| CanonicalJson.StrictOrderNeverTies | packages/forge-application/src/store/in-memory-store.ts:28-28 | an order that ties no distinct keys makes every value print canonically |
| EventLogSafety.EveryRunKeepsInv | packages/forge-application/src/events/postgres-live-provider-event-sink.ts:85-173 | the invariant in every interleaving of the three writers' statements with aborts, heartbeats and readers |
| EventLogSafety.SequencesAreGapless | packages/forge-application/src/persistence/postgres-forge-repository.ts:135-195 | each run's committed sequences are exactly 1 to event_sequence, commit order being sequence order |
| EventLogSafety.CommittedTransition | packages/forge-application/src/persistence/postgres-forge-repository.ts:146-195 | a transition commits against the version it expected; the row it leaves is named field by field, and so is the one event |
| EventLogSafety.StaleTransitionChangesNothing | packages/forge-application/src/persistence/postgres-forge-repository.ts:147-170 | in every run, a transition whose UPDATE met another version or workspace stays refused for that reason, and no step of it ever changes rows or log |
| EventLogSafety.FinishedIsFinal | packages/forge-application/src/persistence/postgres-forge-repository.ts:146-195 | what was refused never commits later |
| EventLogSafety.AtMostOneTransitionPerVersion | packages/forge-application/src/persistence/postgres-forge-repository.ts:147-155 | of the transitions expecting one version of one run at most one commits |
| EventLogSafety.CommittedAppend | packages/forge-application/src/events/postgres-live-provider-event-sink.ts:135-173 | the sink advances the row by one and appends one event with that sequence |
| EventLogSafety.CommittedFailStale | packages/forge-application/src/reconciliation/postgres-reconciler.ts:17-59 | at commit every run it fails was active and stale; each row it leaves is named field by field with state failed, each gets one event, and no other run changes |
| EventLogSafety.OnlyCommitsWrite | packages/forge-application/src/events/postgres-live-provider-event-sink.ts:90-173 | the log only grows, and only by a commit |
| EventLogSafety.CorrelationIsUnique | packages/forge-application/src/events/postgres-live-provider-event-sink.ts:102-112 | a correlation id only the sink uses is in the log at most once |
| EventLogSafety.SameDigestIsSameEvent | packages/forge-application/src/events/postgres-live-provider-event-sink.ts:58-71 | events with one digest differ at most in payload key order |
| EventLogSafety.SameDigestIffSameEvent | packages/forge-application/src/events/postgres-live-provider-event-sink.ts:58-71 | and conversely, where the locale ties no payload keys |
| EventLogSafety.ReplayReturnsTheLoggedEvent | packages/forge-application/src/events/postgres-live-provider-event-sink.ts:113-138 | a replay returns the logged event iff it is the same event up to jsonb's key order, else it is refused; nothing is written |
| EventLogSafety.ReturnedReplayIsLogged | packages/forge-application/src/events/postgres-live-provider-event-sink.ts:113-138 | what a replay returned is in the log under its run and correlation id |
| EventLogSafety.ReaderGetsEveryEventOnce | packages/forge-application/src/persistence/postgres-forge-repository.ts:231-265 | a reader looping with any limits between commits has every event up to its cursor once, in order |
| EventLogSafety.ShortPageIsTheEnd | packages/forge-application/src/persistence/postgres-forge-repository.ts:252-264 | a page is as long as the limit allows, and a short page means caught up |
| EventLogCommits.TransitionCommits | packages/forge-application/src/persistence/postgres-forge-repository.ts:135-195 | nobody in its way, a transition that expects the version gets to its commit, with that row and event |
| EventLogCommits.TransitionIsRefused | packages/forge-application/src/persistence/postgres-forge-repository.ts:156-170 | on another version or workspace it is refused for that reason |
| EventLogCommits.AppendCommits | packages/forge-application/src/events/postgres-live-provider-event-sink.ts:85-173 | the sink's append under a new correlation id gets to its commit |
| EventLogCommits.ReplayAnswers | packages/forge-application/src/events/postgres-live-provider-event-sink.ts:113-138 | an event sent again is answered with the logged one, and nothing is written |
| EventLogCommits.StaleRunIsFailed | packages/forge-application/src/reconciliation/postgres-reconciler.ts:17-59 | a stale run is found, failed and logged |
| EventLogCommits.PageCanBeRead | packages/forge-application/src/persistence/postgres-forge-repository.ts:231-265 | in every state that keeps the invariant a reader can read on, and gets the next stretch |
| RunLog.ForgeRunLog.TransitionRunAndAppendEvent | packages/forge-application/src/persistence/postgres-forge-repository.ts:135-195 | numbering is kept, and the version alone decides between one row with the new state, version and sequence plus one event, and no change |
| RunLog.ForgeRunLog.AppendProviderEvent | packages/forge-application/src/events/postgres-live-provider-event-sink.ts:85-173 | a replay writes nothing and returns an event of the same digest or refuses; otherwise one event with the next sequence |
| RunLog.ForgeRunLog.FailStaleRuns | packages/forge-application/src/reconciliation/postgres-reconciler.ts:17-59 | exactly the stale runs become failed, each once and with one event of its next sequence, no run stays stale, and every other row stays |
| RunLog.ForgeRunLog.GetEventsAfter | packages/forge-application/src/persistence/postgres-forge-repository.ts:231-265 | a page is the stretch of the run's events right after the cursor, cut at the limit, with its error cases |
| RunLog.AdvanceKeepsRuns | packages/forge-application/src/persistence/postgres-forge-repository.ts:146-195 | advancing a row and inserting its event keeps every run numbered 1 to its sequence |
| IdempotencyTable.EveryRunKeepsInv | packages/forge-application/src/persistence/postgres-idempotency-repository.ts:44-117 | rows, grants, answers and completions agree in every interleaving of claims and completions |
| IdempotencyTable.ExactlyOneClaimIsGranted | packages/forge-application/src/persistence/postgres-idempotency-repository.ts:53-67 | of all claims of a key, ever, exactly one is told to go ahead |
| IdempotencyTable.RecordNeverVanishes | packages/forge-application/src/persistence/postgres-idempotency-repository.ts:69-78 | the SELECT after a conflict always finds the row |
| IdempotencyTable.RefusedIffOtherRequest | packages/forge-application/src/persistence/postgres-idempotency-repository.ts:79 | a claim is refused iff its request differs from the granted one by more than key order, where the locale ties no keys |
| IdempotencyTable.ReplaysAgree | packages/forge-application/src/persistence/postgres-idempotency-repository.ts:80-87 | every completed answer is the row's response, and that is the one response that was completed, up to jsonb's key order |
| IdempotencyTable.CompletedOnce | packages/forge-application/src/persistence/postgres-idempotency-repository.ts:90-117 | a key is completed iff exactly one completion of it has succeeded |
| IdempotencyTable.SelectAnswers | packages/forge-application/src/persistence/postgres-idempotency-repository.ts:69-87 | the answer after a conflict, on the row: vanished, conflict, pending or the stored response |
| IdempotencyTable.CompletedKeyReplays | packages/forge-application/src/persistence/postgres-idempotency-repository.ts:80-87 | over runs, the same request on a completed key is answered with the response |
| IdempotencyTable.ClaimedPendingCompleted | packages/forge-application/src/persistence/postgres-idempotency-repository.ts:44-117 | a run that claims, waits and completes, for every key, request and response |
| Runs.TransitionsProgress | packages/forge-domain/src/run/run-state-machine.ts:22-40 | legal run steps never go back but for the approval wait, and publishing follows awaiting review only |
| Runs.LegalSources | packages/forge-domain/src/run/run-state-machine.ts:22-40 | for each state the states it may be entered from |
| ForgeStore.EvaluateCompletionGate | packages/forge-domain/src/review/completion-gate.ts:48-122 | the two loops push exactly the blockers of the gate function |
| ForgeStore.GateMeaning | packages/forge-domain/src/review/completion-gate.ts:48-122 | approval iff every mandatory item passes and every waiver is advisory and audited; publication iff a fresh approval is there too |
| ForgeStore.SavesKeepStoreOk | packages/forge-application/src/store/in-memory-store.ts:178-203 | the evidence version stays the number of saved validations and evidence items, and reviews stay grounded in a prefix of them |
| ForgeStore.PublishedIsReviewed | packages/forge-application/src/publications/publish-run.ts:43-60 | whoever passes the publication gate publishes exactly the items the approving review recorded, all fine |
| ForgeStore.LateEvidenceBlocksPublication | packages/forge-domain/src/review/completion-gate.ts:90-104 | one item saved after the review closes the gate, whatever it says |
| ForgeStore.InMemoryForgeStore.AddValidation | packages/forge-application/src/store/in-memory-store.ts:178-184 | appends and bumps the version, keeping the store's invariant |
| ForgeStore.InMemoryForgeStore.AddEvidence | packages/forge-application/src/store/in-memory-store.ts:190-196 | the same for evidence |
| ForgeStore.InMemoryForgeStore.SaveReview | packages/forge-application/src/store/in-memory-store.ts:206-213 | a second review of a run is refused |
| ForgeStore.InMemoryForgeStore.Resolve | packages/forge-application/src/reviews/resolve-review.ts:44-108 | every refusal leaves the store alone; an approval records version and ids and leaves the state |
| ForgeStore.InMemoryForgeStore.Publish | packages/forge-application/src/publications/publish-run.ts:43-72 | the gate, then publishing, on exactly what was reviewed |
| ForgeAnswers.BlockersExactly | packages/forge-domain/src/review/completion-gate.ts:48-122 | which blockers there are, each with the item it names, on the fields of items and review |
| ForgeAnswers.ReviewAnswers | packages/forge-application/src/reviews/resolve-review.ts:44-77 | every answer of a review as an iff on run, workspace, state, items and earlier review |
| ForgeAnswers.AcceptedReview | packages/forge-application/src/reviews/resolve-review.ts:78-108 | what an accepted review stores, its decision, version and ids among them |
| ForgeAnswers.PublicationAnswers | packages/forge-application/src/publications/publish-run.ts:43-64 | every answer of a publication as an iff on run, workspace, items, review and state |
| ForgeAnswers.CancelAnswers | packages/forge-application/src/runs/cancel-run.ts:27-55 | every answer of a cancellation as an iff on run, workspace and state |
| ForgeProtocol.EveryRunKeepsInv | packages/forge-application/src/runs/execute-run.ts:38-224 | the invariant in every interleaving of executions with stale copies, cancels, reviews and publications |
| ForgeProtocol.ProviderCalledAtMostOnce | packages/forge-application/src/publications/publish-run.ts:43-90 | the source provider is called at most once per run, under whatever keys |
| ForgeProtocol.CalledOnWhatWasReviewed | packages/forge-application/src/publications/publish-run.ts:43-81 | and only on what an approving review recorded |
| ForgeProtocol.NoSecondPublication | packages/forge-application/src/publications/publish-run.ts:59-64 | after one call every other publisher is refused, however the first fared |
| ForgeProtocol.EvidenceGrowsAndReviewsStay | packages/forge-application/src/store/in-memory-store.ts:178-213 | no step removes evidence or replaces a review |
| ForgeProtocol.CancelledRunCanComeBack | packages/forge-application/src/runs/execute-run.ts:62-81 | a reachable state in which a cancelled run's execution makes it running again |
| ForgeAnswers.RunIsExecuted | packages/forge-application/src/runs/execute-run.ts:38-224 | a queued run can be executed up to its review |
| ForgeAnswers.ReviewedRunIsPublished | packages/forge-application/src/publications/publish-run.ts:43-90 | in every reachable state a run awaiting review with its items in order can be approved and published, with one more call |
| Idempotency.EveryRunKeepsInv | packages/forge-application/src/store/in-memory-store.ts:67-92 | the invariant of entries, attempts and callers in every interleaving |
| Idempotency.AtMostOneSuccess | packages/forge-application/src/store/in-memory-store.ts:67-92 | per key at most one execute ever succeeds |
| Idempotency.AtMostOnePending | packages/forge-application/src/store/in-memory-store.ts:83-85 | nor do two attempts of one key run at once |
| Idempotency.ReturnersAgree | packages/forge-application/src/store/in-memory-store.ts:76-87 | every caller that returns on a key returns the same result of the same request |
| Idempotency.CleanupRemovesItsOwn | packages/forge-application/src/store/in-memory-store.ts:88-91 | a failed attempt's cleanup removes its own entry, never a newer one |
| Idempotency.DifferentRequestIsRefused | packages/forge-application/src/store/in-memory-store.ts:76-82 | a different request hash on a live key is refused and changes nothing |
| Idempotency.SameRequestJoins | packages/forge-application/src/store/in-memory-store.ts:76-82 | over runs, the same request on a pending or succeeded key joins that attempt and starts none |
| Idempotency.FirstRequestStarts | packages/forge-application/src/store/in-memory-store.ts:83-87 | on a free key a call starts an attempt of its own |
| Idempotency.WaiterGetsTheResult | packages/forge-application/src/store/in-memory-store.ts:76-92 | whoever waits on an attempt that succeeded is given its result and nothing else |
| Idempotency.LaterCallsGetTheResult | packages/forge-application/src/store/in-memory-store.ts:76-92 | once a request has succeeded every later call of it is waiting for that result or has returned it |
| Idempotency.ResumeAnswers | packages/forge-application/src/store/in-memory-store.ts:86-92 | what a settled attempt's waiter is told and what becomes of the entry |
| Idempotency.FailedThenRetried | packages/forge-application/src/store/in-memory-store.ts:86-92 | a run in which a request fails and the same request then succeeds |
| Idempotency.SuccessIsNeverReplaced | packages/forge-application/src/store/in-memory-store.ts:67-92 | once an attempt has succeeded its key keeps that entry for the rest of the run and starts no other attempt |
| Idempotency.StoreKeysAreDistinct | packages/forge-application/src/store/in-memory-store.ts:74-74 | composed keys collide for no two colon-free workspaces and operations, whatever the caller's keys |
| Idempotency.KeyIsSharedIffColon | packages/forge-application/src/store/in-memory-store.ts:74-74 | without that restriction, a composed key is shared by other parts iff one of its parts contains a colon |
| PayloadGraph.Walk.NormalizeJsonValue | packages/forge-application/src/events/live-provider-event-normalizer.ts:204-288 | the walk succeeds iff the unfolding fits and the counter stays within 10,000, names a fault the value has when it fails, and restores the ancestors on every exit |
| PayloadGraph.NormalizePayload | packages/forge-application/src/events/live-provider-event-normalizer.ts:204-214 | from a root: success iff depth at most 20, at most 10,000 nodes, only supported leaves, plain objects and valid keys; an error names a fault the payload has, or its size |
| PayloadGraph.FaultyIffItDoesNotFit | packages/forge-application/src/events/live-provider-event-normalizer.ts:217-284 | a value has one of these faults iff it does not fit, wherever on the way down it is met |
| PayloadGraph.FlatListFits | packages/forge-application/src/events/live-provider-event-normalizer.ts:126-127 | a flat list passes up to 9,999 entries and no further |
| PayloadGraph.NestingFits | packages/forge-application/src/events/live-provider-event-normalizer.ts:126-127 | nesting passes up to depth 20 and no further |
| PayloadGraph.CycleNeverFits | packages/forge-application/src/events/live-provider-event-normalizer.ts:248-253 | an object that reaches itself unfolds beyond every depth |
| PayloadGraph.CyclicPayloadsAreRefused | packages/forge-application/src/events/live-provider-event-normalizer.ts:248-253 | a cycle at whatever distance from the root is refused |
| PayloadGraph.SharedObjectsAreRepeated | packages/forge-application/src/events/live-provider-event-normalizer.ts:254-287 | in any graph, an object counts with its whole size once for every way to it |
| PayloadGraph.EveryWayEndsOnItsTree | packages/forge-application/src/events/live-provider-event-normalizer.ts:254-287 | and its whole tree stands at the end of every way to it |
| PayloadGraph.BuiltIsUnfoldingIffKeysStay | packages/forge-application/src/events/live-provider-event-normalizer.ts:275-284 | the result is the unfolding with trimmed keys iff no object has keys that trim alike or to `__proto__` |
| PayloadGraph.ProtoEntryIsLost | packages/forge-application/src/events/live-provider-event-normalizer.ts:275-284 | a key that trims to `__proto__` is valid and its entry is gone |
| PayloadGraph.EarlierEntryIsLost | packages/forge-application/src/events/live-provider-event-normalizer.ts:275-284 | of two keys that trim alike only the later entry is left |
| Citation.NormalizedIsNormal | packages/evolution-core/src/public-source.ts:95-102 | every normalised text is in the normal form |
| Citation.FixedIffNormal | packages/evolution-core/src/public-source.ts:95-102 | and normalising changes nothing exactly on normal text |
| Citation.NormalizeIsIdempotent | packages/evolution-core/src/public-source.ts:95-102 | normalising twice is normalising once |
| PublicText.NormalizingRegaps | packages/evolution-core/src/public-source.ts:95-102 | normalising is replacing every gap of blanks and line ends by a space, a newline or an empty line, as its line ends demand, and trimming; all else stays |
| PublicText.NormalizingKeepsVisible | packages/evolution-core/src/public-source.ts:95-102 | the characters that are not white space are the same, in the same order |
| Citation.LocateExactCitation | packages/evolution-core/src/public-source.ts:373-411 | the loop answers as the greedy list says, and the slice at the span is the quote |
| Citation.GreedyExactly | packages/evolution-core/src/public-source.ts:390-397 | the list is the first occurrence, then each first one that does not overlap, to the end of the text |
| Citation.GreedyIsBest | packages/evolution-core/src/public-source.ts:390-397 | no other choice of non-overlapping occurrences is longer or further left |
| Citation.CitationRoundTrip | packages/evolution-core/src/public-source.ts:373-411 | locating a citation's own quote again gives the same citation |
| Citation.OccursExactly | packages/evolution-core/src/public-source.ts:390-397 | an occurrence is a place where the text is something, the quote, and something after |
| Citation.LocateAnswers | packages/evolution-core/src/public-source.ts:373-411 | every answer of the location as a condition on quote, occurrence and text |
| RateLimit.InMemoryRateLimiter.Check | packages/security/src/rate-limit.ts:28-54 | with a clock that does not go back, the swept limiter answers as the unswept one would |
| RateLimit.InMemoryRateLimiter.Sweep | packages/security/src/rate-limit.ts:30-35 | exactly the expired records go |
| RateLimit.EveryAnswer | packages/security/src/rate-limit.ts:37-54 | each answer of any run from the calls alone: the window's reset time, success iff first or within the limit, and what remains |
| RateLimit.LessThanTwiceTheLimit | packages/security/src/rate-limit.ts:28-54 | any closed interval of length windowMs holds fewer than twice the limit of successes of a key |
| RateLimit.BoundIsMet | packages/security/src/rate-limit.ts:37-48 | at every limit and window a schedule meets the bound |

## Left out

- SHA-256 and other digests: modelled as injective constructors or as the text they digest.
- Process identifiers are never reused, and a lease and its processes are on one host; other hosts appear only as a foreign owner in lease inspection.
- The reclaiming of a dead lock (check, then remove) and every inspection of lease files are one step each; a lock file is recorded before it is old enough to be reclaimed by age.
- I/O failures other than kills, directory and file syncing, power loss after an unsynced write, and heartbeat timing.
- Clocks, random identifiers, error message texts, and the recorded limitations and next actions of recovery records: inputs or absent.
- The asynchronous store calls are steps only. `LeaseFiles` and `RunLog` run the lease functions and the SQL transactions as methods, the latter one whole transaction at a time.
- StoreProtocol.EveryRunKeepsInv: takes creates with an empty history and cycles that pass assertCycle, because any other write ends the invariant; EvolutionStoreModel.CommittedJournal says exactly when.
- The store's `list` and `replay`, project configuration, and cycle directory names.
- Which stale runs one failStaleRuns scan reaches when rows change under it; only what it commits is stated.
- SQL columns that no property mentions, uniqueness of run iterations, and transaction isolation other than read committed.
- Expiry of idempotency records, which no statement reads: an abandoned claim stays pending. Deletion of a workspace, which cascades to its records.
- Heartbeats and child records are steps of `Lease` without a method in `LeaseFiles`; what they leave is in `Lease.OperationStarts`.
- Git itself: a worktree is its HEAD, branch head, changed files, patch digest and dirtiness; failing git commands in verify's commit and the publication of a verified branch are absent.
- Scope violations in executeDelivery are an input there; Scope proves what they are.
- JavaScript strings are sequences of characters outside the Json module, where they are UTF-16 code units; sparse arrays, proxies, getters and `toJSON` in payloads are absent.
- CanonicalJson.PrintsCanonicallyIffNoTies: takes the entries of an object in any order, while JavaScript lists integer-like keys first in ascending order.
- `undefined` values in canonical JSON, whose text is not JSON.
- Active-step derivation and event limits of the progress inspection, and the rest of `withDeliveryProgressOperation`.
- Research adapters, HTTP fetching and address checks, hostile-text detection, command-line front ends, the web application, authentication, mail, payment, storage and telemetry.
