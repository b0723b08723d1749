# APX: journals, acquisition, release artifacts and the laboratory runtime

APX prepares, journals and promotes changes to a machine. This project models the parts of it whose
correctness is a matter of order and accounting, and proves what they keep:

- four hash-chained operation journals with their step functions, validators, recovery assessments and
  compare-and-swap stores: clean install, release promotion, executor, external model attachment;
- the executor's journal file as a state machine of interleaved processes, with a lock, temporary
  names, link and replace, partial writes, unlocked readers and crashes;
- the laboratory runtime (create, start, stop, destroy, restore, recover) as a protocol in which any
  call may fail and the process may die before or after any effect;
- bounded acquisition: the staging directory as names and inodes, the streaming writer, the download
  loop, their composition, the fixed acquisition and its resumption after a crash;
- release artifacts: lexical paths, link targets, the member tree, manifests and their comparison;
- the canonical resolution manifest, and the closure of process descendants.

Records are values and steps are functions from records to results. What the program updates in place
is a class here: the in-memory stores, the staging directory and its writer, the laboratory runtime.
Loops over dictionaries, lists, buffers and frontiers are methods, proved against a function or a
property. SHA-256 over canonical JSON is a free constructor over the payload, so that digests are
injective and chains cannot be cyclic; digests from outside are text. Clocks, random identities,
observations of machines and the bytes a server sends are parameters. A `reliable` flag marks
environments in which no call fails, to state when an operation must succeed.

`dafny verify dfyconfig.toml` checks the whole project.

## What the code does not do

Each of these is a lemma or a clause of a contract.

- The install store refuses every step of a record whose current-stage approval is bound, because the
  transition test binds the candidate's last approval outside any handler
  (src/apx_clean_install_journal.py:419-425). The step functions can finish an install; the store cannot
  get beyond four effects.
- The install validator accepts completion without approvals, and the promotion validator a prepared
  admission step without approval; only runs of the steps exclude them.
- The executor and attachment stores check the chain and not the step.
- Merging resources may turn recorded published or used resources into owned and empty ones.
- A journal longer than 64 KiB can be stored and never read or updated again.
- A file of length zero is accepted by the acquisition and refused by the resumption; so is the state
  between link and unlink.
- After a failed write the writer's count and digest omit what reached the file. A caller that goes on
  writing can exceed its bound, and one that finalizes can publish bytes its evidence does not match;
  the one caller in the source does neither.
- Cleaning an unpublished name can settle a creation that completed long ago and leave an interrupted
  destruction reported for ever: whenever the newest entry on the name is not an unfinished creation or
  restoration. A restoration killed before its first entry leaves a directory that cleaning attributes
  to an older operation or, with none, refuses for ever. Cleaning removes the subvolumes before it
  notices content it does not recognise. A creation plan can be used again.

## Model

| member | source | states |
|---|---|---|
| `CleanInstallRuns.StepKeepsReached` | src/apx_clean_install_journal.py:188-290 | Each of the five steps keeps the run invariant: approvals of a gap-free prefix of the approval-requiring stages, enough of them for every effect begun, and a sequence that counts the steps. |
| `CleanInstallRuns.RunBindsExactlyEnteredStages` | src/apx_clean_install_journal.py:188-290 | In every run from creation, the bound approvals are those of all approval-requiring stages entered so far, plus possibly the one about to be entered; each once, in stage order. |
| `CleanInstallRuns.CompleteHasEverything` | src/apx_clean_install_journal.py:269-279 | A run that reaches `complete` has all 35 effects with evidence, all eight approvals, and took exactly 79 steps. |
| `CleanInstallRuns.EnteredIsBound` | src/apx_clean_install_journal.py:234-247 | No effect of a stage that requires approval is prepared or completed before that approval is bound. |
| `CleanInstallRuns.ContinuationAllowedExactlyBeforeStorage` | src/apx_clean_install_journal.py:293-313 | On reached records recovery never allows deletion, and allows continuation exactly between the first completed effect and the first storage effect, with nothing prepared. |
| `CleanInstallRuns.RecoveryClassExactly` | src/apx_clean_install_journal.py:293-313 | On reached records each class of recovery is given by an exact condition: complete, an effect prepared, nothing completed, completed but no storage effect, or storage begun. |
| `CleanInstallRuns.StepsPossibleExactly` | src/apx_clean_install_journal.py:209-290 | On reached records each of the five steps succeeds exactly under its own short condition; the validation of the result never decides. |
| `CleanInstallRuns.ConfirmationsPrecedeEffects` | src/apx_clean_install_journal.py:209-247 | No storage effect is even prepared before two strong confirmations, for the disk and for the storage, and no later stage is entered without its explicit one. |
| `CleanInstallRuns.StorageIsThePointOfNoReturn` | src/apx_clean_install_journal.py:293-313 | Once a storage effect has been prepared, no later record of the run is assessed as continuable. |
| `CleanInstallRuns.RunsAreBounded` | src/apx_clean_install_journal.py:188-198 | The sequence equals two per completed effect plus one per approval, preparation, final evidence and failure; no run is longer than 79 steps. |
| `CleanInstallRuns.TerminalExactlyWithoutSuccessor` | src/apx_clean_install_journal.py:188-290 | A reached record has no successor under any step exactly when it is complete or incomplete. |
| `CleanInstallRuns.StepsAloneCanFinish` | src/apx_clean_install_journal.py:209-279 | The step functions by themselves take every created record to `complete`. |
| `CleanInstallRuns.ValidatorAcceptsUnapprovedCompletion` | src/apx_clean_install_journal.py:343-366 | The validator alone accepts a complete record without a single approval, a record no run reaches. |
| `CleanInstallStore.IsExactTransition` | src/apx_clean_install_journal.py:415-443 | The transition test accepts a candidate if and only if it is one of the five steps of the stored record and the approval of the stored record's current stage is not bound. |
| `CleanInstallStore.AcceptanceIsCompleteExactlyWhenUnbound` | src/apx_clean_install_journal.py:395-404 | The store accepts every legal step of a stored record exactly when the current stage's approval is unbound, or the record is incomplete and so has no legal step. |
| `CleanInstallStore.BoundRecordIsASink` | src/apx_clean_install_journal.py:419-425 | A stored record whose current-stage approval is bound is never replaced, whatever requests follow. |
| `CleanInstallStore.StoreStopsBeforeApprovedEffects` | src/apx_clean_install_journal.py:369-404 | No run of the store gets beyond four completed effects or sequence nine; no stored record is ever complete. |
| `CleanInstallSink.SwapsAreAccepted` | src/apx_clean_install_journal.py:395-404 | From a stored record without approvals the store accepts a whole run of steps that binds an approval only at its end. |
| `CleanInstallSink.SinkIsReached` | src/apx_clean_install_journal.py:369-425 | For every ready dossier and operation some requests take the empty store into the sink: four completed effects, sequence nine, the current stage's approval bound. The two bounds are attained. |
| `CleanInstallStore.StaleWriterNeverWins` | src/apx_clean_install_journal.py:395-404 | After one swap on a digest has won, no later swap that still expects this digest is accepted. |
| `CleanInstallStore.SequenceNeverFalls` | src/apx_clean_install_journal.py:369-404 | A stored operation stays stored, and is either unchanged or has advanced. |
| `CleanInstallStore.FixtureInstallStore.PublishNew` | src/apx_clean_install_journal.py:382-393 | Accepts exactly initial records of an unused operation on the allowed dossier; the whole new state is stated. |
| `CleanInstallStore.FixtureInstallStore.CompareAndSwap` | src/apx_clean_install_journal.py:395-404 | Accepts exactly the swaps of the store specification; the whole new state is stated. |
| `ReleasePromotionRuns.RunKeepsReached` | src/apx_release_promotion.py:154-214 | Every run keeps the record valid, never has an admission step prepared without the admission approval, and counts its steps in the sequence. |
| `ReleasePromotionRuns.AdmissionNeedsItsOwnApproval` | src/apx_release_promotion.py:195-205 | In every run no admission step begins without the separate approval, that approval is bound only after verification was published, and a run has at most 21 steps, which an admitted record took. |
| `ReleasePromotionRuns.LiveRecordsCanAdvance` | src/apx_release_promotion.py:154-214 | A reached record can take a step other than failing exactly when it is neither admitted nor incomplete; those two have no successor. |
| `ReleasePromotionRuns.ContinuationAllowedExactlyInQuarantine` | src/apx_release_promotion.py:217-242 | Recovery allows continuation exactly for a quarantined, not yet verified candidate with nothing prepared, and never automatic deletion. |
| `ReleasePromotionRuns.RecoveryClassExactly` | src/apx_release_promotion.py:217-242 | On reached records each class of recovery is given by an exact condition on the prepared step, the publication of the quarantine object and that of the verification evidence. |
| `ReleasePromotionRuns.StatusSaysProgress` | src/apx_release_promotion.py:100-115 | The status of a live reached record is each of seven exactly when the last completed step is the one that leads to it, and effect-prepared exactly with a step prepared. |
| `ReleasePromotionRuns.ActionsPossibleExactly` | src/apx_release_promotion.py:167-214 | On reached records each action succeeds exactly under its own short condition; the validation of the result never decides. |
| `ReleasePromotionRuns.EvidenceIsWhatWasGiven` | src/apx_release_promotion.py:179-192 | Over any run, the evidence recorded at a step's position is what the success of exactly that step was given. |
| `ReleasePromotionRuns.ReleaseOfAnAdmittedRun` | src/apx_release_promotion.py:245-260 | A run builds a release exactly when it ends admitted; its verification evidence is the list of the four digests given to the successes of the four verification steps, and its identities are those of the plan, the operation and the record. |
| `ReleasePromotionRuns.CatalogueDigestDeterminesTheRelease` | src/apx_release_promotion.py:245-260 | Two releases with the same catalogue digest are the same release, of the same promotion record. |
| `ReleasePromotionStore.IsExactNextTransition` | src/apx_release_promotion.py:381-412 | The transition test accepts a candidate if and only if it is a legal step of the stored record and the stored record is not a prepared admission step without approval. |
| `ReleasePromotionStore.SwapIsAcceptedExactlyForLegalSteps` | src/apx_release_promotion.py:343-352 | For every record a run of the store holds, a swap naming its digest is accepted if and only if the candidate is the result of prepare, success, bind-admission or mark-incomplete. |
| `ReleasePromotionStore.UnapprovedAdmissionIsRefusedOutright` | src/apx_release_promotion.py:298-303 | On a valid stored record the store misses a legal step exactly when an admission step is prepared without approval and the record is not incomplete. |
| `ReleasePromotionStore.CatalogueHoldsAtMostTheAdmittedRelease` | src/apx_release_promotion.py:245-260 | In every run of a store, over any number of operations sharing the plan, the catalogue holds at most one release, built from a promotion that is still stored and still admitted; it names that operation, record and the plan's candidate, and carries exactly the evidence of the four verification steps. |
| `ReleasePromotionStore.StaleWriterNeverWins` | src/apx_release_promotion.py:343-352 | After one swap on a digest has won, no later swap that still expects this digest is accepted. |
| `ReleasePromotionStore.SequenceNeverFalls` | src/apx_release_promotion.py:310-352 | A stored promotion stays stored, and is either unchanged or has advanced. |
| `ReleasePromotionStore.FixturePromotionStore.PublishNew` | src/apx_release_promotion.py:320-341 | Accepts exactly initial records of an unused operation on the allowed plan; the whole new state is stated. |
| `ReleasePromotionStore.FixturePromotionStore.CompareAndSwap` | src/apx_release_promotion.py:343-352 | Accepts exactly the swaps of the store specification; the whole new state is stated. |
| `ReleasePromotionStore.FixturePromotionStore.PublishCatalogue` | src/apx_release_promotion.py:362-372 | Accepts exactly a release rebuilt from the stored admitted record under a free identity, which carries the identities of that record and exactly the evidence of its four verification steps; the whole new state is stated. |
| `ExecutorJournal.MergeResources` | src/apx_executor_journal.py:280-293 | The dictionary loop followed by the sort computes exactly the merge that records observations one by one into a canonical list, or fails with it. |
| `ExecutorJournal.SortedValues` | src/apx_executor_journal.py:280-293 | Sorting the dictionary's values by identifier gives the one canonical list, in whatever order they are taken. |
| `ExecutorJournal.CanonicalIsUnique` | src/apx_executor_journal.py:364-368 | Two sorted, duplicate-free resource lists with the same entries are equal. |
| `ExecutorRuns.MergeKeepsTheLastObservation` | src/apx_executor_journal.py:280-293 | After a merge each identifier holds its last observation, or what was recorded before, and never another identity digest. |
| `ExecutorRuns.RunKeepsResources` | src/apx_executor_journal.py:206-293 | In every run a recorded resource is never dropped and its identity digest never changes. |
| `ExecutorRuns.RunKeepsReached` | src/apx_executor_journal.py:145-277 | Every run keeps the journal valid (so at most 64 resources, sorted and unique), its recovery class `none` until it is incomplete, and verification only after all effects. |
| `ExecutorRuns.RunConserves` | src/apx_executor_journal.py:145-155 | In every run the sequence is two per completed effect, one for a prepared one, and one for each verification, completion or failure taken. |
| `ExecutorRuns.PreparedCannotBeAbandoned` | src/apx_executor_journal.py:265-277 | Marking a journal incomplete while an effect is prepared always fails validation. |
| `ExecutorRuns.WhatMayFollow` | src/apx_executor_journal.py:206-277 | A prepared effect can only be followed by its success; complete and incomplete journals have no successor; final verification only by completion or failure. |
| `ExecutorRuns.IncompleteStoresItsAssessment` | src/apx_executor_journal.py:375-426 | The recovery class an incomplete journal stores is what assessing it gives, for every choice of the two flags. |
| `ExecutorRuns.RecoveryAllowsExactly` | src/apx_executor_journal.py:375-426 | For every valid journal and both flags: deletion is allowed exactly when it is not complete, nothing is prepared, and there are resources, all owned, empty and neither published, used nor modified; continuation exactly with both flags before completion or failure, when no resource is doubtful or in use and they are not all empty; never both. |
| `ExecutorRuns.RecoveryClassExactly` | src/apx_executor_journal.py:375-426 | For every valid journal and both flags each class of recovery is given by an exact condition on the same facts. |
| `ExecutorRuns.ActionsPossibleExactly` | src/apx_executor_journal.py:206-277 | On reached journals each action succeeds exactly under its own short condition; apart from the merge, the validation of the result never decides. |
| `ExecutorRuns.RunsAreBounded` | src/apx_executor_journal.py:145-155 | A run has at most two steps per effect plus two, so at most 66. |
| `ExecutorRuns.RecordedUseCanBeForgotten` | src/apx_executor_journal.py:284-289 | From any valid journal with a prepared effect, one accepted success can relist every resource, published ones included, as owned, empty and unused, after which recovery allows automatic deletion. |
| `ExecutorStore.StepKeepsSound` | src/apx_executor_journal.py:497-611 | Any step of any process keeps the store invariant: published inodes are whole and never written again, the final name is the newest version, the versions are chained, and only the holder of the lock has anything to publish. |
| `ExecutorStore.RunKeepsSound` | src/apx_executor_journal.py:497-611 | The invariant holds after any interleaving of any number of readers and writers, failing or killed anywhere. |
| `ExecutorStore.ReadersSeeOneVersion` | src/apx_executor_journal.py:545-582 | A reader that finishes holds a published version, whole, or is refused because that version is longer than the limit. |
| `ExecutorStore.ReadersStartOnTheNewest` | src/apx_executor_journal.py:545-560 | A reader that opens the file opens the newest version published at that moment. |
| `ExecutorReaders.ReaderSeesTheVersionItOpened` | src/apx_executor_journal.py:545-582 | A reader holds at the end the version that was newest when it opened the file, whatever other processes publish, fail or leave behind while it reads without a lock; it is refused only if that version is too long. |
| `ExecutorStore.EveryStepIsAtomic` | src/apx_executor_journal.py:522-611 | Each step either changes no version or publishes one request that the store without files, locks and crashes would accept at that moment. |
| `ExecutorStore.AcceptedRequestsCanSucceed` | src/apx_executor_journal.py:522-611 | Conversely, a request that store would accept can be carried to publication by a process alone, with the lock free and no leftover temporary file of its own. |
| `ExecutorStore.NoDigestRecurs` | src/apx_executor_journal.py:585-595 | No version's digest ever comes back, and no two versions name the same previous digest: of several updates expecting one digest, at most one is published. |
| `ExecutorStore.StaleUpdatesLose` | src/apx_executor_journal.py:585-595 | An update that expects any version but the newest is not accepted. |
| `ExecutorStore.OversizedIsForever` | src/apx_executor_journal.py:571-580 | Once a journal whose encoding exceeds 64 KiB is published, no version ever follows: writing has no size limit and reading has one. |
| `ExecutorStore.StoreAcceptsMoreThanSteps` | src/apx_executor_journal.py:585-595 | For every readable stored journal some accepted update is the result of no step: the store checks the chain, not the step. |
| `ExternalModelLifecycleRuns.DetachNeverPrecedesAttach` | src/apx_external_model_lifecycle.py:136-240 | In every run the sequence counts the steps, at most 26, and no detach step is prepared before all six attach steps have evidence and the detach approval is bound. |
| `ExternalModelLifecycleRuns.RunKeepsReached` | src/apx_external_model_lifecycle.py:136-240 | Every run keeps the record valid and its approvals, evidence, prepared step and sequence consistent. |
| `ExternalModelLifecycleRuns.TerminalExactlyWithoutSuccessor` | src/apx_external_model_lifecycle.py:136-240 | A reached record has no successor exactly when it is detached or preserved as uncertain. |
| `ExternalModelLifecycleRuns.ActivationAllowedExactlyOutsideTransitions` | src/apx_external_model_lifecycle.py:243-283 | Recovery allows Development to start exactly in the detached, active and attached-stopped states, and never automatic cleanup. |
| `ExternalModelLifecycleRuns.RecoveryClassExactly` | src/apx_external_model_lifecycle.py:243-283 | On reached records each class of recovery is given by an exact condition on status, prepared step and completed steps. |
| `ExternalModelLifecycleRuns.ActionsPossibleExactly` | src/apx_external_model_lifecycle.py:149-240 | On reached records each action succeeds exactly under its own short condition; the validation of the result never decides. |
| `ExternalModelLifecycleRuns.HistoryIsAHashChain` | src/apx_external_model_lifecycle.py:388-408 | Every record an attachment store ever held has the sequence of its position and names the digest of the one before. |
| `ExternalModelLifecycleRuns.NoDigestRecurs` | src/apx_external_model_lifecycle.py:396-408 | No digest is held twice, so no stale writer can swap. |
| `ExternalModelLifecycleRuns.StoreAcceptsUnearnedRecords` | src/apx_external_model_lifecycle.py:388-394 | For every preview the store accepts as first record a lifecycle that claims to be detached, which no run of the steps returns. |
| `ExternalModelLifecycleRuns.SwapAcceptsMoreThanSteps` | src/apx_external_model_lifecycle.py:396-408 | For every record a store holds, some accepted swap is the result of no step: the same record once more. |
| `ExternalModelLifecycleRuns.FixtureAttachmentStore.PublishNew` | src/apx_external_model_lifecycle.py:388-394 | Accepted exactly when the record is a first link of a chain for the allowed preview and nothing was held before; the history grows by it or not at all. |
| `ExternalModelLifecycleRuns.FixtureAttachmentStore.CompareAndSwap` | src/apx_external_model_lifecycle.py:396-408 | Accepted exactly when the record extends the chain of all records held and the writer names the newest digest; a digest held earlier is always refused; the history grows by it or not at all. |
| `LabJournal.ExtendKeepsTheChain` | scripts/virtual-lab/apx-lab-runtime.py:128-149 | Appending keeps the journal a hash chain and keeps everything already written. |
| `LabJournal.HeadDeterminesHistory` | scripts/virtual-lab/apx-lab-runtime.py:128-149 | Two chained journals with the same newest digest are the same journal. |
| `LabJournal.FramedTraces` | scripts/virtual-lab/apx-lab-runtime.py:216-266 | However a creation, restoration or destruction is cut short, what it says about itself is nothing, started, started and uncertain, or started and complete. |
| `LabJournal.ReportIsExact` | scripts/virtual-lab/apx-lab-runtime.py:536-546 | In an orderly journal an operation's last status is not complete exactly when it started and no completion was ever written. |
| `LabJournal.LatestAttemptIsNewest` | scripts/virtual-lab/apx-lab-runtime.py:557-570 | The search of the cleaning returns the newest creation or restoration entry of the name that is started or uncertain. |
| `LabRuntime.CreateScriptSays` | scripts/virtual-lab/apx-lab-runtime.py:228-263 | Wherever a creation is cut, each of its nine later entries is in the journal exactly when the cut is past it, in the order root, home, configure, publish, operation, each started before it is complete. |
| `LabRuntime.DestroyScriptSays` | scripts/virtual-lab/apx-lab-runtime.py:371-385 | The same for a destruction: stop, unpublish, remove-home, remove-root, operation. |
| `LabRuntime.NamesAreComponents` | scripts/virtual-lab/apx-lab-runtime.py:79-96 | A valid name is one path component of at most 32 characters, and different names have different machines. |
| `LabRuntime.ApprovalsAreUnambiguous` | scripts/virtual-lab/apx-lab-runtime.py:219-222 | The text that approves a creation determines the name and the role it approves. |
| `LabRuntime.LabRuntime.Append` | scripts/virtual-lab/apx-lab-runtime.py:128-149 | One entry is appended with the digest of the newest event, or nothing is written. |
| `LabRuntime.LabRuntime.WriteRegistration` | scripts/virtual-lab/apx-lab-runtime.py:109-125 | A registration is replaced whole or not at all; only the writer's own temporary name can be left behind; with no failing call it succeeds exactly when that name was free. |
| `LabRuntime.LabRuntime.MakePlan` | scripts/virtual-lab/apx-lab-runtime.py:162-185 | A plan is stored under its own digest, only for an unused name with an admitted role or for a registered name; with no failing call exactly then. |
| `LabRuntime.LabRuntime.CreateSteps` | scripts/virtual-lab/apx-lab-runtime.py:228-263 | The guarded part of a creation writes each effect's start before the effect and its completion after it, wherever it stops: root present only after its start and always after its completion, likewise home with both limits, configuration, and the registration. |
| `LabRuntime.LabRuntime.Create` | scripts/virtual-lab/apx-lab-runtime.py:216-266 | For every failure and crash: no effect is in the directory before its start is in the journal, every effect is there once its completion is, in the order root, home, configuration, registration; the registration is that of the plan, stopped and of the role's release; the journal gains an exact prefix of the ten entries and possibly the uncertainty report; success is stated exactly, with its condition. |
| `LabRuntime.LabRuntime.Start` | scripts/virtual-lab/apx-lab-runtime.py:285-333 | Only the registration's state changes, to running, only after the machine registered and became usable and the journal says so; the entries are stated for every way to stop. |
| `LabRuntime.LabRuntime.Stop` | scripts/virtual-lab/apx-lab-runtime.py:336-354 | Only the registration's state changes, to stopped, only when no residue was seen; the journal entries are stated for every way to stop. |
| `LabRuntime.LabRuntime.Destroy` | scripts/virtual-lab/apx-lab-runtime.py:365-391 | For every failure and crash: the registration is gone only after the journal says unpublish started, and always once it says complete; likewise then home, then root; success removes exactly this name and happens exactly for a loadable approved plan of a registered name without residue or leftovers. |
| `LabRuntime.LabRuntime.Restore` | scripts/virtual-lab/apx-lab-runtime.py:466-507 | Like creation, from an archive: nothing but an empty directory exists before the first entry, and completion is said only of a published registration with the archive's role and release, stopped; a crash between directory and entry leaves an empty directory the journal never mentions. |
| `LabRuntime.LabRuntime.Recover` | scripts/virtual-lab/apx-lab-runtime.py:536-546 | Returns exactly the operations that started and for which no completion was ever written. |
| `LabRuntime.LabRuntime.FindAttempt` | scripts/virtual-lab/apx-lab-runtime.py:557-570 | The scan from the newest line backwards finds the latest attempt on the name. |
| `LabRuntime.LabRuntime.RecoverUnpublished` | scripts/virtual-lab/apx-lab-runtime.py:549-579 | Touches only an unpublished name with a recorded attempt, settles exactly the operation found, with one exact entry, and no other, and finds foreign content only after the subvolumes are gone. |
| `LabCleaning.SettlesAReportedOperationExactlyWhen` | scripts/virtual-lab/apx-lab-runtime.py:557-579 | In the journal of a serial run, cleaning a name settles an operation that `recover` reports if and only if the newest creation or restoration entry on the name is not a completion. |
| `LabCleaning.SettlesTheLastOperationExactlyWhen` | scripts/virtual-lab/apx-lab-runtime.py:557-579 | It settles the operation that acted on the name last if and only if the newest whole-operation entry on the name is a started or uncertain creation or restoration. |
| `LabCleaning.CleaningFollows` | scripts/virtual-lab/apx-lab-runtime.py:557-579 | A cleaning keeps the journal that of a serial run, completes no destruction, and changes no name's latest attempt. |
| `LabCleaning.NewOperationFollows` | scripts/virtual-lab/apx-lab-runtime.py:216-507 | So does any new creation, restoration or destruction, wherever it stops. |
| `LabRuns.Perform` | scripts/virtual-lab/apx-lab-runtime.py:615-639 | Every command of the program, failing or killed anywhere, keeps the runtime valid and every root, home and registration witnessed by a start in the journal, only extends the journal, never settles an unfinished destruction, and adds no attempt on a name whose directory exists. |
| `LabRuns.SerialRun` | scripts/virtual-lab/apx-lab-runtime.py:615-639 | After any serial run a published registration has configured root and home, whatever is in any directory was begun in the journal, the journal is a chain extending the old one, and `recover` is exact; a destruction that was unfinished before it is still reported, and an unpublished directory without an attempt in the journal is still there. |
| `LabRuns.FromTheBeginning` | scripts/virtual-lab/apx-lab-runtime.py:615-639 | Whatever commands a new runtime is given, its journal is that of a serial run, as the conditions on cleaning ask, and no root, home or registration is in any directory whose start the journal does not record. |
| `LabRuns.CleaningFindsTheAttempt` | scripts/virtual-lab/apx-lab-runtime.py:557-570 | After a creation or restoration that began, wherever it ended, cleaning its name finds that operation until another attempt is made on the name. |
| `LabRuns.CleaningAfterDestructionFindsTheCreation` | scripts/virtual-lab/apx-lab-runtime.py:560-570 | After a completed creation and a destruction stopped anywhere, or completed, cleaning finds the creation; the destruction stays reported exactly if it was stopped. |
| `LabRuns.CleanAfterSilentRestoration` | scripts/virtual-lab/apx-lab-runtime.py:466-482 | After a restoration killed before its first entry, cleaning settles whatever attempt the journal had on the name, and with none it refuses and the directory stays. |
| `LabRuns.SamePlanTwice` | scripts/virtual-lab/apx-lab-runtime.py:188-197 | A creation plan is not consumed: create, destroy and create again from it give equal registrations, generation included. |
| `Staging.ScanDominatesHeld` | src/apx_staging.py:230-239 | In any consistent directory the scan, which counts every name, is at least the bytes and inodes held. |
| `StagingWriter.Directory.CurrentUsage` | src/apx_staging.py:230-239 | The usage scan returns the number of names and the sum of their sizes, and fails on any entry that is not a regular file. |
| `StagingWriter.Directory.WriteAll` | src/apx_staging.py:77-84 | The write loop appends the whole chunk or, on failure, a prefix of it. |
| `StagingWriter.StreamingStagingWriter.Write` | src/apx_staging.py:70-85 | A refused chunk changes nothing; a failed write leaves a proper prefix of a fitting chunk that neither count nor digest includes; a writer in step stays in step exactly when the call returned or landed nothing. |
| `StagingWriter.StreamingStagingWriter.Finalize` | src/apx_staging.py:87-122 | The final name appears only if count and digest match the evidence, and the bytes published match it exactly when the writer was in step; the directory is stated before the link, between link and unlink, and after. |
| `StagingRuns.FileHoldsCountedAndLost` | src/apx_staging.py:70-85 | Over any calls of write the file holds as many bytes as were counted and lost in failed calls together; digest and count speak of the file if and only if nothing was lost. |
| `StagingRuns.StoppingKeepsTheBound` | src/apx_staging.py:70-85 | A caller that stops at the first failed write keeps the file within the maximum and the remaining aggregate. |
| `StagingRuns.EvidenceIsWrongExactlyAfterALoss` | src/apx_staging.py:87-122 | Finalizing with evidence the writer accepts publishes bytes that match it if and only if no byte was lost. |
| `StagingRuns.BrokenExactlyWithRoomForTwo` | src/apx_staging.py:70-85 | Some sequence of writes overruns the bound, and some puts file and evidence out of step, if and only if the bound leaves room for two bytes. |
| `StagingRuns.OutOfStepExactlyWhen` | src/apx_staging.py:70-85 | Over the chunks and returns a caller sees, file and evidence may be out of step if and only if some call failed whose chunk had at least two bytes and fitted. |
| `StagingRuns.OverrunExactlyWhen` | src/apx_staging.py:70-85 | Over the same, the file may exceed the bound if and only if the bytes counted and the most that failed calls can have left, all but one of each fitting chunk, together do. |
| `StagingRuns.SeenBoundsLost` | src/apx_staging.py:70-85 | Whatever landed, the calls show exactly what was counted and bound what was lost. |
| `StagingRuns.WriteAgain` | src/apx_staging.py:70-85 | After a failed first write the file holds the landed prefix, and after the second write that prefix followed by the chunk, while digest and count stand for the chunk alone. |
| `StagingRuns.WriteAgainAndPublish` | src/apx_staging.py:70-122 | When a write raises after landing a proper prefix, and the chunk is written again and finalized with its own evidence, the published file is the prefix followed by the chunk, and matches the evidence exactly if the prefix is empty. |
| `StagingArea.FixtureAcquisitionStaging.BeginStream` | src/apx_staging.py:241-279 | Opens a new partial exactly when name, size, scan and bounds admit it. |
| `StagingArea.FixtureAcquisitionStaging.StageBytes` | src/apx_staging.py:281-345 | Whatever happens the directory holds the new file at one stage, within its size; with no failing call success happens exactly for matching chunks under free names within the bounds. |
| `StagingArea.AdmittedFileKeepsLimits` | src/apx_staging.py:230-345 | A new file that fits what the scan found keeps the directory within 1028 inodes and 4 GiB over distinct inodes, at every stage including partial writes and double links. |
| `StagingSessions.Session` | src/apx_staging.py:70-345 | From any consistent directory and over any calls, one writer open at a time, with failures and crashes: exactly the calls that can be made are, in order; every name is one of the start, a leftover partial, or published; every finalize or stage that returned published its file for its evidence, and nothing else did; names of the start and published names keep inode and bytes; the limits hold unless a write followed a failed write, and the bytes match the evidence unless a finalize did. |
| `StagingSessions.StagingCaller.Make` | src/apx_staging.py:70-345 | The same for one call from any such state: the trace grows by the call and the outcome returned exactly when the call can be made, publications are only added, and with no failing call it succeeds exactly when the state lets it. |
| `StagingSessions.StagingCaller.MakeAll` | src/apx_staging.py:70-345 | The same for further calls on the same caller: the trace is that of the calls with the outcomes returned, and what was published before is published still. |
| `StagingSessions.PublishedForEver` | src/apx_staging.py:87-122 | What is published after the first calls is there, under the same name, inode and bytes, after all later ones. |
| `StagingTraces.PublishedAccount` | src/apx_staging.py:100-119 | A file given its final name is accounted for by one more publication, and every earlier name keeps its inode and bytes. |
| `StagingArea.EveryStageIsConsistent` | src/apx_staging.py:100-119 | At every stage of a file all names have inodes and all inodes names. |
| `Staging.SafeFilenamesStayInTheDirectory` | src/apx_staging.py:22-22 | A filename the staging accepts is one path component, not hidden, and so is its partial. |
| `Common.DecimalReadsBack` | src/apx_downloader.py:78-78 | Reading the decimal digits of a number gives the number, for every number. |
| `Common.LeadingZerosVanish` | src/apx_downloader.py:78-78 | Leading zeros do not change the number read. |
| `Common.NumeralsAreRead` | src/apx_downloader.py:77-78 | A text is read as `n` exactly when it is the digits of `n`, perhaps after zeros. |
| `Downloader.ContentLengthIsTheNumber` | src/apx_downloader.py:71-81 | The header is accepted with value `n` exactly when it is present and is the digits of `n`, perhaps after zeros. |
| `Downloader.ValidRequestsAreAtTheArchive` | src/apx_downloader.py:43-68 | A valid request names, over HTTPS on the one host, a file directly under a folder beneath the fixed prefix whose name is the request's. |
| `Downloader.ReceiveBody` | src/apx_downloader.py:120-138 | The read loop hands the sink a prefix of the stream within the declared length, ends within length plus one non-empty reads, and succeeds only on the whole stream. |
| `Downloader.DownloadBounded` | src/apx_downloader.py:84-155 | Succeeds only for a request at the archive answered with status 200 at the same address, whose header is the digits of the number of bytes that reached the sink, the one acceptable body; whatever happens the sink never receives more than the declared length within the request maximum. |
| `Transfer.AcquireToFixture` | src/apx_transfer.py:18-49 | A final name appears only with the complete accepted body, of exactly the length whose digits the header gives; the disagreement test after finalize never fires; the limits are kept; with no failing call success happens exactly when the file is admitted, new, acceptable and fits. |
| `GraphicalAcquisition.CompleteNames` | src/apx_graphical_acquisition.py:53-75 | A directory complete for the first k requests holds exactly their names, none of them partial, each with the body the server delivers. |
| `GraphicalAcquisition.CompleteSizes` | src/apx_graphical_acquisition.py:63-69 | Such a directory holds k names whose sizes sum to the total of the first k bodies. |
| `GraphicalAcquisition.PublishingCompletesTheNext` | src/apx_graphical_acquisition.py:63-69 | Publishing request k takes a directory complete for k requests to one complete for k + 1. |
| `GraphicalAcquisition.RemovingThePartialUndoes` | src/apx_graphical_acquisition.py:124-127 | Removing the partial restores the directory as it was before the interrupted request. |
| `GraphicalResume.AcquireGraphicalPackages` | src/apx_graphical_acquisition.py:53-75 | Stopped anywhere, the acquisition leaves some first files complete and the next at one stage; with no failing call it succeeds exactly when every request is obtainable and the total authorized. |
| `GraphicalResume.ScanEntries` | src/apx_graphical_acquisition.py:107-122 | The scan accepts exactly directories in which every entry has the name of a request or of its partial and is a regular file of this user under its only name, and collects exactly the partials. |
| `GraphicalResume.RemovePartials` | src/apx_graphical_acquisition.py:123-127 | The removal loop removes partials only, and all of them when it succeeds. |
| `GraphicalResume.ScanAfterCrash` | src/apx_graphical_acquisition.py:107-127 | After a crash at any stage: the scan refuses exactly between link and unlink; otherwise the only partial is that of the interrupted request, and unlinking it gives back the directory complete for the earlier ones. |
| `GraphicalResume.ValidatedExistingBytes` | src/apx_graphical_acquisition.py:78-95 | An existing file passes exactly when it is safe, not empty, within the maximum and matches the expected size and digest, and its size is returned. |
| `GraphicalResume.CompletedFileValidates` | src/apx_graphical_acquisition.py:78-95 | A file the acquisition completed passes that check exactly when it is not empty. |
| `GraphicalResume.ResumeGraphicalPackages` | src/apx_graphical_acquisition.py:98-147 | From a directory left by any crash, no completed file is lost; success leaves exactly what an uninterrupted acquisition leaves, with the aggregate the sum of all sizes; between link and unlink it refuses and changes nothing; with no failing call success happens exactly under the stated condition. |
| `PosixPaths.NormalisationPredictsTheWalk` | src/apx_release_artifact.py:102-118 | `normpath` ends where walking the components ends, and has a leading ".." exactly when the walk leaves the root. |
| `PosixPaths.DotDotSurvivesOnlyAsALeadingRun` | src/apx_release_artifact.py:102-118 | In a normalised relative path ".." occurs only as a leading run. |
| `PosixPaths.NormpathIsIdentityOnOrdinaryPaths` | src/apx_release_artifact.py:85-99 | On paths whose components are all ordinary, `normpath` is the identity. |
| `ReleaseArtifactProofs.PathIsValidExactlyByItsComponents` | src/apx_release_artifact.py:85-99 | A member path is accepted exactly when it is canonical text with only ordinary components; the other tests never decide. |
| `ReleaseArtifactProofs.LinkTargetIsAcceptedExactlyWhenTheWalkStaysInside` | src/apx_release_artifact.py:102-118 | A link target is accepted exactly when it is canonical text and walking it from the member's directory, or the root, never leaves the root and ends at a canonical path below it. |
| `ReleaseArtifactProofs.AncestorsAreDeclared` | src/apx_release_artifact.py:165-191 | All proper ancestors of a member, not only its parent, are declared directories at smaller indices. |
| `ReleaseArtifactProofs.AcceptedTreeIsClosed` | src/apx_release_artifact.py:157-191 | In every accepted list a member lies only beneath directories declared before it and never beneath `home`, all its ancestors are declared, every hardlink target is a regular member, and every symlink has a target whose walk from the member stays inside the root and ends at a canonical path below it. |
| `ReleaseArtifactProofs.AcceptedMembersAreClean` | src/apx_release_artifact.py:121-191 | In every accepted list all members have canonical printable paths, unprivileged modes, and the size, digest and link of their kind; none lies beneath the seven mutable directories, is an identity file or has a credential or cache component; the four root directories are declared and the total is bounded. |
| `ReleaseArtifact.BuiltManifestsValidate` | src/apx_release_artifact.py:205-247 | Building succeeds exactly when members and candidate are valid and agree, and every built manifest validates. |
| `ReleaseArtifact.ManifestDigestIdentifiesContent` | src/apx_release_artifact.py:199-202 | Two valid manifests with the same digest have the same content. |
| `ReleaseArtifact.CompareRebuilds` | src/apx_release_artifact.py:314-335 | Rebuilds match exactly when members and artifact digest agree; the root, count and size issues occur only together with a member difference. |
| `Resolution.BuildResolutionManifest` | src/apx_resolution.py:129-220 | The loops over databases, packages and rows compute exactly the specified manifest or fail with it. |
| `Resolution.FillCatalogue` | src/apx_resolution.py:139-151 | The nested loops build the specified catalogue or fail with it. |
| `Resolution.ResolveRows` | src/apx_resolution.py:153-193 | The row loop resolves exactly as specified and keeps the set of names seen. |
| `ResolutionProofs.ResolveExactlyWhen` | src/apx_resolution.py:153-193 | The row loop succeeds exactly when every non-empty row agrees with the catalogue and no two give one name; it then returns their images in order. |
| `ResolutionProofs.RowResolvesExactlyWhen` | src/apx_resolution.py:153-193 | A row resolves exactly when its seven fields are those of the catalogue entry it names, the size as its digits, perhaps after zeros, and the address the one built from repository and filename. |
| `ResolutionProofs.PackagesExactlyWhen` | src/apx_resolution.py:139-151 | The catalogue is built exactly when all repository and name pairs are distinct, and then maps each to its package. |
| `ResolutionProofs.SameManifestInAnyOrder` | src/apx_resolution.py:129-220 | With filenames distinct within each repository, any order of rows and databases gives the same manifest, or fails in both. |
| `ResolutionProofs.CanonicalExactlyWhen` | src/apx_resolution.py:202-202 | A built manifest is independent of the row order if and only if no two resolved packages share repository and filename. |
| `ResolutionProofs.BuiltManifestIsTheClosure` | src/apx_resolution.py:129-220 | Every built manifest has all fixed seeds among its packages, each name once, in order, every package as its catalogue entry has it, and their sizes' sum as its total, within the limits. |
| `ResolutionTies.SomeManifestDependsOnTheOrder` | src/apx_resolution.py:202-202 | Such manifests exist: for every plan some rows and databases build one whose row order matters. |
| `ResolutionProofs.ParsesExactlyWhen` | src/apx_resolution.py:100-125 | A built manifest satisfies every invariant of the parser if and only if the databases carry the pinned digests and sound records and no filename occurs twice across repositories. |
| `ResolutionProofs.TotalOfSort` | src/apx_resolution.py:199-202 | The total is that of the packages as listed, whatever the sort did. |
| `Ordering.SortForgetsOrder` | src/apx_resolution.py:202-202 | Sorting gives one result for all orders of the input when the key tells its elements apart. |
| `Ordering.TiesShow` | src/apx_resolution.py:202-202 | When two different elements share the key, reversing the input changes the sorted result. |
| `Descendants.Closure` | src/apx_first_boot_experiment.py:97-100 | On every finite map of parents, cycles included, the frontier loop ends with exactly the pids that reach the root in one or more steps. |
| `Descendants.DescendantsOf` | src/apx_first_boot_experiment.py:86-101 | The result lists those pids in strictly increasing order. |

## Left out

- JSON text, SHA-256, regular expressions and UUIDs as such: digests are constructors, formats are
  predicates, and the executor's file store takes any faithful encoding as a parameter.
- Error classes and messages: every refusal of a function is one Failure, every exception of a call is
  one Raised.
- Checks of Python types (`type(x) is int`, `isinstance`), which the model's types make true.
- Unicode: whether a character is printable or canonical in a path is a parameter of the model.
- src/apx_hyprland_h0_journal.py and src/apx_physical_update_journal.py: journals of the same shape with
  one linear phase.
- Opening connections, redirects, timeouts and sockets: a transfer starts from what the opener returned.
- Cutting resolver output into lines and fields: rows are given as their fields.
- Reading a number from text has no limit on its digits (src/apx_downloader.py:78): an interpreter may refuse
  a text of several thousand, leading zeros included.
- The reservation of the staging root, its identity file and the opening of its directories.
- Descriptor accounting, two staging writers open at once, and durability across power loss.
- snapshot and archive in the laboratory runtime: they change neither environments nor registrations;
  archives are given.
- Polling, quotas as enforced by Btrfs, and what a guest does to its own root: a machine's state is an
  observation, a quota is the value that was set.
- An asynchronous interrupt between two statements, in particular one after the last byte of a chunk has
  landed and before the writer's count includes it (src/apx_staging.py:80-85): exceptions come from calls.
- A torn last line of the laboratory journal: an append is atomic.
- Journal files of other operations in the executor's directory: they have other names and only share
  the lock.
- Readiness gates, previews, dossiers, policies, host reports, the Hub's text and the command line.
- LabRuntime.LabRuntime.Append: takes an append as atomic and leaves out the time of the event.
