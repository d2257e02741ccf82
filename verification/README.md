# GARD controllers: a verification model

GARD keeps an inventory of network devices and decides, for each of them, which firmware it should
have, whether it has drifted, whether it is ready for an uplift, and in which approved wave the
uplift happens. This project models those decisions and the tables behind them in Dafny 4.11 and
proves what the controllers keep, over single calls and over whole runs.

Check it with `dafny verify dfyconfig.toml`.

| modules | what they model |
|---|---|
| `UpliftStateMachine`, `UpliftGovernance`, `UpliftRuns`, `UpliftTheorems`, `UpliftStore` | waves and exceptions: edge tables, the read-then-guarded-update protocol with any number of interleaved callers and every other writer of the lifecycle column, audit replay, and the controllers as methods of one store |
| `WaveDraft`, `WaveDraftTheorems` | preview, draft and idempotency keys |
| `ScopeSelector`, `Prerequisites`, `UpgradePath`, `Readiness`, `ReadinessTheorems` | the readiness verdict: selectors, predicates, blocker order, shortest upgrade chains (a verified Dijkstra stands for the library call) and the history that grows only on change |
| `Compliance`, `ComplianceTheorems`, `ComplianceRows`, `VerdictComparison` | which target governs a device, drift classification, the rows of a verdict, the compliance history, and exactly when two verdicts say the same |
| `CatalogLoader`, `CatalogMirror`, `CatalogStore`, `CatalogReload`, `ReloadVerdicts` | loading the catalog files into four tables, the tables against the files entry by entry, the all-or-nothing reload, the scan for affected devices, and exactly what that lets go stale |
| `ReloadPass`, `AfterReload`, `ReloadRuns` | the pass over the affected devices on one device table, scan and pass as one call, what they leave of the lifecycles, and a whole reload as a run of the uplift system |
| `BlobProtocol`, `BlobStore` | concurrent uploads and deletions step by step, the same upload as one call, verified downloads |
| `Devices`, `DeviceImport`, `DeviceImportTheorems` | CSV import: counters, deduplication, upsert |
| `NetboxReconcile`, `Writeback` | reconciling with NetBox, and mirroring back into it |
| `AuditChain` | sealing a day of audit events |
| `Prelude`, `Sorting` | shared vocabulary and stable sorting |

## How the model reads the program

- A controller that updates tables is a class with those tables as fields; its methods state the
  whole new state through specification functions, and the theorems are about those functions. What
  an operation does is also said without them, in literal states, fields and places of a list.
- Ids are natural numbers. The controllers order devices and rules by the text of their ids; the
  order of the numbers stands for it.
- The clock, settings, parsed documents and normalization results are parameters. A new catalog row
  is stamped by `clock` with the time of its own insertion.
- `ilike` and `lower()` are equality up to ASCII case. Hashes are uninterpreted functions; a proof
  that needs them collision-free, or of the shape of hexadecimal text, says so.
- "Latest" rows are the last appended ones. Where SQL leaves the order of equal sort keys open, the
  theorem asks for distinct keys (load times of live targets).
- Free text is modelled by the values it quotes.
- A database index or check that refuses a row is an error of the call (`IdentityTaken` in the
  reconcile, `ConstraintViolated` for exceptions).

## Where code and documentation differ

The model follows the code.

- The set of terminal exception states lists `approved`, yet two edges leave it (gard/core/uplift_state_machine.py:79-80 and 89-96); see `UpliftStateMachine.ExceptionStuckIff`.
- The bounded re-evaluation claims to visit every device whose verdict could differ
  (gard/core/firmware_catalog_controller.py:423-441). It misses a device past the firmware states
  whose target or rule was rescoped away, targets and rules scoped by tags, changes of upgrade edges
  (447-458 look at targets and prerequisites only; the edges decide readiness and rule drift),
  changes of packages (they decide package drift, gard/core/drift_rules.py:135-165), and reasons
  that quote other targets. `ReloadVerdicts` states exactly when a skipped device keeps its whole
  compliance verdict and its whole readiness verdict.
- Evaluating again with unchanged inputs is said to write nothing
  (gard/core/compliance_evaluation_controller.py:264, gard/core/readiness_evaluation_controller.py:239).
  It does write when a scope, or a rule, reads the lifecycle that the first evaluation moved; see
  `VerdictComparison.EvaluatingTwiceIsSilentIff` and `ReadinessTheorems.EvaluatingTwiceAddsNothingIff`.
- The pass after a reload is said to write at most one transition per device
  (gard/core/firmware_catalog_controller.py:438-440), but it assesses each device twice; see
  `ReloadPass.AtMostOneTransitionIff`.
- A device outside its target is said to show `ready_for_uplift` or `blocked`
  (specs/004-readiness-prerequisites/data-model.md:131-139), and the firmware states of the scan to
  include both (specs/004-readiness-prerequisites/research.md:107). The scan does not include them, and
  an assessment puts the lifecycle back to `outside_target`, where it stays if the readiness judgement
  repeats the latest row; see `ReloadPass.LifecycleInStepIff` and `ReloadPass.SecondPassDropsTheLead`.
- Filing an exception refuses a second active one for the blocker, pending or approved
  (gard/core/uplift_exception_controller.py:227-234), but only the approved ones are under a unique
  index (gard/models/uplift_exception.py:111-117); see `UpliftTheorems.ExclusiveRunIff`.
- Write-back describes a mirror of the current lifecycle, but a filled field that differs is a
  conflict even if the mirror itself wrote it; see `Writeback.LaterSnapshotConflictsIff`.
- An upload accepts its digest in any case, a download compares it literally; see
  `BlobStore.VerificationPassesIffLowercase`.
- The chain head is described as tamper evidence for audit rows; it covers their stored hashes and
  nothing recomputes those from the columns; see `AuditChain.EditUnderOldHashGoesUnnoticed`.
- The prerequisite kind `intermediate_version_required` reads `via_version`; the catalog schema
  declares `version`. The model reads `via_version`.

## Model

| member | source | states |
|---|---|---|
| `UpliftStateMachine.WaveTerminalIffStuck` | gard/core/uplift_state_machine.py:59-66 | A wave state is terminal exactly when no caller of any kind can move it anywhere. |
| `UpliftStateMachine.ExceptionStuckIff` | gard/core/uplift_state_machine.py:89-100 | An exception is stuck exactly when it is rejected, expired or withdrawn: approved is listed as terminal but is not. |
| `UpliftStateMachine.DrafterNeverApproves` | gard/core/uplift_state_machine.py:193-195 | Separation of duties: from no state can the drafter of a wave approve it, nor the filer of an exception; both can still take back their own. |
| `UpliftGovernance.MoveMembersSnoc` | gard/core/uplift_wave_controller.py:204-215 | The member loop of submit, approve and revert, one member at a time, equals the move of all members at once. |
| `UpliftRuns.EveryRunIsSafe` | gard/core/uplift_wave_controller.py:218-246 | After every interleaving of callers between their read and their guarded update or insert, and of all other lifecycle writers: parked devices are backed, owners and approvers differ, at most one approved exception per device and blocker, every open ticket is a legal edge, and the audit log replays to the stored states. |
| `UpliftRuns.StepKeepsInv` | gard/core/uplift_exception_controller.py:165-188 | Any single step, from any state that satisfies the invariants, keeps them all. |
| `UpliftRuns.OtherWritersNeverPark` | gard/core/readiness_evaluation_controller.py:586-593 | Import, sync, compliance and readiness never put a device into approval_pending, approved or exception_approved. |
| `UpliftTheorems.ParkedDevicesAreBacked` | gard/core/uplift_wave_controller.py:512-515 | In every run a device in approval_pending belongs to a submitted wave, and an approved one to an approved wave whose approver is not its drafter. |
| `UpliftTheorems.ExceptionsAreExclusiveAndBacked` | gard/core/uplift_exception_controller.py:286-309 | In every run a device in exception_approved has an approved exception approved by somebody else than its filer, and no device and blocker has two approved exceptions. |
| `UpliftTheorems.RevertUndoesSubmitIff` | gard/core/uplift_wave_controller.py:512-515 | Reverting the members undoes the submission exactly when no member was already waiting through another wave. |
| `UpliftTheorems.SharedDeviceIsReleasedEarly` | gard/core/uplift_wave_controller.py:204-215 | Rejecting one of two submitted waves releases a shared device, and approving the other wave afterwards no longer moves it. |
| `UpliftTheorems.StoredMovesAreEdges` | gard/core/uplift_state_machine.py:39-50 | Every change of a stored wave state follows an edge of the table and lowers the rank; owner and members never change. |
| `UpliftTheorems.BegunWave` | gard/core/uplift_wave_controller.py:485-511 | In the runs a look at a wave lets its caller go on exactly if it may: submit a draft, approve a submitted one as another than its drafter, reject a submitted one, cancel or invalidate either; the ticket holds the state read. |
| `UpliftTheorems.EndedWave` | gard/core/uplift_wave_controller.py:504-529 | In the runs the guarded update of each wave operation, in literal states: the stamp on the row, the audit row, and which members move from which lifecycle to which; after another move of the wave it does nothing. |
| `UpliftTheorems.BegunException` | gard/core/uplift_exception_controller.py:274-300 | The same for exceptions: approval needs another actor than the filer and a blocked device, expiry an approved one that is overdue. |
| `UpliftTheorems.EndedException` | gard/core/uplift_exception_controller.py:286-323 | The guarded update of each exception operation: a grant moves its device to exception_approved unless the unique index refuses it, and the end of an approved one moves a device back to blocked. |
| `UpliftTheorems.OtherWrites` | gard/core/readiness_evaluation_controller.py:586-593 | What import, sync, compliance and readiness write to the lifecycle column, value by value. |
| `UpliftTheorems.RankNeverGrows` | gard/core/uplift_state_machine.py:59-66 | Along any continuation a wave keeps its state or loses rank, so a terminal state is never left. |
| `UpliftTheorems.OneWinnerPerStoredState` | gard/core/uplift_wave_controller.py:230-242 | Of the callers that decided from the same stored state at most one ever wins its guarded update, whatever happens in between. |
| `UpliftTheorems.WaveReplayBoundsMoves` | gard/core/uplift_wave_controller.py:517-527 | A wave whose audit rows replay has made at most two transitions. |
| `UpliftTheorems.ExceptionReplayBoundsMoves` | gard/core/uplift_exception_controller.py:464-474 | An exception whose audit rows replay has made at most two transitions. |
| `UpliftTheorems.AuditReplaysEveryRun` | gard/core/uplift_wave_controller.py:781-791 | In every run the audit rows of a wave or exception replay along legal edges from its creation to its current state, in at most two transitions. |
| `UpliftTheorems.OneAuditRowPerTransition` | gard/core/uplift_exception_controller.py:254-269 | A successful transition writes exactly one audit row, the one that describes it; a step that changes no governance state writes none. |
| `UpliftTheorems.ExceptionMovesAreEdges` | gard/core/uplift_state_machine.py:73-81 | An exception keeps its state or moves along one edge to a lower rank. |
| `UpliftTheorems.ExclusiveRunIff` | gard/core/uplift_exception_controller.py:227-251 | A run from the empty database keeps at most one pending or approved exception per device and blocker at every point exactly when none of its inserts lands beside one that became active after the filing had looked. |
| `UpliftTheorems.UndisturbedFilingsAreExclusive` | gard/core/uplift_exception_controller.py:227-271 | So every run in which each insert directly follows its own look keeps that promise throughout. |
| `UpliftTheorems.FilingCallIsTwoSteps` | gard/core/uplift_exception_controller.py:191-271 | A filing as one call is its look followed by its insert in the runs. |
| `UpliftTheorems.ExclusiveFilingKeptIff` | gard/core/uplift_exception_controller.py:227-251 | The step behind it: from any safe state without two such exceptions, exactly such an insert brings two about. |
| `UpliftTheorems.TwoFilingsMayBothPend` | gard/core/uplift_exception_controller.py:112-128 | Two filings that both look before either inserts leave two pending exceptions for the same blocker; the index is on approved rows only. |
| `UpliftTheorems.ExceptionRankNeverGrows` | gard/core/uplift_state_machine.py:89-100 | Along any continuation an exception keeps its state or loses rank. |
| `UpliftTheorems.OneExceptionWinnerPerStoredState` | gard/core/uplift_exception_controller.py:165-188 | Of the callers that decided from the same stored state of an exception at most one ever wins, whatever happens in between. |
| `UpliftStore.Store.SetMembers` | gard/core/uplift_wave_controller.py:204-215 | The in-place member loop. |
| `UpliftStore.Store.UpdateWaveWhere` | gard/core/uplift_wave_controller.py:218-246 | The optimistic UPDATE: writes the row if the stored state is the expected one, and otherwise nothing. |
| `UpliftStore.Store.Submit` | gard/core/uplift_wave_controller.py:485-529 | Submission succeeds exactly for a draft wave: it is then submitted by the actor, exactly its members at ready_for_uplift stand at approval_pending, no other device moves and one audit row tells it; an error changes nothing. |
| `UpliftStore.Store.Approve` | gard/core/uplift_wave_controller.py:535-590 | Approval succeeds exactly for a submitted wave and another actor than its drafter: exactly its members at approval_pending stand at approved. |
| `UpliftStore.Store.Reject` | gard/core/uplift_wave_controller.py:596-647 | Rejection succeeds exactly for a submitted wave, by the approver or by the drafter: exactly its waiting members are ready_for_uplift again. |
| `UpliftStore.Store.Cancel` | gard/core/uplift_wave_controller.py:653-706 | Cancellation succeeds exactly for a draft or submitted wave: a submitted one releases its waiting members to ready_for_uplift, a draft moves nobody. |
| `UpliftStore.Store.InvalidateAffected` | gard/core/uplift_wave_controller.py:712-796 | The reload hook visits every draft or submitted wave with an affected member exactly once and invalidates it with the reason its target calls for. |
| `UpliftStore.InvalidationSweep` | gard/core/uplift_wave_controller.py:747-792 | The sweep invalidates the listed waves and no other and writes one audit row per wave, in any order. |
| `UpliftStore.InvalidationReleases` | gard/core/uplift_wave_controller.py:778-779 | The sweep releases exactly the waiting devices that were members of an invalidated submitted wave. |
| `UpliftStore.NothingAffectedSurvives` | gard/core/uplift_wave_controller.py:733-753 | After the sweep no affected device sits in a draft or submitted wave, and the other waves are as they were. |
| `UpliftStore.Store.ExpireOverdue` | gard/core/uplift_exception_controller.py:426-478 | Lazy expiry ends exactly the overdue approved exceptions of the device. |
| `UpliftStore.ExpirySweep` | gard/core/uplift_exception_controller.py:446-476 | The expiry loop ends the listed exceptions, blocks the device again if it was under one, and writes one audit row each. |
| `UpliftStore.Store.FindActiveApproved` | gard/core/uplift_exception_controller.py:131-146 | Finds an exception in force for the device exactly when there is one. |
| `UpliftStore.SweepLeavesWhatIsInForce` | gard/core/uplift_exception_controller.py:437-443 | After the sweep the approved exceptions of the device are in force, except at the very instant at which one ends. |
| `UpliftStore.GrantedDeviceIsCarvedOut` | gard/core/readiness_evaluation_controller.py:449-462 | A device that still shows an exception after the sweep has one, in force unless it ends at this instant, so the verdict finds its carve-out. |
| `UpliftStore.Store.BlockerListed` | gard/core/uplift_exception_controller.py:94-109 | The loop over the blockers of the latest verdict decides whether the cited one is among them. |
| `UpliftStore.Store.FileException` | gard/core/uplift_exception_controller.py:191-271 | Filing as one call: the guards in their order, then the insert that the check constraints of the table (synthetic kind, justification length, lifetime) may refuse; the first failure is reported and nothing is stored. |
| `UpliftStore.Store.ApproveException` | gard/core/uplift_exception_controller.py:274-323 | Approval of an exception as one call; the unique index refuses a second approved one for the blocker. |
| `UpliftStore.Store.RejectException` | gard/core/uplift_exception_controller.py:326-370 | Rejection of an exception as one call. |
| `UpliftStore.Store.WithdrawException` | gard/core/uplift_exception_controller.py:373-423 | Withdrawal of an exception as one call, releasing the device if it was approved. |
| `WaveDraft.Classify` | gard/core/uplift_wave_controller.py:293-309 | The loop that splits the devices in scope by their latest verdict. |
| `WaveDraft.PreviewDraft` | gard/core/uplift_wave_controller.py:261-336 | The read-only proposal shows exactly the ready devices that the selector covers, in order of their ids and with the versions of their latest verdicts, lists the left-out ones unless strict, and warns of exactly what would stop a draft. |
| `WaveDraft.WaveTable.DraftWave` | gard/core/uplift_wave_controller.py:342-479 | Replays a wave within the lifetime of its key; otherwise frees an expired key and stores the drafted wave, or reports the first obstacle. |
| `WaveDraft.WaveTable.HandleDraft` | gard/core/uplift_wave_controller.py:342-479 | A remembered key answers with its wave; any other request stops at the first of six checks with its own error, or stores a wave with the request its columns and the ready devices at positions 1 to n; an error leaves the table as it was. |
| `WaveDraftTheorems.PreviewAgreesWithDraft` | gard/core/uplift_wave_controller.py:261-336 | A fresh draft succeeds exactly when the preview has no warning and fits the cap, and then stores the previewed devices in order at positions 1 to n, all ready, with the previewed versions. |
| `WaveDraftTheorems.DraftHoldsExactlyTheReadyDevices` | gard/core/uplift_wave_controller.py:393-423 | A drafted wave holds exactly the ready devices in scope, in ascending order of their ids. |
| `WaveDraftTheorems.SkippedAreTheRest` | gard/core/uplift_wave_controller.py:300-309 | Every device in scope that is not ready is skipped with the verdict it has, and nothing else is. |
| `WaveDraftTheorems.KeysUniqueEveryRun` | gard/core/uplift_wave_controller.py:362-381 | Over every sequence of drafts a plan and key label at most one wave. |
| `WaveDraftTheorems.RepeatedRequest` | gard/core/uplift_wave_controller.py:363-381 | A repeat within the lifetime returns the same wave and writes nothing; a later repeat creates one new wave and takes only the key from the old one. |
| `WaveDraftTheorems.OtherRequestsKeepTheLabel` | gard/core/uplift_wave_controller.py:364-381 | Requests of other plans or keys never take a label away. |
| `WaveDraftTheorems.DraftIsAGovernanceStep` | gard/core/uplift_wave_controller.py:437-452 | What a draft stores is a draft step of the governance runs, so their safety covers it. |
| `UpgradePath.Dijkstra` | gard/core/upgrade_path_graph.py:124-129 | Returns a shortest chain with its exact weight whenever any chain exists, and only then. |
| `UpgradePath.GraphOfExactly` | gard/core/upgrade_path_graph.py:85-91 | The graph has an edge exactly where the list gives one, and the last one between two versions decides its weight. |
| `UpgradePath.VersionsOfGraph` | gard/core/upgrade_path_graph.py:85-91 | Its versions are exactly the ends of the listed edges. |
| `UpgradePath.UpgradePathGraphCache.ShortestPath` | gard/core/upgrade_path_graph.py:96-139 | Answers with a chain of minimum total weight and its summed weight, or with the reason why there is none. |
| `UpgradePath.UpgradePathGraphCache.Rebuild` | gard/core/upgrade_path_graph.py:85-91 | Replaces the cached graph of one platform; later duplicates of an edge win. |
| `UpgradePath.UpgradePathGraphCache.WithEdges` | gard/core/upgrade_path_graph.py:141-154 | Rebuilds one platform and answers from it. |
| `UpgradePath.ShortestDecidesReachability` | gard/core/readiness_evaluation_controller.py:473-494 | Testing only the shortest chain against the cap decides whether any chain of live edges of the platform, each starting where the one before ends, weighs at most the cap. |
| `Prerequisites.RawBlockersExactly` | gard/core/prereq_predicates.py:407-422 | The blockers of the matching rules are exactly those of the rules that are not satisfied or whose input is unknown, one per rule. |
| `Prerequisites.RuleSaysWhy` | gard/core/prereq_predicates.py:124-309 | For each predicate but the tags: which kind, severity and finding its blocker has when the input is known and fails, and when it is missing. |
| `Prerequisites.TagRuleSaysWhy` | gard/core/prereq_predicates.py:328-400 | The tag rule asks for the stripped tags that are not blank, names the missing ones up to case, and only recommends when the tags are unknown. |
| `Prerequisites.SpacesExactly` | gard/core/prereq_predicates.py:335-345 | The characters that stripping takes off, by code point. |
| `Prerequisites.SortedInOrder` | gard/core/prereq_predicates.py:425-447 | The stored list is sorted by severity, then by the canonical order of the eleven kinds, then by rule id. |
| `Prerequisites.TextLessExactly` | gard/core/prereq_predicates.py:160-200 | Versions are compared as texts: the shorter one, or the smaller one at the first difference, is below. |
| `Prerequisites.SortIsOrderIndependent` | gard/core/prereq_predicates.py:425-441 | The sorted blocker list is the same for every order in which the rules are visited. |
| `Prerequisites.RequiredComesFirst` | gard/core/prereq_predicates.py:439-447 | The first sorted blocker is required exactly when any is. |
| `Readiness.ReadinessController.PathExists` | gard/core/readiness_evaluation_controller.py:473-494 | The reachability answer of the evaluation is whether some chain of live edges fits the weight cap. |
| `Readiness.ReadinessController.Evaluate` | gard/core/readiness_evaluation_controller.py:375-632 | One evaluation stores a row, moves the lifecycle to ready_for_uplift or blocked, and audits, exactly when the verdict says something new; an error or a repetition changes nothing. |
| `Readiness.ReadinessController.EvaluateMany` | gard/core/readiness_evaluation_controller.py:836-907 | The batch is the fold of single evaluations; every device is evaluated, unchanged or stale, and stale ones count as not applicable; an unknown id aborts it after the devices before it. |
| `ReadinessTheorems.ReadyExactlyWhen` | gard/core/readiness_evaluation_controller.py:464-520 | Ready exactly when no applicable live rule stops the device and, if a target is known, a chain fits the cap. |
| `ReadinessTheorems.FullRowExactly` | gard/core/readiness_evaluation_controller.py:464-545 | The row of a full evaluation: its blockers are what the applicable rules raise plus the missing chain, each once and in order; blocked exactly if one is required; and the action that each kind of first blocker leads to. |
| `ReadinessTheorems.CarvedOutExactly` | gard/core/readiness_evaluation_controller.py:395-462 | The rows of a device without evaluation, with a stale one, not outside its target, or under an exception, and which of these comes first. |
| `ReadinessTheorems.EdgesDecideIff` | gard/core/readiness_evaluation_controller.py:473-520 | Other upgrade edges leave the state as it is exactly when a rule stops the device anyway, its target version is unknown, or a chain fits under both or neither. |
| `ReadinessTheorems.BlockedExactlyWhenPrimaryRequired` | gard/core/readiness_evaluation_controller.py:517-520 | Blocked exactly when the first listed blocker is a required one. |
| `ReadinessTheorems.VerdictIsOrderIndependent` | gard/core/readiness_evaluation_controller.py:167-182 | The whole verdict is the same for every order in which the catalog returns its rules. |
| `ReadinessTheorems.AdjacentRowsAlwaysDiffer` | gard/core/readiness_evaluation_controller.py:228-284 | In any run two adjacent readiness rows of a device say different things. |
| `ReadinessTheorems.HistoryOnlyGrows` | gard/core/readiness_evaluation_controller.py:566-584 | No readiness row is ever altered or removed. |
| `ReadinessTheorems.LatestRowIsCurrent` | gard/core/readiness_evaluation_controller.py:547-564 | After an evaluation the latest row tells the current verdict, all of it when readiness applies and its reasons when it does not. |
| `ReadinessTheorems.EvaluatingTwiceAddsNothingIff` | gard/core/readiness_evaluation_controller.py:228-284 | Evaluating again with unchanged inputs is silent exactly when the first evaluation was, or as many rules apply at the lifecycle it left and raise the same blockers; carved out or stale, always. |
| `ReadinessTheorems.EvaluatingTwiceAddsNothing` | gard/core/readiness_evaluation_controller.py:547-564 | With rules that do not read the lifecycle it is always silent. |
| `ReadinessTheorems.LifecycleRuleFlipsTheVerdict` | gard/core/prereq_predicates.py:292-309 | A rule against a state makes two evaluations with the same inputs store opposite verdicts. |
| `ScopeSelector.Evaluate` | gard/core/scope_selector.py:89-150 | Matched exactly when every leaf holds; deferred exactly when the loop stops at a tag leaf without tags; unknown keys are refused. |
| `ScopeSelector.SpecificityCounts` | gard/core/scope_selector.py:153-164 | The specificity is the number of leaves that constrain anything, however long their lists and wherever they stand. |
| `ScopeSelector.LeafAdds` | gard/core/scope_selector.py:153-164 | Wherever it stands, a value leaf, or a leaf whose list is not empty, adds exactly one to the specificity, kind by kind, and any other leaf nothing. |
| `ScopeSelector.MatchesExactly` | gard/core/scope_selector.py:89-150 | What each kind of leaf asks of the facts of a device, in literal terms. |
| `ScopeSelector.DefersExactly` | gard/core/scope_selector.py:108-116 | Deferred exactly if the tags are unknown and all leaves before some tag leaf hold. |
| `ScopeSelector.OrderIrrelevant` | gard/core/scope_selector.py:97-101 | The order of the leaves never changes the verdict. |
| `ScopeSelector.LifecycleIrrelevant` | gard/core/scope_selector.py:140-145 | Only a state leaf can tell lifecycle states apart. |
| `ScopeSelector.TagsIrrelevant` | gard/core/scope_selector.py:108-116 | Only a tag leaf can tell tag sets apart. |
| `Compliance.ResolveTarget` | gard/core/compliance_controller.py:140-175 | The loop yields the winner, the other matches in rank order, and whether any selector was deferred. |
| `Compliance.ComplianceController.AssessDevice` | gard/core/compliance_controller.py:181-416 | The lifecycle becomes the text of the assessed state, with one audit row from the old to the new one exactly when it changes. |
| `Compliance.CollectReasons` | gard/core/compliance_evaluation_controller.py:353-375 | The deduplicating loop equals merging the reasons by signature. |
| `Compliance.ComplianceController.Evaluate` | gard/core/compliance_evaluation_controller.py:247-493 | One evaluation moves the lifecycle and stores a verdict row with one audit entry exactly when some compared field, reason or action differs from the latest row. |
| `Compliance.ComplianceController.EvaluateMany` | gard/core/compliance_evaluation_controller.py:499-559 | The bounded batch is the fold of single evaluations and counts each device once; an unknown id aborts it after the devices before it. |
| `ComplianceTheorems.WinnerIsBest` | gard/core/compliance_controller.py:140-175 | A target governs exactly when some live target matches; the winner matches and no other is more specific, or as specific and newer. |
| `ComplianceTheorems.OneMoreLeafWins` | gard/core/compliance_controller.py:140-175 | Of two targets whose scopes differ in one constraining leaf of any kind, the one without it never governs a device that the other one matches, whatever else is in the table. |
| `ComplianceTheorems.NewerTargetWins` | gard/core/compliance_controller.py:140-175 | Between two matching targets with equally many constraining leaves the newer one governs. |
| `ComplianceTheorems.WinnerIgnoresTableOrder` | gard/core/compliance_controller.py:88-96 | With distinct load times the winner does not depend on the order of the table. |
| `ComplianceTheorems.StateExactly` | gard/core/compliance_controller.py:244-336 | Each of the four states holds exactly under its condition on winner and observed version. |
| `ComplianceRows.RankingRanksMatches` | gard/core/compliance_controller.py:140-175 | The ranking is by specificity and then load time, over the live targets that match, each once. |
| `ComplianceRows.AssessmentTells` | gard/core/compliance_controller.py:244-336 | The reasons of an assessment: an empty catalog, no match among so many live targets and whether a tag was out of reach, or the match, up to three runners-up and the comparison of versions. |
| `ComplianceTheorems.DriftsFireIff` | gard/core/drift_rules.py:84-289 | Each drift fires exactly under its own condition on winner, edges, package, observation and evidence; exception drift never does. |
| `ComplianceRows.FindingsExactly` | gard/core/drift_rules.py:84-289 | Each drift rule fires exactly with this reason, reference and detail, in terms of edges, packages, observations and ages in days. |
| `ComplianceRows.RowExactly` | gard/core/compliance_evaluation_controller.py:340-452 | The row of a verdict: state, target and versions of the assessment, its reasons and those of the fired rules told once, and the fired drifts split into primary and secondary. |
| `ComplianceRows.ActionsExactly` | gard/core/compliance_evaluation_controller.py:377-396 | The drifts of a row are listed in their order, and its actions are the ones the builders recommend for exactly these drifts in that order. |
| `ComplianceRows.DriftOrder` | gard/core/drift_rules.py:56-74 | The order of the seven drifts, and the two that may show on a compliant device. |
| `ComplianceTheorems.DriftFieldsAgreeIff` | gard/core/compliance_evaluation_controller.py:377-396 | Two verdicts with the same state show the same primary and secondary drifts exactly when the same drift rules fired. |
| `ComplianceTheorems.DriftsKeptIff` | gard/core/drift_rules.py:135-205 | When another catalog leaves a device its state and target, the same drifts fire exactly when the device is not outside its target or edges and package supply the target version as before. |
| `ComplianceTheorems.PrimaryIsMostUpstream` | gard/core/drift_rules.py:56-74 | The primary drift is the most upstream one that fired and the secondary list is all the others in order. |
| `ComplianceTheorems.CompliantDropsNothing` | gard/core/compliance_evaluation_controller.py:385-396 | The defensive filter on compliant devices never has anything to drop. |
| `ComplianceTheorems.MergeTellsEachOnce` | gard/core/compliance_evaluation_controller.py:356-375 | Merging tells every reason, none twice, and keeps what was told first. |
| `ComplianceTheorems.MismatchIsToldOnce` | gard/core/drift_rules.py:84-108 | A device outside its target is told about the mismatch exactly once though two rules report it. |
| `ComplianceTheorems.AdjacentVerdictsDiffer` | gard/core/compliance_evaluation_controller.py:191-236 | In any run two adjacent compliance rows of a device say different things. |
| `ComplianceTheorems.VerdictsAreAppendOnly` | gard/core/compliance_evaluation_controller.py:434-452 | No compliance row is ever altered or removed. |
| `ComplianceTheorems.LatestVerdictIsCurrent` | gard/core/compliance_evaluation_controller.py:415-452 | After an evaluation the latest row tells the current verdict, whether or not a row was added. |
| `ComplianceTheorems.VerdictsAgreeIff` | gard/core/compliance_evaluation_controller.py:191-236 | Under another catalog a verdict names the same state, drifts, target and versions exactly when the same target governs and asks for the same version and, outside it, edge and package supply that version as before. |
| `ComplianceTheorems.EvaluatingTwiceAddsNothingIff` | gard/core/compliance_evaluation_controller.py:257-265 | Evaluating again with unchanged inputs adds no row, moves nothing and audits nothing exactly when the verdict at the lifecycle the first evaluation left says the same. |
| `ComplianceTheorems.EvaluatingTwiceAddsNothing` | gard/core/compliance_evaluation_controller.py:415-432 | With scopes that do not read the lifecycle it never adds anything. |
| `ComplianceTheorems.StateScopeNeverSettles` | gard/core/scope_selector.py:140-145 | A target scoped to devices not yet compliant makes every evaluation flip the state and store a row, forever. |
| `VerdictComparison.RankingExactly` | gard/core/compliance_controller.py:140-175 | The ranking lists exactly the live targets that match, each once. |
| `VerdictComparison.VerdictsSayTheSameIff` | gard/core/compliance_evaluation_controller.py:191-236 | Two verdicts on a device, under two catalogs and at two lifecycles, pass for unchanged exactly when winner, first three runners-up, or without a winner the number of targets and the deferral, are the same, the supply of the target version is, and so are the actions. |
| `VerdictComparison.EvaluatingTwiceIsSilentIff` | gard/core/compliance_evaluation_controller.py:257-265 | Evaluating twice is silent exactly when the targets resolve the same, down to the reported runners-up, at the lifecycle before and at the settled one. |
| `VerdictComparison.RankingIsDetermined` | gard/core/compliance_controller.py:88-96 | With distinct load times the ranking is the one list of matching live targets by specificity, then load time. |
| `CatalogLoader.LoadBringsEveryDeclarationLive` | gard/catalog/firmware_loader.py:471-579 | A successful load keeps one row per key, keeps ids and load times, and gives every declaration a live row equal to it. |
| `CatalogLoader.EdgeLoadIsExact` | gard/catalog/firmware_loader.py:551-579 | After a load of upgrade edges the live edges are exactly the declared ones. |
| `CatalogLoader.FileLoadIsExactIff` | gard/catalog/firmware_loader.py:296-315 | Targets, packages and prerequisites are exact exactly when no live row, undeclared now, still points at a loaded file. |
| `CatalogLoader.LoadingTwiceChangesNothing` | gard/catalog/firmware_loader.py:691-722 | Loading the same files again is accepted, changes no row and reports only unaltered entries. |
| `CatalogMirror.LoadableIff` | gard/catalog/firmware_loader.py:347-410 | A load goes through exactly when every file is valid, no key is listed twice in one file or two, and no live row is listed with another fingerprint. |
| `CatalogMirror.LoadRefreshes` | gard/catalog/firmware_loader.py:237-315 | Row by row, from the files themselves: a listed key has the listed body and file and is live, another row keeps both and is live only if its file is still there and goes stale by file, a new row has the next id and its own time. |
| `CatalogMirror.MirrorsIff` | gard/catalog/firmware_loader.py:551-579 | A table that goes stale key by key mirrors its files exactly; one that goes stale by file does exactly when no row is left over. |
| `CatalogMirror.LoadReportsExactly` | gard/catalog/firmware_loader.py:237-315 | The report of a load names exactly the rows that appeared, changed, came back or were retired, each once. |
| `CatalogStore.CatalogTable.UpsertRow` | gard/catalog/firmware_loader.py:237-294 | Insert, update in place or resurrect one entity, with its delta. |
| `CatalogStore.CatalogTable.RetireStale` | gard/catalog/firmware_loader.py:446-468 | The soft-delete loop retires exactly the stale live rows and reports each. |
| `CatalogStore.CatalogTable.Load` | gard/catalog/firmware_loader.py:347-468 | One pass fails exactly when a file is invalid, a key repeats or a live row refuses content, and otherwise yields the specified rows and deltas. |
| `CatalogStore.FirmwareCatalog.ReloadSafe` | gard/core/firmware_catalog_controller.py:604-640 | All or nothing over four tables. Succeeds exactly if the tree is not dirty in production, every file is valid, no key is listed twice and no live package is listed with another checksum; then the live edges are exactly those of the tree, targets, packages and prerequisites mirror it exactly when no row is left over, and the audit rows tell exactly the changed rows; otherwise no table changes and one row names the file. |
| `CatalogStore.ReloadingIsSilent` | gard/core/firmware_catalog_controller.py:362-373 | Reloading an unchanged tree writes no audit row for any entity. |
| `CatalogReload.ChangesAreReported` | gard/catalog/firmware_loader.py:296-315 | Whatever a load adds, changes or retires appears in its report. |
| `CatalogReload.OnlyChangesAreReported` | gard/catalog/firmware_loader.py:237-294 | A stored row that the load leaves as it was is not reported as touched. |
| `CatalogReload.TouchedExactly` | gard/core/firmware_catalog_controller.py:447-458 | The touched ids are exactly those of the rows that the load inserted, changed or retired. |
| `CatalogReload.AffectedDevices` | gard/core/firmware_catalog_controller.py:464-528 | The single scan collects exactly the devices whose lifecycle is target_defined, compliant, outside_target or unknown, and those that a touched target or rule matches with the tags left out. |
| `CatalogReload.SkippedDeviceKeepsTargetIff` | gard/core/firmware_catalog_controller.py:417-441 | A device outside the affected set keeps its governing target exactly when the governor still covers it and no touched target, which the scan can only overlook through a tag, ranks above it; with none of those, exactly when the governor was not rescoped. |
| `CatalogReload.ScanOverlooksIff` | gard/core/firmware_catalog_controller.py:494-511 | Of the scopes that cover a device the scan overlooks exactly those that ask for a tag. |
| `CatalogReload.AssessmentKeptIff` | gard/core/firmware_catalog_controller.py:423-435 | Any device keeps target, version and state through a reload exactly when its governor stays and asks for the same version. |
| `CatalogReload.SkippedDeviceKeepsRulesIff` | gard/core/firmware_catalog_controller.py:454-462 | A device outside the affected set keeps its rules exactly when none of them was touched and no touched one, overlooked through a tag, applies now; with none of those, exactly when none was rescoped. |
| `CatalogReload.RescopedDeviceIsMissed` | gard/core/firmware_catalog_controller.py:464-473 | Rescoping the target away from a device past the firmware states leaves it unvisited. |
| `CatalogReload.TaggedTargetIsMissed` | gard/core/firmware_catalog_controller.py:502-511 | The scan leaves tags out of the facts and misses a new target scoped by one. |
| `ReloadPass.Session.Reevaluate` | gard/core/firmware_catalog_controller.py:526-572 | The loop visits every affected device once, in any order: assessed, judged for compliance, judged for readiness; all other devices keep their rows. |
| `ReloadPass.VisitExactly` | gard/core/firmware_catalog_controller.py:526-572 | A visit from beginning to end: judged at the assessed lifecycle, a new verdict stored with the time, assessed once more, and then the readiness judgement on the latest verdict, whose new answer is stored and leads the lifecycle on. |
| `ReloadPass.VisitTellsTheTruth` | gard/core/firmware_catalog_controller.py:436-441 | After a visit judging the device again at its assessed lifecycle would be silent, and the latest readiness row repeats the readiness judgement unless the verdict is too old for one. |
| `ReloadPass.AffectedDevicesAreCurrent` | gard/core/firmware_catalog_controller.py:436-441 | When no scope reads the lifecycle, the latest verdict is that on the device as the pass leaves it. |
| `AfterReload.ReevaluateAfterReload` | gard/core/firmware_catalog_controller.py:412-572 | Scan and pass as one call: every device that started in one of the four firmware states, or that a touched target or rule without tags covers, has an up-to-date latest verdict afterwards; everybody not found keeps lifecycle and both histories. |
| `ReloadPass.LifecycleInStepIff` | gard/core/readiness_evaluation_controller.py:547-593 | A visit leaves the lifecycle in step with the readiness history exactly when the readiness judgement says something new or is not about an uplift, or the verdict is too old and the history does not end in such a row. |
| `ReloadPass.SecondPassDropsTheLead` | gard/core/firmware_catalog_controller.py:530-572 | With scopes that do not read the lifecycle, a second pass over the same inputs adds no row and puts every ready or blocked device back to outside_target. |
| `ReloadPass.NewDeviceLosesItsLead` | gard/core/firmware_catalog_controller.py:530-572 | For instance every new device outside its target and under no exception. |
| `ReloadPass.AtMostOneTransitionIff` | gard/core/firmware_catalog_controller.py:436-441 | A visit writes at most one transition exactly when one of its two assessments finds the lifecycle as it should be. |
| `ReloadPass.OneVisitTwoTransitions` | gard/core/scope_selector.py:140-145 | A scope that reads the lifecycle makes one visit write two transitions that cancel out. |
| `ReloadRuns.ReloadIsARun` | gard/core/firmware_catalog_controller.py:526-585 | The pass and the invalidation of waves after it are a run of the uplift system, so every invariant of the runs survives a reload. |
| `ReloadRuns.VisitedDeviceAfterReload` | gard/core/firmware_catalog_controller.py:574-585 | A visited device ends in the lifecycle its visit gave it, and no draft or submitted wave holds it. |
| `ReloadRuns.OtherDeviceAfterReload` | gard/core/uplift_wave_controller.py:767-780 | Any other device keeps its lifecycle, unless it waited in an invalidated submitted wave: then it is ready again. |
| `ReloadVerdicts.SkippedDeviceKeepsVerdictIff` | gard/core/firmware_catalog_controller.py:417-441 | A skipped device keeps state, drifts, target and versions of its compliance verdict exactly when its governor stays and asks for the same version and, if it is outside the target, an edge and the package supply that version as before. |
| `ReloadVerdicts.SkippedDeviceKeepsWholeVerdictIff` | gard/core/firmware_catalog_controller.py:417-441 | Reasons and actions included, its verdict stays exactly when bill, supply and actions do; with nothing touched over it, exactly when no quoted target was rescoped, or without a governor count and deferral stay, and the supply does. |
| `ReloadVerdicts.StoredVerdictAfterReload` | gard/core/firmware_catalog_controller.py:417-441 | Through load, scan and pass, an up-to-date stored verdict is up to date afterwards if the device was visited, and otherwise exactly when its whole verdict survives the new catalog. |
| `ReloadVerdicts.PackageChangeIsMissed` | gard/core/compliance_evaluation_controller.py:98-123 | Packages are not scanned: taking the package of the target off file, or putting it on file, flips the package drift of a device past the firmware states, which is not visited. |
| `ReloadVerdicts.UnmatchedReasonGoesStale` | gard/core/compliance_controller.py:244-290 | Reasons quote more of the catalog than the scan looks at: with another number of live targets the stored row of a device without a target no longer tells its verdict. |
| `ReloadVerdicts.SkippedDeviceKeepsReadinessIff` | gard/core/firmware_catalog_controller.py:447-462 | A skipped device keeps its whole readiness verdict, blockers and actions included, exactly when the touched rules that apply before and after are as many and raise the same blockers, and a chain fits as before; without a full evaluation always. |
| `ReloadVerdicts.SkippedDeviceKeepsStateIff` | gard/core/firmware_catalog_controller.py:447-462 | It keeps its readiness state exactly when an untouched rule stops it anyway, or it was held up before just when a touched rule or a missing chain holds it up after. |
| `ReloadVerdicts.EdgeChangeIsMissed` | gard/core/firmware_catalog_controller.py:447-458 | Edges are not scanned: if a reload leaves a ready device without a fitting chain it is blocked, yet it is not visited. |
| `BlobProtocol.KeysTellDigestsApart` | gard/core/blob_store/__init__.py:153-163 | Keys exist exactly for 64 characters: the lowercase text cut after two; so they are equal exactly for digests equal up to case. |
| `BlobProtocol.StepsOfAnUpload` | gard/core/blob_store/local_fs.py:84-155 | What each step of an upload does to its phase, the blob, its temporary file and the lock, and to nothing else. |
| `BlobProtocol.FailuresAndDeletions` | gard/core/blob_store/local_fs.py:156-188 | A failure drops the temporary file and keeps the lock until the release; a deletion takes the blob away and nothing else. |
| `BlobProtocol.EveryInterleavingIsSafe` | gard/core/blob_store/local_fs.py:84-169 | In every interleaving of uploads and deletions all protocol invariants hold at every point. |
| `BlobProtocol.OneWriterPerKey` | gard/core/blob_store/local_fs.py:106-112 | At most one upload holds the lock of a key, and a temporary file exists only under that lock. |
| `BlobProtocol.VisibleBlobIsComplete` | gard/core/blob_store/local_fs.py:139-149 | A visible blob is everything some uploader sent and hashes to its key. |
| `BlobProtocol.QuietDirectoryIsClean` | gard/core/blob_store/local_fs.py:156-169 | When no upload is under way no lock and no temporary file is left. |
| `BlobProtocol.OutcomesAreJustified` | gard/core/blob_store/local_fs.py:123-155 | What an upload reports follows from its content, its cap and its expected digest. |
| `BlobProtocol.GivingUpHasACause` | gard/core/blob_store/local_fs.py:106-112 | An upload is told that another is in progress only while another one holds the lock of its key, and is aborted only by a failure of its own. |
| `BlobProtocol.BlobsLeaveOnlyByDeletion` | gard/core/blob_store/local_fs.py:184-188 | Only a deletion removes a blob; any other step leaves content of the same digest. |
| `BlobProtocol.SuccessMeansVisible` | gard/core/blob_store/local_fs.py:98-104 | Both ways to succeed leave a blob of the expected digest visible at that moment. |
| `BlobStore.LocalFsBlobStore.Receive` | gard/core/blob_store/local_fs.py:118-137 | The chunk loop copies everything or stops at the cap, whatever the chunk size, and drains the stream. |
| `BlobStore.LocalFsBlobStore.Put` | gard/core/blob_store/local_fs.py:84-169 | An undisturbed upload answers by the first that applies: present, lock taken, too large, wrong digest, stored; only the last makes the content visible, and no lock and no temporary file is left. |
| `BlobStore.UninterruptedPutIsARun` | gard/core/blob_store/local_fs.py:84-169 | The one-caller upload is one run of the interleaved protocol, for every division into chunks. |
| `BlobStore.StreamWithVerify.IterChunks` | gard/core/blob_store/__init__.py:122-133 | The chunks put together are exactly the bytes, for every chunk size. |
| `BlobStore.LocalFsBlobStore.Download` | gard/core/blob_store/local_fs.py:171-178 | A download yields exactly the stored bytes, or the error that applies. |
| `BlobStore.VerificationPassesIffLowercase` | gard/core/blob_store/__init__.py:142-147 | For any visible blob, verification against the digest it was requested by passes exactly when that digest is lowercase. |
| `BlobStore.IterKeys` | gard/core/blob_store/local_fs.py:190-203 | The walk lists the keys of the listed names in order. |
| `BlobStore.ListingIsExact` | gard/core/blob_store/local_fs.py:190-203 | Over any reachable directory the listing holds exactly the keys of the visible blobs, each once, whatever lock and temporary files lie beside them. |
| `BlobStore.ListedIffBlob` | gard/core/blob_store/local_fs.py:197-203 | Of the names the store gives to files, exactly those of visible blobs are listed, and the stem comes back. |
| `DeviceImport.ImportController.UpsertFromRow` | gard/core/device_controller.py:41-115 | Creates a device exactly if none has the identity of the row, with its columns and the lifecycle imported or classified; otherwise overlays the raw texts and every value present, and leaves identity, tags and link alone. |
| `DeviceImport.ImportController.RunSyncImport` | gard/core/import_controller.py:123-201 | The row loop: each row is counted once as rejected, repeated, in need of review or accepted; the complaints are those of the rejected and repeated rows in file order; every valid row leaves one observation of the device it is about; created + updated = total - rejected. |
| `DeviceImportTheorems.IdentitiesStayUnique` | gard/core/device_controller.py:26-38 | No import gives two devices one identity or changes the identity of a device. |
| `Devices.IdentitiesAgreeIff` | gard/core/identity.py:20-40 | Two identities are one exactly when both serials are there and equal up to case, or neither is and hostname and site are. |
| `Prelude.LowerFolds` | gard/core/identity.py:20-40 | Equal up to case means letter by letter, with the two cases of A to Z taken for one. |
| `DeviceImportTheorems.RowCreatesIff` | gard/core/device_controller.py:57-82 | A row creates a device exactly when neither the table nor an earlier row has its identity. |
| `DeviceImportTheorems.KeyTextsAgreeIff` | gard/core/identity.py:30-35 | Two key texts agree exactly when the identities are equal or the joined hostname and site read the same. |
| `DeviceImportTheorems.DuplicateNeverCreates` | gard/core/import_controller.py:143-163 | With hostnames free of bars a row counted as a duplicate never creates a device. |
| `DeviceImportTheorems.BarMakesDuplicateCreate` | gard/core/identity.py:35 | The condition is needed: a bar in a hostname makes a duplicate row create a device. |
| `DeviceImportTheorems.LastRowHasTheLastWord` | gard/core/device_controller.py:84-114 | Every device ends with the raw vendor and model of the last row about it, the last present value of each optional and normalized column, and a lifecycle advanced at most from imported to classified; a new one has the identity of its first row. |
| `DeviceImportTheorems.FoldTakesLatest` | gard/core/device_controller.py:86-99 | Every optional column of the fold holds the latest value a row gave for it. |
| `DeviceImportTheorems.LatestIsLastPresent` | gard/core/device_controller.py:86-99 | The latest value is the last present one, or the stored one if no row gave any. |
| `NetboxReconcile.SyncController.CheckSerialDuplicates` | gard/core/netbox_sync_controller.py:100-116 | Refuses exactly the record lists in which two serial numbers agree up to case. |
| `NetboxReconcile.SyncController.Reconcile` | gard/core/netbox_sync_controller.py:145-215 | Succeeds exactly when every record has its place in the starting table: the free device that carries its NetBox id, else the free one with its identity, else a new one, undisputed and no repetition; then each device carries its record, a new one nothing else but the state imported, and the orphans are exactly the rest; an error names what blocks and changes nothing. |
| `NetboxReconcile.PassIsSound` | gard/core/netbox_sync_controller.py:159-198 | Records and devices are paired one to one, each device carries its record, links and identities stay unique, and nothing else changes. |
| `NetboxReconcile.ReconciledIffPlacement` | gard/core/netbox_sync_controller.py:118-198 | A reconciliation of records succeeds exactly when such places exist, and finds them. |
| `NetboxReconcile.OnePlace` | gard/core/netbox_sync_controller.py:118-123 | There is at most one place for a record. |
| `NetboxReconcile.RefusalIsJustified` | gard/core/netbox_sync_controller.py:155-190 | A refusal has its cause: a repeated serial or id, a device taken by an earlier record of the same identity, or a link and an identity that disagree. |
| `NetboxReconcile.FirstSyncLinksEveryDevice` | gard/core/netbox_sync_controller.py:118-198 | The first sync of unlinked devices succeeds exactly when no two records share an id or an identity, and links every device that a record identifies to that record. |
| `NetboxReconcile.ReconcilingAgainOnlyMovesTimestamps` | gard/core/netbox_sync_controller.py:126-142 | Reconciling the same records again succeeds, creates nothing and changes only the timestamps of the matched devices. |
| `Writeback.PublishDeviceWriteback` | gard/integrations/netbox/writeback_publisher.py:251-339 | A conflict or a match sends nothing, and a conflict lists exactly the fields that are neither empty nor as they should be; a write sends only the part that differs, and leaves every mirrored field with the text of its source and the tags as the foreign ones in order followed by the wanted ones, sorted. |
| `Writeback.RunWriteback` | gard/integrations/netbox/writeback_publisher.py:342-400 | One entry per linked device in order, counted by status; every update is one PATCH; foreign data and filled fields survive; what was updated or matched shows its snapshot at the end unless a later device is linked to the same place; the phase follows the counts. |
| `Writeback.MirroredRespects` | gard/integrations/netbox/writeback_publisher.py:282-288 | A write never overwrites a filled field and never touches a foreign field or the order of foreign tags. |
| `Writeback.TagsBecomeExact` | gard/integrations/netbox/writeback_publisher.py:224-233 | Foreign tags keep their order and a managed tag is present exactly when its rule applies, once. |
| `Writeback.PublishingAgainFindsAMatch` | gard/integrations/netbox/writeback_publisher.py:297-319 | Publishing again after an update finds everything in place, in whatever order NetBox lists the tags. |
| `Writeback.LaterSnapshotConflictsIff` | gard/integrations/netbox/writeback_publisher.py:285-287 | A later snapshot conflicts exactly when some mirrored value that was not empty has changed since the write. |
| `AuditChain.AuditLog.Emit` | gard/core/audit.py:22-90 | Appends one event whose stored hash is that of its own columns. |
| `AuditChain.AuditLog.SealDay` | gard/worker.py:39-82 | Refuses exactly a day that is not over, and otherwise stores the chain over the rows of that day, from midnight to midnight and in order of time and id, with the time of sealing. |
| `AuditChain.OneAccountOfADay` | gard/worker.py:49-58 | With distinct ids the rows of a day, in that order, are one list. |
| `AuditChain.ChainLinks` | gard/worker.py:60-62 | The head is the digest of the row hash under its name, together with the head so far from the second row on. |
| `AuditChain.LinkIsInjective` | gard/core/hashing.py:46-55 | A link determines both the row hash and whether and which previous hash was mixed in. |
| `AuditChain.EqualHeadsIffEqualRows` | gard/worker.py:60-62 | Two lists of row hashes have the same head exactly when they are the same list. |
| `AuditChain.EqualHeadsTellTheSameStory` | gard/worker.py:54-62 | While stored hashes are those of the columns, heads are equal exactly when the columns are, in the same order. |
| `AuditChain.EditUnderOldHashGoesUnnoticed` | gard/worker.py:61-62 | The condition is needed: columns rewritten under the old stored hash leave every head as it was. |
| `AuditChain.ResealingStoresTheSameHead` | gard/worker.py:64-72 | Sealing again stores the same head while the day has the same rows, in whatever order the table returns them. |

## Left out

- UpliftStore.Store.InvalidateAffected: the lost race inside the sweep (`continue` on a mismatch) appears only in the interleaved runs, not in this method, which has the tables to itself.
- UpliftRuns.EveryRunIsSafe: the audit log of the runs holds the rows of waves and exceptions only, and the guarded update commits together with its member moves and audit row.
- WaveDraft.WaveTable.DraftWave: the name, correlation id and change window of a wave are not stored in the model.
- CatalogStore.FirmwareCatalog.ReloadSafe: the pass that ends a reload is `ReloadPass.Session.Reevaluate`, not part of this method; commit SHAs per file, the evidence fingerprint and log lines are not modelled.
- ReloadPass.Session.Reevaluate: of the failures that are logged and passed over only a verdict too old for the readiness judgement occurs in the model; the wave invalidation that follows is `UpliftStore.Store.InvalidateAffected`, joined to the pass in `ReloadRuns`.
- Compliance.ComplianceController.Evaluate: the builders of recommended actions are an arbitrary function of device id, platform, assessment and drift set; confidence and observation reference are not stored.
- Readiness.ReadinessController.Evaluate: the lazy expiry at its start is `UpliftStore.Store.ExpireOverdue`; here the active exception is an input.
- BlobStore.LocalFsBlobStore.Put: crashes between rename and commit and failures of `unlink` are outside the protocol, and receipts carry no time.
- BlobStore.IterKeys: the shard directories and their names come sorted; the sorting itself is not modelled.
- DeviceImport.ImportController.RunSyncImport: CSV parsing, the job row, evidence and the cut of the error report to its maximum length are not modelled; a stored serial number is never the empty text.
- NetboxReconcile.SyncController.Reconcile: IPAM alignment, the sync run row and name-uniqueness errors are not modelled.
- Writeback.RunWriteback: the snapshot of a device is an input, NetBox stores field values as the text it was sent, and a failed request changes nothing.
- AuditChain.AuditLog.SealDay: canonical JSON is a map from column names to text, and one digest stands for SHA-256 (section 6.2 of FIPS 180-4).
- HTTP routers, schemas, tokens, roles, the web UI, the normalization engine, estate summaries and keyset pagination: plumbing or flat tables without a harder property.
