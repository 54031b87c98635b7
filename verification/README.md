# Verified model of the grace_control control plane

grace_control runs coding agents on the packets of a plan. This project models the parts of its control
plane that decide what may run and when, and proves what those parts guarantee.

- **Plans.** `Graphs`, `CycleFinder`, `KahnSort`, `Reachability`, `GraphAgreement`, `ScopeConflicts` and
  `PlanValidator` model the plan validator: a three-colour search for cycles, Kahn's topological sort with its
  fallback, the worklist test for transitive dependency, the scope conflict detector built on it, and the
  validator that combines them. Dependency lists may repeat a name, name the packet itself or name packets that
  do not exist. `Graphs` defines walks, dependency and cycles without any algorithm, and every algorithm is
  proved against it; `GraphAgreement` puts the three side by side. `PlanOk` says what a valid plan is without
  mentioning the validator, and the validator accepts a plan exactly when `PlanOk` holds.
- **Packet lifecycle.** `PacketStates`, `Database`, `PacketOperations`, `PacketServices`, `RecoveryActions`,
  `LeaseManager`, `StuckScanner`, `WaveGate` and `FeatureGate` model the services that rewrite the shared tables.
  Each transaction is one step, time is an integer, and a lease is keyed by its packet. Reclaims write READY over
  RUNNING without the transition table, so they are a step of their own. Every method is proved equal to a
  function on the rows, and lemmas named `...ByRow` say what these functions do in terms of the fields alone. The
  functions are then studied in `Stabilisation` (the scanner stabilises any rows in
  one sweep, and lease expiry commutes with each of its passes) and `SystemRuns` (runs of all modelled steps in
  any order, with any other move along the table as a step too; `SystemSteps` carries each step out by its
  service). `AttemptBounds` and `WaveSafety` say of every run exactly when attempts stay within their limit and
  when waves take their turns, and `EndToEnd` joins a valid plan, the wave gate and the state machine: dependent
  or overlapping packets never run together, whatever other features do.
- **Recovery.** `RecoveryPolicies` is the classification and the decision ladder, `RecoveryController` the
  signal built from the last ten runs and the application of a decision. While the coder is at fault, more
  failures never lead back down the ladder (`CoderLadderMonotone`).
- **Checkers and numbering.** `CanonBlocks` is the checker for named blocks, compared with a grammar of nested
  words. `Paths`, `ScopeEnforcer` and `ScopeGuard` are the two judges of changed files. `StageRounds` is the
  numbering of the rounds of a stage.

`Sequences`, `Text` and `Sorting` hold shared definitions.

## Where code and documentation disagree

The model follows the code. Where a promise fails, a lemma says exactly when it holds.

- `mark_ready` documents that it raises outside DRAFT and `mark_failed` that it raises outside RUNNING, but both
  only consult the transition table (src/grace_control/core/packet_operations.py:53-65, 118-130), which admits
  READY from REJECTED, BLOCKED and BLOCKED_RECOVERABLE and FAILED from REJECTED (`DocumentedGuardsExact`). As a
  consequence a packet can be started more often than its limit allows (`LimitBrokenByMarkReady`). The same
  holds of claims from REJECTED or BLOCKED_RECOVERABLE, manual retries and reruns. `AttemptLimitExact` says
  for every run when the limit, plus the reclaims, is kept: exactly when each such step finds enough attempts
  left. When none of them is taken only reclaims pass the limit (`AttemptBoundAsDocumented`).
- `mark_ready`, the coder retry, a claim and a rerun do not look at waves: they can take a draft of a later wave
  out of DRAFT (`TurnBrokenByHand`). The waves of a feature take their turns in every state of a run exactly when
  each such step happens after the earlier waves of the feature are done (`WaveSafetyExact`). The theorems of
  `EndToEnd` assume this of the steps for the plan's own feature and nothing else.
- The limit on total coder attempts is not a bound on the attempts of a packet. The signal counts the newest ten
  runs only, and some failures are retried without looking at the limit. `CoderLimitExact` says for histories
  of any length when the limit is kept; above ten it binds no history (`LimitAboveWindowNeverBinds`).
  `PassedVerifierRetriesForever` and `ReworkRetriesForever` give histories of every length that go back to the
  coder.
- An unresolved return to the architect is carried forward for the reviewer. For the verifier it is carried only
  if no review was, and the newest review is asked first (`VerifierReturnExact`, `VerifierReturnOverruled`).
- The block checker documents reports and no exceptions, but raises exactly when some line, stripped, is a mark
  followed by nothing but white space up to its end or up to the mark again (`CheckSemanticBlocks`,
  `BareMarkRaises`).
- A scope entry with no real path segment, such as the current directory, covers no ordinary file
  (`DotCoversNothing`).
- A stage start reads the next round in one transaction and inserts the row in another. Taken one at a time,
  starts number the rounds without gaps. When other starts, returns and finishes happen in between, the numbering
  stays gap-free exactly when none of them adds a row for the same stage (`LateInsertExact`); two first starts
  that overlap both take round 1 (`OverlappingStarts`).

## Model

| member | source | states |
|---|---|---|
| `Reachability.DependsTransitively` | src/grace_control/core/dag_validator.py:207-219 | returns true exactly when a non-empty dependency path exists, on cyclic graphs and graphs with unknown names too, and always ends |
| `CycleFinder.EnterKeepsState` | src/grace_control/core/dag_validator.py:158-160 | entering a white name that the last path name depends on keeps: gray names are the path, in order, without repeats |
| `CycleFinder.LeaveKeepsState` | src/grace_control/core/dag_validator.py:169-170 | leaving a name keeps the same, and keeps black names listed after all their dependencies except along edges that close a reported cycle |
| `CycleFinder.ReportKeepsState` | src/grace_control/core/dag_validator.py:164-166 | meeting a gray name yields a simple cycle along graph edges: the path from that name on, closed |
| `CycleFinder.Search.Dfs` | src/grace_control/core/dag_validator.py:158-170 | from any valid search state it blackens the name, restores the path, loses no black name and no cycle, and ends because uncoloured names run out |
| `CycleFinder.Search.Leave` | src/grace_control/core/dag_validator.py:169-170 | pops exactly the visited name, blackens it last, and touches no cycle |
| `CycleFinder.Search.MeetAll` | src/grace_control/core/dag_validator.py:161-168 | after the loop every dependency is black or its edge closes a reported cycle |
| `CycleFinder.Search.Meet` | src/grace_control/core/dag_validator.py:162-168 | one round: the dependency is black afterwards or its edge closes a reported cycle, also for names that are not keys |
| `CycleFinder.DetectCycles` | src/grace_control/core/dag_validator.py:153-175 | every reported cycle is a real simple closed walk; without the closing edges of the reported cycles the graph is acyclic, so no cycle is missed; nothing is reported exactly when no name depends on itself |
| `CycleFinder.ClosedWalkMeetsReport` | src/grace_control/core/dag_validator.py:153-175 | every closed walk of the graph contains the closing edge of a reported cycle |
| `KahnSort.BuildDependents` | src/grace_control/core/dag_validator.py:182-186 | the table is the inverse of the dependency lists, with multiplicity |
| `KahnSort.AddDependent` | src/grace_control/core/dag_validator.py:184-186 | one packet's dependencies are added with multiplicity and nothing else changes |
| `KahnSort.PayOne` | src/grace_control/core/dag_validator.py:195-198 | an in-degree is at least 1 whenever it is decremented, and a name joins the queue exactly when it reaches 0, so no name is queued twice |
| `KahnSort.Release` | src/grace_control/core/dag_validator.py:193-198 | emitting a name keeps in-degrees equal to the number of unemitted dependencies and keeps dependencies first |
| `KahnSort.EmittedAreGrounded` | src/grace_control/core/dag_validator.py:188-198 | with an empty queue the emitted names are those from which no cycle and no unknown name can be reached |
| `KahnSort.EmitFreeNames` | src/grace_control/core/dag_validator.py:181-198 | the queue phase emits exactly those names, each once, after all its dependencies, and first in, first out: a name whose last dependency is emitted earlier comes first, ties in key order |
| `KahnSort.FifoUnique` | src/grace_control/core/dag_validator.py:188-198 | there is only one such order, so the queue phase is determined by the graph |
| `KahnSort.TopologicalSort` | src/grace_control/core/dag_validator.py:180-202 | on any graph the result is a permutation of the keys: the queue phase in its order, then the rest sorted by name |
| `KahnSort.AllGrounded` | src/grace_control/core/dag_validator.py:180-202 | the queue phase emits every key exactly when no name depends on itself and every dependency is a key |
| `KahnSort.KahnOrderOfAcyclic` | src/grace_control/core/dag_validator.py:180-202 | on an acyclic closed graph the whole order has dependencies first |
| `GraphAgreement.CompareAlgorithms` | src/grace_control/core/dag_validator.py:153-219 | the cycle finder reports nothing exactly when the worklist test finds no key that depends on itself, and the sort emits every key exactly when besides all dependencies are keys |
| `ScopeConflicts.OverlapExactly` | src/grace_control/core/dag_validator.py:245-249 | the reported files are exactly the shared entries other than package markers, sorted, each once; non-empty exactly when there is one |
| `ScopeConflicts.DetectScopeConflicts` | src/grace_control/core/dag_validator.py:222-250 | lists exactly the pairs that share a significant file and have no dependency path either way, each pair once, in the order of the pairs |
| `PlanValidator.NamesByField` | src/grace_control/core/dag_validator.py:64-79 | a packet is known by its id, else its packet id, else its title, and always by its title |
| `PlanValidator.ScopeByField` | src/grace_control/core/dag_validator.py:87-90 | which files a packet lists: its own scope field, or the one of its specification if it has none |
| `PlanValidator.ClashExact` | src/grace_control/core/dag_validator.py:66-83 | the name test finds a clash exactly when an id or title is missing or already belongs to another packet |
| `PlanValidator.RegisterPackets` | src/grace_control/core/dag_validator.py:59-95 | no name error exactly when every packet has a name and no name belongs to two packets; then the tables hold exactly the plan |
| `PlanValidator.RegisterKeepsRegistered` | src/grace_control/core/dag_validator.py:80-95 | registering one more packet with free names keeps ids, aliases, dependencies, scopes and waves exact |
| `PlanValidator.AliasesResolve` | src/grace_control/core/dag_validator.py:80-83 | the alias table sends every id and title to the packet that carries it |
| `PlanValidator.ResolveDependencies` | src/grace_control/core/dag_validator.py:97-112 | the graph holds the references of every packet looked up in the alias table; exactly the unreadable fields are reported |
| `PlanValidator.DepsAreRead` | src/grace_control/core/dag_validator.py:97-112 | what a dependency field means, in terms of the field alone: one entry for every string of a list, or every non-blank piece between commas, in order, each leading to the packet that the stripped text names |
| `PlanValidator.PlanGraphReads` | src/grace_control/core/dag_validator.py:97-112 | the graph of a plan says exactly that for every packet |
| `PlanValidator.ValidReferencesLead` | src/grace_control/core/dag_validator.py:106-119 | in a valid plan every single reference is a text, names a packet of the plan, and the graph has the edge to it |
| `PlanValidator.MissingDependencies` | src/grace_control/core/dag_validator.py:114-119 | reports exactly the references to packets that are not in the plan |
| `PlanValidator.WaveOrderErrors` | src/grace_control/core/dag_validator.py:121-134 | reports exactly the edges whose dependency is not in an earlier wave, as far as waves are known, with both waves |
| `PlanValidator.CheckReferences` | src/grace_control/core/dag_validator.py:52-134 | the graph is the plan's; no error exactly when names, dependency fields, references and waves are sound |
| `PlanValidator.PhasesTell` | src/grace_control/core/dag_validator.py:114-148 | with cycles and conflicts added, the error list has an entry for every missing dependency, cycle and conflict and no other entries of these kinds |
| `PlanValidator.PhasesDecide` | src/grace_control/core/dag_validator.py:63-150 | sound references, no cycle and no conflict are exactly the declarative validity of the plan, for the one graph the plan has; the conflicts are those of the plan |
| `PlanValidator.ValidateDag` | src/grace_control/core/dag_validator.py:46-150 | valid exactly when the plan is declaratively valid; then every reference leads to a packet and all packets are ordered with dependencies strictly first; the graph, cycles and conflicts are exact in every case |
| `PlanValidator.StrictByDefault` | src/grace_control/core/dag_validator.py:53-57 | wave order is checked as asked for, and by default exactly when some packet has conflict keys |
| `PlanValidator.SharedFileOrders` | src/grace_control/core/dag_validator.py:136-148 | two packets of a valid plan that list the same file, no package marker, depend on each other one way |
| `PlanValidator.PlanGraphUnique` | src/grace_control/core/dag_validator.py:97-112 | a plan whose names are in order has one dependency graph |
| `PlanValidator.WaveOrderIsAcyclic` | src/grace_control/core/dag_validator.py:121-136 | with all waves given, the wave order alone rules out cycles |
| `PlanValidator.DependencyInEarlierWave` | src/grace_control/core/dag_validator.py:121-134 | transitive dependencies are in strictly earlier waves |
| `PlanValidator.SameWaveSharesNothing` | src/grace_control/core/dag_validator.py:121-148 | in a valid strict plan two packets of one wave share no significant file |
| `PacketStates.RunLength` | src/grace_control/core/state_machine.py:66-95 | any run along the table and the reclaim edge has at most 4 steps per entry into RUNNING plus the reserve of its first state |
| `PacketStates.RunFromDraftLength` | src/grace_control/core/state_machine.py:66-95 | a run from DRAFT that enters RUNNING k times has at most 2 + 4k steps |
| `PacketStates.LengthBoundReached` | src/grace_control/core/state_machine.py:66-95 | the bound 2 + 4k is reached for every k |
| `PacketStates.TerminalForGood` | src/grace_control/core/state_machine.py:106-111 | a run that enters a terminal state stays in terminal states; MERGED and CANCELLED end it |
| `PacketStates.EnteredFrom` | src/grace_control/core/state_machine.py:66-95 | the table the other way round: from which states each state can be entered |
| `PacketStates.TerminalExact` | src/grace_control/core/state_machine.py:106-111 | terminal are exactly the states that can at most be cancelled |
| `Database.ReclaimMore` | src/grace_control/core/lease_manager.py:76-108 | reclaiming leases in two goes is reclaiming them once, so the order of rows in a pass does not matter |
| `Database.ReclaimByRow` | src/grace_control/core/lease_manager.py:76-108 | a reclaim row by row: which packets, leases and workers change, and to what |
| `LeaseManager.ReclaimOne` | src/grace_control/core/lease_manager.py:76-108 | one expired lease: a RUNNING packet returns to READY, the worker is freed, the lease goes, nothing else changes |
| `LeaseManager.CheckExpiredLeases` | src/grace_control/core/lease_manager.py:61-108 | the pass reclaims exactly the leases before the cutoff and counts them |
| `StuckScanner.ScanStuckRunning` | src/grace_control/core/stuck_scanner.py:116-162 | reclaims exactly the RUNNING packets without a lease or with one before the cutoff, and counts them |
| `StuckScanner.RecoverIfStuck` | src/grace_control/core/stuck_scanner.py:132-161 | one packet: reclaimed exactly when it has no lease or an expired one |
| `StuckScanner.ScanStaleWorkers` | src/grace_control/core/stuck_scanner.py:165-195 | deactivates exactly the active workers whose heartbeat is too old, changes no other field, counts them |
| `StuckScanner.ScanWorkerPacketMismatches` | src/grace_control/core/stuck_scanner.py:198-232 | clears the packet of exactly the active workers that name a packet not leased to them, counts them |
| `StuckScanner.ClearIfMismatched` | src/grace_control/core/stuck_scanner.py:212-231 | one worker: cleared exactly when no lease joins it to its packet |
| `StuckScanner.ScanOrphanLeases` | src/grace_control/core/stuck_scanner.py:235-274 | removes exactly the leases of existing packets that are not RUNNING and frees their workers, counts them |
| `StuckScanner.CleanIfOrphan` | src/grace_control/core/stuck_scanner.py:249-273 | one lease: removed exactly when its packet exists and is not RUNNING |
| `StuckScanner.RunStuckScan` | src/grace_control/core/stuck_scanner.py:73-91 | the sweep is the four passes in order, and its counts are the rows each pass acted on |
| `StuckScanner.RecoverStuckByRow` | src/grace_control/core/stuck_scanner.py:132-161 | the first pass reclaims exactly the RUNNING packets whose lease is missing or past the cutoff, row by row |
| `StuckScanner.DeactivateStaleByRow` | src/grace_control/core/stuck_scanner.py:174-179 | the second pass changes exactly the statuses of active workers with a known heartbeat before the threshold |
| `StuckScanner.ClearMismatchesByRow` | src/grace_control/core/stuck_scanner.py:206-221 | the third pass clears exactly the active workers whose packet has no lease of theirs |
| `StuckScanner.CleanOrphansByRow` | src/grace_control/core/stuck_scanner.py:247-273 | the last pass reclaims exactly the leases of packets that exist in another state than RUNNING |
| `Stabilisation.ReportByRows` | src/grace_control/core/stuck_scanner.py:73-91 | three numbers of the report, read off the rows before and after: packets sent back, workers made inactive, leases of idle packets dropped |
| `Stabilisation.MismatchesByRows` | src/grace_control/core/stuck_scanner.py:198-232 | the fourth number: the active workers naming a packet that is not leased to them once the stuck packets are recovered |
| `Stabilisation.SweepIsSwept` | src/grace_control/core/stuck_scanner.py:116-274 | one sweep in closed form: which packet, lease and worker rows change, and to what |
| `Stabilisation.SweepStabilises` | src/grace_control/core/stuck_scanner.py:73-91 | from any rows, after one sweep every RUNNING packet has a lease not past the cutoff, every lease of an existing packet belongs to a RUNNING one, every active worker is fresh and leased to its packet |
| `Stabilisation.ConsistentIffFixed` | src/grace_control/core/stuck_scanner.py:73-91 | the rows a sweep leaves unchanged are exactly the consistent ones |
| `Stabilisation.SweepIdempotent` | src/grace_control/core/stuck_scanner.py:73-91 | a second sweep at the same time changes nothing |
| `Stabilisation.SweepOnlyReclaims` | src/grace_control/core/stuck_scanner.py:116-274 | a sweep changes packets only from RUNNING to READY, and never adds or edits a lease |
| `Stabilisation.ClaimKeepsConsistent` | src/grace_control/services/packet_service.py:254-298 | a claim keeps consistent rows consistent exactly when the new lease is not already past the cutoff |
| `Stabilisation.ExpiryCommutesWithRecovery` | src/grace_control/core/stuck_scanner.py:116-162 | expiry and the recovery of stuck packets give the same rows in either order |
| `Stabilisation.ExpiryCommutesWithDeactivation` | src/grace_control/core/stuck_scanner.py:165-195 | expiry and the deactivation of stale workers give the same rows in either order |
| `Stabilisation.ExpiryCommutesWithMismatches` | src/grace_control/core/stuck_scanner.py:198-232 | expiry and the clearing of mismatched workers give the same rows in either order |
| `Stabilisation.ExpiryCommutesWithOrphans` | src/grace_control/core/stuck_scanner.py:235-274 | expiry and the removal of orphan leases give the same rows in either order |
| `Stabilisation.ExpiryAnywhere` | src/grace_control/core/stuck_scanner.py:73-91 | expiry before, after or between the passes of a sweep gives the same rows in the end |
| `Stabilisation.LoopsCommute` | src/grace_control/core/lease_manager.py:61-112 | the two background loops give the same packets, leases and workers in either order, for any rows and any cutoffs |
| `Stabilisation.BothLoopsEffect` | src/grace_control/core/lease_manager.py:61-112 | the rows after both loops, in either order, in closed form over the original rows |
| `Stabilisation.BothLoopsStabilise` | src/grace_control/core/stuck_scanner.py:116-274 | after both loops the rows are consistent and no lease is past the expiry cutoff |
| `PacketOperations.Transition` | src/grace_control/core/state_machine.py:176-193 | moves the packet exactly when the table allows, otherwise reports what is wrong and changes nothing |
| `PacketOperations.MarkReady` | src/grace_control/core/packet_operations.py:62-66 | succeeds exactly from DRAFT, REJECTED, BLOCKED and BLOCKED_RECOVERABLE |
| `PacketOperations.MarkRunning` | src/grace_control/core/packet_operations.py:78-83 | succeeds exactly from READY and counts one attempt |
| `PacketOperations.MarkAccepted` | src/grace_control/core/packet_operations.py:95-99 | succeeds exactly from RUNNING |
| `PacketOperations.MarkRejected` | src/grace_control/core/packet_operations.py:111-115 | succeeds exactly from RUNNING |
| `PacketOperations.MarkFailed` | src/grace_control/core/packet_operations.py:127-131 | succeeds exactly from RUNNING and REJECTED |
| `PacketOperations.RetryPacket` | src/grace_control/core/packet_operations.py:143-158 | succeeds exactly from REJECTED with attempts left; each failure has its own outcome |
| `PacketServices.Claim` | src/grace_control/services/packet_service.py:254-298 | succeeds exactly from READY, DRAFT, REJECTED and BLOCKED_RECOVERABLE without a live lease: RUNNING, one more attempt, the lease replaced, the worker busy |
| `PacketServices.ManualRetry` | src/grace_control/services/packet_control_service.py:17-39 | succeeds exactly from REJECTED and BLOCKED_RECOVERABLE: READY and one more attempt |
| `PacketServices.RerunStage` | src/grace_control/services/packet_control_service.py:187-212 | counts an attempt in every state, and READY where the table leads there from an allowed state |
| `RecoveryActions.ApplyCoderRetry` | src/grace_control/core/recovery_controller.py:367-414 | succeeds exactly from DRAFT, REJECTED, BLOCKED and BLOCKED_RECOVERABLE: READY, the same attempts, the limit raised just enough for one more, all other rows unchanged |
| `RecoveryActions.ApplyReturnToArchitect` | src/grace_control/core/recovery_controller.py:416-453 | BLOCKED_FINAL where the table allows, otherwise the state is kept without an error |
| `RecoveryActions.ApplyBlockFeature` | src/grace_control/core/recovery_controller.py:455-476 | BLOCKED_FINAL where the table allows, otherwise an error |
| `RecoveryActions.ApplyRetryMerge` | src/grace_control/core/recovery_controller.py:510-524 | ACCEPTED exactly from RUNNING, otherwise an error |
| `WaveGate.GateRound` | src/grace_control/core/wave_gate.py:41-98 | one pair of waves: the new rows, and drafts left plus packets gated are the drafts before |
| `WaveGate.OpenDrafts` | src/grace_control/core/wave_gate.py:87-93 | makes READY exactly the drafts of the wave and counts them |
| `WaveGate.GateOneFeature` | src/grace_control/core/wave_gate.py:39-98 | all rounds of one feature in order, with the same conservation of drafts |
| `WaveGate.GateFeatureIsGated` | src/grace_control/core/wave_gate.py:41-98 | the rounds of a feature in closed form: drafts opened, statuses and reason of every wave, all read off the rows before |
| `WaveGate.GateAllIsGated` | src/grace_control/core/wave_gate.py:39-98 | the gate's whole effect: exactly the drafts that follow a complete wave become READY; independent of the order of features |
| `WaveGate.CheckWaveGates` | src/grace_control/core/wave_gate.py:30-103 | the gate has exactly that effect, and the count conserves drafts |
| `WaveGate.GateByRow` | src/grace_control/core/wave_gate.py:45-93 | row by row: READY become exactly the drafts of a wave that follows a wave with packets, all of them MERGED or CANCELLED |
| `WaveGate.StatusByRow` | src/grace_control/core/wave_gate.py:73-98 | the status of every wave afterwards, read off the packets before |
| `WaveGate.ReasonByRow` | src/grace_control/core/wave_gate.py:73-83 | the degraded reason names the last wave that needs help and is not finished, with its number of packets in need |
| `WaveGate.DegradedExact` | src/grace_control/core/wave_gate.py:59-65 | degraded is every state that is neither on the way nor done |
| `FeatureGate.CheckFeatureCompletion` | src/grace_control/core/feature_gate.py:15-32 | completes and counts exactly the features that are not completed, have packets, and have all of them MERGED or CANCELLED |
| `FeatureGate.CompleteIfDone` | src/grace_control/core/feature_gate.py:20-30 | one feature: completed exactly when it has packets and all are done |
| `SystemRuns.StepEffect` | src/grace_control/core/packet_operations.py:62-158 | every modelled step, any other move along the table included, treats each packet row in one of the listed ways |
| `SystemRuns.StepFollowsTable` | src/grace_control/core/state_machine.py:66-95 | along every run the states of a packet follow the table and the reclaim edge; a claim may make two table moves at once |
| `SystemRuns.StepKeepsWaves` | src/grace_control/core/wave_gate.py:39-98 | every modelled step keeps the waves of every feature and their order |
| `SystemSteps.Perform` | src/grace_control/core/packet_operations.py:62-158 | every step of a run is what its service does to the rows |
| `AttemptBounds.LifeLength` | src/grace_control/core/state_machine.py:66-111 | in every run of the system a packet changes state at most 4 times per attempt plus its reserve |
| `AttemptBounds.LifeLengthFromDraft` | src/grace_control/core/state_machine.py:66-111 | from DRAFT at most 2 + 4k changes with k attempts |
| `AttemptBounds.StepWithinLimit` | src/grace_control/core/packet_operations.py:62-158 | one step keeps a packet within its limit exactly when it is a checked one or finds enough attempts left; a reclaim raises the limit by one |
| `AttemptBounds.AttemptBound` | src/grace_control/core/packet_operations.py:62-158 | in every run a fresh draft spends at most its limit plus the reclaims plus what the unchecked steps need, with one to spare while READY |
| `AttemptBounds.AttemptLimitExact` | src/grace_control/core/packet_operations.py:53-158 | in every state of a run a fresh draft is within its limit plus the reclaims so far, exactly when every unchecked step finds enough attempts left |
| `AttemptBounds.AttemptBoundAsDocumented` | src/grace_control/core/packet_operations.py:53-66 | without unchecked steps, as with mark_ready on drafts only, the bound is the limit plus the reclaims |
| `AttemptBounds.LimitBrokenByMarkReady` | src/grace_control/core/packet_operations.py:62-66 | a run without reclaims in which a packet with limit 1 is started twice |
| `WaveSafety.ReleasedAfterEarlierWaves` | src/grace_control/core/wave_gate.py:66-93 | a draft the gate releases has all packets of all earlier waves MERGED or CANCELLED |
| `WaveSafety.OnlyByHandOrGate` | src/grace_control/core/wave_gate.py:85-93 | a draft leaves DRAFT only by one of the listed steps by hand or because the gate releases it |
| `WaveSafety.StepKeepsTurnExactly` | src/grace_control/core/wave_gate.py:39-98 | for every step and feature: the waves stay in turn exactly when a draft taken out of DRAFT by hand has its earlier waves done |
| `WaveSafety.WaveSafetyOverRuns` | src/grace_control/core/wave_gate.py:39-98 | as long as the steps of a run respect this, once a packet of a wave has left DRAFT all earlier waves are MERGED or CANCELLED |
| `WaveSafety.WaveSafetyExact` | src/grace_control/core/wave_gate.py:39-98 | over whole runs the waves of a feature take their turns in every state exactly when every step respects this |
| `WaveSafety.TurnBrokenByHand` | src/grace_control/core/packet_operations.py:62-66 | rows with two waves on which mark_ready, the coder retry and a claim each start the second wave out of turn |
| `WaveSafety.StepKeepsCompleted` | src/grace_control/core/feature_gate.py:19-30 | every modelled step keeps: the packets of COMPLETED features are MERGED or CANCELLED |
| `WaveSafety.CompletedOverRuns` | src/grace_control/core/feature_gate.py:19-30 | and so in every state of every run |
| `WaveSafety.DoneForGood` | src/grace_control/core/state_machine.py:92-94 | in every run MERGED and CANCELLED are never left |
| `EndToEnd.MaterializedInTurn` | src/grace_control/services/planning_approval_service.py:269-314 | an approved plan starts with its waves in turn, whatever other features do |
| `EndToEnd.WavesBehind` | src/grace_control/core/wave_gate.py:39-98 | in every run that respects the turn of the plan's feature a packet that has left DRAFT has all packets of earlier waves behind it |
| `EndToEnd.DependenciesFirst` | src/grace_control/core/dag_validator.py:121-134 | for a valid strict plan, in every such run all transitive dependencies of a RUNNING packet are MERGED or CANCELLED |
| `EndToEnd.NoOverlapAtOnce` | src/grace_control/core/dag_validator.py:222-250 | and two packets RUNNING at once share no scope entry except package markers |
| `EndToEnd.DependentPlanExists` | src/grace_control/services/planning_approval_service.py:269-314 | the hypotheses of the two theorems above are met by a plan with a dependency between two waves and rows that hold it |
| `RecoveryPolicies.ClassExact` | src/grace_control/core/feature_recovery.py:127-204 | every class of failure, read off the fields of the signal |
| `RecoveryPolicies.ActionTable` | src/grace_control/core/feature_recovery.py:207-331 | exactly when each of the eight actions is chosen, in terms of the fields and the limits |
| `RecoveryPolicies.SpentExact` | src/grace_control/core/feature_recovery.py:207-331 | the flag for spent attempts and the class of the decision, by action |
| `RecoveryPolicies.BlockerPhrases` | src/grace_control/core/feature_recovery.py:127-137 | a blocker is exactly a merge error with a conflict or a dirty target, or a reason with one of eleven phrases, in any letter case |
| `RecoveryPolicies.CoderActionExact` | src/grace_control/core/feature_recovery.py:246-331 | which signals lead to a coder action: a fault of the coder below the limit, or a failure that no gate and no reason explains |
| `RecoveryController.FailuresSeen` | src/grace_control/core/recovery_controller.py:152-154 | the signal counts the failures of the newest ten runs, never more than ten |
| `RecoveryController.CoderLimitExact` | src/grace_control/core/recovery_controller.py:143-296 | for a history of any length with as many failures as the limit: no coder is sent again exactly when the failure is not retried without limit and, if the coder is at fault, the newest ten runs alone reach the limit |
| `RecoveryController.LimitAboveWindowNeverBinds` | src/grace_control/core/recovery_controller.py:152-154 | a limit above ten changes no decision, whatever the history |
| `RecoveryController.PassedVerifierRetriesForever` | src/grace_control/core/feature_recovery.py:152-153 | for every length there is a history of failures only that is retried by the same coder, under every policy |
| `RecoveryController.ReworkRetriesForever` | src/grace_control/core/feature_recovery.py:246-275 | for every length there is a history of failures of the coder that goes back to a coder, under every limit above ten |
| `RecoveryController.BuildSignal` | src/grace_control/core/recovery_controller.py:143-296 | fails exactly without runs; otherwise the signal is that of the newest ten runs: newest reports, carried returns, counters, first non-empty reason |
| `RecoveryController.SignalByFields` | src/grace_control/core/recovery_controller.py:266-296 | every field of the signal in terms of the runs: the reason is the first of six texts that is not empty, in their order |
| `RecoveryController.ReportsThatCount` | src/grace_control/core/recovery_controller.py:200-255 | which reports the signal reads, by position in the window: the newest return while it is in force, else the newest report; the verifier's return only without one of the reviewer |
| `RecoveryController.OwnReasonCounts` | src/grace_control/core/recovery_controller.py:271-282 | while no return of the reviewer is in force the reason is the newest run's own, if it gives one |
| `RecoveryController.BlockingReasonBlocks` | src/grace_control/core/feature_recovery.py:133-137 | then a reason with a blocking phrase blocks the feature, for every history and policy |
| `RecoveryController.MergeConflictBlocks` | src/grace_control/core/feature_recovery.py:128-131 | a newest run with a merge conflict blocks the feature, whatever else the history holds |
| `RecoveryController.RunsByField` | src/grace_control/core/recovery_controller.py:223-246 | which runs count as failures of the coder and with which executor a run is listed |
| `RecoveryController.NewestReports` | src/grace_control/core/recovery_controller.py:179-222 | the loop finds the newest non-empty report and the newest return to the architect, whatever non-dictionaries are in between |
| `RecoveryController.CountHistory` | src/grace_control/core/recovery_controller.py:223-246 | each counter is the number of runs in the window with its property, and every run has its executor listed |
| `RecoveryController.CarriedIsReturn` | src/grace_control/core/recovery_controller.py:205-216 | a report is carried exactly when some run in the window holds a return, and it is one |
| `RecoveryController.ReviewerReturnSticks` | src/grace_control/core/recovery_controller.py:248-253 | for every history and policy a reviewer's return not superseded by a newest PASS leads to an architect action, and which one is determined |
| `RecoveryController.ReviewerReturnExact` | src/grace_control/core/recovery_controller.py:248-255 | when a reviewer's return in the window leads to an architect action, as an exact condition that covers a superseding PASS too |
| `RecoveryController.VerifierReturnExact` | src/grace_control/core/recovery_controller.py:252-255 | when a verifier's unresolved return leads to an architect action, as an exact condition |
| `RecoveryController.VerifierReturnOverruled` | src/grace_control/core/recovery_controller.py:252-255 | a history with an unresolved verifier return that goes back to the coder |
| `RecoveryController.ApplyDecision` | src/grace_control/core/recovery_controller.py:345-362 | what each action does to its packet, in literal states, and to no other; a missing packet is skipped, a forbidden move is an error except on a return to the architect |
| `RecoveryController.UnresolvedReturnNeverReruns` | src/grace_control/core/recovery_controller.py:143-296 | from history to packet row: under an unresolved reviewer return the packet becomes BLOCKED_FINAL or keeps its row, never READY, and no attempt is granted |
| `CanonBlocks.CleanIffNested` | src/grace_control/core/grace_canon.py:156-183 | the stack discipline accepts exactly the words of the nested-block grammar |
| `CanonBlocks.ReportIffClean` | src/grace_control/core/grace_canon.py:159-183 | from any line and any stack, nothing is reported exactly when the remaining markers close the stack cleanly |
| `CanonBlocks.NoViolationIffNested` | src/grace_control/core/grace_canon.py:156-183 | no violation exactly when the markers are well nested with matching names |
| `CanonBlocks.ReportExact` | src/grace_control/core/grace_canon.py:159-183 | the report without any stack: in order, one violation for every end marker without a mate, every pair of mates with different names and every block left open, with lines and names, and nothing else |
| `CanonBlocks.MarkerByText` | src/grace_control/core/grace_canon.py:160-165 | which lines are markers and with which name: the mark, then white space perhaps, then the name as a whole word |
| `CanonBlocks.TwoBlocksMismatch` | src/grace_control/core/grace_canon.py:171-177 | two lines with different names give the one mismatch with both names and lines |
| `CanonBlocks.CloseBlock` | src/grace_control/core/grace_canon.py:166-177 | one end marker: the innermost block goes whatever its name; reported without a block or with another name |
| `CanonBlocks.ReportUnclosed` | src/grace_control/core/grace_canon.py:179-183 | one violation for every open block, outermost first |
| `CanonBlocks.CheckSemanticBlocks` | src/grace_control/core/grace_canon.py:156-183 | raises exactly when some stripped line is a mark followed only by white space up to its end or the next mark; otherwise the report, empty exactly for nested markers |
| `CanonBlocks.NamelessByText` | src/grace_control/core/grace_canon.py:160-165 | the name of a marker is missing exactly for such lines |
| `CanonBlocks.BareMarkRaises` | src/grace_control/core/grace_canon.py:161-162 | a file with a bare start mark is one that raises |
| `ScopeEnforcer.DedupeOrdered` | src/grace_control/runtime/runtime_scope_enforcer.py:153-160 | the same items, each once, in the order of first mention |
| `ScopeEnforcer.InvalidPaths` | src/grace_control/runtime/runtime_scope_enforcer.py:111-124 | exactly the absolute, climbing and drive paths, in their order |
| `ScopeEnforcer.NormalizeScopeList` | src/grace_control/runtime/runtime_scope_enforcer.py:127-133 | exactly the normal forms of the entries, each once |
| `ScopeEnforcer.Enforce` | src/grace_control/runtime/runtime_scope_enforcer.py:30-108 | the failure code depends on files and entries only as sets; after the path checks every kept file is allowed or reported, never both, and the reported lists are exact |
| `ScopeEnforcer.VerdictIsDue` | src/grace_control/runtime/runtime_scope_enforcer.py:30-108 | when each failure code is due, by its own condition: a bad scope first, then a bad path, then the frozen scope, then the allowed scope |
| `ScopeEnforcer.CoversByKind` | src/grace_control/runtime/runtime_scope_enforcer.py:136-150 | an entry with a pattern covers by the pattern, any other as the file itself or a directory above it |
| `ScopeEnforcer.InvalidExact` | src/grace_control/runtime/runtime_scope_enforcer.py:111-124 | absolute, climbing at the start or inside, or with a drive letter; backslashes count as slashes |
| `ScopeEnforcer.ExcludedExact` | src/grace_control/runtime/runtime_scope_enforcer.py:23-52 | files below a directory with one of thirteen names are not looked at |
| `Paths.NormalizedExact` | src/grace_control/runtime/runtime_scope_enforcer.py:127-133 | the normal form has exactly the segments that are neither empty nor a dot, in order, and is a dot if there are none |
| `ScopeEnforcer.JudgeByScope` | src/grace_control/runtime/runtime_scope_enforcer.py:78-108 | the scope test proper, with exact lists |
| `ScopeEnforcer.MoreAllowedKeepsOk` | src/grace_control/runtime/runtime_scope_enforcer.py:78-108 | more valid allowed entries never turn an accepted change into a rejected one |
| `ScopeEnforcer.MoreFrozenKeepsRejection` | src/grace_control/runtime/runtime_scope_enforcer.py:78-108 | more valid frozen entries never turn a rejected change into an accepted one |
| `ScopeEnforcer.CoversBySegments` | src/grace_control/runtime/runtime_scope_enforcer.py:127-150 | for an entry without patterns the string test holds exactly when the entry's real segments begin the file's segments |
| `ScopeGuard.ValidateChangedFiles` | src/grace_control/core/scope_guard.py:58-97 | exactly one violation for every file with an objection, in the order of the files; each kind by its own condition, the frozen scope before the allowed scope |
| `ScopeGuard.GuardByPattern` | src/grace_control/core/scope_guard.py:156-169 | a pattern matches literally, as a directory if it ends in a slash, or as a glob if it has a star |
| `ScopeGuard.EnforcerExtendsGuard` | src/grace_control/core/scope_guard.py:156-169 | for a canonical entry without patterns the enforcer covers exactly what the guard matches with or without a trailing slash |
| `ScopeGuard.GuardAgreesWithEnforcer` | src/grace_control/core/scope_guard.py:58-97 | with plain entries, what the guard passes the enforcer does not call out of scope, and what the guard calls frozen the enforcer rejects |
| `StageRounds.StageTable.SetupStageRun` | src/grace_control/core/stage_instrumentation.py:125-182 | the newest pending run is reused, otherwise a running run with the next round is added |
| `StageRounds.StageTable.CreateForReturn` | src/grace_control/core/stage_instrumentation.py:396-433 | adds one pending run with the next round behind the others, unless the packet is unknown |
| `StageRounds.StageTable.LoopRound` | src/grace_control/core/stage_instrumentation.py:149-154 | one more than the largest round of the stage so far, or 1 for a stage without runs, read off the rows |
| `StageRounds.EventKeepsGapFree` | src/grace_control/core/stage_instrumentation.py:125-182 | every event keeps all stages of all packets numbered 1 to n in creation order |
| `StageRounds.RoundsAreGapFree` | src/grace_control/core/stage_instrumentation.py:396-433 | so after any sequence of starts, returns and finishes taken one at a time |
| `StageRounds.StartConsumesOnePending` | src/grace_control/core/stage_instrumentation.py:127-147 | a start uses up exactly one pending run and adds no row if there is one, and adds exactly one row otherwise |
| `StageRounds.EventsAddRounds` | src/grace_control/core/stage_instrumentation.py:125-182 | a sequence of events gives a stage more rounds exactly when one of them adds a row for it: a return, or a start that finds no pending run |
| `StageRounds.LateInsertExact` | src/grace_control/core/stage_instrumentation.py:149-182 | with any events between reading the round and inserting the row, the numbering stays gap-free exactly when none of them adds a row for the same stage |
| `StageRounds.OverlappingStarts` | src/grace_control/core/stage_instrumentation.py:149-182 | two first starts that overlap give the rounds 1 and 1 |

## Left out

- `PlanValidator.ValidateDag`: the wording of errors is dropped and the list of name errors is stated only as empty or not; ids and titles are strings, an absent scope is the empty list, and waves are integers or absent.
- `CycleFinder.Search.Dfs`: the recursion limit of the interpreter is not modelled.
- `CanonBlocks.CheckSemanticBlocks`: message wording and severity are dropped.
- `RecoveryController.BuildSignal`: the source's one loop is written as two over the same runs, one for counters and one per kind of report; report fields are texts; the acceptance report, executor hints and profile are dropped.
- `RecoveryPolicies.CoderActionExact`: lower-casing changes ASCII letters only; sub-branches of the classification that give the same class are one branch.
- `StuckScanner.RunStuckScan`: each pass is handed its cutoff instead of reading the clock, and a pass that raises and is caught is not modelled.
- Loop bodies that the source writes inline (`Meet`, `Leave`, `ReclaimOne`, `RecoverIfStuck`, `CompleteIfDone`, `CloseBlock` and the like) are methods of their own.
- Rework packets: every packet of a wave counts, as when there are none.
- `PacketServices.Claim`: fencing tokens, parallel leases and the returned object are dropped.
- Release of packets with fencing, parallel and merge leases: a step may move any packet along the table, and a step may replace all lease and worker rows.
- Creation and deletion of packets while a run is under way: the packets of a run stay the same.
- The approval service: its result is a predicate on the rows, with every packet given a wave index.
- Database rows with state strings outside the enumeration, and the BLOCKED alias; BLOCKED is what the table gives it.
- The scanner's diagnostic passes for blocked packets, failed plans and features without progress, and all events and logs.
- Glob matching and the test for letters: function parameters, assumed nothing about.
- `check_scope`: the branches of `validate_changed_files` again, returning texts.
- Recovery actions that the decision never chooses, and the texts stored in a packet's specification.
- Fields of a stage run other than packet, stage, status and round; creation time is the order of rows.
- Health checks, except that the reclaim of one packet is a step of the runs; plan compilation, subprocesses, the web interface, settings and everything else outside the files named above.
