# Resolve store: a verified model

Resolve coordinates work among workers that may crash, stall or act twice. Its store keeps commitments and their
claims, execution guards with their scope locks, the boot generation and an append-only event log in one SQLite
database, and promises that those tables never disagree: an action that may have run stays fenced until its outcome is
known, a stale worker can do nothing, and a restart loses only what must be lost. This project models that store, the
domain aggregate in front of it and the planning code behind it, and proves those promises.

## How the model is laid out

* `Domain` and `Aggregates`: identifiers, states and their topology, events, errors, the commitment aggregate as a class
  with its calls.
* `Database`: the five tables, the boot generation and the log as one value `Db`, and the invariant `Inv` over them.
* `Mutations`: what each committed change needs (`May...`) and does (`...Effect`). `Preservation` and `Cascade` prove that
  each keeps `Inv`; `Runs` lifts this to sequences of attempted mutations with any arguments, where an attempt that is not
  allowed changes nothing, as a transaction that is rolled back.
* `Safety`, `Composites`, `Topology`, `Exclusion`, `Leases`, `Outcomes`, `Replay`, `ClaimLog`, `Progress`: theorems over whole
  runs. `Startup`: the checks on reopening and the recovery.
* `Acyclic`, `Planning`, `SiblingOrder`: the depth-first cycle check, structural proposals and their candidate graph.
* `Store`: the class `SqliteStore`. Its fields are the tables, each public operation is a method with the checks in the
  order of the code, the loops of the code and a rollback. Each public operation that writes returns, besides its result,
  the ghost sequence `ms` of mutations it committed, and ensures `Commits(before, ms, after)`: every mutation was allowed in
  turn, its inserts were sound, and together they lead from the old tables to the new. By `CommitsConcat` a sequence of
  calls is then one run, so every theorem about runs is a theorem about sequences of calls. `InsertCommitment` ensures
  `Commits` when its draft is sound, and in any case that its one mutation was allowed and leads to the new tables;
  `RecoverWithoutAction` also runs on tables that lack barrier release and ensures `Commits` where the invariant holds.
* `Scenarios`: concrete runs from the empty store; every store state that a counterexample names is the end of one of
  them, or comes after one or two inserts into a store of goals.
* `ScopeSets`, `Backfill`: canonical scope lists, and the migration that introduced the epoch high-water mark.
* `Lifecycle`, `Restoring`: the aggregate against the store. `Gaps`: concrete cases the code lets through.
* `TableFacts`: what the invariant says about single tables, as the loops of the store need it. `Replies`: the answer to each
  request, as the first check that fails, and that none fails exactly when the mutation is allowed. `Changes`: what each
  operation leaves in every table, row by row, and `Errors`: when each error is the answer; both name only the tables, not
  the functions that compute the effect or the answer.

`requires Inv(Snapshot())` on a store method is the class invariant: the empty store has it, every method keeps it, and the
one exception, an insert that skips the discipline below, is characterised exactly. A column that may be NULL is an
`Option`, except the epoch high-water mark, where 0 stands for NULL.

## What the code does that its callers should know

* **Reopening.** The lock check asks every guard, ended or not, to own as many locks as it has scopes, and rejects a lock of
  an ended guard. So a store in which any guard was ever resolved or invalidated cannot be reopened
  (`AcceptedIffNoGuardEnded`, `EndedGuardNeverReopens`, `StuckIsRefused`), although the recovery behind the check is exact
  (`RestartIsExact`) and the check it seems to intend would always pass (`IntendedCheckAccepts`). The theorems about runs
  treat a restart as possible in any state, so they hold with either check.
* **Inserts.** `insert_commitment` accepts a commitment that requires itself, one whose parent serves another goal, and one
  announced by an event other than `CommitmentCreated`. The first two break the invariant and the third the log
  (`InsertKeepsInvIff`, `InsertIsReplayedIff`, and the concrete cases in `Gaps`). `SoundRun` and `InsertsAnnounced` are the
  discipline that callers must keep.
* **Activation.** `Commitment::activate` from ordinary waiting leaves the claim in place; this is the only accepted call
  after which claim and state disagree, and the store refuses the result (`AgreementKeptIff`, `CallIsStorableIff`).
* **Sibling order.** Children of a decomposition are inserted in list order under immediate foreign keys, so a child that
  requires a later sibling is refused although the graph check accepts it (`LaterSiblingIsRefused`). Some order always works
  (`SomeOrderIsAccepted`).
* **Invalidation.** The documentation speaks of unadmitted guards of the current claim; the code checks the caller's claim
  but not the guard's epoch, so the holder of a later claim may give up a guard of an earlier one (`OlderGuardIsInvalidated`).
  An accepted invalidation concerns a guard of the caller's own claim exactly if no claim was opened on the commitment since
  the guard was issued (`InvalidationIsCurrentIff`).
* **Claim events.** The worker and epoch of a `CommitmentClaimed` event come from the caller and are not compared with the
  claim (`ForgedClaimIsAccepted`). The log names the live claims exactly as long as every event that opens a claim names its
  lease (`OpeningIsToldIff`), and then also tells every epoch opened (`LiveClaimsAreTold`, `LoggedEpochsAreOpenings`).

## Model

| member | source | states |
|---|---|---|
| `Domain.ValidateTransition` | crates/resolve-core/src/state_machine.rs:12-64 | no error exactly when the target state can be entered from the current one, by a table of where each state is entered from; the terminal error exactly when the current state is completed, cancelled or abandoned |
| `Topology.LegalIsEntered` | crates/resolve-core/src/state_machine.rs:12-64 | the topology read from each state agrees with the one read from where each state is entered |
| `Topology.StatesAreEntered` | crates/resolve-core/src/state_machine.rs:12-64 | in every step of any kind a row enters a state only from the states listed for it: completed only from completion proposed, or as an open composite whose terminal is completed; completion proposed only from working; claimed only from ready; and so on for all ten |
| `Topology.RunStatesAreEntered` | crates/resolve-core/src/state_machine.rs:12-64 | the same for every step of every sound run from the empty store |
| `Topology.ClaimsByState` | crates/resolve-store/src/sqlite.rs:3493-3595 | on invariant states a claim exists exactly in claimed, working and completion-proposed work and in work that waits on anything but an uncertain action |
| `Topology.PersistableIsPersisted` | crates/resolve-store/src/sqlite.rs:530-664 | every edge listed as persistable is taken by the store from every invariant state in which nothing stands in the way, with the claim kept, dropped or opened as the next state needs |
| `Topology.PersistedIsPersistable` | crates/resolve-store/src/sqlite.rs:626 | and no candidate is accepted along any other edge |
| `Progress.CompletionWasProposed` | crates/resolve-store/src/sqlite.rs:3597-3626 | whenever a run lets generic persistence complete a commitment, its log holds a claim on it, a later start, a still later completion proposal, and no other claim since |
| `Aggregates.AgreementKeptIff` | crates/resolve-core/src/domain.rs:507-608 | every accepted call keeps claim and state in agreement, except activation of ordinarily waiting work, which always breaks it |
| `Aggregates.HistoryKeepsAgreement` | crates/resolve-core/src/domain.rs:507-635 | over any history of calls that never strands a claim, claim and state agree, the epoch never goes back, and a terminal state is final |
| `Aggregates.ActivateStrandsClaim` | crates/resolve-core/src/domain.rs:507-509 | a concrete waiting commitment that becomes ready while still claimed |
| `Aggregates.CallMovesForward` | crates/resolve-core/src/domain.rs:507-635 | an accepted call takes an edge of the topology, out of a state that is not terminal |
| `Aggregates.Commitment.Restore` | crates/resolve-core/src/domain.rs:398-466 | rehydrates a snapshot exactly when its claim is the latest epoch, fits its state, and its action fits its state; `Restoring.RestorableIffHandedOut` says which snapshots these are |
| `Aggregates.Commitment.DoActivate` | crates/resolve-core/src/domain.rs:507-509 | accepted exactly from proposed, waiting or recovery, and then only the state changes, to ready; otherwise no change |
| `Aggregates.Commitment.DoClaimFor` | crates/resolve-core/src/domain.rs:511-537 | accepted exactly for unclaimed ready work with epoch space left, and then claimed by the worker at exactly the next epoch; claimed and exhausted work are told apart |
| `Aggregates.Commitment.DoStart` | crates/resolve-core/src/domain.rs:539-542 | accepted exactly for the holder of the claim, from claimed or waiting, and then only the state changes |
| `Aggregates.Commitment.DoWait` | crates/resolve-core/src/domain.rs:544-557 | accepted exactly for the holder, from working or recovery; waits with the claim kept, or dropped when the reason is an uncertain action |
| `Aggregates.Commitment.DoResume` | crates/resolve-core/src/domain.rs:559-580 | never leaves an uncertain action, whose reference the refusal names; for the holder, resuming to ready drops the claim, to working keeps it |
| `Aggregates.Commitment.DoProposeCompletion` | crates/resolve-core/src/domain.rs:582-589 | accepted exactly for the holder, from working, and then only the state changes |
| `Aggregates.Commitment.DoComplete` | crates/resolve-core/src/domain.rs:591-596 | accepted exactly for the holder, from completion proposed; completes and drops the claim |
| `Aggregates.Commitment.DoCancel` | crates/resolve-core/src/domain.rs:598-602 | cancels from any state that is not terminal and drops the claim |
| `Aggregates.Commitment.DoAbandon` | crates/resolve-core/src/domain.rs:604-608 | abandons from any state that is not terminal and drops the claim |
| `Lifecycle.LoadedRestores` | crates/resolve-store/src/sqlite.rs:2440-2612 | whatever the invariant allows in the tables restores as an aggregate |
| `Lifecycle.PersistedLoadsBack` | crates/resolve-store/src/sqlite.rs:530-664 | round trip: what a permitted persist wrote is what the next load returns, cascades included |
| `Lifecycle.InsertedLoadsBack` | crates/resolve-store/src/sqlite.rs:505-528 | round trip: an inserted commitment loads back as it was |
| `Lifecycle.CallIsStorableIff` | crates/resolve-store/src/sqlite.rs:530-664 | an accepted domain call on a loaded commitment can be persisted if and only if nothing is outstanding, versions and columns suffice, no barrier forbids it and it strands no claim |
| `Restoring.RestorableIffHandedOut` | crates/resolve-core/src/domain.rs:398-466 | within its columns, a snapshot restores if and only if some store that keeps the invariant hands it out on a load; for each one such a store is built |
| `Acyclic.ValidateAcyclic` | crates/resolve-core/src/planning.rs:132-142 | accepts exactly the graphs in which no node reaches itself by a non-empty path, edges to unknown nodes included |
| `Acyclic.Colouring.Visit` | crates/resolve-core/src/planning.rs:144-162 | a successful visit leaves its node black and the grey nodes as they were; a failed one proves a cycle; it terminates on the uncoloured nodes |
| `Acyclic.BlackenKeepsCycleFree` | crates/resolve-core/src/planning.rs:144-162 | turning a node black keeps the black nodes closed and free of cycles |
| `Acyclic.GreyIsCycle` | crates/resolve-core/src/planning.rs:149-153 | meeting a grey node again proves that the graph has a cycle |
| `Acyclic.FreshNodeKeepsAcyclic` | crates/resolve-core/src/planning.rs:132-142 | a new node nothing points at closes no cycle unless it points at itself |
| `Planning.ValidateProposalShape` | crates/resolve-core/src/planning.rs:77-129 | accepts exactly the proposals whose children are distinct, include the terminal and repeat no prerequisite, and whose texts are not blank |
| `Planning.ShapeByCounts` | crates/resolve-core/src/planning.rs:77-129 | the same rules by counting: as many distinct names as children with the terminal among them and not the target, as many distinct requirements as entries, and texts that hold something other than white space |
| `Planning.HasDuplicatePrerequisites` | crates/resolve-core/src/planning.rs:175-180 | the prefix search finds a duplicate exactly when the list is not distinct |
| `Planning.CandidateIsReload` | crates/resolve-store/src/sqlite.rs:3658-3678 | the candidate graph validated before a decomposition writes is the graph a reload builds after it |
| `Planning.RequiringIsReload` | crates/resolve-store/src/sqlite.rs:3774-3787 | the same for one added prerequisite, whether or not it is a commitment |
| `Planning.WithChildrenRows` | crates/resolve-store/src/sqlite.rs:3680-3700 | storing the children adds exactly their rows and edges and leaves every other row alone; each stored child is proposed, unclaimed, unlinked, of the target's goal and parent, with the whole description, acceptance references and prerequisites given |
| `Planning.ChildRow` | crates/resolve-store/src/sqlite.rs:3680-3700 | the row of one child, field by field |
| `Planning.DecompositionCommits` | crates/resolve-store/src/sqlite.rs:3628-3755 | a permitted decomposition is a transaction of one sound insert per child in list order and the link of the parent |
| `Planning.ProposalCommits` | crates/resolve-store/src/sqlite.rs:667-803 | every accepted proposal is a transaction of allowed mutations with the stated effect |
| `Planning.ClearedTarget` | crates/resolve-store/src/sqlite.rs:3353-3388 | once overdue reservations are swept, a target without outstanding action has a live guard exactly if a reservation of it is still running |
| `SiblingOrder.LaterSiblingIsRefused` | crates/resolve-store/src/sqlite.rs:3658-3700 | at the end of a concrete run, two children in one order are refused by the foreign keys and by no other check; in the other order the proposal applies |
| `SiblingOrder.SomeOrderIsAccepted` | crates/resolve-store/src/sqlite.rs:3658-3700 | whenever the graph check accepts a decomposition, some order of its children is accepted as a whole |
| `SiblingOrder.SinkExists` | crates/resolve-core/src/planning.rs:132-162 | a walk inside a finite set of an acyclic graph ends at a node with no way on |
| `Preservation.InsertKeepsInvIff` | crates/resolve-store/src/sqlite.rs:505-528 | an accepted insert keeps the invariant if and only if it does not require itself and shares its parent's goal |
| `Preservation.DecomposeKeepsInv` | crates/resolve-store/src/sqlite.rs:3701-3755 | linking a parent to its terminal keeps every table consistent, barrier and acyclicity included |
| `Preservation.RequireKeepsInv` | crates/resolve-store/src/sqlite.rs:3757-3818 | so does adding a prerequisite |
| `Preservation.GiveUpKeepsInv` | crates/resolve-store/src/sqlite.rs:3820-3860 | so does abandonment |
| `Preservation.IssueKeepsInv` | crates/resolve-store/src/sqlite.rs:985-1046 | so does issuing a guard with its reservations |
| `Preservation.AdmitKeepsInv` | crates/resolve-store/src/sqlite.rs:1217-1295 | so does admission: action, guard and held locks change together |
| `Preservation.LapseKeepsInv` | crates/resolve-store/src/sqlite.rs:1600-1695 | so does the end of one claim with its guards |
| `Preservation.RecordKeepsInv` | crates/resolve-store/src/sqlite.rs:1908-2046 | so does recording an outcome, safe or uncertain |
| `Preservation.ReleaseKeepsInv` | crates/resolve-store/src/sqlite.rs:1788-1811 | so does releasing recovered work |
| `Preservation.RestartKeepsInv` | crates/resolve-store/src/sqlite.rs:2050-2385 | so does a restart |
| `Cascade.PersistKeepsInv` | crates/resolve-store/src/sqlite.rs:530-664 | so does generic persistence, whose completion releases every barrier above it |
| `Cascade.CascadeIsExact` | crates/resolve-store/src/sqlite.rs:3872-4011 | the cascade completes a commitment if and only if an unbroken path of unfinished composites leads up to it from the completed child |
| `Cascade.CascadeKeepsInv` | crates/resolve-store/src/sqlite.rs:3872-4011 | the cascade restores barrier release wherever the completion broke it |
| `Cascade.RungInTheMiddle` | crates/resolve-store/src/sqlite.rs:3880-4008 | in each round the worklist finds one composite ready to complete, or only ended ones after the last |
| `Cascade.ChainIsShort` | crates/resolve-store/src/sqlite.rs:3922-3929 | fewer composites are completed than there are commitments, so the count guard never fires |
| `Cascade.RecoveryNeedsNoCascade` | crates/resolve-store/src/sqlite.rs:1757-1787 | on states that keep the invariant, no composite pending recovery has a completed barrier |
| `Composites.CompositeEndsWithItsBarrier` | crates/resolve-store/src/sqlite.rs:655-661 | in every state of every run a composite is completed only if its replacement terminal is, and has ended if the terminal is completed |
| `Composites.CompositeStep` | crates/resolve-store/src/sqlite.rs:609-620 | no step completes a composite before its replacement terminal |
| `Runs.StepKeepsInv` | crates/resolve-store/src/sqlite.rs:505-2385 | one attempted mutation of any kind keeps the invariant |
| `Runs.RunKeepsInv` | crates/resolve-store/src/sqlite.rs:505-2385 | so does every run whose inserts are sound |
| `Runs.ReachableInv` | crates/resolve-store/src/sqlite.rs:505-2385 | the invariant holds in every state reachable from the empty store |
| `Runs.CommitsConcat` | crates/resolve-store/src/sqlite.rs:505-2385 | transactions compose: the mutations of successive operations form one run |
| `Runs.LogIsAppended` | crates/resolve-store/src/sqlite.rs:4034-4054 | every mutation appends exactly its own events to the log and changes none before them |
| `Safety.CommitmentStep` | crates/resolve-core/src/state_machine.rs:12-64 | one step keeps identity, parent and replacement terminal of a row, raises its high-water mark by at most one and its version by exactly one if anything changed, and moves its state along the topology or one of three extra edges |
| `Safety.OffTheMapIsExpiryOrCascade` | crates/resolve-store/src/sqlite.rs:1627-1637 | the extra edges are taken only by expiry or restart from claimed, and by the cascade of a completion below |
| `Safety.RunDescends` | crates/resolve-store/src/sqlite.rs:609-620 | over any run a replacement terminal never changes, marks and versions never fall, and a terminal state is never left |
| `Safety.GuardStep` | crates/resolve-store/src/sqlite.rs:1217-1281 | a guard is never deleted, and its state only moves forward with its action and binding kept |
| `Safety.UncertainIsAbsorbing` | crates/resolve-store/src/sqlite.rs:1930-1970 | once a guard is uncertain, no run changes the guard, its commitment's row or its lock rows |
| `Safety.LiveGuardHoldsItsScopes` | crates/resolve-store/src/sqlite.rs:985-1034 | a live guard has its lock on each of its scopes and shares none with another live guard |
| `Exclusion.HeldUntilRecorded` | crates/resolve-store/src/sqlite.rs:1141-1281 | from admission until a safe outcome is recorded, every state of a run holds the full scope set under the action, exclusively |
| `Exclusion.OverlapIsRefused` | crates/resolve-store/src/sqlite.rs:985-1002 | meanwhile no guard with an overlapping scope is issued or admitted |
| `Exclusion.OnlyRecordingResolves` | crates/resolve-store/src/sqlite.rs:1980-2007 | only a recorded success or failure ends an active guard |
| `Exclusion.EpochsAreConsecutive` | crates/resolve-store/src/sqlite.rs:3553-3584 | over any run the claims opened on a commitment carry consecutive epochs, none repeated or skipped |
| `Exclusion.StaleEpochIsFenced` | crates/resolve-store/src/sqlite.rs:1198-1216 | after a claim has ended nothing is accepted at its epoch, whatever happens in between |
| `Exclusion.AdmissionWithinLease` | crates/resolve-store/src/sqlite.rs:971-984 | a guard is admitted only while the claim it was issued under, with the same worker and epoch, is within the lease |
| `Exclusion.InvalidationIsCurrentIff` | crates/resolve-store/src/sqlite.rs:1306-1385 | over any run, an accepted invalidation concerns a guard of the caller's own claim if and only if no claim was opened on the commitment since the guard was issued |
| `Leases.ActingIsWithinLease` | crates/resolve-store/src/sqlite.rs:971-984 | every mutation that a claim holder makes carries the worker and the epoch of the live claim, before its lease has run out |
| `Leases.HeartbeatsMoveOnlyByBeat` | crates/resolve-store/src/sqlite.rs:1499-1524 | of all mutations only a heartbeat moves the heartbeat of a standing claim, and to its own instant |
| `Leases.HeartbeatProtects` | crates/resolve-store/src/sqlite.rs:1513-1524 | after an accepted heartbeat at t, over any run, that claim is neither overdue nor expired at any instant before t + lease |
| `Leases.IssuedDeadline` | crates/resolve-core/src/guards.rs:133-142 | the deadline of an issued guard is the requested end or the end of the lease, is later than neither, and lies ahead if any time was requested |
| `Leases.AdmittableUntilDeadline` | crates/resolve-store/src/sqlite.rs:971-984 | over any run, a guard that nothing dropped, on working work at the same claim with no action and versions left, is admitted for every new action at every instant before both ends |
| `Leases.AnswersWhileAdmitted` | crates/resolve-store/src/sqlite.rs:1100-1120 | a request for an admitted guard is already admitted exactly if action, digest and scopes are the ones held, and otherwise is told which of them differs |
| `Leases.RetriesAreAnswered` | crates/resolve-store/src/sqlite.rs:1100-1120 | over any run after an admission, while the guard is still admitted, retries of the same request are already admitted and every other action is refused as bound |
| `Outcomes.OutcomesAreRecordedOnce` | crates/resolve-store/src/sqlite.rs:1831-2048 | along every run each action has at most one outcome in the log, and one exactly if a guard is settled with it |
| `Outcomes.LaterDeliveries` | crates/resolve-store/src/sqlite.rs:1870-1894 | after a recording, equal deliveries are answered AlreadyRecorded and different ones Conflict, forever, and nothing more is recorded |
| `Changes.InsertChanges` | crates/resolve-store/src/sqlite.rs:505-528 | an accepted insert adds one proposed row with every field as drafted, and its event |
| `Changes.PersistChanges` | crates/resolve-store/src/sqlite.rs:530-664 | an accepted persist changes the row to the candidate's state and mark along a persistable edge, raises the version by one and stores the claim as given; any other row that changes is a composite completed because its terminal is |
| `Changes.IssueChanges` | crates/resolve-store/src/sqlite.rs:877-1056 | of the guards and locks before, exactly those that had run out on a requested scope are gone; the new guard is issued until the earlier of the two ends and each of its scopes is reserved until then |
| `Changes.AdmitChanges` | crates/resolve-store/src/sqlite.rs:1217-1295 | an admission binds the guard to the action and digest, holds exactly its scopes under the action and puts the action on the working commitment, nothing else |
| `Changes.DropChanges` | crates/resolve-store/src/sqlite.rs:1390-1417 | a given-up guard is invalidated and exactly its locks are freed |
| `Changes.BeatChanges` | crates/resolve-store/src/sqlite.rs:1513-1543 | a heartbeat moves the claim to the instant of the fence and logs it, nothing else |
| `Changes.RecordChanges` | crates/resolve-store/src/sqlite.rs:1908-2046 | an outcome settles the guard with its binding; an uncertain one parks the work and keeps every lock, any other clears the action, readies recovered work and frees exactly the guard's scopes |
| `Changes.ReleaseChanges` | crates/resolve-store/src/sqlite.rs:1788-1811 | a release makes recovered work ready, nothing else |
| `Changes.DecomposeChanges` | crates/resolve-store/src/sqlite.rs:3680-3755 | a decomposition stores each child as proposed and leaves its parent waiting on the terminal, which it now requires |
| `Changes.ProposalChanges` | crates/resolve-store/src/sqlite.rs:667-803 | an accepted proposal changes exactly the rows, claims and guards that its kind calls for, leaves no live guard of the target, and its last event tells the proposal as made |
| `Changes.ProposalsAreAnnounced` | crates/resolve-store/src/sqlite.rs:3680-3700 | every child is announced as created under the target's goal, so proposals keep the replay of the log |
| `Replay.SnapshotIsReplay` | crates/resolve-store/src/sqlite.rs:4034-4054 | in every state of every announced run, commitment states, guard states and outstanding actions are the fold of the log |
| `Replay.InsertIsReplayedIff` | crates/resolve-store/src/sqlite.rs:505-528 | after an accepted insert the log still tells the tables if and only if the event was CommitmentCreated |
| `Replay.StepIsReplayed` | crates/resolve-store/src/sqlite.rs:3597-3626 | every mutation but a misannounced insert appends events that tell exactly what it changed |
| `ClaimLog.OpeningIsToldIff` | crates/resolve-store/src/sqlite.rs:626-632 | from a log that names the live claims, an accepted opening leaves it so if and only if its event names the worker and epoch of the lease it opens |
| `ClaimLog.ClaimEventOpens` | crates/resolve-store/src/sqlite.rs:3597-3626 | an accepted persist carries a claim event exactly when it opens a claim, and the event names that commitment |
| `ClaimLog.LiveClaimsAreTold` | crates/resolve-store/src/sqlite.rs:4034-4054 | in every state of a run whose claims are announced truly, the log names the worker and the epoch of every live claim |
| `ClaimLog.LoggedEpochsAreOpenings` | crates/resolve-store/src/sqlite.rs:4034-4054 | over such a run the claim epochs in the log are, in order, those of the claims that were opened |
| `ClaimLog.ForgedClaimIsAccepted` | crates/resolve-store/src/sqlite.rs:626-632 | at the end of a concrete run a claim is accepted with an event that names another worker and epoch, and the log no longer names it |
| `Gaps.SelfPrerequisiteIsAccepted` | crates/resolve-store/src/sqlite.rs:511-519 | a concrete insert that is accepted and closes a cycle |
| `Gaps.ForeignParentIsAccepted` | crates/resolve-store/src/sqlite.rs:511-519 | a concrete insert that is accepted under a parent of another goal |
| `Gaps.MisannouncedInsertIsAccepted` | crates/resolve-store/src/sqlite.rs:4076-4088 | a concrete insert that is accepted and leaves the log telling another state |
| `Gaps.OlderGuardIsInvalidated` | crates/resolve-store/src/sqlite.rs:1341-1388 | a concrete run after which the second claim may give up a guard issued under the first |
| `Startup.AcceptedIffNoGuardEnded` | crates/resolve-store/src/sqlite.rs:2907-3014 | on states that keep the invariant the check passes if and only if every guard is live |
| `Startup.LockCheckIsExact` | crates/resolve-store/src/sqlite.rs:2907-3014 | on any tables whose locks name known guards, the check passes if and only if locks and guards agree and every guard with a scope is live |
| `Startup.IntendedCheckAccepts` | crates/resolve-store/src/sqlite.rs:3000-3004 | asking ended guards to own no lock would accept every such state |
| `Startup.EndedGuardNeverReopens` | crates/resolve-store/src/sqlite.rs:2956-2963 | once a guard has ended, no later state of any run is accepted |
| `Startup.RestartWithIssuedGuardIsTheLast` | crates/resolve-store/src/sqlite.rs:2198-2234 | a restart that finds an issued guard makes every later reopening fail |
| `Startup.StuckIsRefused` | crates/resolve-store/src/sqlite.rs:2956-2963 | a concrete run from the empty store after which, and after any continuation, reopening is refused although the intended check accepts |
| `Startup.TopologyCheckAccepts` | crates/resolve-store/src/sqlite.rs:2829-2905 | the topology check accepts every state that keeps the invariant |
| `Startup.TopologyCheckIsExact` | crates/resolve-store/src/sqlite.rs:2829-2905 | on any tables whose goals are known, references, acyclicity and barriers hold if and only if the check passes and every terminal is required by its parent, which has nothing in flight while open |
| `Startup.RestartIsExact` | crates/resolve-store/src/sqlite.rs:2050-2385 | a restart leaves exactly the held lock rows, no claim and no issued guard, moves exactly the claimed commitments to recovery, keeps actions, marks, terminal states and uncertain waits, and keeps the invariant |
| `Startup.AllActiveIsHeld` | crates/resolve-store/src/sqlite.rs:2236-2377 | the locks that the active guards call for are the held rows |
| `TableFacts.ExpiryIsExact` | crates/resolve-store/src/sqlite.rs:1547-1699 | a sweep ends exactly the overdue claims, invalidates exactly the guards issued at their epochs and frees exactly the locks of those guards; live claims, held locks and outstanding actions are untouched |
| `Replies.AdmissionReplyIsExact` | crates/resolve-store/src/sqlite.rs:1086-1216 | the ordered checks of admission grant it exactly when the mutation is allowed |
| `Replies.IssueRefusalIsExact` | crates/resolve-store/src/sqlite.rs:889-984 | no ordered check of an issue request fails exactly when the request is allowed and the guard new |
| `Replies.InvalidationRefusalIsExact` | crates/resolve-store/src/sqlite.rs:1306-1385 | no ordered check fails exactly when the guard may be given up |
| `Replies.HeartbeatReplyIsExact` | crates/resolve-store/src/sqlite.rs:1428-1510 | a heartbeat is taken exactly when it moves a live claim forward |
| `Replies.ClaimRefusalIsExact` | crates/resolve-store/src/sqlite.rs:3516-3594 | no claim check fails exactly when the candidate keeps, releases or opens a claim |
| `Replies.CandidateRefusalIsExact` | crates/resolve-store/src/sqlite.rs:537-630 | no ordered check of a candidate fails exactly when its row may be written |
| `Replies.RecoveryRefusalIsExact` | crates/resolve-store/src/sqlite.rs:1707-1788 | no check fails exactly when the work may be released or its barrier is over |
| `Replies.TargetRefusalIsExact` | crates/resolve-store/src/sqlite.rs:690-780 | no check of a proposal's target fails exactly when it is ready for it |
| `Replies.ChangeRefusalIsExact` | crates/resolve-store/src/sqlite.rs:3628-3818 | no check of a proposal's change fails exactly when the change fits the tables |
| `Errors.IssueErrors` | crates/resolve-store/src/sqlite.rs:889-984 | each error of an issue request, by the row, the claim and the ends of the two times |
| `Errors.AdmissionErrors` | crates/resolve-store/src/sqlite.rs:1141-1216 | each error for a running reservation: scopes, work not active, action outstanding, epoch passed, version exhausted, action carried elsewhere |
| `Errors.InvalidationErrors` | crates/resolve-store/src/sqlite.rs:1306-1385 | each error of giving up a guard |
| `Errors.HeartbeatAnswers` | crates/resolve-store/src/sqlite.rs:1428-1510 | each answer to a heartbeat, by ownership and by where its instant lies between the last one and the end of the lease |
| `Errors.CandidateErrors` | crates/resolve-store/src/sqlite.rs:537-626 | which error a candidate gets, by the row it would change |
| `Errors.ClaimErrors` | crates/resolve-store/src/sqlite.rs:3516-3594 | which error its claim gets, by the claim that stands |
| `Errors.RecoveryErrors` | crates/resolve-store/src/sqlite.rs:1707-1811 | on invariant states recovery is blocked exactly for work that is not pending, carries an action or is composite |
| `Errors.TargetErrors` | crates/resolve-store/src/sqlite.rs:690-780 | each error of the checks on a proposal's target |
| `Errors.ProposalBlocked` | crates/resolve-store/src/sqlite.rs:3353-3388 | a proposal that is past the other checks is blocked exactly while a reservation of its target is running |
| `Errors.ChangeErrors` | crates/resolve-store/src/sqlite.rs:3628-3818 | when the change itself is an invalid proposal |
| `TableFacts.OwnScopesExpire` | crates/resolve-store/src/sqlite.rs:3158-3210 | expiring what blocks a guard's own scopes can expire only that guard |
| `ScopeSets.TryNew` | crates/resolve-core/src/guards.rs:57-82 | fails exactly on an empty list; otherwise the one ascending list of the given keys, whatever their order and repetition |
| `ScopeSets.CanonicalIsUnique` | crates/resolve-core/src/guards.rs:78-82 | an ascending list is determined by its set of keys |
| `ScopeSets.FirstKeyExists` | crates/resolve-core/src/guards.rs:78-82 | every non-empty set of keys has a first one in key order |
| `ScopeSets.AtMostIsLexicographic` | crates/resolve-core/src/guards.rs:79 | the key order is that of the text: a prefix comes first, else the smaller character at the first position that differs |
| `ScopeSets.SortKeys` | crates/resolve-core/src/guards.rs:79 | the keys in order, as a permutation |
| `ScopeSets.Dedup` | crates/resolve-core/src/guards.rs:80 | on a sorted list, the same keys once each |
| `Backfill.HighWaterColumn.BackfillClaimEpochHighWater` | crates/resolve-store/src/schema.rs:261-365 | accepts exactly the sound records, and then every mark is the greatest of the old mark, the epochs of its claim events and its current claim |
| `Backfill.NextEpochIsUnused` | crates/resolve-store/src/schema.rs:261-365 | the next epoch of a migrated commitment exceeds every epoch on record |
| `Backfill.RecordsAreTaken` | crates/resolve-store/src/schema.rs:261-365 | the records are sound exactly if each event decodes, its column names the known commitment of its payload, its texts are not blank and its epoch fits, and each claim is of a known commitment at a positive epoch |
| `Backfill.MarkedIffOnRecord` | crates/resolve-store/src/schema.rs:261-365 | a migrated mark fits its column and is set exactly if a mark, a claim event or a claim is on record |
| `Store.SqliteStore.InsertGoal` | crates/resolve-store/src/sqlite.rs:388-426 | one new goal with a matching event and a revision that fits its column, as one mutation; otherwise no change, and a mismatched event is told apart from a taken key |
| `Store.SqliteStore.InsertSnapshot` | crates/resolve-store/src/sqlite.rs:3274-3297 | succeeds exactly if the key is new and every reference resolves, and then adds exactly the row |
| `Store.SqliteStore.InsertCommitment` | crates/resolve-store/src/sqlite.rs:505-528 | accepted exactly if allowed, as one mutation that adds one proposed row as drafted; a sound run and an invariant state exactly if the draft is sound; otherwise no change, and the wrong event or draft is told apart from a failed reference |
| `Store.SqliteStore.ValidateClaimPersistence` | crates/resolve-store/src/sqlite.rs:3493-3595 | accepts exactly the candidates that keep, release or open a claim at the next epoch, and names the first check that fails |
| `Store.SqliteStore.ValidateCandidate` | crates/resolve-store/src/sqlite.rs:537-630 | accepts exactly the candidates that change nothing but state and claim along a legal edge, at the current version, past no action or barrier, and names the first check that fails |
| `Store.SqliteStore.PersistCommitmentChange` | crates/resolve-store/src/sqlite.rs:530-664 | accepted exactly if allowed, as one mutation with its cascade; the row moves along a persistable edge and only composites whose terminal is completed change beside it; otherwise no change and the error of the first check that fails |
| `Store.SqliteStore.CompleteCompositeBarrierCascade` | crates/resolve-store/src/sqlite.rs:3872-4011 | completes exactly the chain above the child with one event each; fails only when a version in the chain is exhausted |
| `Store.SqliteStore.CompleteCompositesOver` | crates/resolve-store/src/sqlite.rs:3896-4007 | one round: completes a composite that is ready, skips ended ones, never exceeds the count |
| `Store.SqliteStore.LoadCommitment` | crates/resolve-store/src/sqlite.rs:2440-2612 | loads every stored commitment as the aggregate that the tables describe |
| `Store.SqliteStore.LoadDependencyGraph` | crates/resolve-store/src/sqlite.rs:3390-3432 | the stored graph, exactly if no edge dangles and no cycle exists |
| `Store.SqliteStore.ExpireRelevantReservations` | crates/resolve-store/src/sqlite.rs:3158-3210 | invalidates exactly the guards behind overdue reservations on the keys and frees exactly their reservations |
| `Store.SqliteStore.ExpireTargetReservations` | crates/resolve-store/src/sqlite.rs:3367-3388 | invalidates exactly the target's own overdue guards |
| `Store.SqliteStore.BuildCandidate` | crates/resolve-store/src/sqlite.rs:3641-3678 | the candidate graph, exactly if the children are new and their prerequisites known |
| `Store.SqliteStore.InsertChildren` | crates/resolve-store/src/sqlite.rs:3680-3700 | succeeds exactly if the children are in list order |
| `Store.SqliteStore.ApplyDecomposition` | crates/resolve-store/src/sqlite.rs:3628-3755 | applied exactly if the parent is not yet decomposed, the children are new and in list order and the candidate is acyclic; each child is then stored field by field as proposed and the parent waits on the terminal |
| `Store.SqliteStore.ApplyAddPrerequisite` | crates/resolve-store/src/sqlite.rs:3757-3818 | applied exactly if the prerequisite is new, exists and closes no cycle |
| `Store.SqliteStore.ApplyAbandon` | crates/resolve-store/src/sqlite.rs:3820-3860 | abandons the target and drops its claim |
| `Store.SqliteStore.ApplyStructuralProposal` | crates/resolve-store/src/sqlite.rs:667-803 | applied exactly if well shaped, fenced by a live claim, clear of live guards and permitted by the graph; the commit is the expiry of the target's overdue guards and then the proposal's mutations, with every row, claim and guard after it as the proposal calls for; otherwise no change and the error of the first check that fails |
| `Store.SqliteStore.IssueGuard` | crates/resolve-store/src/sqlite.rs:877-1056 | issued exactly if the claim is live and every scope free or overdue, until the earlier of the requested end and the end of the lease, with exactly the run-out guards in its way dropped; otherwise no change, the expiries undone, and the error of the first check that fails: of several blocked scopes the first in key order is named, with its real owner |
| `Store.SqliteStore.AdmitGuard` | crates/resolve-store/src/sqlite.rs:1086-1295 | success always means that the guard is admitted for this action, digest and these scopes; already admitted exactly if it was so before; an admitted guard answers any other action, digest or scopes with the rejection for it; commits only a first admission, and anything else changes nothing |
| `Store.SqliteStore.PromoteGuard` | crates/resolve-store/src/sqlite.rs:1217-1293 | succeeds exactly if the reserved rows number the guard's scopes, and then changes row, guard and locks together |
| `Store.SqliteStore.InvalidateGuard` | crates/resolve-store/src/sqlite.rs:1298-1417 | gives up the guard and its locks exactly if it is issued and running and the fence holds the current claim; otherwise no change and the error of the first check that fails |
| `Store.SqliteStore.RecordHeartbeat` | crates/resolve-store/src/sqlite.rs:1420-1543 | the claim stands at the instant of the fence after an accepted heartbeat, all else unchanged; accepted exactly for the holder of a live lease with a later instant; an equal instant is already current; otherwise no change and the error of the first check that fails |
| `Store.SqliteStore.ProcessExpiredClaims` | crates/resolve-store/src/sqlite.rs:1547-1699 | ends exactly the overdue claims and returns their number, or fails without change because of a claim whose deadline overflows or whose version is exhausted |
| `Store.SqliteStore.LapseClaim` | crates/resolve-store/src/sqlite.rs:1627-1694 | ends one claim and revokes exactly the guards issued at its epoch |
| `Store.SqliteStore.RecoverWithoutAction` | crates/resolve-store/src/sqlite.rs:1702-1811 | on consistent tables, releases recovered work or completes a composite whose barrier is over, exactly if nothing of it is in flight; on invariant states it succeeds exactly with the one release mutation; otherwise no change and the error of the first check that fails |
| `Outcomes.ReplyIsExact` | crates/resolve-store/src/sqlite.rs:1851-1894 | with the stored binding a delivery is recorded if the guard holds no outcome, already recorded if it holds this one, and in conflict if it holds another; with any other binding it is refused |
| `Store.SqliteStore.RecordTethersOutcome` | crates/resolve-store/src/sqlite.rs:1831-2048 | not found exactly if no guard carries the action; otherwise the answer of that guard, with one recording mutation exactly on a first delivery, which settles guard, row, claim and locks as the outcome demands; otherwise no change |
| `Store.SqliteStore.DeliverTo` | crates/resolve-store/src/sqlite.rs:1866-2048 | one delivery for the guard that carries the action: its answer, and a recording mutation exactly on a first delivery |
| `Store.SqliteStore.SettleGuard` | crates/resolve-store/src/sqlite.rs:1918-2045 | settles guard, row, claim and locks together; fails exactly if a held lock is missing on a safe outcome |
| `Store.SqliteStore.ValidateGuardLockConsistency` | crates/resolve-store/src/sqlite.rs:2907-3014 | computes the check as written |
| `Store.SqliteStore.ValidatePersistedTopology` | crates/resolve-store/src/sqlite.rs:2829-2905 | computes the topology check |
| `Store.SqliteStore.RetireClaims` | crates/resolve-store/src/sqlite.rs:2061-2152 | moves every claimed commitment to recovery with one notice each, exactly if no version is exhausted |
| `Store.SqliteStore.ExpectedLocks` | crates/resolve-store/src/sqlite.rs:2236-2362 | rebuilds, from the active guards alone, exactly the rows that were held |
| `Store.SqliteStore.RecoverTables` | crates/resolve-store/src/sqlite.rs:2050-2385 | the recovery behind the checks is a restart |
| `Store.SqliteStore.StartupRecovery` | crates/resolve-store/src/sqlite.rs:2050-2385 | within the boot space and with a log that decodes, succeeds exactly if every guard is live and no version is exhausted, and is then one restart; otherwise no change, with the error that tells which |

## Left out

- SQL text, WAL, PRAGMAs, `integrity_check`, DDL and version-number migrations: only primary-key, unique and foreign-key effects are modelled, as checks; of the migrations only the high-water backfill.
- JSON encoding and the stored event types: datatypes are used directly, so decoding cannot fail.
- Concurrency across connections: every operation is one immediate transaction, so steps are serial.
- The transport and the service wrapper: mapping and delegation.
- Goal revisions and attention items: independent tables with easy rules; their events exist but nothing depends on them.
- Guard row versions: they count at most three moves of one guard and are compared only inside one transaction.
- Boot generation: a natural number, so its exhaustion is not modelled; guards keep the boot they were issued in.
- The goal column and the creation time of an event row, and validation of identifier and description text: an identifier is a wrapped string compared for equality, and blank checks are modelled where a proposal or the backfill makes them.
- The order in which rows of a table are visited: the code sorts by identifier, the model takes any order, so the results hold for the sorted one.
- InsertGoal: the row of the goal's first revision is not kept; only its column bound is.
- StartupRecovery: the code also refuses to reopen when the boot generation no longer fits a signed 64-bit integer or a stored event does not decode; the boot generation of the model is unbounded and its events need no decoding.
- RecordTethersOutcome: both public variants are one method with an optional preparation digest.
- RunKeepsInv: assumes sound inserts, because `insert_commitment` does not enforce them; InsertKeepsInvIff states exactly what is lost otherwise.
- SnapshotIsReplay: reservation deadlines are not read from the log, which does not record them; claims are the subject of ClaimLog.
- SortKeys: the standard library's unstable sort is modelled as an insertion sort with the same result.
