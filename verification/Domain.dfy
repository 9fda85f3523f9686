/** The domain vocabulary: identifiers, commitment states and their topology,
    guards, outcomes, events and errors. Identifiers are compared only for
    equality. A claim epoch is positive, so an epoch high-water mark of 0
    stands for "never claimed" (a NULL column). */
module Domain {
  datatype Option<+T> = None | Some(value: T)
  datatype Result<+T> = Ok(value: T) | Err(error: StoreError)

  const MAX_I64: nat := 0x7fff_ffff_ffff_ffff
  const MAX_U64: nat := 0xffff_ffff_ffff_ffff

  datatype GoalId = GoalId(text: string)
  datatype CommitmentId = CommitmentId(text: string)
  datatype WorkerId = WorkerId(text: string)
  datatype ActionRef = ActionRef(text: string)
  datatype ContractRef = ContractRef(text: string)
  datatype DecisionRef = DecisionRef(text: string)
  datatype GuardId = GuardId(text: string)
  datatype ScopeKey = ScopeKey(text: string)
  datatype Digest = Digest(text: string)

  /** The description and acceptance references of a commitment, which the
      store only ever compares as a whole. */
  datatype Brief = Brief(description: string, acceptance: seq<string>)

  datatype Prerequisite =
    | NeedsCommitment(id: CommitmentId)
    | NeedsVerification(contract: ContractRef)
    | NeedsDecision(decision: DecisionRef)

  datatype WaitingReason =
    | OnPrerequisite(id: CommitmentId)
    | OnAuthority(action: ActionRef)
    | OnDecision(decision: DecisionRef)
    | OnVerification(contract: ContractRef)
    | OnUncertainAction(action: ActionRef)
    | OnExternal(text: string)

  datatype CommitmentState =
    | Proposed
    | Ready
    | Claimed
    | Working
    | Waiting(reason: WaitingReason)
    | RecoveryPending
    | CompletionProposed
    | Completed
    | Cancelled
    | Abandoned

  datatype Outcome =
    | Succeeded(action: ActionRef)
    | Failed(action: ActionRef)
    | Uncertain(action: ActionRef)

  /** The schema ties the deadline to `issued` and the action, the outcome and
      the preparation digest to the later states; here the constructors do. */
  datatype GuardState =
    | Issued(deadline: nat)
    | Admitted(action: ActionRef, digest: Option<Digest>)
    | Resolved(outcome: Outcome, digest: Option<Digest>)
    | Uncertain(action: ActionRef, digest: Option<Digest>)
    | Invalidated

  datatype StructuralChange =
    | IntoChildren(children: seq<CommitmentId>, terminal: CommitmentId)
    | WithPrerequisite(prerequisite: Prerequisite)
    | GivenUp(rationale: string)

  datatype WorkEvent =
    | GoalCreated(goal: GoalId, revision: nat)
    | GoalRevised(goal: GoalId, revision: nat)
    | CommitmentCreated(id: CommitmentId, goal: GoalId)
    | CommitmentActivated(id: CommitmentId)
    | CommitmentClaimed(id: CommitmentId, worker: WorkerId, epoch: nat)
    | CommitmentStarted(id: CommitmentId)
    | CommitmentWaiting(id: CommitmentId, reason: WaitingReason)
    | CommitmentRecoveryPending(id: CommitmentId)
    | CommitmentCompletionProposed(id: CommitmentId)
    | CommitmentCompleted(id: CommitmentId)
    | CommitmentCancelled(id: CommitmentId)
    | CommitmentAbandoned(id: CommitmentId)
    | HeartbeatAccepted(id: CommitmentId, worker: WorkerId, epoch: nat)
    | LeaseExpired(id: CommitmentId, worker: WorkerId, epoch: nat)
    | GuardIssued(guard: GuardId, id: CommitmentId, epoch: nat)
    | GuardAdmitted(guard: GuardId, id: CommitmentId, action: ActionRef, digest: Option<Digest>)
    | GuardInvalidated(guard: GuardId)
    | GuardReservationExpired(guard: GuardId)
    | OutcomeRecorded(outcome: Outcome, digest: Option<Digest>)
    | RecoveryCompleted(id: CommitmentId, action: ActionRef)
    | RecoveryReleased(id: CommitmentId)
    | ProposalApplied(id: CommitmentId, change: StructuralChange)
    | AttentionRaised(attention: string, about: Option<CommitmentId>)
    | AttentionCleared(attention: string)

  datatype DomainError =
    | InvalidTransition
    | TerminalCommitmentImmutable
    | CommitmentAlreadyClaimed
    | NotClaimed
    | ClaimOwnerMismatch
    | StaleEpoch
    | EpochExhausted
    | TimeOverflow
    | EmptyScopeSet
    | RecoveryRequired(action: ActionRef)
    | InvalidRestoredState
    | DependencyCycle
    | InvalidStructuralProposal

  datatype Rejection =
    | GuardRevoked
    | GuardAlreadyBound
    | GuardExpired
    | TaskNotActive
    | OwnershipChanged
    | FenceChanged
    | ActionMismatch
    | PreparationMismatch
    | ScopeKeysMismatch
    | InternalIntegrity

  datatype StoreError =
    | OfDomain(reason: DomainError)
    | ConstraintFailed
    | InvalidPersistedData
    | InvalidMutation
    | NotFound
    | VersionConflict
    | ScopeLocked(key: ScopeKey, owner: GuardId)
    | GuardInvalid
    | ClaimMismatch
    | OutstandingAction(action: ActionRef)
    | OutcomeConflict
    | OutcomePreparationMismatch
    | OutcomePreparationBindingMissing
    | OutcomeCorrelationMismatch
    | AdmissionRejected(rejection: Rejection)
    | RecoveryBlocked
    | LeaseElapsed

  predicate IsTerminal(s: CommitmentState) {
    s.Completed? || s.Cancelled? || s.Abandoned?
  }

  /** The states whose meaning includes a live worker claim. */
  predicate RequiresClaim(s: CommitmentState) {
    s.Claimed? || s.Working? || s.CompletionProposed? || (s.Waiting? && !s.reason.OnUncertainAction?)
  }

  predicate LegalTransition(from: CommitmentState, to: CommitmentState) {
    match from
    case Proposed => to.Ready? || to.Cancelled? || to.Abandoned?
    case Ready => to.Claimed? || to.Cancelled? || to.Abandoned?
    case Claimed => to.Working? || to.Cancelled? || to.Abandoned?
    case Working =>
      to.Waiting? || to.RecoveryPending? || to.CompletionProposed? || to.Cancelled? || to.Abandoned?
    case Waiting(reason) =>
      || to.Ready? || to.Working? || to.Cancelled? || to.Abandoned?
      || (to.RecoveryPending? && !reason.OnUncertainAction?)
    case RecoveryPending => to.Ready? || to.Waiting? || to.Cancelled? || to.Abandoned?
    case CompletionProposed => to.Completed? || to.Cancelled? || to.Abandoned? || to.RecoveryPending?
    case Completed => false
    case Cancelled => false
    case Abandoned => false
  }

  /** The same topology read from its far end: where each state can be entered from. */
  predicate Enters(from: CommitmentState, to: CommitmentState) {
    match to
    case Proposed => false
    case Ready => from.Proposed? || from.Waiting? || from.RecoveryPending?
    case Claimed => from.Ready?
    case Working => from.Claimed? || from.Waiting?
    case Waiting(_) => from.Working? || from.RecoveryPending?
    case RecoveryPending =>
      from.Working? || from.CompletionProposed? || (from.Waiting? && !from.reason.OnUncertainAction?)
    case CompletionProposed => from.Working?
    case Completed => from.CompletionProposed?
    case Cancelled => !from.Completed? && !from.Cancelled? && !from.Abandoned?
    case Abandoned => !from.Completed? && !from.Cancelled? && !from.Abandoned?
  }

  function ValidateTransition(from: CommitmentState, to: CommitmentState): (error: Option<DomainError>)
    ensures error == None <==> Enters(from, to)
    ensures error == None <==> LegalTransition(from, to)
    ensures error == Some(TerminalCommitmentImmutable) <==> from.Completed? || from.Cancelled? || from.Abandoned?
    ensures error.Some? ==> error.value.InvalidTransition? || error.value.TerminalCommitmentImmutable?
  {
    if LegalTransition(from, to) then None
    else if IsTerminal(from) then Some(TerminalCommitmentImmutable)
    else Some(InvalidTransition)
  }

  /** The commitment an event is about, if it names one. */
  function EventCommitment(event: WorkEvent): Option<CommitmentId> {
    match event
    case CommitmentCreated(id, _) => Some(id)
    case CommitmentActivated(id) => Some(id)
    case CommitmentClaimed(id, _, _) => Some(id)
    case CommitmentStarted(id) => Some(id)
    case CommitmentWaiting(id, _) => Some(id)
    case CommitmentRecoveryPending(id) => Some(id)
    case CommitmentCompletionProposed(id) => Some(id)
    case CommitmentCompleted(id) => Some(id)
    case CommitmentCancelled(id) => Some(id)
    case CommitmentAbandoned(id) => Some(id)
    case HeartbeatAccepted(id, _, _) => Some(id)
    case LeaseExpired(id, _, _) => Some(id)
    case GuardIssued(_, id, _) => Some(id)
    case GuardAdmitted(_, id, _, _) => Some(id)
    case RecoveryCompleted(id, _) => Some(id)
    case RecoveryReleased(id) => Some(id)
    case ProposalApplied(id, _) => Some(id)
    case AttentionRaised(_, about) => about
    case _ => None
  }

  /** Does a caller-supplied event describe the state being persisted? */
  predicate EventDescribes(event: WorkEvent, state: CommitmentState) {
    match event
    case CommitmentActivated(_) => state.Ready?
    case CommitmentClaimed(_, _, _) => state.Claimed?
    case CommitmentStarted(_) => state.Working?
    case CommitmentWaiting(_, reason) => state == Waiting(reason)
    case CommitmentRecoveryPending(_) => state.RecoveryPending?
    case CommitmentCompletionProposed(_) => state.CompletionProposed?
    case CommitmentCompleted(_) => state.Completed?
    case CommitmentCancelled(_) => state.Cancelled?
    case CommitmentAbandoned(_) => state.Abandoned?
    case _ => false
  }

  /** `order` lists every element of `s`, once each. */
  ghost predicate Enumerates<T(!new)>(order: seq<T>, s: set<T>) {
    && (forall x :: x in order <==> x in s)
    && (forall i, j :: 0 <= i < j < |order| ==> order[i] != order[j])
  }

  lemma {:induction false} EnumerationLength<T(!new)>(order: seq<T>, s: set<T>)
    requires Enumerates(order, s)
    ensures |order| == |s|
  {
    if order == [] {
      assert forall x :: x in s ==> x in order;
      assert s == {};
    } else {
      var n := |order| - 1;
      var rest := s - {order[n]};
      forall x
        ensures x in order[..n] <==> x in rest
      {
        if x in rest {
          var i :| 0 <= i < |order| && order[i] == x;
          assert order[..n][i] == x;
        }
      }
      EnumerationLength(order[..n], rest);
    }
  }
}
