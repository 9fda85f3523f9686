/** The commitment aggregate: the snapshot that callers load, change and
    persist, the calls that change it, and what those calls keep. */
module Aggregates {
  import opened Domain

  datatype Lease = Lease(worker: WorkerId, epoch: nat, heartbeat: nat)

  /** A commitment snapshot. A `lastEpoch` of 0 stands for "never claimed". */
  datatype Draft = Draft(
    id: CommitmentId,
    goal: GoalId,
    parent: Option<CommitmentId>,
    brief: Brief,
    state: CommitmentState,
    prerequisites: seq<Prerequisite>,
    claim: Option<Lease>,
    outstanding: Option<ActionRef>,
    lastEpoch: nat)

  datatype ResumeTarget = ToReady | ToWorking

  datatype Call =
    | Activate
    | ClaimFor(worker: WorkerId, heartbeat: nat)
    | Start(worker: WorkerId, epoch: nat)
    | Wait(worker: WorkerId, epoch: nat, reason: WaitingReason)
    | Resume(worker: WorkerId, epoch: nat, target: ResumeTarget)
    | ProposeCompletion(worker: WorkerId, epoch: nat)
    | Complete(worker: WorkerId, epoch: nat)
    | Cancel
    | Abandon

  function Target(call: Call): CommitmentState {
    match call
    case Activate => Ready
    case ClaimFor(_, _) => Claimed
    case Start(_, _) => Working
    case Wait(_, _, reason) => Waiting(reason)
    case Resume(_, _, target) => if target.ToReady? then Ready else Working
    case ProposeCompletion(_, _) => CompletionProposed
    case Complete(_, _) => Completed
    case Cancel => Cancelled
    case Abandon => Abandoned
  }

  /** The calls that only the holder of the current claim may make. */
  predicate NeedsHolder(call: Call) {
    call.Start? || call.Wait? || call.Resume? || call.ProposeCompletion? || call.Complete?
  }

  predicate DropsClaim(call: Call) {
    || (call.Wait? && call.reason.OnUncertainAction?)
    || (call.Resume? && call.target.ToReady?)
    || call.Complete? || call.Cancel? || call.Abandon?
  }

  function HolderError(d: Draft, worker: WorkerId, epoch: nat): Option<DomainError> {
    if d.claim == None then Some(NotClaimed)
    else if d.claim.value.worker != worker then Some(ClaimOwnerMismatch)
    else if d.claim.value.epoch != epoch then Some(StaleEpoch)
    else None
  }

  /** Why a call is refused, if it is. */
  function Refusal(d: Draft, call: Call): Option<DomainError> {
    var standing :=
      if call.ClaimFor? && d.claim.Some? then Some(CommitmentAlreadyClaimed)
      else if call.Resume? && d.state.Waiting? && d.state.reason.OnUncertainAction?
        then Some(RecoveryRequired(d.state.reason.action))
      else if NeedsHolder(call) then HolderError(d, call.worker, call.epoch)
      else None;
    if standing.Some? then standing
    else if !LegalTransition(d.state, Target(call)) then ValidateTransition(d.state, Target(call))
    else if call.ClaimFor? && d.lastEpoch >= MAX_U64 then Some(EpochExhausted)
    else None
  }

  /** The snapshot after an accepted call. */
  function Perform(d: Draft, call: Call): Draft {
    var moved := d.(state := Target(call));
    if call.ClaimFor? then
      moved.(claim := Some(Lease(call.worker, d.lastEpoch + 1, call.heartbeat)), lastEpoch := d.lastEpoch + 1)
    else if DropsClaim(call) then moved.(claim := None)
    else moved
  }

  /** A call either is refused and changes nothing, or takes its whole effect. */
  predicate Answers(before: Draft, call: Call, error: Option<DomainError>, after: Draft) {
    && error == Refusal(before, call)
    && after == if error == None then Perform(before, call) else before
  }

  // ---- what calls keep ----

  /** The claim is there exactly if the state requires one, and is the latest. */
  predicate ClaimFitsState(d: Draft) {
    && (RequiresClaim(d.state) <==> d.claim.Some?)
    && (d.claim.Some? ==> 0 < d.claim.value.epoch == d.lastEpoch)
  }

  /** Activating work that waits, other than on an uncertain action: the
      topology allows the edge, but `activate` keeps the claim. */
  predicate StrandsClaim(d: Draft, call: Call) {
    call.Activate? && d.state.Waiting? && !d.state.reason.OnUncertainAction?
  }

  /** Main result: every accepted call keeps claim and state in agreement, with
      that one exception, which always breaks it. */
  lemma AgreementKeptIff(d: Draft, call: Call)
    requires ClaimFitsState(d) && Refusal(d, call) == None
    ensures ClaimFitsState(Perform(d, call)) <==> !StrandsClaim(d, call)
  {
    hide ValidateTransition;
  }

  /** A sequence of calls, refused ones changing nothing. */
  function PerformAll(d: Draft, calls: seq<Call>): Draft
    decreases |calls|
  {
    if calls == [] then d
    else
      var mid := PerformAll(d, calls[..|calls| - 1]);
      if Refusal(mid, calls[|calls| - 1]) == None then Perform(mid, calls[|calls| - 1]) else mid
  }

  predicate NeverStrands(d: Draft, calls: seq<Call>) {
    forall i :: 0 <= i < |calls| && Refusal(PerformAll(d, calls[..i]), calls[i]) == None ==>
      !StrandsClaim(PerformAll(d, calls[..i]), calls[i])
  }

  lemma CallMovesForward(d: Draft, call: Call)
    requires Refusal(d, call) == None
    ensures !IsTerminal(d.state) && LegalTransition(d.state, Perform(d, call).state)
    ensures d.lastEpoch <= Perform(d, call).lastEpoch
  {
  }

  /** So a history of any length keeps agreement unless it strands a claim; its
      epoch never goes back, and a terminal state is final. */
  lemma {:induction false} HistoryKeepsAgreement(d: Draft, calls: seq<Call>)
    requires ClaimFitsState(d) && NeverStrands(d, calls)
    ensures ClaimFitsState(PerformAll(d, calls))
    ensures d.lastEpoch <= PerformAll(d, calls).lastEpoch
    ensures IsTerminal(d.state) ==> PerformAll(d, calls) == d
    decreases |calls|
  {
    hide ClaimFitsState, StrandsClaim, Refusal, Perform, IsTerminal;
    if calls != [] {
      var k := |calls| - 1;
      assert forall i :: 0 <= i < k ==> calls[..k][..i] == calls[..i];
      HistoryKeepsAgreement(d, calls[..k]);
      var mid := PerformAll(d, calls[..k]);
      if Refusal(mid, calls[k]) == None {
        AgreementKeptIff(mid, calls[k]);
        CallMovesForward(mid, calls[k]);
      }
    }
  }

  const STRANDED := Draft(CommitmentId("c"), GoalId("g"), None, Brief("work", []), Waiting(OnExternal("mail")), [],
                          Some(Lease(WorkerId("w"), 1, 0)), None, 1)

  /** A concrete history: waiting work is activated and ready while still claimed. */
  lemma ActivateStrandsClaim()
    ensures ClaimFitsState(STRANDED) && Refusal(STRANDED, Activate) == None
    ensures Perform(STRANDED, Activate).state.Ready? && Perform(STRANDED, Activate).claim.Some?
    ensures !ClaimFitsState(Perform(STRANDED, Activate))
  {
    AgreementKeptIff(STRANDED, Activate);
  }

  /** What a stored snapshot must satisfy to be rehydrated. */
  predicate Restorable(d: Draft) {
    && (d.claim.Some? ==> d.claim.value.epoch == d.lastEpoch)
    && (RequiresClaim(d.state) <==> d.claim.Some?)
    && (d.outstanding.Some? ==>
          || d.state.Working? || d.state.RecoveryPending?
          || d.state == Waiting(OnUncertainAction(d.outstanding.value)))
  }

  /** The claim that a caller must hold to act. */
  predicate LeasedTo(claim: Option<Lease>, worker: WorkerId, epoch: nat) {
    claim.Some? && claim.value.worker == worker && claim.value.epoch == epoch
  }

  class Commitment {
    const id: CommitmentId
    const goal: GoalId
    const parent: Option<CommitmentId>
    const brief: Brief
    const prerequisites: seq<Prerequisite>
    var state: CommitmentState
    var claim: Option<Lease>
    var outstanding: Option<ActionRef>
    var lastEpoch: nat

    function Snapshot(): Draft
      reads this
    {
      Draft(id, goal, parent, brief, state, prerequisites, claim, outstanding, lastEpoch)
    }

    constructor (id: CommitmentId, goal: GoalId, parent: Option<CommitmentId>, brief: Brief,
                 prerequisites: seq<Prerequisite>)
      ensures Snapshot() == Draft(id, goal, parent, brief, Proposed, prerequisites, None, None, 0)
      ensures ClaimFitsState(Snapshot()) && Restorable(Snapshot())
    {
      this.id, this.goal, this.parent, this.brief, this.prerequisites := id, goal, parent, brief, prerequisites;
      state, claim, outstanding, lastEpoch := Proposed, None, None, 0;
    }

    constructor FromSnapshot(d: Draft)
      ensures Snapshot() == d
    {
      id, goal, parent, brief, prerequisites := d.id, d.goal, d.parent, d.brief, d.prerequisites;
      state, claim, outstanding, lastEpoch := d.state, d.claim, d.outstanding, d.lastEpoch;
    }

    /** Rehydrates a stored snapshot once its claim and action fit its state. */
    static method Restore(d: Draft) returns (commitment: Commitment?)
      ensures commitment != null <==> Restorable(d)
      ensures commitment != null ==> fresh(commitment) && commitment.Snapshot() == d
    {
      if d.claim.Some? && d.claim.value.epoch != d.lastEpoch { return null; }
      if RequiresClaim(d.state) != d.claim.Some? { return null; }
      if d.outstanding.Some? {
        match d.state {
          case Working =>
          case RecoveryPending =>
          case Waiting(reason) =>
            if reason != OnUncertainAction(d.outstanding.value) { return null; }
          case _ => return null;
        }
      }
      if d.state.Waiting? && d.state.reason.OnUncertainAction? && d.claim.Some? { return null; }
      commitment := new Commitment.FromSnapshot(d);
    }

    method TransitionTo(next: CommitmentState) returns (error: Option<DomainError>)
      modifies this`state
      ensures error == ValidateTransition(old(state), next)
      ensures state == if error == None then next else old(state)
    {
      error := ValidateTransition(state, next);
      if error == None { state := next; }
    }

    method RequireCurrentClaim(worker: WorkerId, epoch: nat) returns (error: Option<DomainError>)
      ensures error == HolderError(Snapshot(), worker, epoch)
      ensures error == None <==> LeasedTo(claim, worker, epoch)
      ensures error == Some(NotClaimed) <==> claim == None
      ensures error == Some(ClaimOwnerMismatch) <==> claim.Some? && claim.value.worker != worker
      ensures error == Some(StaleEpoch) <==> claim.Some? && claim.value.worker == worker && claim.value.epoch != epoch
    {
      if claim == None { return Some(NotClaimed); }
      if claim.value.worker != worker { return Some(ClaimOwnerMismatch); }
      if claim.value.epoch != epoch { return Some(StaleEpoch); }
      return None;
    }

    method DoActivate() returns (error: Option<DomainError>)
      modifies this
      ensures Answers(old(Snapshot()), Activate, error, Snapshot())
      ensures error == None <==> old(state).Proposed? || old(state).Waiting? || old(state).RecoveryPending?
      ensures error == None ==> Snapshot() == old(Snapshot()).(state := Ready)
      ensures error.Some? ==> Snapshot() == old(Snapshot())
    {
      error := TransitionTo(Ready);
    }

    method DoClaimFor(worker: WorkerId, heartbeat: nat) returns (error: Option<DomainError>)
      modifies this
      ensures Answers(old(Snapshot()), ClaimFor(worker, heartbeat), error, Snapshot())
      ensures error == None <==> old(claim) == None && old(state).Ready? && old(lastEpoch) < MAX_U64
      ensures error == Some(CommitmentAlreadyClaimed) <==> old(claim).Some?
      ensures error == Some(EpochExhausted) <==> old(claim) == None && old(state).Ready? && MAX_U64 <= old(lastEpoch)
      ensures error == None ==>
        Snapshot() == old(Snapshot()).(state := Claimed, claim := Some(Lease(worker, old(lastEpoch) + 1, heartbeat)),
                                       lastEpoch := old(lastEpoch) + 1)
      ensures error.Some? ==> Snapshot() == old(Snapshot())
    {
      if claim.Some? { return Some(CommitmentAlreadyClaimed); }
      error := ValidateTransition(state, Claimed);
      if error.Some? { return; }
      if lastEpoch >= MAX_U64 { return Some(EpochExhausted); }
      lastEpoch := lastEpoch + 1;
      claim := Some(Lease(worker, lastEpoch, heartbeat));
      state := Claimed;
    }

    method DoStart(worker: WorkerId, epoch: nat) returns (error: Option<DomainError>)
      modifies this
      ensures Answers(old(Snapshot()), Start(worker, epoch), error, Snapshot())
      ensures error == None <==> old(LeasedTo(claim, worker, epoch)) && (old(state).Claimed? || old(state).Waiting?)
      ensures error == None ==> Snapshot() == old(Snapshot()).(state := Working)
      ensures error.Some? ==> Snapshot() == old(Snapshot())
    {
      error := RequireCurrentClaim(worker, epoch);
      if error.Some? { return; }
      error := TransitionTo(Working);
    }

    method DoWait(worker: WorkerId, epoch: nat, reason: WaitingReason) returns (error: Option<DomainError>)
      modifies this
      ensures Answers(old(Snapshot()), Wait(worker, epoch, reason), error, Snapshot())
      ensures error == None <==> old(LeasedTo(claim, worker, epoch)) && (old(state).Working? || old(state).RecoveryPending?)
      ensures error == None ==>
        Snapshot() == old(Snapshot()).(state := Waiting(reason), claim := if reason.OnUncertainAction? then None else old(claim))
      ensures error.Some? ==> Snapshot() == old(Snapshot())
    {
      error := RequireCurrentClaim(worker, epoch);
      if error.Some? { return; }
      error := TransitionTo(Waiting(reason));
      if error.Some? { return; }
      if reason.OnUncertainAction? { claim := None; }
    }

    method DoResume(worker: WorkerId, epoch: nat, target: ResumeTarget) returns (error: Option<DomainError>)
      modifies this
      ensures Answers(old(Snapshot()), Resume(worker, epoch, target), error, Snapshot())
      ensures error == None <==>
        && old(LeasedTo(claim, worker, epoch)) && !(old(state).Waiting? && old(state).reason.OnUncertainAction?)
        && if target.ToReady? then old(state).Proposed? || old(state).Waiting? || old(state).RecoveryPending?
           else old(state).Claimed? || old(state).Waiting?
      ensures forall action ::
        error == Some(RecoveryRequired(action)) <==> old(state) == Waiting(OnUncertainAction(action))
      ensures error == None ==>
        Snapshot() == if target.ToReady? then old(Snapshot()).(state := Ready, claim := None)
                      else old(Snapshot()).(state := Working)
      ensures error.Some? ==> Snapshot() == old(Snapshot())
    {
      if state.Waiting? && state.reason.OnUncertainAction? { return Some(RecoveryRequired(state.reason.action)); }
      error := RequireCurrentClaim(worker, epoch);
      if error.Some? { return; }
      error := TransitionTo(if target.ToReady? then Ready else Working);
      if error.Some? { return; }
      if target.ToReady? { claim := None; }
    }

    method DoProposeCompletion(worker: WorkerId, epoch: nat) returns (error: Option<DomainError>)
      modifies this
      ensures Answers(old(Snapshot()), ProposeCompletion(worker, epoch), error, Snapshot())
      ensures error == None <==> old(LeasedTo(claim, worker, epoch)) && old(state).Working?
      ensures error == None ==> Snapshot() == old(Snapshot()).(state := CompletionProposed)
      ensures error.Some? ==> Snapshot() == old(Snapshot())
    {
      error := RequireCurrentClaim(worker, epoch);
      if error.Some? { return; }
      error := TransitionTo(CompletionProposed);
    }

    method DoComplete(worker: WorkerId, epoch: nat) returns (error: Option<DomainError>)
      modifies this
      ensures Answers(old(Snapshot()), Complete(worker, epoch), error, Snapshot())
      ensures error == None <==> old(LeasedTo(claim, worker, epoch)) && old(state).CompletionProposed?
      ensures error == None ==> Snapshot() == old(Snapshot()).(state := Completed, claim := None)
      ensures error.Some? ==> Snapshot() == old(Snapshot())
    {
      error := RequireCurrentClaim(worker, epoch);
      if error.Some? { return; }
      error := TransitionTo(Completed);
      if error.Some? { return; }
      claim := None;
    }

    method DoCancel() returns (error: Option<DomainError>)
      modifies this
      ensures Answers(old(Snapshot()), Cancel, error, Snapshot())
      ensures error == None <==> !old(state).Completed? && !old(state).Cancelled? && !old(state).Abandoned?
      ensures error == None ==> Snapshot() == old(Snapshot()).(state := Cancelled, claim := None)
      ensures error.Some? ==> Snapshot() == old(Snapshot())
    {
      error := TransitionTo(Cancelled);
      if error.Some? { return; }
      claim := None;
    }

    method DoAbandon() returns (error: Option<DomainError>)
      modifies this
      ensures Answers(old(Snapshot()), Abandon, error, Snapshot())
      ensures error == None <==> !old(state).Completed? && !old(state).Cancelled? && !old(state).Abandoned?
      ensures error == None ==> Snapshot() == old(Snapshot()).(state := Abandoned, claim := None)
      ensures error.Some? ==> Snapshot() == old(Snapshot())
    {
      error := TransitionTo(Abandoned);
      if error.Some? { return; }
      claim := None;
    }
  }
}
