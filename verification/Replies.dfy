/** Which answer each request gets: the first check of the code that fails, in
    the order in which the code makes them, and the proof that no check fails
    exactly when the mutation is allowed. */
module Replies {
  import opened Domain
  import opened Aggregates
  import opened Database
  import opened Mutations
  import opened Cascade
  import opened Outcomes
  import opened Planning
  import opened TableFacts
  import Acyclic

  /** The result of an operation that returns nothing. */
  function Unless(refusal: Option<StoreError>): Result<()> {
    if refusal.Some? then Err(refusal.value) else Ok(())
  }

  // ---- guards ----

  datatype GuardAdmission = AdmittedNow | AlreadyAdmitted

  /** The answer to an admission request, in the order the conditions are checked. */
  function AdmissionReply(db: Db, g: GuardId, scopes: set<ScopeKey>, action: ActionRef, digest: Option<Digest>,
                          now: nat): Result<GuardAdmission>
  {
    if now > MAX_I64 then Err(InvalidMutation)
    else if g !in db.guards then Err(NotFound)
    else if db.guards[g].state.Admitted? && db.guards[g].state.action != action then Err(AdmissionRejected(GuardAlreadyBound))
    else if db.guards[g].state.Admitted? && db.guards[g].state.digest != digest then Err(AdmissionRejected(PreparationMismatch))
    else if db.guards[g].state.Admitted? && db.guards[g].scopes == scopes then Ok(AlreadyAdmitted)
    else if db.guards[g].state.Admitted? then Err(AdmissionRejected(ScopeKeysMismatch))
    else if !db.guards[g].state.Issued? then Err(AdmissionRejected(GuardRevoked))
    else if db.guards[g].state.deadline <= now then Err(AdmissionRejected(GuardExpired))
    else if db.guards[g].scopes != scopes then Err(AdmissionRejected(ScopeKeysMismatch))
    else if db.guards[g].commitment !in db.commitments then Err(NotFound)
    else
      var c := db.guards[g].commitment;
      var row := db.commitments[c];
      if !row.state.Working? then Err(AdmissionRejected(TaskNotActive))
      else if row.outstanding.Some? then Err(AdmissionRejected(ActionMismatch))
      else if c !in db.claims || db.claims[c].epoch != db.guards[g].epoch then Err(AdmissionRejected(FenceChanged))
      else if row.version >= MAX_I64 then Err(InvalidMutation)
      else if exists h :: h in db.guards && ActionOf(db.guards[h].state) == Some(action) then Err(ConstraintFailed)
      else Ok(AdmittedNow)
  }

  /** The reply grants admission exactly when the mutation is allowed. */
  lemma AdmissionReplyIsExact(db: Db, g: GuardId, scopes: set<ScopeKey>, action: ActionRef, digest: Option<Digest>,
                              now: nat)
    requires Inv(db)
    ensures AdmissionReply(db, g, scopes, action, digest, now) == Ok(AdmittedNow) <==> MayAdmit(db, g, scopes, action, now)
  {
    hide Inv;
    if g in db.guards {
      GuardHasCommitment(db, g);
    }
  }

  /** Why a request is refused before its scopes are looked at. */
  function IssueRefusal(db: Db, r: IssueRequest): Option<StoreError> {
    var c, fence := r.commitment, r.fence;
    if fence.now > MAX_I64 || fence.epoch > MAX_I64 then Some(InvalidMutation)
    else if c !in db.commitments then Some(NotFound)
    else if !db.commitments[c].state.Claimed? && !db.commitments[c].state.Working? then Some(GuardInvalid)
    else if db.commitments[c].outstanding.Some? then Some(GuardInvalid)
    else if c !in db.claims then Some(ClaimMismatch)
    else if db.claims[c].worker != fence.worker || db.claims[c].epoch != fence.epoch then Some(ClaimMismatch)
    else if r.boot != db.boot then Some(ClaimMismatch)
    else if db.claims[c].heartbeat + fence.lease > MAX_U64 then Some(OfDomain(TimeOverflow))
    else if LeaseOver(db.claims[c], fence.now, fence.lease) then Some(LeaseElapsed)
    else if fence.now + r.ttl > MAX_U64 then Some(OfDomain(TimeOverflow))
    else if ReservationDeadline(db.claims[c], fence, r.ttl) > MAX_I64 then Some(InvalidMutation)
    else None
  }

  lemma IssueRefusalIsExact(db: Db, r: IssueRequest)
    requires Inv(db) && r.scopes != {}
    ensures MayRequest(db, r) <==> IssueRefusal(db, r) == None && r.guard !in db.guards
  {
    hide Inv;
    if r.commitment in db.commitments {
      ClaimFacts(db, r.commitment);
    }
  }

  function InvalidationRefusal(db: Db, g: GuardId, fence: Fence): Option<StoreError> {
    if fence.now > MAX_I64 then Some(InvalidMutation)
    else if g !in db.guards then Some(NotFound)
    else if !db.guards[g].state.Issued? then Some(GuardInvalid)
    else if db.guards[g].state.deadline <= fence.now then Some(LeaseElapsed)
    else if db.guards[g].commitment !in db.claims then Some(ClaimMismatch)
    else
      var claim := db.claims[db.guards[g].commitment];
      if claim.heartbeat + fence.lease > MAX_U64 then Some(OfDomain(TimeOverflow))
      else if LeaseOver(claim, fence.now, fence.lease) then Some(LeaseElapsed)
      else if claim.worker != fence.worker then Some(ClaimMismatch)
      else if fence.epoch > MAX_I64 then Some(InvalidMutation)
      else if claim.epoch != fence.epoch then Some(ClaimMismatch)
      else None
  }

  lemma InvalidationRefusalIsExact(db: Db, g: GuardId, fence: Fence)
    requires Inv(db)
    ensures MayInvalidate(db, g, fence) <==> InvalidationRefusal(db, g, fence) == None
  {
    hide Inv;
    if g in db.guards {
      GuardHasCommitment(db, g);
      ClaimFacts(db, db.guards[g].commitment);
    }
  }

  // ---- leases ----

  datatype HeartbeatResult = Beaten | AlreadyCurrent

  function HeartbeatReply(db: Db, c: CommitmentId, fence: Fence): Result<HeartbeatResult> {
    if fence.now > MAX_I64 || fence.epoch > MAX_I64 then Err(InvalidMutation)
    else if c !in db.commitments || c !in db.claims then Err(ClaimMismatch)
    else
      var claim := db.claims[c];
      if claim.worker != fence.worker || claim.epoch != fence.epoch then Err(ClaimMismatch)
      else if claim.heartbeat + fence.lease > MAX_U64 then Err(OfDomain(TimeOverflow))
      else if LeaseOver(claim, fence.now, fence.lease) then Err(LeaseElapsed)
      else if fence.now < claim.heartbeat then Err(InvalidMutation)
      else if fence.now == claim.heartbeat then Ok(AlreadyCurrent)
      else Ok(Beaten)
  }

  /** A heartbeat is taken exactly when it moves a live claim forward, and is
      current exactly when a live claim already stands there. */
  lemma HeartbeatReplyIsExact(db: Db, c: CommitmentId, fence: Fence)
    requires Inv(db)
    ensures HeartbeatReply(db, c, fence) == Ok(Beaten) <==> MayBeat(db, c, fence)
    ensures HeartbeatReply(db, c, fence) == Ok(AlreadyCurrent) <==>
              Holds(db, c, fence) && db.claims[c].heartbeat == fence.now
  {
    hide Inv;
    if c in db.commitments {
      ClaimFacts(db, c);
    }
  }

  // ---- persistence ----

  /** A claim that is kept may not be rewritten, a new one only opens the next epoch. */
  function ClaimRefusal(db: Db, d: Draft): Option<StoreError>
    requires d.id in db.commitments
  {
    var row := db.commitments[d.id];
    if RequiresClaim(d.state) != d.claim.Some? then Some(InvalidMutation)
    else if d.id in db.claims && d.claim.Some? then
      var current := db.claims[d.id];
      if d.claim.value != Lease(current.worker, current.epoch, current.heartbeat) then Some(ClaimMismatch)
      else if row.highWater != current.epoch || d.lastEpoch != row.highWater then Some(InvalidPersistedData)
      else None
    else if d.claim.Some? then
      if !row.state.Ready? || !d.state.Claimed? then Some(ClaimMismatch)
      else if row.highWater >= MAX_I64 then Some(InvalidMutation)
      else if d.claim.value.epoch != row.highWater + 1 || d.lastEpoch != row.highWater + 1 then Some(OfDomain(StaleEpoch))
      else None
    else if d.lastEpoch != row.highWater then Some(InvalidMutation)
    else None
  }

  function CandidateRefusal(db: Db, d: Draft, expected: nat, event: WorkEvent): Option<StoreError> {
    if EventCommitment(event) != Some(d.id) then Some(InvalidMutation)
    else if d.id !in db.commitments then Some(NotFound)
    else
      var row := db.commitments[d.id];
      if row.version != expected then Some(VersionConflict)
      else if (row.goal, row.parent, row.brief, row.prerequisites) != (d.goal, d.parent, d.brief, d.prerequisites)
        then Some(InvalidMutation)
      else if row.outstanding.Some? then Some(OutstandingAction(row.outstanding.value))
      else if row.replacement.Some? && !IsTerminal(row.state) && !d.state.Cancelled? && !d.state.Abandoned?
        then Some(OfDomain(InvalidStructuralProposal))
      else if d.outstanding.Some? then Some(InvalidMutation)
      else if IsTerminal(row.state) then Some(OfDomain(TerminalCommitmentImmutable))
      else if !LegalTransition(row.state, d.state) then Some(OfDomain(InvalidTransition))
      else if !EventDescribes(event, d.state) then Some(InvalidMutation)
      else if ClaimRefusal(db, d).Some? then ClaimRefusal(db, d)
      else if expected >= MAX_I64 then Some(InvalidMutation)
      else if d.claim.Some? && d.claim.value.heartbeat > MAX_I64 then Some(ConstraintFailed)
      else None
  }

  lemma ClaimRefusalIsExact(db: Db, d: Draft)
    requires d.id in db.commitments
    ensures ClaimPersists(db, d) <==> ClaimRefusal(db, d) == None
  {
  }

  lemma CandidateRefusalIsExact(db: Db, d: Draft, expected: nat, event: WorkEvent)
    ensures MayPersistRow(db, d, expected, event) <==> CandidateRefusal(db, d, expected, event) == None
  {
    hide ClaimPersists, ClaimRefusal, EventDescribes;
    if d.id in db.commitments {
      ClaimRefusalIsExact(db, d);
    }
  }

  // ---- recovery ----

  function RecoveryRefusal(db: Db, c: CommitmentId): Option<StoreError> {
    if c !in db.commitments then Some(NotFound)
    else if !db.commitments[c].state.RecoveryPending? || db.commitments[c].outstanding.Some?
            || c in db.claims || !HoldsNoLock(db.locks, c) then Some(RecoveryBlocked)
    else if db.commitments[c].replacement.Some? then
      if db.commitments[c].replacement.value !in db.commitments then Some(InvalidPersistedData)
      else if !db.commitments[db.commitments[c].replacement.value].state.Completed? then Some(RecoveryBlocked)
      else if !CascadeFits(db.commitments, db.commitments[c].replacement.value) then Some(InvalidMutation)
      else None
    else if db.commitments[c].version >= MAX_I64 then Some(InvalidMutation)
    else None
  }

  lemma RecoveryRefusalIsExact(db: Db, c: CommitmentId)
    ensures MayRelease(db, c) || BarrierIsOver(db, c) <==> RecoveryRefusal(db, c) == None
  {
    hide CascadeFits;
  }

  // ---- outcomes ----

  /** The answer to a delivery for `g`, unless a first recording finds the version space exhausted. */
  predicate DeliveredTo(db: Db, g: GuardId, outcome: Outcome, digest: Option<Digest>, result: Result<Recording>)
    requires g in db.guards
  {
    var reply := Reply(db.guards[g].state, outcome, digest);
    if reply != Ok(Recorded) then result == reply
    else
      && db.guards[g].commitment in db.commitments
      && result == if db.commitments[db.guards[g].commitment].version < MAX_I64 then reply else Err(InvalidMutation)
  }

  lemma DeliveryFound(db: Db, g: GuardId, outcome: Outcome, digest: Option<Digest>, result: Result<Recording>)
    requires g in db.guards && DeliveredTo(db, g, outcome, digest, result)
    ensures result != Err(NotFound)
  {
  }

  // ---- structural proposals ----

  function TargetRefusal(db: Db, p: Proposal, fence: Fence): Option<StoreError> {
    if p.target !in db.commitments then Some(NotFound)
    else
      var row := db.commitments[p.target];
      if IsTerminal(row.state) then Some(OfDomain(TerminalCommitmentImmutable))
      else if row.state.RecoveryPending? || (row.state.Waiting? && row.state.reason.OnUncertainAction?)
        then Some(OfDomain(InvalidStructuralProposal))
      else if !RequiresClaim(row.state) then Some(ClaimMismatch)
      else if p.Decomposition? && !row.state.Working? then Some(OfDomain(InvalidStructuralProposal))
      else if !p.Abandonment? && row.replacement.Some? then Some(OfDomain(InvalidStructuralProposal))
      else if row.outstanding.Some? then Some(OutstandingAction(row.outstanding.value))
      else if p.target !in db.claims then Some(ClaimMismatch)
      else if p.epoch > MAX_I64 then Some(InvalidMutation)
      else
        var claim := db.claims[p.target];
        if claim.epoch != p.epoch || claim.worker != fence.worker then Some(ClaimMismatch)
        else if claim.heartbeat + fence.lease > MAX_U64 then Some(OfDomain(TimeOverflow))
        else if LeaseOver(claim, fence.now, fence.lease) then Some(LeaseElapsed)
        else None
  }

  lemma TargetRefusalIsExact(db: Db, p: Proposal, fence: Fence)
    requires Inv(db) && fence.epoch == p.epoch && fence.now <= MAX_I64
    ensures TargetReady(db, p, fence) <==> TargetRefusal(db, p, fence) == None
  {
    hide Inv;
    if p.target in db.commitments {
      ClaimFacts(db, p.target);
    }
  }

  ghost function ChildrenRefusal(cs: Commitments, target: CommitmentId, children: seq<NewCommitment>,
                                 terminal: CommitmentId): Option<StoreError>
    requires target in cs
  {
    if (exists i :: 0 <= i < |children| && children[i].id in cs)
       || (exists i :: 0 <= i < |children|
             && !(Dependencies(children[i].prerequisites) <= cs.Keys + Ids(ChildIds(children))))
      then Some(OfDomain(InvalidStructuralProposal))
    else if !Acyclic.IsAcyclic(CandidateGraph(cs, target, children, terminal)) then Some(OfDomain(DependencyCycle))
    else if !InListOrder(cs, children) then Some(ConstraintFailed)
    else if cs[target].version >= MAX_I64 then Some(InvalidMutation)
    else None
  }

  ghost function PrerequisiteRefusal(cs: Commitments, target: CommitmentId, prerequisite: Prerequisite)
    : Option<StoreError>
    requires target in cs
  {
    if prerequisite in cs[target].prerequisites || (prerequisite.NeedsCommitment? && prerequisite.id !in cs)
      then Some(OfDomain(InvalidStructuralProposal))
    else if !Acyclic.IsAcyclic(GraphOf(cs[target := Requiring(cs[target], prerequisite)]))
      then Some(OfDomain(DependencyCycle))
    else if cs[target].version >= MAX_I64 then Some(InvalidMutation)
    else None
  }

  ghost function ChangeRefusal(db: Db, p: Proposal): Option<StoreError> {
    if p.target !in db.commitments then Some(NotFound)
    else
      match p
      case Decomposition(target, _, children, terminal) => ChildrenRefusal(db.commitments, target, children, terminal)
      case AddPrerequisite(target, _, prerequisite) => PrerequisiteRefusal(db.commitments, target, prerequisite)
      case Abandonment(target, _, _) => if db.commitments[target].version >= MAX_I64 then Some(InvalidMutation) else None
  }

  lemma GraphKeys(cs: Commitments)
    ensures GraphOf(cs).Keys == cs.Keys
  {
  }

  /** No check on the change fails exactly when the change fits. */
  lemma ChangeRefusalIsExact(db: Db, p: Proposal)
    ensures ChangeFits(db, p) <==> ChangeRefusal(db, p) == None
  {
    hide Acyclic.IsAcyclic, GraphOf, CandidateGraph, Dependencies;
    if p.Decomposition? && p.target in db.commitments {
      FreshChildren(GraphOf(db.commitments), p.children);
      assert GraphOf(db.commitments).Keys == db.commitments.Keys by { GraphKeys(db.commitments); }
      if InListOrder(db.commitments, p.children) {
        OrderedIsKnown(db.commitments, p.children);
      }
    }
  }

  lemma ChangeRefusalAfterSweep(db: Db, mid: Db, p: Proposal)
    requires mid.commitments == db.commitments
    ensures ChangeRefusal(mid, p) == ChangeRefusal(db, p)
  {
  }

  /** The answer to a proposal that is not applied. */
  ghost function ProposalRefusal(db: Db, p: Proposal, worker: WorkerId, asOf: nat, now: nat, lease: nat): Option<StoreError> {
    var fence := Fence(worker, p.epoch, now, lease);
    if !WellShaped(p) then Some(OfDomain(InvalidStructuralProposal))
    else if now > MAX_I64 then Some(InvalidMutation)
    else if asOf != db.boot then Some(ClaimMismatch)
    else if TargetRefusal(db, p, fence).Some? then TargetRefusal(db, p, fence)
    else if !NoLiveReservation(db.guards, p.target, now) then Some(GuardInvalid)
    else ChangeRefusal(db, p)
  }
}
