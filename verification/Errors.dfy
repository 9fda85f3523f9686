/** Which error a caller gets, said by the tables alone: for every request the
    condition under which each error is the answer. */
module Errors {
  import opened Domain
  import opened Aggregates
  import opened Database
  import opened Mutations
  import opened Planning
  import opened Cascade
  import opened TableFacts
  import opened Replies
  import Acyclic

  /** The current claim on `c` is this worker's at this epoch. */
  predicate Owns(db: Db, c: CommitmentId, worker: WorkerId, epoch: nat) {
    c in db.claims && db.claims[c].worker == worker && db.claims[c].epoch == epoch
  }

  lemma IssueErrors(db: Db, r: IssueRequest)
    requires Inv(db)
    ensures r.fence.now > MAX_I64 || r.fence.epoch > MAX_I64 ==> IssueRefusal(db, r) == Some(InvalidMutation)
    ensures r.fence.now <= MAX_I64 && r.fence.epoch <= MAX_I64 ==>
      var error := IssueRefusal(db, r);
      var c, now, lease := r.commitment, r.fence.now, r.fence.lease;
      && (error == Some(NotFound) <==> c !in db.commitments)
      && (c in db.commitments ==>
            var row := db.commitments[c];
            var active := (row.state.Claimed? || row.state.Working?) && row.outstanding == None;
            && (error == Some(GuardInvalid) <==> !active)
            && (active ==>
                  var own := Owns(db, c, r.fence.worker, r.fence.epoch) && r.boot == db.boot;
                  && (error == Some(ClaimMismatch) <==> !own)
                  && (own ==>
                        var end := db.claims[c].heartbeat + lease;
                        && (error == Some(LeaseElapsed) <==> end <= now && end <= MAX_U64)
                        && (error == Some(OfDomain(TimeOverflow)) <==>
                              end > MAX_U64 || (now < end && now + r.ttl > MAX_U64))
                        && (now < end <= MAX_U64 && now + r.ttl <= MAX_U64 ==>
                              (error == None <==> now + r.ttl <= MAX_I64 || end <= MAX_I64)))))
  {
    hide Inv;
    if r.commitment in db.commitments {
      ClaimFacts(db, r.commitment);
    }
  }

  /** Why a live reservation is not admitted, past the checks of the guard itself. */
  lemma AdmissionErrors(db: Db, g: GuardId, scopes: set<ScopeKey>, action: ActionRef, digest: Option<Digest>, now: nat)
    requires Inv(db) && g in db.guards && db.guards[g].state.Issued?
    requires now < db.guards[g].state.deadline && now <= MAX_I64
    ensures
      var reply := AdmissionReply(db, g, scopes, action, digest, now);
      var guard := db.guards[g];
      && (reply == Err(AdmissionRejected(ScopeKeysMismatch)) <==> guard.scopes != scopes)
      && (guard.scopes == scopes ==>
            && guard.commitment in db.commitments
            && var row := db.commitments[guard.commitment];
               && (reply == Err(AdmissionRejected(TaskNotActive)) <==> !row.state.Working?)
               && (reply == Err(AdmissionRejected(ActionMismatch)) <==> row.state.Working? && row.outstanding.Some?)
               && (row.state.Working? && row.outstanding == None ==>
                     && (reply == Err(AdmissionRejected(FenceChanged)) <==> row.highWater != guard.epoch)
                     && (row.highWater == guard.epoch ==>
                           && (reply == Err(InvalidMutation) <==> row.version >= MAX_I64)
                           && (row.version < MAX_I64 ==>
                                 reply == if CarriesAction(db.guards, action) then Err(ConstraintFailed)
                                          else Ok(AdmittedNow)))))
  {
    hide Inv;
    GuardHasCommitment(db, g);
    ClaimFacts(db, db.guards[g].commitment);
  }

  lemma InvalidationErrors(db: Db, g: GuardId, fence: Fence)
    requires Inv(db)
    ensures fence.now > MAX_I64 ==> InvalidationRefusal(db, g, fence) == Some(InvalidMutation)
    ensures fence.now <= MAX_I64 && fence.epoch <= MAX_I64 ==>
      var error := InvalidationRefusal(db, g, fence);
      && (error == Some(NotFound) <==> g !in db.guards)
      && (g in db.guards ==>
            && (error == Some(GuardInvalid) <==> !db.guards[g].state.Issued?)
            && (db.guards[g].state.Issued? ==>
                  var c := db.guards[g].commitment;
                  var over := db.guards[g].state.deadline <= fence.now;
                  && (c !in db.claims ==> error == if over then Some(LeaseElapsed) else Some(ClaimMismatch))
                  && (c in db.claims ==>
                        var end := db.claims[c].heartbeat + fence.lease;
                        && (error == Some(LeaseElapsed) <==> over || (end <= fence.now && end <= MAX_U64))
                        && (error == Some(OfDomain(TimeOverflow)) <==> !over && end > MAX_U64)
                        && (!over && fence.now < end <= MAX_U64 ==>
                              error == if Owns(db, c, fence.worker, fence.epoch) then None else Some(ClaimMismatch)))))
  {
  }

  lemma HeartbeatAnswers(db: Db, c: CommitmentId, fence: Fence)
    requires Inv(db)
    ensures fence.now > MAX_I64 || fence.epoch > MAX_I64 ==> HeartbeatReply(db, c, fence) == Err(InvalidMutation)
    ensures fence.now <= MAX_I64 && fence.epoch <= MAX_I64 ==>
      var reply := HeartbeatReply(db, c, fence);
      && (reply == Err(ClaimMismatch) <==> !Owns(db, c, fence.worker, fence.epoch))
      && (Owns(db, c, fence.worker, fence.epoch) ==>
            var last := db.claims[c].heartbeat;
            var end := last + fence.lease;
            && (reply == Err(OfDomain(TimeOverflow)) <==> end > MAX_U64)
            && (reply == Err(LeaseElapsed) <==> end <= fence.now && end <= MAX_U64)
            && (fence.now < end <= MAX_U64 ==>
                  && (reply == Err(InvalidMutation) <==> fence.now < last)
                  && (reply == Ok(AlreadyCurrent) <==> fence.now == last)
                  && (reply == Ok(Beaten) <==> fence.now > last)))
  {
    hide Inv;
    if c in db.claims {
      ClaimIsRegular(db, c);
    }
  }

  lemma CandidateErrors(db: Db, d: Draft, expected: nat, event: WorkEvent)
    requires EventCommitment(event) == Some(d.id)
    ensures
      var error := CandidateRefusal(db, d, expected, event);
      && (error == Some(NotFound) <==> d.id !in db.commitments)
      && (d.id in db.commitments ==>
            var row := db.commitments[d.id];
            var same := row.goal == d.goal && row.parent == d.parent && row.brief == d.brief
                        && row.prerequisites == d.prerequisites;
            && (error == Some(VersionConflict) <==> row.version != expected)
            && (row.version == expected && !same ==> error == Some(InvalidMutation))
            && (row.version == expected && same ==>
                  && (row.outstanding.Some? ==> error == Some(OutstandingAction(row.outstanding.value)))
                  && (row.outstanding == None ==>
                        var bypass := row.replacement.Some? && !IsTerminal(row.state)
                                      && !d.state.Cancelled? && !d.state.Abandoned?;
                        && (error == Some(OfDomain(InvalidStructuralProposal)) <==> bypass)
                        && (!bypass && d.outstanding == None ==>
                              && (error == Some(OfDomain(TerminalCommitmentImmutable)) <==>
                                    row.state.Completed? || row.state.Cancelled? || row.state.Abandoned?)
                              && (error == Some(OfDomain(InvalidTransition)) <==>
                                    && !row.state.Completed? && !row.state.Cancelled? && !row.state.Abandoned?
                                    && !Enters(row.state, d.state))))))
  {
    hide ClaimPersists, EventDescribes;
    if d.id in db.commitments {
      assert ValidateTransition(db.commitments[d.id].state, d.state) == None <==>
        Enters(db.commitments[d.id].state, d.state);
    }
  }

  /** Why a candidate's claim is refused. */
  lemma ClaimErrors(db: Db, d: Draft)
    requires Inv(db) && d.id in db.commitments
    requires d.claim.Some? <==>
      d.state.Claimed? || d.state.Working? || d.state.CompletionProposed?
      || (d.state.Waiting? && !d.state.reason.OnUncertainAction?)
    ensures
      var error, row := ClaimRefusal(db, d), db.commitments[d.id];
      && (d.id in db.claims && d.claim.Some? ==>
            var now := db.claims[d.id];
            && (error == Some(ClaimMismatch) <==> d.claim.value != Lease(now.worker, now.epoch, now.heartbeat))
            && (error == None <==> d.claim.value == Lease(now.worker, now.epoch, now.heartbeat) && d.lastEpoch == now.epoch))
      && (d.id !in db.claims && d.claim.Some? ==>
            && (error == Some(ClaimMismatch) <==> !(row.state.Ready? && d.state.Claimed?))
            && (error == None ==> d.claim.value.epoch == d.lastEpoch == row.highWater + 1))
      && (d.claim == None ==> (error == None <==> d.lastEpoch == row.highWater))
  {
    hide Inv;
    ClaimFacts(db, d.id);
  }

  lemma RecoveryErrors(db: Db, c: CommitmentId)
    requires Inv(db)
    ensures
      var error := RecoveryRefusal(db, c);
      && (error == Some(NotFound) <==> c !in db.commitments)
      && (c in db.commitments ==>
            var row := db.commitments[c];
            && (error == Some(RecoveryBlocked) <==>
                  !row.state.RecoveryPending? || row.outstanding.Some? || row.replacement.Some?)
            && (row.state.RecoveryPending? && row.outstanding == None && row.replacement == None ==>
                  error == if row.version < MAX_I64 then None else Some(InvalidMutation)))
  {
    hide Inv, CascadeFits;
    if c in db.commitments {
      ClaimFacts(db, c);
      if db.commitments[c].replacement.Some? {
        TerminalIsOpen(db, c);
      } else if db.commitments[c].outstanding == None {
        NoActionNoHeldLock(db, c);
      }
    }
  }

  lemma TerminalIsOpen(db: Db, c: CommitmentId)
    requires Inv(db) && c in db.commitments && db.commitments[c].replacement.Some?
    ensures db.commitments[c].replacement.value in db.commitments
    ensures !IsTerminal(db.commitments[c].state) ==>
              !db.commitments[db.commitments[c].replacement.value].state.Completed?
  {
    assert BarrierHolds(db.commitments, db.guards, c);
  }

  /** Held locks are those of outstanding actions. */
  lemma NoActionNoHeldLock(db: Db, c: CommitmentId)
    requires Inv(db) && c in db.commitments && db.commitments[c].outstanding == None
    ensures HoldsNoLock(db.locks, c)
  {
    hide ClaimsAgree, GuardsSound, TopologySound, BarriersHold, BarriersReleased;
    forall k | k in db.locks && db.locks[k].commitment == c
      ensures !db.locks[k].mode.Held?
    {
      var g := db.locks[k].guard;
      assert db.locks[k] == LockFor(g, db.guards[g]);
      assert IsActive(db.guards[g].state) ==> GuardFences(db.commitments, db.guards[g]);
    }
  }

  lemma TargetErrors(db: Db, p: Proposal, fence: Fence)
    requires Inv(db) && p.epoch <= MAX_I64
    ensures
      var error := TargetRefusal(db, p, fence);
      && (error == Some(NotFound) <==> p.target !in db.commitments)
      && (p.target in db.commitments ==>
            var row := db.commitments[p.target];
            && (error == Some(OfDomain(TerminalCommitmentImmutable)) <==>
                  row.state.Completed? || row.state.Cancelled? || row.state.Abandoned?)
            && (row.state.RecoveryPending? || (row.state.Waiting? && row.state.reason.OnUncertainAction?) ==>
                  error == Some(OfDomain(InvalidStructuralProposal)))
            && (row.state.Proposed? || row.state.Ready? ==> error == Some(ClaimMismatch))
            && (p.target in db.claims ==>
                  var barred := (p.Decomposition? && !row.state.Working?) || (!p.Abandonment? && row.replacement.Some?);
                  && (error == Some(OfDomain(InvalidStructuralProposal)) <==> barred)
                  && (!barred && row.outstanding.Some? ==> error == Some(OutstandingAction(row.outstanding.value)))
                  && (!barred && row.outstanding == None ==>
                        var end := db.claims[p.target].heartbeat + fence.lease;
                        && (error == Some(ClaimMismatch) <==> !Owns(db, p.target, fence.worker, p.epoch))
                        && (Owns(db, p.target, fence.worker, p.epoch) ==>
                              && (error == Some(OfDomain(TimeOverflow)) <==> end > MAX_U64)
                              && (error == Some(LeaseElapsed) <==> end <= fence.now && end <= MAX_U64)
                              && (error == None <==> fence.now < end <= MAX_U64)))))
  {
    hide Inv;
    if p.target in db.commitments {
      ClaimFacts(db, p.target);
    }
  }

  /** A well-shaped proposal in its own boot, past the checks of its target, is refused as
      blocked exactly while a reservation of the target is still running. */
  lemma ProposalBlocked(db: Db, p: Proposal, worker: WorkerId, asOf: nat, now: nat, lease: nat)
    requires WellShaped(p) && TargetRefusal(db, p, Fence(worker, p.epoch, now, lease)) == None
    ensures
      var error := ProposalRefusal(db, p, worker, asOf, now, lease);
      && (now > MAX_I64 ==> error == Some(InvalidMutation))
      && (now <= MAX_I64 && asOf != db.boot ==> error == Some(ClaimMismatch))
      && (now <= MAX_I64 && asOf == db.boot ==>
            (error == Some(GuardInvalid) <==>
              exists g :: g in db.guards && db.guards[g].commitment == p.target
                          && db.guards[g].state.Issued? && now < db.guards[g].state.deadline))
  {
    hide WellShaped, Acyclic.IsAcyclic, Dependencies, GraphOf, CandidateGraph, InListOrder;
  }

  /** What the change itself is refused for, once the target is ready. */
  lemma ChangeErrors(db: Db, p: Proposal)
    requires p.target in db.commitments && db.commitments[p.target].version < MAX_I64
    ensures p.AddPrerequisite? ==>
      (ChangeRefusal(db, p) == Some(OfDomain(InvalidStructuralProposal)) <==>
        || p.prerequisite in db.commitments[p.target].prerequisites
        || (p.prerequisite.NeedsCommitment? && p.prerequisite.id !in db.commitments))
    ensures p.Decomposition? ==>
      (ChangeRefusal(db, p) == Some(OfDomain(InvalidStructuralProposal)) <==>
        exists i :: 0 <= i < |p.children| &&
          (p.children[i].id in db.commitments
           || !(Dependencies(p.children[i].prerequisites) <= db.commitments.Keys + Ids(ChildIds(p.children)))))
    ensures p.Abandonment? ==> ChangeRefusal(db, p) == None
  {
    hide Dependencies;
  }
}
