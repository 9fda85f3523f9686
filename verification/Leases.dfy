/** Leases and reservations over whole runs: what a heartbeat protects, until
    when a reservation can be admitted, and what a retried admission is told. */
module Leases {
  import opened Domain
  import opened Aggregates
  import opened Database
  import opened Mutations
  import opened Preservation
  import opened Runs
  import opened Safety
  import opened TableFacts
  import opened Replies
  import opened Exclusion
  import Acyclic

  // ---- who may act, and when ----

  /** The fence that a claim holder's action carries. */
  ghost predicate ActsWith(db: Db, m: Mutation, c: CommitmentId, fence: Fence) {
    match m
    case Decompose(target, f, _, _) => target == c && f == fence
    case Require(target, f, _) => target == c && f == fence
    case GiveUp(target, f, _) => target == c && f == fence
    case Issue(r) => r.commitment == c && r.fence == fence
    case Invalidate(g, f) => g in db.guards && db.guards[g].commitment == c && f == fence
    case Beat(commitment, f) => commitment == c && f == fence
    case _ => false
  }

  /** Main result: whatever is done for a claim is done by its worker, at its
      epoch, before its lease has run out; an expired claim is never revived. */
  lemma ActingIsWithinLease(db: Db, m: Mutation, c: CommitmentId, fence: Fence)
    requires Allowed(db, m) && ActsWith(db, m, c, fence)
    ensures c in db.claims
    ensures db.claims[c].worker == fence.worker && db.claims[c].epoch == fence.epoch
    ensures fence.now < db.claims[c].heartbeat + fence.lease
  {
    hide Acyclic.IsAcyclic, GraphOf, NothingInFlight, ReservationDeadline;
  }

  /** Only a heartbeat moves the heartbeat of a claim, and to its own instant. */
  lemma HeartbeatsMoveOnlyByBeat(db: Db, m: Mutation, c: CommitmentId)
    requires Inv(db) && Allowed(db, m) && c in db.claims && c in Do(db, m).claims
    ensures Do(db, m).claims[c]
         == if m.Beat? && m.commitment == c then db.claims[c].(heartbeat := m.fence.now) else db.claims[c]
  {
    hide Inv, MayIssue, MayAdmit, MayInvalidate, MayRelease, MayPersist, PersistEffect, InvalidateAll, FreeReserved,
         HeldLocks, Reserve, HoldAll, FreeHeld, GraphOf, Acyclic.IsAcyclic, Enumerates, NothingInFlight, Completions,
         Invalidations, RecoveryNotices, MoveAll;
    if m.Persist? {
      PersistKeepsClaimRow(db, m.draft, m.expected, m.event, c);
    }
  }

  lemma PersistKeepsClaimRow(db: Db, d: Draft, expected: nat, event: WorkEvent, c: CommitmentId)
    requires Inv(db) && MayPersist(db, d, expected, event) && c in db.claims && c in PersistEffect(db, d, event).claims
    ensures PersistEffect(db, d, event).claims[c] == db.claims[c]
  {
    hide Inv, PersistEffect, CascadeFits, EventDescribes, LegalTransition;
    CandidateHasRow(db, d, expected, event);
    PersistedClaims(db, d, event, c);
    ClaimIsRegular(db, c);
    ClaimFacts(db, c);
  }

  // ---- what a heartbeat protects ----

  /** The claim as remembered since `claim` was seen. */
  ghost predicate Remembers(db: Db, c: CommitmentId, claim: ClaimRow) {
    && c in db.commitments && claim.epoch <= db.commitments[c].highWater
    && (c in db.claims && db.claims[c].epoch == claim.epoch ==>
          db.claims[c].worker == claim.worker && db.claims[c].heartbeat >= claim.heartbeat)
  }

  lemma RemembersStep(db: Db, m: Mutation, c: CommitmentId, claim: ClaimRow)
    requires Inv(db) && Remembers(db, c, claim)
    ensures Remembers(Step(db, m), c, claim)
  {
    hide Inv, Step;
    ClaimStep(db, m, c);
    if c in db.claims {
      ClaimAtHighWater(db, c);
    }
  }

  lemma {:induction false} RemembersRun(db: Db, ms: seq<Mutation>, c: CommitmentId, claim: ClaimRow)
    requires Inv(db) && SoundRun(db, ms) && Remembers(db, c, claim)
    ensures Remembers(RunAll(db, ms), c, claim)
    decreases |ms|
  {
    hide Inv, Step, Remembers;
    if ms != [] {
      var k := |ms| - 1;
      SoundPrefix(db, ms, k);
      RemembersRun(db, ms[..k], c, claim);
      RunKeepsInv(db, ms[..k]);
      RemembersStep(RunAll(db, ms[..k]), ms[k], c, claim);
    }
  }

  lemma BeatIsRemembered(db: Db, c: CommitmentId, fence: Fence)
    requires Inv(db) && MayBeat(db, c, fence)
    ensures Inv(BeatEffect(db, c, fence))
    ensures Remembers(BeatEffect(db, c, fence), c, ClaimRow(fence.worker, fence.epoch, fence.now, db.boot))
  {
    hide Inv;
    BeatKeepsInv(db, c, fence);
    ClaimFacts(db, c);
  }

  /** Main result: after an accepted heartbeat at t, that claim is not expired at
      any instant before t + lease, whatever happens in between. */
  lemma HeartbeatProtects(db: Db, c: CommitmentId, fence: Fence, ms: seq<Mutation>, now: nat, lease: nat,
                          revoked: seq<GuardId>)
    requires Inv(db) && MayBeat(db, c, fence) && SoundRun(BeatEffect(db, c, fence), ms)
    requires now < fence.now + lease
    ensures
      var end := RunAll(BeatEffect(db, c, fence), ms);
      c in end.claims && end.claims[c].epoch == fence.epoch ==>
        !MayLapse(end, c, now, lease, revoked) && c !in OverdueClaims(end.claims, now, lease)
  {
    hide Inv, SoundRun, RunAll, BeatEffect, Enumerates;
    BeatIsRemembered(db, c, fence);
    RemembersRun(BeatEffect(db, c, fence), ms, c, ClaimRow(fence.worker, fence.epoch, fence.now, db.boot));
  }

  // ---- until when a reservation can be admitted ----

  /** The deadline of an issued guard, from the clock and the claim alone. */
  lemma IssuedDeadline(db: Db, r: IssueRequest)
    requires MayIssue(db, r)
    ensures
      var claim := db.claims[r.commitment];
      && r.guard in IssueEffect(db, r).guards
      && IssueEffect(db, r).guards[r.guard].state.Issued?
      && var d := IssueEffect(db, r).guards[r.guard].state.deadline;
         && d <= r.fence.now + r.ttl
         && d <= claim.heartbeat + r.fence.lease
         && (d == r.fence.now + r.ttl || d == claim.heartbeat + r.fence.lease)
         && (r.ttl > 0 ==> r.fence.now < d)
  {
    hide Reserve;
  }

  /** Main result, the other half of AdmissionWithinLease: while nothing has
      dropped the guard and its commitment works on under the same claim, free of
      any action, it is admitted at every instant before both the requested time
      to live and the lease have run out. */
  lemma AdmittableUntilDeadline(db: Db, r: IssueRequest, ms: seq<Mutation>, action: ActionRef, now: nat)
    requires Inv(db) && MayIssue(db, r) && SoundRun(IssueEffect(db, r), ms)
    requires
      var end := RunAll(IssueEffect(db, r), ms);
      && r.guard in end.guards && end.guards[r.guard].state.Issued?
      && r.commitment in end.commitments && r.commitment in end.claims
      && end.claims[r.commitment].epoch == r.fence.epoch
      && end.commitments[r.commitment].state.Working?
      && end.commitments[r.commitment].outstanding == None
      && end.commitments[r.commitment].version < MAX_I64
      && !CarriesAction(end.guards, action)
    requires now < r.fence.now + r.ttl && now < db.claims[r.commitment].heartbeat + r.fence.lease
    ensures MayAdmit(RunAll(IssueEffect(db, r), ms), r.guard, r.scopes, action, now)
  {
    hide Inv, Step, SoundRun, RunAll, CarriesAction;
    var issued := IssueEffect(db, r);
    IssuedDeadline(db, r);
    IssueStartsUnder(db, r);
    IssuedRun(issued, ms, r.guard, issued.guards[r.guard], db.claims[r.commitment]);
    RunKeepsInv(issued, ms);
    StillReserving(RunAll(issued, ms), r.guard, action);
    assert now <= MAX_I64 by { DeadlineFits(issued, r.guard); }
  }

  lemma StillReserving(db: Db, g: GuardId, action: ActionRef)
    requires Inv(db) && g in db.guards && db.guards[g].state.Issued? && !CarriesAction(db.guards, action)
    ensures db.guards[g].boot == db.boot
    ensures forall h :: h in db.guards ==> ActionOf(db.guards[h].state) != Some(action)
  {
    hide Inv;
    GuardHasCommitment(db, g);
  }

  lemma DeadlineFits(db: Db, g: GuardId)
    requires Inv(db) && g in db.guards && db.guards[g].state.Issued?
    ensures db.guards[g].state.deadline <= MAX_I64
  {
    hide ClaimsAgree, ActionsAgree, LocksAgree, TopologySound, BarriersHold, BarriersReleased, Acyclic.IsAcyclic;
  }

  // ---- retries of an admission ----

  /** The guard is as it was admitted, or has gone on from there. */
  ghost predicate AdmittedOnce(db: Db, g: GuardId, scopes: set<ScopeKey>, action: ActionRef, digest: Option<Digest>) {
    && g in db.guards && db.guards[g].scopes == scopes
    && !db.guards[g].state.Issued?
    && (db.guards[g].state.Admitted? ==> db.guards[g].state == GuardState.Admitted(action, digest))
  }

  lemma {:induction false} AdmittedOnceRun(db: Db, ms: seq<Mutation>, g: GuardId, scopes: set<ScopeKey>,
                                           action: ActionRef, digest: Option<Digest>)
    requires AdmittedOnce(db, g, scopes, action, digest)
    ensures AdmittedOnce(RunAll(db, ms), g, scopes, action, digest)
    decreases |ms|
  {
    hide Step;
    if ms != [] {
      var k := |ms| - 1;
      AdmittedOnceRun(db, ms[..k], g, scopes, action, digest);
      GuardStep(RunAll(db, ms[..k]), ms[k], g);
    }
  }

  /** The answers to requests for a guard that is admitted, by what it holds. */
  lemma AnswersWhileAdmitted(db: Db, g: GuardId, scopes: set<ScopeKey>, action: ActionRef, digest: Option<Digest>, now: nat)
    requires g in db.guards && db.guards[g].state.Admitted? && now <= MAX_I64
    ensures
      var reply := AdmissionReply(db, g, scopes, action, digest, now);
      var held := db.guards[g];
      && (reply == Ok(AlreadyAdmitted) <==> held.state == GuardState.Admitted(action, digest) && held.scopes == scopes)
      && (reply == Err(AdmissionRejected(GuardAlreadyBound)) <==> held.state.action != action)
      && (reply == Err(AdmissionRejected(PreparationMismatch)) <==> held.state.action == action && held.state.digest != digest)
      && (reply == Err(AdmissionRejected(ScopeKeysMismatch)) <==>
            held.state == GuardState.Admitted(action, digest) && held.scopes != scopes)
  {
  }

  /** Main result: after an admission, while the guard is still admitted, every
      retry of the same request is told so and every other action is refused. */
  lemma RetriesAreAnswered(db: Db, g: GuardId, scopes: set<ScopeKey>, action: ActionRef, digest: Option<Digest>,
                           now: nat, ms: seq<Mutation>, other: ActionRef, later: nat)
    requires MayAdmit(db, g, scopes, action, now) && later <= MAX_I64 && other != action
    requires
      var end := RunAll(AdmitEffect(db, g, action, digest), ms);
      g in end.guards && end.guards[g].state.Admitted?
    ensures
      var end := RunAll(AdmitEffect(db, g, action, digest), ms);
      && AdmissionReply(end, g, scopes, action, digest, later) == Ok(AlreadyAdmitted)
      && forall keys, binding ::
           AdmissionReply(end, g, keys, other, binding, later) == Err(AdmissionRejected(GuardAlreadyBound))
  {
    hide RunAll, AdmissionReply;
    var end := RunAll(AdmitEffect(db, g, action, digest), ms);
    AdmittedOnceRun(AdmitEffect(db, g, action, digest), ms, g, scopes, action, digest);
    AnswersWhileAdmitted(end, g, scopes, action, digest, later);
    forall keys, binding
      ensures AdmissionReply(end, g, keys, other, binding, later) == Err(AdmissionRejected(GuardAlreadyBound))
    {
      AnswersWhileAdmitted(end, g, keys, other, binding, later);
    }
  }
}
