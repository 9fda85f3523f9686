/** Scope exclusion, claim leases and epoch fencing over whole runs. */
module Exclusion {
  import opened Domain
  import opened Aggregates
  import opened Database
  import opened Mutations
  import opened Preservation
  import opened Runs
  import opened Safety
  import opened TableFacts
  import Acyclic

  // ---- exclusive scopes from admission to a recorded safe outcome ----

  lemma OnlyRecordingResolves(db: Db, m: Mutation, g: GuardId)
    requires g in db.guards && IsActive(db.guards[g].state)
    ensures
      || (&& g in Step(db, m).guards && IsActive(Step(db, m).guards[g].state)
          && Step(db, m).guards[g] == db.guards[g].(state := Step(db, m).guards[g].state)
          && ActionOf(Step(db, m).guards[g].state) == ActionOf(db.guards[g].state))
      || (m.Record? && m.guard == g && !m.outcome.Uncertain? && Allowed(db, m))
  {
    hide Allowed, Do;
    if Allowed(db, m) {
      if m.Issue? || m.Admit? || m.Record? {
        OtherGuardsStay(db, m, g);
      } else if m.Expire? || m.Invalidate? || m.Lapse? || m.Restart? {
        SweepsInvalidateIssued(db, m, g);
      } else {
        OtherTablesKeepGuards(db, m);
      }
    }
  }

  lemma OtherGuardsStay(db: Db, m: Mutation, g: GuardId)
    requires Allowed(db, m) && (m.Issue? || m.Admit? || m.Record?) && g in db.guards && IsActive(db.guards[g].state)
    ensures g in Do(db, m).guards
    ensures
      || Do(db, m).guards[g] == db.guards[g]
      || (&& m.Record? && m.guard == g
          && (m.outcome.Uncertain? ==>
                && IsActive(Do(db, m).guards[g].state) && ActionOf(Do(db, m).guards[g].state) == ActionOf(db.guards[g].state)
                && Do(db, m).guards[g] == db.guards[g].(state := Do(db, m).guards[g].state)))
  {
    hide Holds, HoldAll, FreeHeld, Reserve;
  }

  /** The run records a Succeeded or a Failed for the guard. */
  ghost predicate SafelyRecorded(db: Db, ms: seq<Mutation>, g: GuardId) {
    exists i :: 0 <= i < |ms| && ms[i].Record? && ms[i].guard == g && !ms[i].outcome.Uncertain?
                && Allowed(RunAll(db, ms[..i]), ms[i])
  }

  /** `g` fences `action`: it holds every one of its scopes, its commitment
      carries the action, and no other live guard shares a scope with it. */
  ghost predicate Fences(db: Db, g: GuardId, row: GuardRow, action: ActionRef) {
    && g in db.guards
    && db.guards[g].commitment == row.commitment && db.guards[g].scopes == row.scopes
    && IsActive(db.guards[g].state) && ActionOf(db.guards[g].state) == Some(action)
    && row.commitment in db.commitments && db.commitments[row.commitment].outstanding == Some(action)
    && (forall k :: k in row.scopes ==>
          k in db.locks && db.locks[k] == LockRow(g, row.commitment, Held(action)))
    && (forall h :: h in db.guards && h != g && IsLive(db.guards[h].state) ==> db.guards[h].scopes !! row.scopes)
  }

  lemma ActiveGuardFences(db: Db, g: GuardId)
    requires Inv(db) && g in db.guards && IsActive(db.guards[g].state)
    ensures Fences(db, g, db.guards[g], ActionOf(db.guards[g].state).value)
  {
    hide ClaimsAgree, LocksAgree, GuardsSound, TopologySound, BarriersHold, BarriersReleased, Acyclic.IsAcyclic;
    LiveGuardHoldsItsScopes(db, g);
    assert GuardFences(db.commitments, db.guards[g]);
  }

  /** Main result: from its admission until a safe outcome is recorded, a guard
      holds its whole scope set exclusively, through expiries and restarts. */
  lemma {:induction false} HeldUntilRecorded(db: Db, ms: seq<Mutation>, g: GuardId)
    requires Inv(db) && SoundRun(db, ms) && g in db.guards && IsActive(db.guards[g].state)
    requires !SafelyRecorded(db, ms, g)
    ensures Fences(RunAll(db, ms), g, db.guards[g], ActionOf(db.guards[g].state).value)
    decreases |ms|
  {
    hide Inv, Step, Allowed;
    if ms == [] {
      ActiveGuardFences(db, g);
    } else {
      var k := |ms| - 1;
      SoundPrefix(db, ms, k);
      assert forall i :: 0 <= i < k ==> ms[..k][i] == ms[i] && ms[..k][..i] == ms[..i];
      HeldUntilRecorded(db, ms[..k], g);
      OnlyRecordingResolves(RunAll(db, ms[..k]), ms[k], g);
      RunKeepsInv(db, ms);
      ActiveGuardFences(RunAll(db, ms), g);
    }
  }

  /** While a guard fences its scopes, no overlapping guard is issued or admitted. */
  lemma OverlapIsRefused(db: Db, g: GuardId, m: Mutation)
    requires Inv(db) && g in db.guards && IsActive(db.guards[g].state) && Allowed(db, m)
    ensures m.Issue? ==> m.request.scopes !! db.guards[g].scopes
    ensures m.Admit? ==> m.guard != g && m.scopes !! db.guards[g].scopes
  {
    hide Inv;
    LiveGuardHoldsItsScopes(db, g);
  }

  // ---- one claim per epoch ----

  /** In one step a claim persists with the same worker and epoch and no earlier
      heartbeat, or is the first at the next epoch. */
  ghost predicate ClaimMoves(db: Db, after: Db, c: CommitmentId) {
    && c in db.commitments && c in after.commitments
    && (after.commitments[c].highWater == db.commitments[c].highWater
        || (after.commitments[c].highWater == db.commitments[c].highWater + 1 && c !in db.claims && c in after.claims))
    && (c in after.claims ==>
          && after.claims[c].epoch == after.commitments[c].highWater
          && (after.commitments[c].highWater == db.commitments[c].highWater ==>
                && c in db.claims
                && after.claims[c].worker == db.claims[c].worker
                && after.claims[c].heartbeat >= db.claims[c].heartbeat))
  }

  lemma PersistedClaims(db: Db, d: Draft, event: WorkEvent, c: CommitmentId)
    requires d.id in db.commitments && c in PersistEffect(db, d, event).claims
    ensures
      var claim := PersistEffect(db, d, event).claims[c];
      if c == d.id then d.claim.Some? && claim == ClaimRowOf(d.claim.value, db.boot)
      else c in db.claims && claim == db.claims[c]
  {
    hide CascadeOf, MoveAll, PersistedRow, CompleteAll;
    var moved := PersistRow(db, d, event);
    if d.state.Completed? {
      CompletionDropsClaims(moved, CascadeOf(moved.commitments, d.id), c);
    }
  }

  lemma CompletionDropsClaims(db: Db, order: seq<CommitmentId>, c: CommitmentId)
    ensures c in CompleteAll(db, order).claims ==> c in db.claims && CompleteAll(db, order).claims[c] == db.claims[c]
  {
    hide MoveAll, Completions;
  }

  lemma PersistedMark(db: Db, d: Draft, expected: nat, event: WorkEvent)
    requires MayPersistRow(db, d, expected, event)
    requires d.id in db.claims ==> db.claims[d.id].epoch == db.commitments[d.id].highWater
    ensures
      var row := db.commitments[d.id];
      var mark := PersistedRow(row, d).highWater;
      && (mark == row.highWater || (mark == row.highWater + 1 && d.id !in db.claims && d.claim.Some?))
      && (d.claim.Some? ==>
            && d.claim.value.epoch == mark
            && (mark == row.highWater ==>
                  d.id in db.claims && d.claim.value.worker == db.claims[d.id].worker
                  && d.claim.value.heartbeat == db.claims[d.id].heartbeat))
  {
    hide EventDescribes, LegalTransition, RequiresClaim;
  }

  lemma PersistedClaimMoves(db: Db, d: Draft, expected: nat, event: WorkEvent, c: CommitmentId)
    requires Inv(db) && MayPersist(db, d, expected, event) && c in db.commitments
    ensures ClaimMoves(db, PersistEffect(db, d, event), c)
  {
    hide Inv, MayPersistRow, CascadeFits, CascadeOf, PersistEffect;
    CandidateHasRow(db, d, expected, event);
    PersistedRows(db, d, expected, event, c);
    ClaimFacts(db, c);
    if c in PersistEffect(db, d, event).claims {
      PersistedClaims(db, d, event, c);
    }
    if c == d.id {
      PersistedMark(db, d, expected, event);
      PersistedClaimStays(db, d, event);
    }
  }

  lemma CandidateHasRow(db: Db, d: Draft, expected: nat, event: WorkEvent)
    requires MayPersistRow(db, d, expected, event)
    ensures d.id in db.commitments && (d.claim.Some? ==> !d.state.Completed?)
  {
  }

  lemma PersistedClaimStays(db: Db, d: Draft, event: WorkEvent)
    requires d.id in db.commitments && (d.claim.Some? ==> !d.state.Completed?)
    ensures d.claim.Some? ==> d.id in PersistEffect(db, d, event).claims
  {
    hide CascadeOf, MoveAll;
  }

  lemma PlainClaimMoves(db: Db, m: Mutation, c: CommitmentId)
    requires Allowed(db, m) && !m.Persist? && c in db.commitments
    requires c in db.claims ==> db.claims[c].epoch == db.commitments[c].highWater
    ensures ClaimMoves(db, Do(db, m), c)
  {
    hide MayIssue, MayInvalidate, MayRelease, InvalidateAll, FreeReserved, HeldLocks,
         Reserve, HoldAll, FreeHeld, GraphOf, Acyclic.IsAcyclic, Enumerates, NothingInFlight, Completions, Invalidations,
         RecoveryNotices;
  }

  lemma ClaimStep(db: Db, m: Mutation, c: CommitmentId)
    requires Inv(db) && c in db.commitments
    ensures ClaimMoves(db, Step(db, m), c)
  {
    hide Inv, MayPersist, PersistEffect;
    ClaimFacts(db, c);
    if Allowed(db, m) {
      if m.Persist? {
        PersistedClaimMoves(db, m.draft, m.expected, m.event, c);
      } else {
        PlainClaimMoves(db, m, c);
      }
    }
  }

  ghost predicate Opens(db: Db, after: Db, c: CommitmentId) {
    c in after.claims && !(c in db.claims && db.claims[c].epoch == after.claims[c].epoch)
  }

  /** The epochs of the claims that a run opens on `c`, in order. */
  ghost function Openings(db: Db, ms: seq<Mutation>, c: CommitmentId): seq<nat>
    decreases |ms|
  {
    if ms == [] then []
    else
      var k := |ms| - 1;
      var after := RunAll(db, ms);
      Openings(db, ms[..k], c) + if Opens(RunAll(db, ms[..k]), after, c) then [after.claims[c].epoch] else []
  }

  lemma ClaimAtHighWater(db: Db, c: CommitmentId)
    requires Inv(db) && c in db.claims
    ensures c in db.commitments && db.claims[c].epoch == db.commitments[c].highWater
  {
  }

  /** Main result: over any run, restarts included, the claims accepted on a
      commitment carry consecutive epochs, none repeated and none skipped. */
  lemma {:induction false} EpochsAreConsecutive(db: Db, ms: seq<Mutation>, c: CommitmentId)
    requires Inv(db) && SoundRun(db, ms) && c in db.commitments
    ensures c in RunAll(db, ms).commitments
    ensures |Openings(db, ms, c)| == RunAll(db, ms).commitments[c].highWater - db.commitments[c].highWater
    ensures forall i :: 0 <= i < |Openings(db, ms, c)| ==>
              Openings(db, ms, c)[i] == db.commitments[c].highWater + 1 + i
    decreases |ms|
  {
    hide Inv, Step;
    if ms != [] {
      var k := |ms| - 1;
      var before := RunAll(db, ms[..k]);
      SoundPrefix(db, ms, k);
      EpochsAreConsecutive(db, ms[..k], c);
      RunKeepsInv(db, ms[..k]);
      ClaimStep(before, ms[k], c);
      if c in before.claims {
        ClaimAtHighWater(before, c);
      }
    }
  }

  // ---- fencing ----

  /** `m` acts for the claim on `c` at epoch `e`. */
  ghost predicate ActsAt(db: Db, m: Mutation, c: CommitmentId, e: nat) {
    match m
    case Decompose(target, fence, _, _) => target == c && fence.epoch == e
    case Require(target, fence, _) => target == c && fence.epoch == e
    case GiveUp(target, fence, _) => target == c && fence.epoch == e
    case Issue(request) => request.commitment == c && request.fence.epoch == e
    case Admit(g, _, _, _, _) => g in db.guards && db.guards[g].commitment == c && db.guards[g].epoch == e
    case Invalidate(g, fence) => g in db.guards && db.guards[g].commitment == c && fence.epoch == e
    case Beat(commitment, fence) => commitment == c && fence.epoch == e
    case _ => false
  }

  lemma ActingNeedsTheClaim(db: Db, m: Mutation, c: CommitmentId, e: nat)
    requires ActsAt(db, m, c, e) && Allowed(db, m)
    ensures c in db.claims && db.claims[c].epoch == e
  {
  }

  /** The claim at epoch `e` has ended, or was never the current one. */
  ghost predicate EpochOver(db: Db, c: CommitmentId, e: nat) {
    && c in db.commitments && e <= db.commitments[c].highWater
    && !(c in db.claims && db.claims[c].epoch == e)
  }

  lemma {:induction false} EpochStaysOver(db: Db, ms: seq<Mutation>, c: CommitmentId, e: nat)
    requires Inv(db) && SoundRun(db, ms) && EpochOver(db, c, e)
    ensures EpochOver(RunAll(db, ms), c, e)
    decreases |ms|
  {
    hide Inv, Step;
    if ms != [] {
      var k := |ms| - 1;
      SoundPrefix(db, ms, k);
      EpochStaysOver(db, ms[..k], c, e);
      RunKeepsInv(db, ms[..k]);
      ClaimStep(RunAll(db, ms[..k]), ms[k], c);
      if c in RunAll(db, ms[..k]).claims {
        ClaimAtHighWater(RunAll(db, ms[..k]), c);
      }
    }
  }

  /** Main result: once a claim has ended, nothing done in its name is ever
      accepted again, whatever happens in between. */
  lemma StaleEpochIsFenced(db: Db, ms: seq<Mutation>, m: Mutation, c: CommitmentId, e: nat)
    requires Inv(db) && SoundRun(db, ms) && EpochOver(db, c, e)
    requires ActsAt(RunAll(db, ms), m, c, e)
    ensures !Allowed(RunAll(db, ms), m)
  {
    hide Inv, Step, Allowed;
    EpochStaysOver(db, ms, c, e);
    if Allowed(RunAll(db, ms), m) {
      ActingNeedsTheClaim(RunAll(db, ms), m, c, e);
    }
  }

  // ---- admission within the lease ----

  /** What the store remembers of a guard issued under `claim`. */
  ghost predicate IssuedUnder(db: Db, g: GuardId, row: GuardRow, claim: ClaimRow) {
    && g in db.guards
    && db.guards[g] == row.(state := db.guards[g].state)
    && (db.guards[g].state.Issued? ==> db.guards[g].state == row.state)
    && row.commitment in db.commitments
    && row.epoch <= db.commitments[row.commitment].highWater
    && (row.commitment in db.claims && db.claims[row.commitment].epoch == row.epoch ==>
          && db.claims[row.commitment].worker == claim.worker
          && db.claims[row.commitment].heartbeat >= claim.heartbeat)
  }

  lemma IssuedStep(db: Db, m: Mutation, g: GuardId, row: GuardRow, claim: ClaimRow)
    requires Inv(db) && row.state.Issued? && IssuedUnder(db, g, row, claim)
    ensures IssuedUnder(Step(db, m), g, row, claim)
  {
    hide Inv, Step;
    GuardStep(db, m, g);
    ClaimStep(db, m, row.commitment);
    if row.commitment in db.claims {
      ClaimAtHighWater(db, row.commitment);
    }
  }

  lemma {:induction false} IssuedRun(db: Db, ms: seq<Mutation>, g: GuardId, row: GuardRow, claim: ClaimRow)
    requires Inv(db) && SoundRun(db, ms) && row.state.Issued? && IssuedUnder(db, g, row, claim)
    ensures IssuedUnder(RunAll(db, ms), g, row, claim)
    decreases |ms|
  {
    hide Inv, Step, IssuedUnder;
    if ms != [] {
      var k := |ms| - 1;
      SoundPrefix(db, ms, k);
      IssuedRun(db, ms[..k], g, row, claim);
      RunKeepsInv(db, ms[..k]);
      IssuedStep(RunAll(db, ms[..k]), ms[k], g, row, claim);
    }
  }

  /** Right after its issue, a guard is remembered under the claim that issued it. */
  lemma IssueStartsUnder(db: Db, r: IssueRequest)
    requires Inv(db) && MayIssue(db, r)
    ensures
      var issued := IssueEffect(db, r);
      && Inv(issued) && r.guard in issued.guards
      && issued.guards[r.guard].state == GuardState.Issued(ReservationDeadline(db.claims[r.commitment], r.fence, r.ttl))
      && issued.guards[r.guard].commitment == r.commitment && issued.guards[r.guard].epoch == r.fence.epoch
      && db.claims[r.commitment].worker == r.fence.worker
      && r.commitment in issued.commitments && issued.commitments[r.commitment].highWater == r.fence.epoch
      && IssuedUnder(issued, r.guard, issued.guards[r.guard], db.claims[r.commitment])
  {
    hide Inv, Reserve;
    IssueKeepsInv(db, r);
    ClaimFacts(db, r.commitment);
  }

  /** Main result: although admission never reads the heartbeat, a guard issued
      under a lease is admitted only while that very claim, held by the same
      worker, is still within the lease. The clock need not be monotone. */
  lemma AdmissionWithinLease(db: Db, r: IssueRequest, ms: seq<Mutation>, scopes: set<ScopeKey>, action: ActionRef,
                             now: nat)
    requires Inv(db) && MayIssue(db, r)
    requires SoundRun(IssueEffect(db, r), ms)
    requires MayAdmit(RunAll(IssueEffect(db, r), ms), r.guard, scopes, action, now)
    ensures
      var end := RunAll(IssueEffect(db, r), ms);
      && r.commitment in end.claims
      && end.claims[r.commitment].worker == r.fence.worker
      && end.claims[r.commitment].epoch == r.fence.epoch
      && now < end.claims[r.commitment].heartbeat + r.fence.lease
  {
    hide Inv, Step, SoundRun, RunAll, IssueEffect;
    var issued := IssueEffect(db, r);
    IssueStartsUnder(db, r);
    IssuedRun(issued, ms, r.guard, issued.guards[r.guard], db.claims[r.commitment]);
  }

  // ---- invalidation by a later claim ----

  /** Main result: the invalidation of a guard never reads the guard's epoch, so
      an accepted one concerns a guard of the current claim if and only if no
      claim has been opened on the commitment since the guard was issued. */
  lemma InvalidationIsCurrentIff(db: Db, r: IssueRequest, ms: seq<Mutation>, fence: Fence)
    requires Inv(db) && MayIssue(db, r) && SoundRun(IssueEffect(db, r), ms)
    requires MayInvalidate(RunAll(IssueEffect(db, r), ms), r.guard, fence)
    ensures RunAll(IssueEffect(db, r), ms).guards[r.guard].epoch == fence.epoch
        <==> Openings(IssueEffect(db, r), ms, r.commitment) == []
  {
    hide Inv, Step, SoundRun, RunAll, IssueEffect;
    var issued := IssueEffect(db, r);
    var end := RunAll(issued, ms);
    IssueStartsUnder(db, r);
    IssuedRun(issued, ms, r.guard, issued.guards[r.guard], db.claims[r.commitment]);
    EpochsAreConsecutive(issued, ms, r.commitment);
    RunKeepsInv(issued, ms);
    ClaimFacts(end, r.commitment);
  }
}
