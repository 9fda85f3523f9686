/** The aggregate against the store: what is loaded can be restored, what is
    persisted loads back, and which domain calls the store lets through. */
module Lifecycle {
  import opened Domain
  import opened Aggregates
  import opened Database
  import opened Mutations
  import opened Cascade
  import opened Safety
  import opened Exclusion
  import opened TableFacts
  import Acyclic

  /** The snapshot that a load of the tables builds. */
  function Loaded(db: Db, c: CommitmentId): Draft
    requires c in db.commitments
  {
    var row := db.commitments[c];
    var claim := if c in db.claims
                 then Some(Lease(db.claims[c].worker, db.claims[c].epoch, db.claims[c].heartbeat))
                 else None;
    Draft(c, row.goal, row.parent, row.brief, row.state, row.prerequisites, claim, row.outstanding, row.highWater)
  }

  /** Whatever the invariant allows in the tables, the aggregate accepts. */
  lemma LoadedRestores(db: Db, c: CommitmentId)
    requires Inv(db) && c in db.commitments
    ensures Restorable(Loaded(db, c)) && ClaimFitsState(Loaded(db, c))
  {
    hide LocksAgree, GuardsSound, TopologySound, BarriersHold, BarriersReleased, Acyclic.IsAcyclic;
    if db.commitments[c].outstanding.Some? {
      var g :| g in db.guards && db.guards[g].commitment == c && IsActive(db.guards[g].state);
      assert GuardFences(db.commitments, db.guards[g]);
    }
  }

  lemma TerminalIsChild(db: Db, c: CommitmentId)
    requires Inv(db) && c in db.commitments
    ensures db.commitments[c].replacement.Some? ==>
      var terminal := db.commitments[c].replacement.value;
      && terminal in db.commitments
      && db.commitments[terminal].parent == Some(c) && db.commitments[terminal].goal == db.commitments[c].goal
  {
    assert db.commitments[c].replacement.Some? ==> BarrierHolds(db.commitments, db.guards, c);
  }

  lemma RowLoadsBack(db: Db, d: Draft, expected: nat, event: WorkEvent)
    requires MayPersistRow(db, d, expected, event)
    requires d.id in db.claims ==> db.claims[d.id].epoch == db.commitments[d.id].highWater
    ensures Loaded(PersistRow(db, d, event), d.id) == d
  {
    hide LegalTransition, EventDescribes, RequiresClaim;
  }

  lemma CompletingOthersLeaves(db: Db, order: seq<CommitmentId>, c: CommitmentId)
    requires c in db.commitments && c !in order
    ensures c in CompleteAll(db, order).commitments && Loaded(CompleteAll(db, order), c) == Loaded(db, c)
  {
  }

  lemma CompletedIsNotInItsCascade(cs: Commitments, c: CommitmentId)
    requires c in cs && IsTerminal(cs[c].state)
    ensures c !in CascadeOf(cs, c)
  {
    ChainMembers(cs, c);
  }

  /** Round trip: a persisted snapshot is what the next load returns. */
  lemma PersistedLoadsBack(db: Db, d: Draft, expected: nat, event: WorkEvent)
    requires Inv(db) && MayPersist(db, d, expected, event)
    ensures d.id in PersistEffect(db, d, event).commitments
    ensures Loaded(PersistEffect(db, d, event), d.id) == d
  {
    hide Inv, CascadeFits, MayPersistRow, CascadeOf, CompleteAll, Loaded;
    CandidateHasRow(db, d, expected, event);
    ClaimFacts(db, d.id);
    RowLoadsBack(db, d, expected, event);
    if d.state.Completed? {
      var moved := PersistRow(db, d, event);
      CompletedIsNotInItsCascade(moved.commitments, d.id);
      CompletingOthersLeaves(moved, CascadeOf(moved.commitments, d.id), d.id);
    }
  }

  lemma InsertedLoadsBack(db: Db, d: Draft, event: WorkEvent)
    requires Inv(db) && MayInsert(db, d, event)
    ensures Loaded(InsertEffect(db, d, event), d.id) == d
  {
    hide ActionsAgree, LocksAgree, GuardsSound, TopologySound, BarriersHold, BarriersReleased, Acyclic.IsAcyclic;
  }

  /** The event that describes a changed snapshot. */
  function EventOf(d: Draft): WorkEvent {
    match d.state
    case Claimed =>
      if d.claim.Some? then CommitmentClaimed(d.id, d.claim.value.worker, d.claim.value.epoch)
      else CommitmentClaimed(d.id, WorkerId(""), 0)
    case Working => CommitmentStarted(d.id)
    case Waiting(reason) => CommitmentWaiting(d.id, reason)
    case RecoveryPending => CommitmentRecoveryPending(d.id)
    case CompletionProposed => CommitmentCompletionProposed(d.id)
    case Completed => CommitmentCompleted(d.id)
    case Cancelled => CommitmentCancelled(d.id)
    case Abandoned => CommitmentAbandoned(d.id)
    case _ => CommitmentActivated(d.id)
  }

  /** What stands between an accepted call and its persistence. */
  predicate StoreLetsThrough(db: Db, c: CommitmentId, call: Call)
    requires c in db.commitments
  {
    var row := db.commitments[c];
    var d := Perform(Loaded(db, c), call);
    && !StrandsClaim(Loaded(db, c), call)
    && row.outstanding == None
    && row.version < MAX_I64
    && (row.replacement.Some? ==> call.Cancel? || call.Abandon?)
    && (call.ClaimFor? ==> row.highWater < MAX_I64 && call.heartbeat <= MAX_I64)
    && (call.Complete? ==> CascadeFits(PersistRow(db, d, EventOf(d)).commitments, c))
  }

  lemma PerformedClaim(db: Db, c: CommitmentId, call: Call)
    requires Inv(db) && c in db.commitments && Refusal(Loaded(db, c), call) == None
    ensures ClaimPersists(db, Perform(Loaded(db, c), call)) <==>
      !StrandsClaim(Loaded(db, c), call) && (call.ClaimFor? ==> db.commitments[c].highWater < MAX_I64)
  {
    hide Inv, ValidateTransition;
    ClaimFacts(db, c);
    LoadedRestores(db, c);
    AgreementKeptIff(Loaded(db, c), call);
  }

  lemma PerformedHeartbeat(db: Db, c: CommitmentId, call: Call)
    requires Inv(db) && c in db.commitments
    ensures
      var claim := Perform(Loaded(db, c), call).claim;
      (claim.Some? ==> claim.value.heartbeat <= MAX_I64) <==> (call.ClaimFor? ==> call.heartbeat <= MAX_I64)
  {
    hide Inv;
    ClaimFacts(db, c);
  }

  lemma PerformedEvent(d: Draft, call: Call)
    ensures EventDescribes(EventOf(Perform(d, call)), Target(call))
    ensures EventCommitment(EventOf(Perform(d, call))) == Some(d.id)
  {
  }

  /** Main result: an accepted call on a loaded commitment can be persisted if and
      only if the store's own conditions hold and the claim is not stranded. */
  lemma CallIsStorableIff(db: Db, c: CommitmentId, call: Call)
    requires Inv(db) && c in db.commitments && Refusal(Loaded(db, c), call) == None
    ensures
      var d := Perform(Loaded(db, c), call);
      MayPersist(db, d, db.commitments[c].version, EventOf(d)) <==> StoreLetsThrough(db, c, call)
  {
    hide Inv, ClaimPersists, CascadeFits, EventDescribes, LegalTransition, EventOf, EventCommitment, PersistRow,
         StrandsClaim, Refusal;
    var d := Perform(Loaded(db, c), call);
    PerformedEvent(Loaded(db, c), call);
    AcceptedCallMoves(Loaded(db, c), call);
    PerformedClaim(db, c, call);
    PerformedHeartbeat(db, c, call);
  }

  lemma AcceptedCallMoves(d: Draft, call: Call)
    requires Refusal(d, call) == None
    ensures !IsTerminal(d.state) && LegalTransition(d.state, Target(call))
  {
  }
}
