/** The life of a commitment in the store, said by its states alone: where each
    state is entered from in any run, and which of those edges the store takes. */
module Topology {
  import opened Domain
  import opened Aggregates
  import opened Database
  import opened Mutations
  import opened Preservation
  import opened Runs
  import opened Safety
  import opened Composites
  import opened TableFacts
  import opened Lifecycle
  import Acyclic

  lemma LegalIsEntered(from: CommitmentState, to: CommitmentState)
    ensures LegalTransition(from, to) <==> Enters(from, to)
  {
    assert ValidateTransition(from, to) == None <==> Enters(from, to);
  }

  /** A claim exists exactly in these states. */
  lemma ClaimsByState(db: Db, c: CommitmentId)
    requires Inv(db) && c in db.commitments
    ensures c in db.claims <==>
      var s := db.commitments[c].state;
      s.Claimed? || s.Working? || s.CompletionProposed? || (s.Waiting? && !s.reason.OnUncertainAction?)
  {
    hide Inv;
    ClaimFacts(db, c);
  }

  /** `p` was open on its barrier, and the barrier is completed. */
  ghost predicate EndsWithTerminal(before: CommitmentRow, after: Commitments) {
    && before.replacement.Some?
    && (before.state == Waiting(OnPrerequisite(before.replacement.value)) || before.state.RecoveryPending?)
    && before.replacement.value in after && after[before.replacement.value].state.Completed?
  }

  /** From where one step may take a commitment to another state. */
  ghost predicate EntersInStep(before: CommitmentRow, to: CommitmentState, after: Commitments) {
    var from := before.state;
    match to
    case Proposed => false
    case Ready => from.Proposed? || from.Waiting? || from.RecoveryPending?
    case Claimed => from.Ready?
    case Working => from.Claimed? || from.Waiting?
    case Waiting(_) => from.Working? || from.RecoveryPending?
    case RecoveryPending =>
      from.Claimed? || from.Working? || from.CompletionProposed? || (from.Waiting? && !from.reason.OnUncertainAction?)
    case CompletionProposed => from.Working?
    case Completed => from.CompletionProposed? || EndsWithTerminal(before, after)
    case Cancelled => !from.Completed? && !from.Cancelled? && !from.Abandoned?
    case Abandoned => !from.Completed? && !from.Cancelled? && !from.Abandoned?
  }

  lemma CascadedEntry(db: Db, d: Draft, event: WorkEvent, expected: nat, c: CommitmentId)
    requires Inv(db) && MayPersist(db, d, expected, event) && d.state.Completed? && c in db.commitments && d.id != c
    requires c in CascadeOf(PersistRow(db, d, event).commitments, d.id)
    ensures EndsWithTerminal(db.commitments[c], PersistEffect(db, d, event).commitments)
  {
    hide Inv, MayPersistRow, CascadeOf, PersistRow, PersistEffect, CascadeFits;
    CandidateIsThere(db, d, expected, event);
    PersistedRows(db, d, expected, event, c);
    CascadedBarrier(db, d, event, c);
  }

  lemma CandidateIsThere(db: Db, d: Draft, expected: nat, event: WorkEvent)
    requires MayPersistRow(db, d, expected, event)
    ensures d.id in db.commitments
  {
  }

  /** Main result: in every step a state is entered only from the states listed. */
  lemma StatesAreEntered(db: Db, m: Mutation, c: CommitmentId)
    requires Inv(db) && c in db.commitments
    ensures c in Step(db, m).commitments
    ensures Step(db, m).commitments[c].state != db.commitments[c].state ==>
      EntersInStep(db.commitments[c], Step(db, m).commitments[c].state, Step(db, m).commitments)
  {
    hide Inv, Do, LegalTransition, EndsWithTerminal, MayPersist, CascadeOf, PersistRow, PersistEffect;
    OffTheMapIsExpiryOrCascade(db, m, c);
    LegalIsEntered(db.commitments[c].state, Step(db, m).commitments[c].state);
    if Allowed(db, m) && m.Persist? && OffTheMap(db, m, c, db.commitments[c].state, Step(db, m).commitments[c].state) {
      PersistIsDone(db, m);
      CascadedEntry(db, m.draft, m.event, m.expected, c);
    }
  }

  /** So it is along every run. */
  lemma RunStatesAreEntered(ms: seq<Mutation>, i: nat, c: CommitmentId)
    requires SoundRun(EMPTY, ms) && i < |ms| && c in RunAll(EMPTY, ms[..i]).commitments
    ensures
      var before, after := RunAll(EMPTY, ms[..i]).commitments, RunAll(EMPTY, ms[..i + 1]).commitments;
      c in after && (after[c].state != before[c].state ==> EntersInStep(before[c], after[c].state, after))
  {
    hide Inv, Step, EntersInStep;
    SoundPrefix(EMPTY, ms, i);
    ReachableInv(ms[..i]);
    StatesAreEntered(RunAll(EMPTY, ms[..i]), ms[i], c);
    assert ms[..i + 1] == ms[..i] + [ms[i]];
    RunSnoc(EMPTY, ms[..i], ms[i]);
  }

  // ---- which edges the store takes ----

  /** The edges that generic persistence takes: those of the topology that need
      no claim out of nothing. */
  predicate Persistable(from: CommitmentState, to: CommitmentState) {
    match to
    case Proposed => false
    case Ready => from.Proposed? || from.Waiting? || from.RecoveryPending?
    case Claimed => from.Ready?
    case Working => from.Claimed? || (from.Waiting? && !from.reason.OnUncertainAction?)
    case Waiting(reason) => from.Working? || (from.RecoveryPending? && reason.OnUncertainAction?)
    case RecoveryPending =>
      from.Working? || from.CompletionProposed? || (from.Waiting? && !from.reason.OnUncertainAction?)
    case CompletionProposed => from.Working?
    case Completed => from.CompletionProposed?
    case Cancelled => !from.Completed? && !from.Cancelled? && !from.Abandoned?
    case Abandoned => !from.Completed? && !from.Cancelled? && !from.Abandoned?
  }

  /** The stored commitment in its next state: its claim kept if that state needs
      one, dropped if not, opened for `worker` if there is none. */
  function Toward(db: Db, c: CommitmentId, to: CommitmentState, worker: WorkerId): Draft
    requires c in db.commitments
  {
    var d := Loaded(db, c).(state := to);
    var needed := to.Claimed? || to.Working? || to.CompletionProposed? || (to.Waiting? && !to.reason.OnUncertainAction?);
    if !needed then d.(claim := None)
    else if c in db.claims then d
    else d.(claim := Some(Lease(worker, d.lastEpoch + 1, 0)), lastEpoch := d.lastEpoch + 1)
  }

  lemma TowardClaim(db: Db, c: CommitmentId, to: CommitmentState, worker: WorkerId)
    requires Inv(db) && c in db.commitments && Persistable(db.commitments[c].state, to)
    requires to.Claimed? ==> db.commitments[c].highWater < MAX_I64
    ensures
      var d := Toward(db, c, to, worker);
      ClaimPersists(db, d) && (d.claim.Some? ==> d.claim.value.heartbeat <= MAX_I64)
  {
    hide Inv;
    ClaimFacts(db, c);
  }

  lemma PersistableIsLegal(from: CommitmentState, to: CommitmentState)
    requires Persistable(from, to)
    ensures LegalTransition(from, to)
  {
    LegalIsEntered(from, to);
  }

  /** Main result: the store takes every such edge for a commitment with nothing
      in its way, and no other edge for any candidate. */
  lemma PersistableIsPersisted(db: Db, c: CommitmentId, to: CommitmentState, worker: WorkerId)
    requires Inv(db) && c in db.commitments && Persistable(db.commitments[c].state, to)
    requires db.commitments[c].outstanding == None
    requires db.commitments[c].version < MAX_I64 && (to.Claimed? ==> db.commitments[c].highWater < MAX_I64)
    requires db.commitments[c].replacement.Some? ==> to.Cancelled? || to.Abandoned?
    requires
      var d := Toward(db, c, to, worker);
      to.Completed? ==> CascadeFits(PersistRow(db, d, EventOf(d)).commitments, c)
    ensures
      var d := Toward(db, c, to, worker);
      MayPersist(db, d, db.commitments[c].version, EventOf(d)) && d.state == to
  {
    hide Inv, ClaimPersists, LegalTransition, Persistable, CascadeFits, PersistRow;
    TowardClaim(db, c, to, worker);
    PersistableIsLegal(db.commitments[c].state, to);
    TowardEvent(db, c, to, worker);
  }

  lemma TowardEvent(db: Db, c: CommitmentId, to: CommitmentState, worker: WorkerId)
    requires c in db.commitments && Persistable(db.commitments[c].state, to)
    ensures
      var d := Toward(db, c, to, worker);
      EventDescribes(EventOf(d), to) && EventCommitment(EventOf(d)) == Some(c)
  {
  }

  lemma PersistedIsPersistable(db: Db, d: Draft, expected: nat, event: WorkEvent)
    requires Inv(db) && MayPersist(db, d, expected, event)
    ensures d.id in db.commitments && Persistable(db.commitments[d.id].state, d.state)
  {
    hide Inv, LegalTransition, EventDescribes, CascadeFits, PersistRow;
    CandidateIsThere(db, d, expected, event);
    LegalIsEntered(db.commitments[d.id].state, d.state);
    ClaimFacts(db, d.id);
  }
}
