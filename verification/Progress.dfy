/** What the log holds before work is completed in the ordinary way: a claim, a
    later start, a still later completion proposal, and no other claim since. */
module Progress {
  import opened Domain
  import opened Aggregates
  import opened Database
  import opened Mutations
  import opened Preservation
  import opened Runs
  import opened Safety
  import opened Topology
  import Acyclic

  datatype Stage = NeverClaimed | Opened | Begun | Offered

  function Advance(stage: Stage, event: WorkEvent, c: CommitmentId): Stage {
    match event
    case CommitmentClaimed(id, _, _) => if id == c then Opened else stage
    case CommitmentStarted(id) => if id == c && !stage.NeverClaimed? then Begun else stage
    case CommitmentCompletionProposed(id) => if id == c && (stage.Begun? || stage.Offered?) then Offered else stage
    case _ => stage
  }

  /** How far the log tells the last claim on `c` to have come. */
  function StageOf(events: seq<WorkEvent>, c: CommitmentId): Stage
    decreases |events|
  {
    if events == [] then NeverClaimed
    else Advance(StageOf(events[..|events| - 1], c), events[|events| - 1], c)
  }

  ghost predicate IsClaimOf(event: WorkEvent, c: CommitmentId) {
    event.CommitmentClaimed? && event.id == c
  }

  ghost predicate NoClaimAfter(events: seq<WorkEvent>, i: nat, c: CommitmentId) {
    forall l :: i < l < |events| ==> !IsClaimOf(events[l], c)
  }

  /** The stage has its reason in the log. */
  lemma {:induction false} StageHasClaim(events: seq<WorkEvent>, c: CommitmentId) returns (i: nat)
    requires StageOf(events, c) != NeverClaimed
    ensures i < |events| && IsClaimOf(events[i], c) && NoClaimAfter(events, i, c)
    ensures StageOf(events, c) == Begun || StageOf(events, c) == Offered ==>
              exists j :: i < j < |events| && events[j] == CommitmentStarted(c)
    ensures StageOf(events, c) == Offered ==>
              exists j, k :: i < j < k < |events| && events[j] == CommitmentStarted(c)
                             && events[k] == CommitmentCompletionProposed(c)
    decreases |events|
  {
    var n := |events| - 1;
    if IsClaimOf(events[n], c) {
      i := n;
    } else {
      i := StageHasClaim(events[..n], c);
      assert forall l :: i < l < n ==> events[l] == events[..n][l];
      var before, after := StageOf(events[..n], c), StageOf(events, c);
      if before == after {
        if after == Begun || after == Offered {
          var j :| i < j < n && events[..n][j] == CommitmentStarted(c);
          assert events[j] == CommitmentStarted(c);
        }
        if after == Offered {
          var j, k :| i < j < k < n && events[..n][j] == CommitmentStarted(c)
            && events[..n][k] == CommitmentCompletionProposed(c);
          assert events[j] == CommitmentStarted(c) && events[k] == CommitmentCompletionProposed(c);
        }
      } else if after == Begun {
        assert events[n] == CommitmentStarted(c);
      } else {
        var j :| i < j < n && events[..n][j] == CommitmentStarted(c);
        assert events[j] == CommitmentStarted(c) && events[n] == CommitmentCompletionProposed(c);
      }
    }
  }

  // ---- the stage follows the state ----

  predicate StageFits(stage: Stage, state: CommitmentState) {
    && (state.Claimed? ==> !stage.NeverClaimed?)
    && (state.Working? || (state.Waiting? && !state.reason.OnUncertainAction?) ==> stage.Begun? || stage.Offered?)
    && (state.CompletionProposed? ==> stage.Offered?)
  }

  ghost predicate StagesFit(db: Db) {
    forall c :: c in db.commitments ==> StageFits(StageOf(db.events, c), db.commitments[c].state)
  }

  /** Events that move the stage of `c`. */
  predicate MovesStage(event: WorkEvent, c: CommitmentId) {
    || (event.CommitmentClaimed? && event.id == c)
    || event == CommitmentStarted(c)
    || event == CommitmentCompletionProposed(c)
  }

  lemma {:induction false} QuietForStage(events: seq<WorkEvent>, added: seq<WorkEvent>, c: CommitmentId)
    requires forall i :: 0 <= i < |added| ==> !MovesStage(added[i], c)
    ensures StageOf(events + added, c) == StageOf(events, c)
    decreases |added|
  {
    if added == [] {
      assert events + added == events;
    } else {
      var k := |added| - 1;
      assert (events + added)[..|events + added| - 1] == events + added[..k];
      QuietForStage(events, added[..k], c);
    }
  }

  lemma OneMoreEvent(events: seq<WorkEvent>, event: WorkEvent, c: CommitmentId)
    ensures StageOf(events + [event], c) == Advance(StageOf(events, c), event, c)
  {
    assert (events + [event])[..|events|] == events;
  }

  lemma OthersMoveNoStage(db: Db, m: Mutation, c: CommitmentId)
    requires Allowed(db, m) && !m.Persist? && c in db.commitments
    ensures forall i :: 0 <= i < |Appended(db, m)| ==> !MovesStage(Appended(db, m)[i], c)
  {
    hide MayDecompose, MayRestructure, MayIssue, MayAdmit, MayInvalidate, MayRelease, MayRestart, MayRequire, Holds,
         Enumerates, MayExpire, MayRecord, MayLapse;
  }

  /** Without a persist nobody claims, starts or offers work; working may come to wait. */
  lemma OthersStartNothing(db: Db, m: Mutation, c: CommitmentId)
    requires Allowed(db, m) && !m.Persist? && c in db.commitments
    ensures c in Do(db, m).commitments
    ensures
      var from, to := db.commitments[c].state, Do(db, m).commitments[c].state;
      || to == from
      || (from.Working? && to.Waiting?)
      || (!to.Claimed? && !to.Working? && !to.CompletionProposed? && !(to.Waiting? && !to.reason.OnUncertainAction?))
  {
    hide Acyclic.IsAcyclic, GraphOf, Dependencies, Enumerates, MayIssue, MayBeat, MayExpire, MayInvalidate, LeaseLive,
         InvalidateAll, FreeReserved, HeldLocks, Reserve, HoldAll, FreeHeld, NothingInFlight, Completions, Invalidations,
         RecoveryNotices;
  }

  lemma NewRowIsProposed(db: Db, m: Mutation, c: CommitmentId)
    requires Allowed(db, m) && c !in db.commitments && c in Do(db, m).commitments
    ensures Do(db, m).commitments[c].state.Proposed?
  {
    hide MayIssue, MayRelease, MayRestart, MayInvalidate, ClaimPersists, CascadeOf, CascadeFits, LegalTransition,
         Enumerates, InvalidateAll, FreeReserved, Acyclic.IsAcyclic, GraphOf, LeaseLive, NothingInFlight;
  }

  lemma OtherStepFits(db: Db, m: Mutation)
    requires StagesFit(db) && Allowed(db, m) && !m.Persist?
    ensures StagesFit(Do(db, m))
  {
    hide Allowed, Do, Appended, StageOf, MovesStage;
    forall c | c in Do(db, m).commitments
      ensures StageFits(StageOf(Do(db, m).events, c), Do(db, m).commitments[c].state)
    {
      if c in db.commitments {
        LogIsAppended(db, m);
        OthersMoveNoStage(db, m, c);
        QuietForStage(db.events, Appended(db, m), c);
        OthersStartNothing(db, m, c);
      } else {
        NewRowIsProposed(db, m, c);
      }
    }
  }

  lemma PersistedStage(db: Db, d: Draft, expected: nat, event: WorkEvent, c: CommitmentId)
    requires MayPersist(db, d, expected, event)
    ensures StageOf(PersistEffect(db, d, event).events, c) == Advance(StageOf(db.events, c), event, c)
  {
    hide StageOf, CascadeOf, MayPersistRow, CascadeFits, MoveAll;
    CandidateIsThere(db, d, expected, event);
    OneMoreEvent(db.events, event, c);
    if d.state.Completed? {
      QuietForStage(db.events + [event], Completions(CascadeOf(PersistRow(db, d, event).commitments, d.id)), c);
    }
  }

  /** The event of a persist moves the stage as the state moves. */
  lemma DescribedStage(stage: Stage, from: CommitmentState, to: CommitmentState, event: WorkEvent, c: CommitmentId)
    requires StageFits(stage, from) && Persistable(from, to)
    requires EventDescribes(event, to) && EventCommitment(event) == Some(c)
    ensures StageFits(Advance(stage, event, c), to)
  {
  }

  lemma PersistStepFits(db: Db, d: Draft, expected: nat, event: WorkEvent)
    requires Inv(db) && StagesFit(db) && MayPersist(db, d, expected, event)
    ensures StagesFit(PersistEffect(db, d, event))
  {
    hide Inv, MayPersist, PersistEffect, StageOf, Persistable, CascadeOf;
    PersistedIsPersistable(db, d, expected, event);
    PersistedKeys(db, d, expected, event);
    forall c | c in db.commitments
      ensures c in PersistEffect(db, d, event).commitments
      ensures StageFits(StageOf(PersistEffect(db, d, event).events, c), PersistEffect(db, d, event).commitments[c].state)
    {
      PersistedStage(db, d, expected, event, c);
      PersistedRows(db, d, expected, event, c);
      if c == d.id {
        DescribedStage(StageOf(db.events, c), db.commitments[c].state, d.state, event, c);
      }
    }
  }

  lemma PersistedKeys(db: Db, d: Draft, expected: nat, event: WorkEvent)
    requires MayPersist(db, d, expected, event)
    ensures PersistEffect(db, d, event).commitments.Keys == db.commitments.Keys
    ensures EventDescribes(event, d.state) && EventCommitment(event) == Some(d.id)
    ensures forall c :: c != d.id ==> !MovesStage(event, c)
  {
    hide CascadeOf, LegalTransition, ClaimPersists, CascadeFits;
  }

  lemma StepFits(db: Db, m: Mutation)
    requires Inv(db) && StagesFit(db)
    ensures StagesFit(Step(db, m))
  {
    hide Inv, StagesFit, MayPersist, PersistEffect;
    if Allowed(db, m) {
      if m.Persist? {
        PersistStepFits(db, m.draft, m.expected, m.event);
      } else {
        OtherStepFits(db, m);
      }
    }
  }

  lemma {:induction false} RunFits(ms: seq<Mutation>)
    requires SoundRun(EMPTY, ms)
    ensures StagesFit(RunAll(EMPTY, ms))
    decreases |ms|
  {
    hide Inv, Step;
    if ms != [] {
      var k := |ms| - 1;
      SoundPrefix(EMPTY, ms, k);
      RunFits(ms[..k]);
      ReachableInv(ms[..k]);
      StepFits(RunAll(EMPTY, ms[..k]), ms[k]);
    }
  }

  /** Main result: whenever a run lets generic persistence complete a commitment,
      its log holds a claim on it, a later start and a later completion proposal,
      and no other claim since. */
  lemma CompletionWasProposed(ms: seq<Mutation>, d: Draft, expected: nat, event: WorkEvent)
    returns (claimed: nat, started: nat, proposed: nat)
    requires SoundRun(EMPTY, ms) && MayPersist(RunAll(EMPTY, ms), d, expected, event) && d.state.Completed?
    ensures
      var log := RunAll(EMPTY, ms).events;
      && claimed < started < proposed < |log|
      && IsClaimOf(log[claimed], d.id) && NoClaimAfter(log, claimed, d.id)
      && log[started] == CommitmentStarted(d.id)
      && log[proposed] == CommitmentCompletionProposed(d.id)
  {
    hide Inv, MayPersist, StageOf, SoundRun, RunAll;
    var db := RunAll(EMPTY, ms);
    RunFits(ms);
    ReachableInv(ms);
    PersistedIsPersistable(db, d, expected, event);
    claimed := StageHasClaim(db.events, d.id);
    var j, k :| claimed < j < k < |db.events| && db.events[j] == CommitmentStarted(d.id)
      && db.events[k] == CommitmentCompletionProposed(d.id);
    started, proposed := j, k;
  }
}
