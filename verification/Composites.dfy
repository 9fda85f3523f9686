/** Both halves of the composite barrier over whole runs: a composite completes
    with its replacement terminal, and only with it. */
module Composites {
  import opened Domain
  import opened Aggregates
  import opened Database
  import opened Mutations
  import opened Preservation
  import opened Cascade
  import opened Runs
  import opened Safety
  import Acyclic

  ghost predicate CompletedWithBarrier(cs: Commitments, p: CommitmentId)
    requires p in cs && cs[p].replacement.Some?
  {
    cs[p].replacement.value in cs && cs[cs[p].replacement.value].state.Completed?
  }

  /** No composite is completed before its replacement terminal. */
  ghost predicate CompletionsFollow(cs: Commitments) {
    forall p :: p in cs && cs[p].replacement.Some? && cs[p].state.Completed? ==> CompletedWithBarrier(cs, p)
  }

  lemma NewRowIsPlain(db: Db, m: Mutation, p: CommitmentId)
    requires Allowed(db, m) && p !in db.commitments && p in Do(db, m).commitments
    ensures Do(db, m).commitments[p].replacement == None
  {
    hide MayIssue, MayRelease, MayRestart, MayInvalidate, ClaimPersists, CascadeOf, CascadeFits, LegalTransition,
         Enumerates, InvalidateAll, FreeReserved, Acyclic.IsAcyclic, GraphOf, LeaseLive, NothingInFlight;
  }

  /** A terminal is only ever linked by the decomposition that makes its composite wait. */
  lemma NewTerminalIsWaitedFor(db: Db, m: Mutation, p: CommitmentId)
    requires Allowed(db, m) && p in db.commitments && p in Do(db, m).commitments
    requires Do(db, m).commitments[p].replacement != db.commitments[p].replacement
    ensures Do(db, m).commitments[p].state.Waiting?
  {
    hide MayRequire, MayIssue, MayAdmit, MayRecord, MayRelease, MayRestart, MayInvalidate, Holds, ClaimPersists,
         CascadeFits, LegalTransition, Enumerates, InvalidateAll, FreeReserved, Acyclic.IsAcyclic, GraphOf, CascadeOf;
  }

  /** What the cascade completes, it completes after the replacement terminal. */
  lemma CascadeFollows(cs: Commitments, child: CommitmentId, p: CommitmentId)
    requires p in CascadeOf(cs, child)
    ensures p in cs && cs[p].replacement.Some?
    ensures cs[p].replacement.value == child || cs[p].replacement.value in CascadeOf(cs, child)
    ensures cs[p].replacement.value in cs
  {
    var chain := CascadeOf(cs, child);
    var i :| 0 <= i < |chain| && chain[i] == p;
    ChainMembers(cs, child);
    ChainLinks(cs, child, Unfinished(cs), i);
  }

  lemma CascadedBarrier(db: Db, d: Draft, event: WorkEvent, p: CommitmentId)
    requires d.id in db.commitments && d.state.Completed?
    requires p in CascadeOf(PersistRow(db, d, event).commitments, d.id)
    ensures
      var after := PersistEffect(db, d, event).commitments;
      p in after && after[p].replacement.Some? && CompletedWithBarrier(after, p)
  {
    hide CascadeOf;
    CascadeFollows(PersistRow(db, d, event).commitments, d.id, p);
  }

  /** An open composite waits on its terminal or is pending recovery, and neither
      has a legal edge to completion. */
  lemma OpenCompositeCannotComplete(db: Db, p: CommitmentId)
    requires Inv(db) && p in db.commitments && db.commitments[p].replacement.Some?
    ensures !LegalTransition(db.commitments[p].state, Completed)
  {
    assert BarrierHolds(db.commitments, db.guards, p);
  }

  lemma CompositeStep(db: Db, m: Mutation)
    requires Inv(db) && CompletionsFollow(db.commitments)
    ensures CompletionsFollow(Step(db, m).commitments)
  {
    hide Inv, Allowed, Do, StateMoves, CascadeOf, PersistRow;
    if Allowed(db, m) {
      var after := Do(db, m).commitments;
      forall p | p in after && after[p].replacement.Some? && after[p].state.Completed?
        ensures CompletedWithBarrier(after, p)
      {
        CompositeRowStep(db, m, p);
      }
    }
  }

  lemma CompletedStays(db: Db, m: Mutation, q: CommitmentId)
    requires Inv(db) && Allowed(db, m) && q in db.commitments && db.commitments[q].state.Completed?
    ensures q in Do(db, m).commitments && Do(db, m).commitments[q].state.Completed?
  {
    hide Inv, Allowed, Do;
    CommitmentStep(db, m, q);
  }

  lemma CompositeRowStep(db: Db, m: Mutation, p: CommitmentId)
    requires Inv(db) && CompletionsFollow(db.commitments) && Allowed(db, m)
    requires p in Do(db, m).commitments
    requires Do(db, m).commitments[p].replacement.Some? && Do(db, m).commitments[p].state.Completed?
    ensures CompletedWithBarrier(Do(db, m).commitments, p)
  {
    hide Inv, Do, LegalTransition, MayPersist, CascadeOf, PersistRow, PersistEffect;
    if p !in db.commitments { NewRowIsPlain(db, m, p); }
    if Do(db, m).commitments[p].replacement != db.commitments[p].replacement { NewTerminalIsWaitedFor(db, m, p); }
    if db.commitments[p].state.Completed? {
      CompletedStays(db, m, db.commitments[p].replacement.value);
    } else {
      OpenCompositeCannotComplete(db, p);
      OffTheMapIsExpiryOrCascade(db, m, p);
      PersistIsDone(db, m);
      CascadedBarrier(db, m.draft, m.event, p);
    }
  }

  lemma PersistIsDone(db: Db, m: Mutation)
    requires Allowed(db, m) && m.Persist?
    ensures m.draft.id in db.commitments && Do(db, m) == PersistEffect(db, m.draft, m.event)
  {
  }

  /** Main result: in every state of every run, a composite is completed only if
      its replacement terminal is, and if the terminal is completed the composite
      has ended: completed with it, or cancelled or abandoned before. */
  lemma {:induction false} CompositeEndsWithItsBarrier(ms: seq<Mutation>)
    requires SoundRun(EMPTY, ms)
    ensures
      var cs := RunAll(EMPTY, ms).commitments;
      forall p :: p in cs && cs[p].replacement.Some? ==>
        && cs[p].replacement.value in cs
        && (cs[p].state.Completed? ==> cs[cs[p].replacement.value].state.Completed?)
        && (cs[cs[p].replacement.value].state.Completed? ==> IsTerminal(cs[p].state))
  {
    hide Inv;
    CompletionsFollowOverRuns(ms);
    ReachableInv(ms);
    BarriersOfReachable(RunAll(EMPTY, ms));
  }

  lemma BarriersOfReachable(db: Db)
    requires Inv(db)
    ensures forall p :: p in db.commitments && db.commitments[p].replacement.Some? ==>
      && db.commitments[p].replacement.value in db.commitments
      && (db.commitments[db.commitments[p].replacement.value].state.Completed? ==> IsTerminal(db.commitments[p].state))
  {
    hide ClaimsAgree, ActionsAgree, LocksAgree, GuardsSound, TopologySound, Acyclic.IsAcyclic;
    forall p | p in db.commitments && db.commitments[p].replacement.Some?
      ensures db.commitments[p].replacement.value in db.commitments
    {
      assert BarrierHolds(db.commitments, db.guards, p);
    }
  }

  lemma {:induction false} CompletionsFollowOverRuns(ms: seq<Mutation>)
    requires SoundRun(EMPTY, ms)
    ensures CompletionsFollow(RunAll(EMPTY, ms).commitments)
    decreases |ms|
  {
    hide Inv, Step;
    if ms != [] {
      var k := |ms| - 1;
      SoundPrefix(EMPTY, ms, k);
      CompletionsFollowOverRuns(ms[..k]);
      ReachableInv(ms[..k]);
      CompositeStep(RunAll(EMPTY, ms[..k]), ms[k]);
    }
  }
}
