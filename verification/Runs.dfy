/** Runs: any sequence of attempted mutations with any arguments. An attempt
    that is not allowed is rejected and changes nothing, as a transaction that
    is rolled back. */
module Runs {
  import opened Domain
  import opened Aggregates
  import opened Database
  import opened Mutations
  import opened Preservation
  import Cascade
  import Acyclic

  ghost function Step(db: Db, m: Mutation): Db {
    if Allowed(db, m) then Do(db, m) else db
  }

  ghost function RunAll(db: Db, ms: seq<Mutation>): Db
    decreases |ms|
  {
    if ms == [] then db else Step(RunAll(db, ms[..|ms| - 1]), ms[|ms| - 1])
  }

  /** Every mutation was allowed when its turn came. */
  ghost predicate Accepted(db: Db, ms: seq<Mutation>) {
    forall i :: 0 <= i < |ms| ==> Allowed(RunAll(db, ms[..i]), ms[i])
  }

  /** The inserts of the run keep the discipline that insertion does not check. */
  ghost predicate SoundStep(db: Db, m: Mutation) {
    m.Insert? && Allowed(db, m) ==> SoundInsert(db, m.draft)
  }

  ghost predicate SoundRun(db: Db, ms: seq<Mutation>) {
    forall i :: 0 <= i < |ms| ==> SoundStep(RunAll(db, ms[..i]), ms[i])
  }

  lemma RunSnoc(db: Db, ms: seq<Mutation>, m: Mutation)
    ensures RunAll(db, ms + [m]) == Step(RunAll(db, ms), m)
    ensures Accepted(db, ms) && Allowed(RunAll(db, ms), m) ==> Accepted(db, ms + [m])
    ensures SoundRun(db, ms) && SoundStep(RunAll(db, ms), m) ==> SoundRun(db, ms + [m])
  {
    assert (ms + [m])[..|ms|] == ms;
    assert forall i :: 0 <= i < |ms| ==> (ms + [m])[..i] == ms[..i];
  }

  lemma {:induction false} RunConcat(db: Db, ms: seq<Mutation>, ns: seq<Mutation>)
    ensures RunAll(db, ms + ns) == RunAll(RunAll(db, ms), ns)
    decreases |ns|
  {
    if ns == [] {
      assert ms + ns == ms;
    } else {
      var k := |ns| - 1;
      assert ms + ns == (ms + ns[..k]) + [ns[k]];
      RunSnoc(db, ms + ns[..k], ns[k]);
      RunConcat(db, ms, ns[..k]);
    }
  }

  lemma SoundPrefix(db: Db, ms: seq<Mutation>, k: nat)
    requires SoundRun(db, ms) && k <= |ms|
    ensures SoundRun(db, ms[..k])
  {
    assert forall i :: 0 <= i < k ==> ms[..k][..i] == ms[..i];
  }

  /** One step keeps the invariant. */
  lemma StepKeepsInv(db: Db, m: Mutation)
    requires Inv(db) && SoundStep(db, m)
    ensures Inv(Step(db, m))
  {
    hide Inv, MayInsert, MayPersist, MayRestructure, MayDecompose, MayRequire, MayIssue, MayAdmit, MayBeat, MayLapse,
         MayRelease, MayRecord, MayRestart;
    if Allowed(db, m) {
      match m
      case AddGoal(goal, event) => AddGoalKeepsInv(db, goal, event);
      case Insert(draft, event) => InsertKeepsInvIff(db, draft, event);
      case Persist(draft, expected, event) => Cascade.PersistKeepsInv(db, draft, expected, event);
      case Decompose(target, fence, terminal, children) => DecomposeKeepsInv(db, target, fence, terminal, children);
      case Require(target, fence, prerequisite) => RequireKeepsInv(db, target, fence, prerequisite);
      case GiveUp(target, fence, rationale) => GiveUpKeepsInv(db, target, fence, rationale);
      case Issue(request) => IssueKeepsInv(db, request);
      case Admit(guard, scopes, action, digest, now) => AdmitKeepsInv(db, guard, scopes, action, digest, now);
      case Expire(guard, now) => DropKeepsInv(db, guard, GuardReservationExpired(guard));
      case Invalidate(guard, fence) => DropKeepsInv(db, guard, WorkEvent.GuardInvalidated(guard));
      case Beat(commitment, fence) => BeatKeepsInv(db, commitment, fence);
      case Lapse(commitment, now, lease, revoked) => LapseKeepsInv(db, commitment, now, lease, revoked);
      case Release(commitment) => ReleaseKeepsInv(db, commitment);
      case Record(guard, outcome, digest) => RecordKeepsInv(db, guard, outcome, digest);
      case Restart(lapsed, revoked) => RestartKeepsInv(db, lapsed, revoked);
    }
  }

  /** Main invariant theorem: it holds after every prefix of every sound run. */
  lemma {:induction false} RunKeepsInv(db: Db, ms: seq<Mutation>)
    requires Inv(db) && SoundRun(db, ms)
    ensures Inv(RunAll(db, ms))
    decreases |ms|
  {
    if ms != [] {
      var k := |ms| - 1;
      SoundPrefix(db, ms, k);
      RunKeepsInv(db, ms[..k]);
      StepKeepsInv(RunAll(db, ms[..k]), ms[k]);
    }
  }

  lemma NoRowsAgree()
    ensures ClaimsAgree(map[], map[], 0) && ActionsAgree(map[], map[]) && LocksAgree(map[], map[])
    ensures GuardsSound(map[], map[], 0) && TopologySound(map[], {})
    ensures BarriersHold(map[], map[]) && BarriersReleased(map[])
  {
  }

  lemma NoRowsAcyclic()
    ensures Acyclic.IsAcyclic(GraphOf(map[]))
  {
    assert GraphOf(map[]) == map[];
    Acyclic.AllBlackIsAcyclic(map[], {});
  }

  lemma EmptyKeepsInv()
    ensures Inv(EMPTY)
  {
    hide ClaimsAgree, ActionsAgree, LocksAgree, GuardsSound, TopologySound, BarriersHold, BarriersReleased,
         Acyclic.IsAcyclic, GraphOf;
    NoRowsAgree();
    NoRowsAcyclic();
  }

  /** So it holds in every reachable state. */
  lemma ReachableInv(ms: seq<Mutation>)
    requires SoundRun(EMPTY, ms)
    ensures Inv(RunAll(EMPTY, ms))
  {
    EmptyKeepsInv();
    RunKeepsInv(EMPTY, ms);
  }

  /** What a mutation appends to the log. */
  ghost function Appended(db: Db, m: Mutation): seq<WorkEvent>
    requires Allowed(db, m)
  {
    match m
    case AddGoal(_, event) => [event]
    case Insert(_, event) => [event]
    case Persist(d, _, event) =>
      [event] + if d.state.Completed? then Completions(CascadeOf(PersistRow(db, d, event).commitments, d.id)) else []
    case Decompose(target, _, terminal, children) =>
      [CommitmentWaiting(target, OnPrerequisite(terminal)), ProposalApplied(target, IntoChildren(children, terminal))]
    case Require(target, _, prerequisite) => [ProposalApplied(target, WithPrerequisite(prerequisite))]
    case GiveUp(target, _, rationale) => [CommitmentAbandoned(target), ProposalApplied(target, GivenUp(rationale))]
    case Issue(r) => [WorkEvent.GuardIssued(r.guard, r.commitment, r.fence.epoch)]
    case Admit(g, _, action, digest, _) => [WorkEvent.GuardAdmitted(g, db.guards[g].commitment, action, digest)]
    case Expire(g, _) => [GuardReservationExpired(g)]
    case Invalidate(g, _) => [WorkEvent.GuardInvalidated(g)]
    case Beat(c, fence) => [HeartbeatAccepted(c, fence.worker, fence.epoch)]
    case Lapse(c, _, _, revoked) =>
      [LeaseExpired(c, db.claims[c].worker, db.claims[c].epoch), CommitmentRecoveryPending(c)] + Invalidations(revoked)
    case Release(c) => [RecoveryReleased(c)]
    case Record(g, outcome, digest) =>
      var c := db.guards[g].commitment;
      [OutcomeRecorded(outcome, digest)]
      + if outcome.Uncertain? then [CommitmentWaiting(c, OnUncertainAction(outcome.action))]
        else if db.commitments[c].state.RecoveryPending? then [RecoveryCompleted(c, outcome.action)] else []
    case Restart(lapsed, revoked) => RecoveryNotices(lapsed) + Invalidations(revoked)
  }

  /** The log only ever grows at its end. */
  lemma LogIsAppended(db: Db, m: Mutation)
    requires Allowed(db, m)
    ensures Do(db, m).events == db.events + Appended(db, m)
  {
    hide Completions, Invalidations, RecoveryNotices, CascadeOf, MoveAll, InvalidateAll, FreeReserved, HeldLocks,
         Reserve, HoldAll, FreeHeld, GraphOf, Acyclic.IsAcyclic, Enumerates, ClaimPersists;
  }

  /** A transaction: the mutations `ms`, each allowed in turn, lead from
      `before` to `after`. */
  ghost predicate Commits(before: Db, ms: seq<Mutation>, after: Db) {
    Accepted(before, ms) && SoundRun(before, ms) && after == RunAll(before, ms)
  }

  lemma CommitsNothing(db: Db)
    ensures Commits(db, [], db)
  {
  }

  lemma CommitsNext(before: Db, ms: seq<Mutation>, mid: Db, m: Mutation)
    requires Commits(before, ms, mid) && Allowed(mid, m) && SoundStep(mid, m)
    ensures Commits(before, ms + [m], Do(mid, m))
  {
    RunSnoc(before, ms, m);
  }

  lemma CommitsConcat(before: Db, ms: seq<Mutation>, mid: Db, ns: seq<Mutation>, after: Db)
    requires Commits(before, ms, mid) && Commits(mid, ns, after)
    ensures Commits(before, ms + ns, after)
  {
    hide Allowed, SoundStep, RunAll;
    RunConcat(before, ms, ns);
    forall i | 0 <= i < |ms + ns|
      ensures Allowed(RunAll(before, (ms + ns)[..i]), (ms + ns)[i])
      ensures SoundStep(RunAll(before, (ms + ns)[..i]), (ms + ns)[i])
    {
      if i < |ms| {
        assert (ms + ns)[..i] == ms[..i];
      } else {
        assert (ms + ns)[..i] == ms + ns[..i - |ms|];
        RunConcat(before, ms, ns[..i - |ms|]);
      }
    }
  }

  lemma CommitsKeepsInv(before: Db, ms: seq<Mutation>, after: Db)
    requires Inv(before) && Commits(before, ms, after)
    ensures Inv(after)
  {
    RunKeepsInv(before, ms);
  }
}
