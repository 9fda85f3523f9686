/** Reopening a store: the two checks as written, what they accept,
    and what the recovery that follows rebuilds. */
module Startup {
  import opened Domain
  import opened Aggregates
  import opened Database
  import opened Mutations
  import opened Preservation
  import opened Runs
  import opened Safety
  import opened Scenarios
  import opened TableFacts
  import Acyclic

  // ---- the guard and lock check ----

  function LocksOf(locks: Locks, g: GuardId): set<ScopeKey> {
    set k | k in locks && locks[k].guard == g
  }

  /** The check of one scope lock against its guard; a terminal guard accepts none. */
  predicate LockMatches(row: GuardRow, lock: LockRow) {
    && lock.commitment == row.commitment
    && match row.state
       case Issued(deadline) => lock.mode == Reserved(deadline)
       case Admitted(action, _) => lock.mode == Held(action)
       case Uncertain(action, _) => lock.mode == Held(action)
       case Resolved(_, _) => false
       case Invalidated => false
  }

  /** As many locks as scopes, each on a scope of the guard, each as its state demands. */
  predicate GuardAccepted(row: GuardRow, g: GuardId, locks: Locks) {
    && |LocksOf(locks, g)| == |row.scopes|
    && LocksOf(locks, g) <= row.scopes
    && forall k :: k in row.scopes ==> k in LocksOf(locks, g) && LockMatches(row, locks[k])
  }

  predicate GuardLocksAccepted(db: Db) {
    forall g :: g in db.guards ==> GuardAccepted(db.guards[g], g, db.locks)
  }

  /** What the check says it wants: a terminal guard owns no lock, a live one exactly its own. */
  predicate IntendedGuardAccepted(row: GuardRow, g: GuardId, locks: Locks) {
    if IsLive(row.state) then GuardAccepted(row, g, locks) else LocksOf(locks, g) == {}
  }

  lemma LiveGuardAccepted(gs: Guards, locks: Locks, g: GuardId)
    requires LocksAgree(gs, locks) && g in gs && IsLive(gs[g].state)
    ensures GuardAccepted(gs[g], g, locks)
  {
    var row := gs[g];
    forall k | k in row.scopes
      ensures k in locks && locks[k] == LockFor(g, row)
    {
    }
    assert LocksOf(locks, g) == row.scopes;
  }

  lemma EndedGuardOwnsNothing(gs: Guards, locks: Locks, g: GuardId)
    requires LocksAgree(gs, locks) && g in gs && !IsLive(gs[g].state)
    ensures LocksOf(locks, g) == {}
  {
  }

  /** Main result: on states that keep the invariant, the check as written passes
      exactly when no guard has ever been resolved or invalidated. */
  lemma AcceptedIffNoGuardEnded(db: Db)
    requires Inv(db)
    ensures GuardLocksAccepted(db) <==> forall g :: g in db.guards ==> IsLive(db.guards[g].state)
  {
    hide ClaimsAgree, ActionsAgree, GuardAccepted, LocksAgree, BarriersHold, TopologySound, Acyclic.IsAcyclic;
    forall g | g in db.guards
      ensures GuardAccepted(db.guards[g], g, db.locks) <==> IsLive(db.guards[g].state)
    {
      if IsLive(db.guards[g].state) {
        LiveGuardAccepted(db.guards, db.locks, g);
      } else {
        EndedGuardRefused(db.guards[g], g, db.guards, db.locks);
      }
    }
  }

  lemma EndedGuardRefused(row: GuardRow, g: GuardId, gs: Guards, locks: Locks)
    requires LocksAgree(gs, locks) && g in gs && gs[g] == row && !IsLive(row.state) && row.scopes != {}
    ensures !GuardAccepted(row, g, locks)
  {
    var k :| k in row.scopes;
    EndedGuardOwnsNothing(gs, locks, g);
  }

  /** On any tables whose locks name known guards, the check accepts exactly the
      locks that agree with the guards, as long as every guard with a scope is live. */
  lemma LockCheckIsExact(db: Db)
    requires forall k :: k in db.locks ==> db.locks[k].guard in db.guards
    ensures GuardLocksAccepted(db) <==>
      && LocksAgree(db.guards, db.locks)
      && forall g :: g in db.guards && db.guards[g].scopes != {} ==> IsLive(db.guards[g].state)
  {
    hide GuardAccepted;
    if GuardLocksAccepted(db) {
      forall k | k in db.locks
        ensures
          var g := db.locks[k].guard;
          k in db.guards[g].scopes && IsLive(db.guards[g].state) && db.locks[k] == LockFor(g, db.guards[g])
      {
        var g := db.locks[k].guard;
        AcceptedOwnsItsScopes(db.guards[g], g, db.locks);
        assert k in LocksOf(db.locks, g);
      }
      forall g, k | g in db.guards && k in db.guards[g].scopes
        ensures IsLive(db.guards[g].state) && k in db.locks && db.locks[k].guard == g
      {
        AcceptedOwnsItsScopes(db.guards[g], g, db.locks);
        assert k in LocksOf(db.locks, g);
      }
      assert LocksAgree(db.guards, db.locks);
      forall g | g in db.guards && db.guards[g].scopes != {}
        ensures IsLive(db.guards[g].state)
      {
        AcceptedOwnsItsScopes(db.guards[g], g, db.locks);
        var k :| k in db.guards[g].scopes;
        assert IsLive(db.guards[g].state);
      }
    } else {
      hide LocksAgree, LocksOf;
      var g :| g in db.guards && !GuardAccepted(db.guards[g], g, db.locks);
      if LocksAgree(db.guards, db.locks) {
        if IsLive(db.guards[g].state) {
          LiveGuardAccepted(db.guards, db.locks, g);
        } else {
          ScopelessAccepted(db.guards, db.locks, g);
        }
      }
    }
  }

  lemma AcceptedOwnsItsScopes(row: GuardRow, g: GuardId, locks: Locks)
    requires GuardAccepted(row, g, locks)
    ensures LocksOf(locks, g) == row.scopes
    ensures forall k :: k in row.scopes ==> IsLive(row.state) && locks[k] == LockFor(g, row)
  {
    forall k | k in row.scopes
      ensures IsLive(row.state) && locks[k] == LockFor(g, row)
    {
      assert k in LocksOf(locks, g) && LockMatches(row, locks[k]);
    }
  }

  lemma ScopelessAccepted(gs: Guards, locks: Locks, g: GuardId)
    requires LocksAgree(gs, locks) && g in gs && !IsLive(gs[g].state)
    ensures gs[g].scopes == {} ==> GuardAccepted(gs[g], g, locks)
  {
    EndedGuardOwnsNothing(gs, locks, g);
  }

  /** With the intended check every state that keeps the invariant reopens. */
  lemma IntendedCheckAccepts(db: Db)
    requires Inv(db)
    ensures forall g :: g in db.guards ==> IntendedGuardAccepted(db.guards[g], g, db.locks)
  {
    hide ClaimsAgree, ActionsAgree, GuardAccepted, LocksAgree, BarriersHold, TopologySound, Acyclic.IsAcyclic;
    forall g | g in db.guards
      ensures IntendedGuardAccepted(db.guards[g], g, db.locks)
    {
      if IsLive(db.guards[g].state) {
        LiveGuardAccepted(db.guards, db.locks, g);
      } else {
        EndedGuardOwnsNothing(db.guards, db.locks, g);
      }
    }
  }

  /** Once any guard has ended, no later state of any run can be reopened. */
  lemma {:induction false} EndedGuardNeverReopens(db: Db, ms: seq<Mutation>, g: GuardId)
    requires Inv(db) && SoundRun(db, ms)
    requires g in db.guards && !IsLive(db.guards[g].state)
    ensures !GuardLocksAccepted(RunAll(db, ms))
  {
    hide Inv, SoundRun, GuardLocksAccepted;
    EndedStaysEnded(db, ms, g);
    RunKeepsInv(db, ms);
    AcceptedIffNoGuardEnded(RunAll(db, ms));
  }

  lemma {:induction false} EndedStaysEnded(db: Db, ms: seq<Mutation>, g: GuardId)
    requires g in db.guards && !IsLive(db.guards[g].state)
    ensures g in RunAll(db, ms).guards && !IsLive(RunAll(db, ms).guards[g].state)
    decreases |ms|
  {
    hide Step;
    if ms != [] {
      var k := |ms| - 1;
      EndedStaysEnded(db, ms[..k], g);
      GuardStep(RunAll(db, ms[..k]), ms[k], g);
    }
  }

  /** A restart ends every issued guard, so a store that reopened with one reopens no more. */
  lemma RestartWithIssuedGuardIsTheLast(db: Db, lapsed: seq<CommitmentId>, revoked: seq<GuardId>, g: GuardId,
                                        ms: seq<Mutation>)
    requires Inv(db) && MayRestart(db, lapsed, revoked)
    requires g in db.guards && db.guards[g].state.Issued?
    requires SoundRun(RestartEffect(db, lapsed, revoked), ms)
    ensures !GuardLocksAccepted(RunAll(RestartEffect(db, lapsed, revoked), ms))
  {
    hide Inv, SoundRun, GuardLocksAccepted, MayRestart;
    RestartKeepsInv(db, lapsed, revoked);
    EndedGuardNeverReopens(RestartEffect(db, lapsed, revoked), ms, g);
  }

  // ---- a store that cannot be reopened ----

  /** A concrete run: work is claimed and started, one guard is issued and given
      up, nothing is locked, and from then on the store cannot be reopened. */
  lemma StuckIsRefused() returns (ms: seq<Mutation>)
    ensures Commits(EMPTY, ms, STUCK)
    ensures !GuardLocksAccepted(STUCK) && forall g :: g in STUCK.guards ==> IntendedGuardAccepted(STUCK.guards[g], g, STUCK.locks)
    ensures forall more :: SoundRun(STUCK, more) ==> !GuardLocksAccepted(RunAll(STUCK, more))
  {
    hide Inv, Commits, GuardLocksAccepted, IntendedGuardAccepted, SoundRun;
    ms := ReachStuck();
    ReachedKeepsInv(ms, STUCK);
    assert X in STUCK.guards && !IsLive(STUCK.guards[X].state);
    AcceptedIffNoGuardEnded(STUCK);
    IntendedCheckAccepts(STUCK);
    forall more | SoundRun(STUCK, more)
      ensures !GuardLocksAccepted(RunAll(STUCK, more))
    {
      EndedGuardNeverReopens(STUCK, more, X);
    }
  }

  // ---- the topology check ----

  predicate RowAccepted(cs: Commitments, c: CommitmentId)
    requires c in cs
  {
    && (cs[c].parent.Some? ==> cs[c].parent.value in cs && cs[cs[c].parent.value].goal == cs[c].goal)
    && (cs[c].replacement.Some? ==>
          var terminal := cs[c].replacement.value;
          && terminal in cs
          && cs[terminal].parent == Some(c) && cs[terminal].goal == cs[c].goal
          && (IsTerminal(cs[c].state) || cs[c].state == Waiting(OnPrerequisite(terminal)) || cs[c].state.RecoveryPending?))
  }

  ghost predicate TopologyAccepted(cs: Commitments) {
    && (forall c :: c in cs ==> Dependencies(cs[c].prerequisites) <= cs.Keys)
    && Acyclic.IsAcyclic(GraphOf(cs))
    && forall c :: c in cs ==> RowAccepted(cs, c)
  }

  lemma TopologyCheckAccepts(db: Db)
    requires Inv(db)
    ensures TopologyAccepted(db.commitments)
  {
    hide ClaimsAgree, ActionsAgree, GuardsSound, LocksAgree, Acyclic.IsAcyclic, BarriersReleased;
    forall c | c in db.commitments
      ensures RowAccepted(db.commitments, c)
    {
      assert db.commitments[c].replacement.Some? ==> BarrierHolds(db.commitments, db.guards, c);
    }
  }

  /** What of a barrier the check leaves to the writers: the terminal is required,
      and while the parent is open nothing of it is in flight. */
  ghost predicate BarrierIsQuiet(cs: Commitments, gs: Guards, p: CommitmentId)
    requires p in cs && cs[p].replacement.Some?
  {
    && NeedsCommitment(cs[p].replacement.value) in cs[p].prerequisites
    && (!cs[p].state.Completed? && !cs[p].state.Cancelled? && !cs[p].state.Abandoned? ==>
          cs[p].outstanding == None && forall g :: g in gs && gs[g].commitment == p ==> !IsLive(gs[g].state))
  }

  /** On any tables whose goals are known, the topology, the cycle and the barrier
      parts of the invariant are exactly what the check accepts and what it leaves out. */
  lemma TopologyCheckIsExact(db: Db)
    requires forall c :: c in db.commitments ==> db.commitments[c].goal in db.goals
    ensures
      var cs := db.commitments;
      TopologySound(cs, db.goals) && BarriersHold(cs, db.guards) && Acyclic.IsAcyclic(GraphOf(cs))
      <==>
      TopologyAccepted(cs) && forall p :: p in cs && cs[p].replacement.Some? ==> BarrierIsQuiet(cs, db.guards, p)
  {
    hide Acyclic.IsAcyclic, IsLive;
    var cs := db.commitments;
    if TopologyAccepted(cs) && forall p :: p in cs && cs[p].replacement.Some? ==> BarrierIsQuiet(cs, db.guards, p) {
      forall p | p in cs && cs[p].replacement.Some?
        ensures BarrierHolds(cs, db.guards, p)
      {
        assert RowAccepted(cs, p);
      }
    }
    if BarriersHold(cs, db.guards) {
      forall p | p in cs && cs[p].replacement.Some?
        ensures BarrierIsQuiet(cs, db.guards, p)
      {
        assert BarrierHolds(cs, db.guards, p);
      }
    }
  }

  // ---- the recovery ----

  /** Main result: a restart from any state that keeps the invariant deletes and
      rebuilds the lock table yet ends with exactly the rows that were held. */
  lemma RestartIsExact(db: Db, lapsed: seq<CommitmentId>, revoked: seq<GuardId>)
    requires Inv(db) && MayRestart(db, lapsed, revoked)
    ensures
      var after := RestartEffect(db, lapsed, revoked);
      && Inv(after) && after.boot == db.boot + 1 && after.claims == map[]
      && (forall k :: k in after.locks <==> k in db.locks && db.locks[k].mode.Held?)
      && (forall k :: k in after.locks ==> after.locks[k] == db.locks[k])
      && (forall g :: g in after.guards ==> !after.guards[g].state.Issued?)
      && (forall g :: g in after.guards && IsActive(after.guards[g].state) ==> g in db.guards && db.guards[g] == after.guards[g])
      && after.commitments.Keys == db.commitments.Keys
      && forall c :: c in db.commitments ==>
           && after.commitments[c].outstanding == db.commitments[c].outstanding
           && after.commitments[c].highWater == db.commitments[c].highWater
           && (IsTerminal(db.commitments[c].state) || db.commitments[c].state.RecoveryPending?
               || (db.commitments[c].state.Waiting? && db.commitments[c].state.reason.OnUncertainAction?) ==>
                 after.commitments[c] == db.commitments[c])
           && (RequiresClaim(db.commitments[c].state) <==> after.commitments[c] == Moved(db.commitments[c], RecoveryPending))
  {
    hide ActionsAgree, GuardsSound, LocksAgree, Acyclic.IsAcyclic, BarriersReleased, BarriersHold, TopologySound;
    RestartKeepsInv(db, lapsed, revoked);
  }

  /** The held rows that belong to some guards. */
  function HeldOf(locks: Locks, gs: set<GuardId>): Locks {
    map k | k in locks && locks[k].mode.Held? && locks[k].guard in gs :: locks[k]
  }

  function ActiveGuards(gs: Guards): set<GuardId> {
    set g | g in gs && IsActive(gs[g].state)
  }

  /** The held rows are exactly those of the active guards; reserved rows may be stale. */
  ghost predicate HeldAgree(gs: Guards, locks: Locks) {
    && (forall k :: k in locks && locks[k].mode.Held? ==> locks[k].guard in ActiveGuards(gs))
    && (forall g :: g in gs && IsActive(gs[g].state) ==> HeldBy(locks, g) == gs[g].scopes)
    && (forall g, k :: g in gs && IsActive(gs[g].state) && k in gs[g].scopes && k in locks ==> locks[k] == LockFor(g, gs[g]))
  }

  lemma HeldAgreeAfterInvalidation(gs: Guards, locks: Locks)
    requires LocksAgree(gs, locks)
    ensures HeldAgree(InvalidateAll(gs, IssuedGuards(gs)), locks)
    ensures ActiveGuards(InvalidateAll(gs, IssuedGuards(gs))) == ActiveGuards(gs)
  {
    var after := InvalidateAll(gs, IssuedGuards(gs));
    forall g | g in after && IsActive(after[g].state)
      ensures HeldBy(locks, g) == after[g].scopes
    {
      assert after[g] == gs[g];
    }
  }

  /** One more active guard's scopes join the expected locks, and none was expected before. */
  lemma ExpectAnother(gs: Guards, locks: Locks, done: set<GuardId>, g: GuardId, row: LockRow)
    requires HeldAgree(gs, locks) && g in gs && IsActive(gs[g].state) && g !in done
    requires row == LockFor(g, gs[g])
    ensures HeldOf(locks, done + {g}) == HeldOf(locks, done) + map k | k in gs[g].scopes :: row
    ensures gs[g].scopes !! HeldOf(locks, done).Keys
  {
    assert forall k :: k in gs[g].scopes ==> k in HeldBy(locks, g);
    forall k | k in HeldOf(locks, done + {g})
      ensures k in HeldOf(locks, done) || k in gs[g].scopes
    {
      if locks[k].guard == g { assert k in HeldBy(locks, g); }
    }
  }

  lemma AllActiveIsHeld(gs: Guards, locks: Locks)
    requires HeldAgree(gs, locks)
    ensures HeldOf(locks, ActiveGuards(gs)) == HeldLocks(locks)
    ensures HeldOf(locks, {}) == map[]
  {
  }

  /** The state between the two halves of a restart. */
  ghost predicate Retired(db: Db) {
    && ActionsAgree(db.commitments, db.guards)
    && GuardsSound(db.commitments, db.guards, db.boot)
    && HeldAgree(db.guards, db.locks)
    && forall c :: c in db.commitments ==> !RequiresClaim(db.commitments[c].state)
  }

  lemma RetiredAfterInvalidation(db: Db, mid: Db)
    requires Inv(db)
    requires mid.commitments == MoveAll(db.commitments, db.claims.Keys, RecoveryPending) && mid.boot == db.boot
    requires mid.guards == InvalidateAll(db.guards, IssuedGuards(db.guards)) && mid.locks == db.locks
    ensures Retired(mid)
  {
    hide LocksAgree, TopologySound, BarriersHold, BarriersReleased, Acyclic.IsAcyclic;
    var retired := db.(commitments := mid.commitments, claims := map[]);
    RetiringClaimsKeepsInv(db);
    InvalidateKeepsActions(retired.commitments, db.guards, IssuedGuards(db.guards));
    InvalidateKeepsGuards(retired.commitments, db.guards, db.boot, IssuedGuards(db.guards));
    HeldAgreeAfterInvalidation(db.guards, db.locks);
  }

  /** What the recovery checks of one active guard. */
  lemma RetiredGuardFacts(db: Db, g: GuardId)
    requires Retired(db) && g in ActiveGuards(db.guards)
    ensures
      var row := db.guards[g];
      && row.commitment in db.commitments
      && db.commitments[row.commitment].outstanding == ActionOf(row.state)
      && db.commitments[row.commitment].highWater == row.epoch
      && (row.state.Admitted? ==> db.commitments[row.commitment].state.RecoveryPending?)
      && (row.state.Uncertain? ==> db.commitments[row.commitment].state == Waiting(OnUncertainAction(row.state.action)))
  {
    hide GuardsSound, HeldAgree;
    assert GuardFences(db.commitments, db.guards[g]);
  }

  /** Each outstanding action belongs to exactly one active guard. */
  lemma RetiredActions(db: Db, c: CommitmentId)
    requires Retired(db) && c in db.commitments && db.commitments[c].outstanding.Some?
    ensures exists g :: g in ActiveGuards(db.guards) && db.guards[g].commitment == c
  {
    assert HasActiveGuard(db.guards, c);
  }

  lemma RetiredGuardIsUnique(db: Db, g: GuardId, h: GuardId)
    requires Retired(db) && g in ActiveGuards(db.guards) && h in ActiveGuards(db.guards)
    requires db.guards[g].commitment == db.guards[h].commitment
    ensures g == h
  {
    RetiredGuardFacts(db, g);
    RetiredGuardFacts(db, h);
  }

  /** A restored row is claimed by nobody and its action, if any, is accounted for. */
  predicate RestoredRow(row: CommitmentRow) {
    && !RequiresClaim(row.state)
    && (row.outstanding.Some? ==>
          row.state.RecoveryPending? || (row.state.Waiting? && row.state.reason.OnUncertainAction?))
  }

  lemma RetiredRow(db: Db, c: CommitmentId)
    requires Inv(db) && c in db.commitments
    ensures RestoredRow(MoveAll(db.commitments, db.claims.Keys, RecoveryPending)[c])
  {
    hide LocksAgree, TopologySound, BarriersHold, BarriersReleased, Acyclic.IsAcyclic, GuardsSound;
    if db.commitments[c].outstanding.Some? {
      var g :| g in db.guards && db.guards[g].commitment == c && IsActive(db.guards[g].state);
      assert GuardFences(db.commitments, db.guards[g]);
    }
  }

  lemma RetiredRows(db: Db)
    requires Inv(db)
    ensures
      var cs := MoveAll(db.commitments, db.claims.Keys, RecoveryPending);
      forall c :: c in cs ==> RestoredRow(cs[c])
  {
    hide Inv, RestoredRow;
    forall c | c in db.commitments {
      RetiredRow(db, c);
    }
  }

  lemma RetiredLocks(db: Db)
    requires Retired(db)
    ensures HeldAgree(db.guards, db.locks)
  {
  }

  lemma OwedActionIsTaken(db: Db, c: CommitmentId)
    requires Retired(db) && c in db.commitments && db.commitments[c].outstanding.Some?
    ensures exists g :: g in ActiveGuards(db.guards) && db.guards[g].commitment == c
              && db.commitments[c].outstanding == ActionOf(db.guards[g].state)
  {
    hide Retired;
    RetiredActions(db, c);
    var g :| g in ActiveGuards(db.guards) && db.guards[g].commitment == c;
    RetiredGuardFacts(db, g);
  }

  /** The actions of some active guards, by commitment. */
  ghost predicate ActionsTaken(gs: Guards, done: set<GuardId>, actions: map<CommitmentId, ActionRef>) {
    && (forall g :: g in done && g in gs ==>
          gs[g].commitment in actions && Some(actions[gs[g].commitment]) == ActionOf(gs[g].state))
    && (forall c :: c in actions ==> exists g :: g in done && g in gs && gs[g].commitment == c)
  }

  lemma NoActionTaken(gs: Guards)
    ensures ActionsTaken(gs, {}, map[])
  {
  }

  lemma TakeAnother(db: Db, done: set<GuardId>, actions: map<CommitmentId, ActionRef>, g: GuardId)
    requires Retired(db) && done <= ActiveGuards(db.guards) && g in ActiveGuards(db.guards) && g !in done
    requires ActionsTaken(db.guards, done, actions)
    ensures db.guards[g].commitment !in actions
    ensures ActionsTaken(db.guards, done + {g}, actions[db.guards[g].commitment := db.guards[g].state.action])
  {
    hide Retired;
    forall h | h in done
      ensures db.guards[h].commitment != db.guards[g].commitment
    {
      if db.guards[h].commitment == db.guards[g].commitment {
        RetiredGuardIsUnique(db, g, h);
      }
    }
  }

  lemma OwedIsTaken(db: Db, actions: map<CommitmentId, ActionRef>, c: CommitmentId)
    requires Retired(db) && ActionsTaken(db.guards, ActiveGuards(db.guards), actions)
    requires c in db.commitments && db.commitments[c].outstanding.Some?
    ensures c in actions && db.commitments[c].outstanding == Some(actions[c])
  {
    hide Retired;
    OwedActionIsTaken(db, c);
  }
}
