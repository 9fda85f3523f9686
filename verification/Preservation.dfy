/** Each kind of mutation keeps the invariant. The proofs go table by table:
    moving commitments that carry no claim afterwards, invalidating reserved
    guards, and then the few changes particular to one mutation. */
module Preservation {
  import opened Domain
  import opened Aggregates
  import opened Database
  import opened Mutations
  import Acyclic

  // ---- what a change of rows leaves alone ----

  /** Two commitment tables that differ in no reference and no high-water mark. */
  ghost predicate SameShape(cs: Commitments, after: Commitments) {
    && after.Keys == cs.Keys
    && forall c :: c in cs ==>
         && after[c].goal == cs[c].goal
         && after[c].parent == cs[c].parent
         && after[c].prerequisites == cs[c].prerequisites
         && after[c].replacement == cs[c].replacement
         && after[c].highWater == cs[c].highWater
  }

  lemma MoveKeepsShape(cs: Commitments, moved: set<CommitmentId>, state: CommitmentState)
    ensures SameShape(cs, MoveAll(cs, moved, state))
    ensures GraphOf(MoveAll(cs, moved, state)) == GraphOf(cs)
  {
  }

  lemma ShapeKeepsTopology(cs: Commitments, after: Commitments, goals: set<GoalId>)
    requires SameShape(cs, after) && TopologySound(cs, goals)
    ensures TopologySound(after, goals)
  {
    forall c | c in after
      ensures Dependencies(after[c].prerequisites) <= after.Keys
    {
      assert after[c].prerequisites == cs[c].prerequisites;
    }
  }

  lemma ShapeKeepsGuards(cs: Commitments, after: Commitments, gs: Guards, boot: nat)
    requires SameShape(cs, after) && GuardsSound(cs, gs, boot)
    ensures GuardsSound(after, gs, boot)
  {
  }

  /** An active guard of `c` survives any change that keeps guard `g` of `c` active. */
  lemma ActiveGuardKept(gs: Guards, after: Guards, c: CommitmentId)
    requires HasActiveGuard(gs, c)
    requires forall g :: g in gs && gs[g].commitment == c && IsActive(gs[g].state) ==>
               g in after && after[g].commitment == c && IsActive(after[g].state)
    ensures HasActiveGuard(after, c)
  {
    var g :| g in gs && gs[g].commitment == c && IsActive(gs[g].state);
    assert g in after;
  }

  // ---- moving commitments to a state without a claim ----

  lemma MoveKeepsClaims(cs: Commitments, claims: Claims, boot: nat, moved: set<CommitmentId>, state: CommitmentState)
    requires ClaimsAgree(cs, claims, boot) && !RequiresClaim(state)
    ensures ClaimsAgree(MoveAll(cs, moved, state), claims - moved, boot)
  {
  }

  /** Nothing outstanding on the moved commitments, except that working ones
      may become pending recovery with their action. */
  ghost predicate MovesFreely(cs: Commitments, moved: set<CommitmentId>, state: CommitmentState) {
    && moved <= cs.Keys
    && !RequiresClaim(state)
    && (forall c :: c in moved ==>
          && !IsTerminal(cs[c].state)
          && (cs[c].outstanding == None || (state.RecoveryPending? && cs[c].state.Working?))
          && (cs[c].replacement.Some? ==> IsTerminal(state) || state.RecoveryPending?))
  }

  lemma MoveKeepsActions(cs: Commitments, gs: Guards, moved: set<CommitmentId>, state: CommitmentState)
    requires ActionsAgree(cs, gs) && MovesFreely(cs, moved, state)
    ensures ActionsAgree(MoveAll(cs, moved, state), gs)
  {
    var after := MoveAll(cs, moved, state);
    forall g | g in gs && IsActive(gs[g].state)
      ensures GuardFences(after, gs[g])
    {
      assert GuardFences(cs, gs[g]);
    }
  }

  lemma MoveKeepsBarriers(cs: Commitments, gs: Guards, moved: set<CommitmentId>, state: CommitmentState)
    requires BarriersHold(cs, gs) && MovesFreely(cs, moved, state)
    ensures BarriersHold(MoveAll(cs, moved, state), gs)
  {
    var after := MoveAll(cs, moved, state);
    forall p | p in after && after[p].replacement.Some?
      ensures BarrierHolds(after, gs, p)
    {
      assert BarrierHolds(cs, gs, p);
    }
  }

  lemma MoveKeepsConsistent(db: Db, moved: set<CommitmentId>, state: CommitmentState)
    requires Consistent(db) && MovesFreely(db.commitments, moved, state)
    ensures Consistent(db.(commitments := MoveAll(db.commitments, moved, state), claims := db.claims - moved))
  {
    var after := MoveAll(db.commitments, moved, state);
    MoveKeepsShape(db.commitments, moved, state);
    MoveKeepsClaims(db.commitments, db.claims, db.boot, moved, state);
    MoveKeepsActions(db.commitments, db.guards, moved, state);
    ShapeKeepsTopology(db.commitments, after, db.goals);
    ShapeKeepsGuards(db.commitments, after, db.guards, db.boot);
    MoveKeepsBarriers(db.commitments, db.guards, moved, state);
  }

  lemma MoveKeepsReleased(cs: Commitments, moved: set<CommitmentId>, state: CommitmentState)
    requires BarriersReleased(cs) && !state.Completed?
    requires forall c :: c in moved && c in cs ==> !IsTerminal(cs[c].state)
    ensures BarriersReleased(MoveAll(cs, moved, state))
  {
  }

  // ---- invalidating issued guards ----

  lemma InvalidateKeepsActions(cs: Commitments, gs: Guards, dropped: set<GuardId>)
    requires ActionsAgree(cs, gs) && dropped <= IssuedGuards(gs)
    ensures ActionsAgree(cs, InvalidateAll(gs, dropped))
  {
    forall c | c in cs && cs[c].outstanding.Some?
      ensures HasActiveGuard(InvalidateAll(gs, dropped), c)
    {
      ActiveGuardKept(gs, InvalidateAll(gs, dropped), c);
    }
  }

  lemma InvalidateKeepsLocks(gs: Guards, locks: Locks, dropped: set<GuardId>)
    requires LocksAgree(gs, locks) && dropped <= IssuedGuards(gs)
    ensures LocksAgree(InvalidateAll(gs, dropped), FreeReserved(locks, dropped))
  {
  }

  lemma InvalidateKeepsBarriers(cs: Commitments, gs: Guards, dropped: set<GuardId>)
    requires BarriersHold(cs, gs)
    ensures BarriersHold(cs, InvalidateAll(gs, dropped))
  {
    forall p | p in cs && cs[p].replacement.Some?
      ensures BarrierHolds(cs, InvalidateAll(gs, dropped), p)
    {
      assert BarrierHolds(cs, gs, p);
    }
  }

  lemma InvalidateKeepsGuards(cs: Commitments, gs: Guards, boot: nat, dropped: set<GuardId>)
    requires GuardsSound(cs, gs, boot)
    ensures GuardsSound(cs, InvalidateAll(gs, dropped), boot)
  {
  }

  lemma InvalidateKeepsInv(db: Db, dropped: set<GuardId>)
    requires Inv(db) && dropped <= IssuedGuards(db.guards)
    ensures Inv(db.(guards := InvalidateAll(db.guards, dropped), locks := FreeReserved(db.locks, dropped)))
  {
    InvalidateKeepsActions(db.commitments, db.guards, dropped);
    InvalidateKeepsLocks(db.guards, db.locks, dropped);
    InvalidateKeepsBarriers(db.commitments, db.guards, dropped);
    InvalidateKeepsGuards(db.commitments, db.guards, db.boot, dropped);
  }

  // ---- mutation by mutation ----

  lemma DropKeepsInv(db: Db, g: GuardId, event: WorkEvent)
    requires Inv(db) && g in db.guards && db.guards[g].state.Issued?
    ensures Inv(DropEffect(db, g, event))
  {
    InvalidateKeepsInv(db, {g});
  }

  lemma LapseKeepsInv(db: Db, c: CommitmentId, now: nat, lease: nat, revoked: seq<GuardId>)
    requires Inv(db) && MayLapse(db, c, now, lease, revoked)
    ensures Inv(LapseEffect(db, c, revoked))
  {
    ClaimedMovesFreely(db, {c});
    MoveKeepsConsistent(db, {c}, RecoveryPending);
    MoveKeepsReleased(db.commitments, {c}, RecoveryPending);
    var moved := db.(commitments := MoveAll(db.commitments, {c}, RecoveryPending), claims := db.claims - {c});
    InvalidateKeepsInv(moved, GuardIds(revoked));
  }

  /** A claimed commitment can always fall back to pending recovery. */
  lemma ClaimedMovesFreely(db: Db, moved: set<CommitmentId>)
    requires Consistent(db) && moved <= db.claims.Keys
    ensures MovesFreely(db.commitments, moved, RecoveryPending)
  {
    forall c | c in moved
      ensures db.commitments[c].outstanding == None || db.commitments[c].state.Working?
    {
      if db.commitments[c].outstanding.Some? {
        assert HasActiveGuard(db.guards, c);
      }
    }
  }

  lemma UnclaimedStays(claims: Claims, c: CommitmentId)
    requires c !in claims
    ensures claims - {c} == claims
  {
  }

  lemma ReleaseKeepsInv(db: Db, c: CommitmentId)
    requires Inv(db) && MayRelease(db, c)
    ensures Inv(ReleaseEffect(db, c))
  {
    UnclaimedStays(db.claims, c);
    MoveKeepsConsistent(db, {c}, Ready);
    MoveKeepsReleased(db.commitments, {c}, Ready);
  }

  lemma GiveUpKeepsInv(db: Db, target: CommitmentId, fence: Fence, rationale: string)
    requires Inv(db) && MayRestructure(db, target, fence)
    ensures Inv(GiveUpEffect(db, target, rationale))
  {
    MoveKeepsConsistent(db, {target}, Abandoned);
    MoveKeepsReleased(db.commitments, {target}, Abandoned);
  }

  lemma NoClaimStays(claims: Claims)
    ensures claims - claims.Keys == map[]
  {
  }

  /** First half of a restart: every claim lapses. */
  lemma RetiringClaimsKeepsInv(db: Db)
    requires Inv(db)
    ensures Inv(db.(commitments := MoveAll(db.commitments, db.claims.Keys, RecoveryPending), claims := map[]))
  {
    var all := db.claims.Keys;
    NoClaimStays(db.claims);
    ClaimedMovesFreely(db, all);
    MoveKeepsConsistent(db, all, RecoveryPending);
    ClaimedIsUnfinished(db.commitments, db.claims, db.boot);
    MoveKeepsReleased(db.commitments, all, RecoveryPending);
  }

  lemma RestartKeepsInv(db: Db, lapsed: seq<CommitmentId>, revoked: seq<GuardId>)
    requires Inv(db) && MayRestart(db, lapsed, revoked)
    ensures Inv(RestartEffect(db, lapsed, revoked))
  {
    RetiringClaimsKeepsInv(db);
    var retired := db.(commitments := MoveAll(db.commitments, db.claims.Keys, RecoveryPending), claims := map[]);
    InvalidateKeepsInv(retired, IssuedGuards(db.guards));
    NextBootKeepsInv(retired, InvalidateAll(db.guards, IssuedGuards(db.guards)),
                     FreeReserved(db.locks, IssuedGuards(db.guards)));
    ReservedLocksAreIssued(db.guards, db.locks);
  }

  lemma ClaimedIsUnfinished(cs: Commitments, claims: Claims, boot: nat)
    requires ClaimsAgree(cs, claims, boot)
    ensures forall c :: c in claims && c in cs ==> !IsTerminal(cs[c].state)
  {
  }

  lemma NextBootKeepsTables(cs: Commitments, gs: Guards, boot: nat)
    requires ClaimsAgree(cs, map[], boot) && GuardsSound(cs, gs, boot)
    requires forall g :: g in gs ==> !gs[g].state.Issued?
    ensures ClaimsAgree(cs, map[], boot + 1) && GuardsSound(cs, gs, boot + 1)
  {
  }

  lemma NextBootKeepsInv(db: Db, gs: Guards, locks: Locks)
    requires db.claims == map[] && Inv(db.(guards := gs, locks := locks))
    requires forall g :: g in gs ==> !gs[g].state.Issued?
    ensures Inv(db.(guards := gs, locks := locks, boot := db.boot + 1))
  {
    NextBootKeepsTables(db.commitments, gs, db.boot);
  }

  /** Dropping the reserved locks of the issued guards leaves exactly the held locks. */
  lemma ReservedLocksAreIssued(gs: Guards, locks: Locks)
    requires LocksAgree(gs, locks)
    ensures FreeReserved(locks, IssuedGuards(gs)) == HeldLocks(locks)
  {
  }

  lemma BeatKeepsInv(db: Db, c: CommitmentId, fence: Fence)
    requires Inv(db) && MayBeat(db, c, fence)
    ensures Inv(BeatEffect(db, c, fence))
  {
  }

  // ---- guards ----

  lemma IssueKeepsLocks(gs: Guards, locks: Locks, g: GuardId, row: GuardRow)
    requires LocksAgree(gs, locks) && g !in gs && row.state.Issued? && row.scopes !! locks.Keys
    ensures LocksAgree(gs[g := row], Reserve(locks, row.scopes, LockFor(g, row)))
  {
  }

  lemma IssueKeepsActions(cs: Commitments, gs: Guards, g: GuardId, row: GuardRow)
    requires ActionsAgree(cs, gs) && g !in gs && row.state.Issued?
    ensures ActionsAgree(cs, gs[g := row])
  {
    forall c | c in cs && cs[c].outstanding.Some?
      ensures HasActiveGuard(gs[g := row], c)
    {
      ActiveGuardKept(gs, gs[g := row], c);
    }
  }

  lemma IssueKeepsBarriers(cs: Commitments, gs: Guards, g: GuardId, row: GuardRow)
    requires BarriersHold(cs, gs) && row.commitment in cs
    requires cs[row.commitment].state.Claimed? || cs[row.commitment].state.Working?
    ensures BarriersHold(cs, gs[g := row])
  {
    forall p | p in cs && cs[p].replacement.Some?
      ensures BarrierHolds(cs, gs[g := row], p)
    {
      assert BarrierHolds(cs, gs, p);
    }
  }

  lemma IssueKeepsGuards(cs: Commitments, gs: Guards, boot: nat, g: GuardId, row: GuardRow)
    requires GuardsSound(cs, gs, boot) && row.commitment in cs
    requires 0 < row.epoch <= cs[row.commitment].highWater && row.scopes != {}
    requires row.state.Issued? && row.boot == boot && row.state.deadline <= MAX_I64
    ensures GuardsSound(cs, gs[g := row], boot)
  {
  }

  lemma IssueKeepsInv(db: Db, r: IssueRequest)
    requires Inv(db) && MayIssue(db, r)
    ensures Inv(IssueEffect(db, r))
  {
    var row := IssueEffect(db, r).guards[r.guard];
    IssueKeepsLocks(db.guards, db.locks, r.guard, row);
    IssueKeepsActions(db.commitments, db.guards, r.guard, row);
    IssueKeepsBarriers(db.commitments, db.guards, r.guard, row);
    IssueKeepsGuards(db.commitments, db.guards, db.boot, r.guard, row);
  }

  /** The row of one commitment changes, but none of its references, and its
      high-water mark does not fall. */
  ghost predicate SameReferences(row: CommitmentRow, after: CommitmentRow) {
    && after.goal == row.goal
    && after.parent == row.parent
    && after.prerequisites == row.prerequisites
    && after.replacement == row.replacement
    && after.highWater >= row.highWater
  }

  /** The same, except that prerequisites may have been added. */
  ghost predicate KeepsLinks(row: CommitmentRow, after: CommitmentRow) {
    && after.goal == row.goal
    && after.parent == row.parent
    && after.replacement == row.replacement
    && forall q :: q in row.prerequisites ==> q in after.prerequisites
  }

  lemma RowKeepsTopology(cs: Commitments, goals: set<GoalId>, c: CommitmentId, after: CommitmentRow)
    requires c in cs && SameReferences(cs[c], after) && TopologySound(cs, goals)
    ensures TopologySound(cs[c := after], goals) && GraphOf(cs[c := after]) == GraphOf(cs)
  {
  }

  lemma RowKeepsGuards(cs: Commitments, gs: Guards, boot: nat, c: CommitmentId, after: CommitmentRow)
    requires c in cs && after.highWater >= cs[c].highWater && GuardsSound(cs, gs, boot)
    ensures GuardsSound(cs[c := after], gs, boot)
  {
  }

  /** A row that is no open barrier may change without touching the barriers. */
  lemma RowKeepsBarriers(cs: Commitments, gs: Guards, c: CommitmentId, after: CommitmentRow)
    requires c in cs && KeepsLinks(cs[c], after) && BarriersHold(cs, gs)
    requires after.replacement.Some? ==> IsTerminal(after.state)
    ensures BarriersHold(cs[c := after], gs)
  {
    var changed := cs[c := after];
    forall p | p in changed && changed[p].replacement.Some?
      ensures BarrierHolds(changed, gs, p)
    {
      assert BarrierHolds(cs, gs, p);
    }
  }

  lemma RowKeepsReleased(cs: Commitments, c: CommitmentId, after: CommitmentRow)
    requires c in cs && BarriersReleased(cs) && after.replacement == cs[c].replacement
    requires IsTerminal(cs[c].state) ==> IsTerminal(after.state)
    requires after.state.Completed? ==> cs[c].state.Completed?
    ensures BarriersReleased(cs[c := after])
  {
  }

  lemma GuardStateKeepsGuards(cs: Commitments, gs: Guards, boot: nat, g: GuardId, state: GuardState)
    requires g in gs && GuardsSound(cs, gs, boot) && !state.Issued?
    ensures GuardsSound(cs, gs[g := gs[g].(state := state)], boot)
  {
  }

  /** The commitment of a live guard has no open barrier. */
  lemma LiveGuardHasNoBarrier(cs: Commitments, gs: Guards, g: GuardId)
    requires BarriersHold(cs, gs) && g in gs && IsLive(gs[g].state) && gs[g].commitment in cs
    ensures cs[gs[g].commitment].replacement.Some? ==> IsTerminal(cs[gs[g].commitment].state)
  {
    if cs[gs[g].commitment].replacement.Some? {
      assert BarrierHolds(cs, gs, gs[g].commitment);
    }
  }

  /** A live guard that stays on its commitment, or ends, disturbs no barrier. */
  lemma GuardStateKeepsBarriers(cs: Commitments, gs: Guards, g: GuardId, state: GuardState)
    requires g in gs && BarriersHold(cs, gs) && IsLive(gs[g].state)
    ensures BarriersHold(cs, gs[g := gs[g].(state := state)])
  {
    forall p | p in cs && cs[p].replacement.Some?
      ensures BarrierHolds(cs, gs[g := gs[g].(state := state)], p)
    {
      assert BarrierHolds(cs, gs, p);
    }
  }

  lemma AdmitKeepsLocks(gs: Guards, locks: Locks, g: GuardId, action: ActionRef, digest: Option<Digest>)
    requires LocksAgree(gs, locks) && g in gs && gs[g].state.Issued?
    ensures LocksAgree(gs[g := gs[g].(state := GuardState.Admitted(action, digest))], HoldAll(locks, g, action))
  {
    var gs' := gs[g := gs[g].(state := GuardState.Admitted(action, digest))];
    var locks' := HoldAll(locks, g, action);
    forall k | k in locks'
      ensures
        && locks'[k].guard in gs' && k in gs'[locks'[k].guard].scopes && IsLive(gs'[locks'[k].guard].state)
        && locks'[k] == LockFor(locks'[k].guard, gs'[locks'[k].guard])
    {
      assert k in locks && locks'[k].guard == locks[k].guard;
    }
    forall h, k | h in gs' && IsLive(gs'[h].state) && k in gs'[h].scopes
      ensures k in locks' && locks'[k].guard == h
    {
      assert IsLive(gs[h].state) && k in gs[h].scopes;
    }
  }

  lemma AdmitKeepsActions(cs: Commitments, gs: Guards, g: GuardId, row: CommitmentRow, action: ActionRef,
                          digest: Option<Digest>)
    requires ActionsAgree(cs, gs) && g in gs && gs[g].state.Issued? && gs[g].commitment in cs
    requires cs[gs[g].commitment].outstanding == None && row.outstanding == Some(action)
    requires row.state.Working? && row.highWater == gs[g].epoch
    requires forall h :: h in gs ==> ActionOf(gs[h].state) != Some(action)
    ensures ActionsAgree(cs[gs[g].commitment := row], gs[g := gs[g].(state := GuardState.Admitted(action, digest))])
  {
    var cs' := cs[gs[g].commitment := row];
    var gs' := gs[g := gs[g].(state := GuardState.Admitted(action, digest))];
    forall h | h in gs' && IsActive(gs'[h].state)
      ensures GuardFences(cs', gs'[h])
    {
      if h != g {
        assert GuardFences(cs, gs[h]);
      }
    }
    forall c | c in cs' && cs'[c].outstanding.Some?
      ensures HasActiveGuard(gs', c)
    {
      if c == gs[g].commitment {
        assert gs'[g].commitment == c;
      } else {
        ActiveGuardKept(gs, gs', c);
      }
    }
  }

  lemma AdmitKeepsClaims(cs: Commitments, claims: Claims, boot: nat, c: CommitmentId, row: CommitmentRow)
    requires ClaimsAgree(cs, claims, boot) && c in cs && row.state == cs[c].state && row.highWater == cs[c].highWater
    ensures ClaimsAgree(cs[c := row], claims, boot)
  {
  }

  lemma AdmitKeepsInv(db: Db, g: GuardId, scopes: set<ScopeKey>, action: ActionRef, digest: Option<Digest>, now: nat)
    requires Inv(db) && MayAdmit(db, g, scopes, action, now)
    ensures Inv(AdmitEffect(db, g, action, digest))
  {
    var c := db.guards[g].commitment;
    var row := AdmitEffect(db, g, action, digest).commitments[c];
    var cs := db.commitments[c := row];
    LiveGuardHasNoBarrier(db.commitments, db.guards, g);
    RowKeepsTopology(db.commitments, db.goals, c, row);
    RowKeepsGuards(db.commitments, db.guards, db.boot, c, row);
    RowKeepsBarriers(db.commitments, db.guards, c, row);
    RowKeepsReleased(db.commitments, c, row);
    AdmitKeepsClaims(db.commitments, db.claims, db.boot, c, row);
    AdmitKeepsActions(db.commitments, db.guards, g, row, action, digest);
    AdmitKeepsLocks(db.guards, db.locks, g, action, digest);
    GuardStateKeepsGuards(cs, db.guards, db.boot, g, GuardState.Admitted(action, digest));
    GuardStateKeepsBarriers(cs, db.guards, g, GuardState.Admitted(action, digest));
  }

  // ---- outcomes ----

  lemma RecordKeepsClaims(cs: Commitments, claims: Claims, boot: nat, c: CommitmentId, row: CommitmentRow)
    requires ClaimsAgree(cs, claims, boot) && c in cs && row.highWater == cs[c].highWater
    requires !RequiresClaim(row.state)
    ensures ClaimsAgree(cs[c := row], claims - {c}, boot)
  {
  }

  lemma SafeKeepsLocks(gs: Guards, locks: Locks, g: GuardId, state: GuardState)
    requires LocksAgree(gs, locks) && g in gs && IsActive(gs[g].state) && !IsLive(state)
    ensures LocksAgree(gs[g := gs[g].(state := state)], FreeHeld(locks, g))
  {
  }

  lemma UncertainKeepsLocks(gs: Guards, locks: Locks, g: GuardId, state: GuardState)
    requires LocksAgree(gs, locks) && g in gs && IsActive(gs[g].state)
    requires IsActive(state) && ActionOf(state) == ActionOf(gs[g].state)
    ensures LocksAgree(gs[g := gs[g].(state := state)], locks)
  {
  }

  /** The one active guard of a commitment ends or turns uncertain, and its
      commitment follows. */
  lemma RecordKeepsActions(cs: Commitments, gs: Guards, g: GuardId, row: CommitmentRow, state: GuardState)
    requires ActionsAgree(cs, gs) && g in gs && gs[g].state.Admitted? && gs[g].commitment in cs
    requires ActionOf(state) == ActionOf(gs[g].state)
    requires row.highWater == cs[gs[g].commitment].highWater
    requires
      || (state.Resolved? && row.outstanding == None)
      || (state.Uncertain? && row.outstanding == Some(state.action) && row.state == Waiting(OnUncertainAction(state.action)))
    ensures ActionsAgree(cs[gs[g].commitment := row], gs[g := gs[g].(state := state)])
  {
    var c := gs[g].commitment;
    var cs' := cs[c := row];
    var gs' := gs[g := gs[g].(state := state)];
    assert GuardFences(cs, gs[g]);
    forall h | h in gs' && IsActive(gs'[h].state)
      ensures GuardFences(cs', gs'[h])
    {
      if h != g {
        assert GuardFences(cs, gs[h]);
      }
    }
    forall d | d in cs' && cs'[d].outstanding.Some?
      ensures HasActiveGuard(gs', d)
    {
      if d == c {
        assert gs'[g].commitment == c;
      } else {
        ActiveGuardKept(gs, gs', d);
      }
    }
  }

  /** Everything about a recorded outcome except the lock and claim tables. */
  lemma RecordKeepsRest(db: Db, g: GuardId, row: CommitmentRow, state: GuardState)
    requires Inv(db) && g in db.guards && db.guards[g].state.Admitted?
    requires db.guards[g].commitment in db.commitments
    requires SameReferences(db.commitments[db.guards[g].commitment], row)
    requires !IsTerminal(row.state) && !state.Issued?
    ensures
      var cs := db.commitments[db.guards[g].commitment := row];
      var gs := db.guards[g := db.guards[g].(state := state)];
      && GuardsSound(cs, gs, db.boot)
      && TopologySound(cs, db.goals)
      && BarriersHold(cs, gs)
      && BarriersReleased(cs)
      && GraphOf(cs) == GraphOf(db.commitments)
  {
    var c := db.guards[g].commitment;
    assert GuardFences(db.commitments, db.guards[g]);
    LiveGuardHasNoBarrier(db.commitments, db.guards, g);
    RowKeepsTopology(db.commitments, db.goals, c, row);
    RowKeepsGuards(db.commitments, db.guards, db.boot, c, row);
    RowKeepsBarriers(db.commitments, db.guards, c, row);
    RowKeepsReleased(db.commitments, c, row);
    GuardStateKeepsGuards(db.commitments[c := row], db.guards, db.boot, g, state);
    GuardStateKeepsBarriers(db.commitments[c := row], db.guards, g, state);
  }

  lemma RecordUncertainKeepsInv(db: Db, g: GuardId, outcome: Outcome, digest: Option<Digest>)
    requires Inv(db) && MayRecord(db, g, outcome, digest) && outcome.Uncertain?
    ensures Inv(RecordEffect(db, g, outcome, digest))
  {
    var c := db.guards[g].commitment;
    var row := RecordEffect(db, g, outcome, digest).commitments[c];
    var state := GuardState.Uncertain(outcome.action, digest);
    RecordKeepsRest(db, g, row, state);
    RecordKeepsClaims(db.commitments, db.claims, db.boot, c, row);
    RecordKeepsActions(db.commitments, db.guards, g, row, state);
    UncertainKeepsLocks(db.guards, db.locks, g, state);
  }

  lemma AdmittedFences(cs: Commitments, gs: Guards, g: GuardId)
    requires ActionsAgree(cs, gs) && g in gs && gs[g].state.Admitted?
    ensures GuardFences(cs, gs[g])
  {
  }

  lemma RecordSafeKeepsInv(db: Db, g: GuardId, outcome: Outcome, digest: Option<Digest>)
    requires Inv(db) && MayRecord(db, g, outcome, digest) && !outcome.Uncertain?
    ensures Inv(RecordEffect(db, g, outcome, digest))
  {
    hide ClaimsAgree, ActionsAgree, LocksAgree, GuardsSound, TopologySound, BarriersHold, BarriersReleased,
         Acyclic.IsAcyclic, FreeHeld, GraphOf;
    var c := db.guards[g].commitment;
    var row := RecordEffect(db, g, outcome, digest).commitments[c];
    var state := GuardState.Resolved(outcome, digest);
    AdmittedFences(db.commitments, db.guards, g);
    RecordKeepsRest(db, g, row, state);
    SameClaimNeedKeepsClaims(db.commitments, db.claims, db.boot, c, row);
    RecordKeepsActions(db.commitments, db.guards, g, row, state);
    SafeKeepsLocks(db.guards, db.locks, g, state);
  }

  lemma RecordKeepsInv(db: Db, g: GuardId, outcome: Outcome, digest: Option<Digest>)
    requires Inv(db) && MayRecord(db, g, outcome, digest)
    ensures Inv(RecordEffect(db, g, outcome, digest))
  {
    if outcome.Uncertain? {
      RecordUncertainKeepsInv(db, g, outcome, digest);
    } else {
      RecordSafeKeepsInv(db, g, outcome, digest);
    }
  }

  // ---- structural proposals ----

  /** With nothing outstanding before or after, a row fences no guard. */
  lemma RowKeepsActions(cs: Commitments, gs: Guards, c: CommitmentId, row: CommitmentRow)
    requires ActionsAgree(cs, gs) && c in cs && cs[c].outstanding == None && row.outstanding == None
    ensures ActionsAgree(cs[c := row], gs)
  {
    forall g | g in gs && IsActive(gs[g].state)
      ensures GuardFences(cs[c := row], gs[g])
    {
      assert GuardFences(cs, gs[g]);
    }
  }

  lemma GrowingKeepsTopology(cs: Commitments, goals: set<GoalId>, c: CommitmentId, row: CommitmentRow, added: Prerequisite)
    requires TopologySound(cs, goals) && c in cs && row.goal == cs[c].goal && row.parent == cs[c].parent
    requires row.prerequisites == cs[c].prerequisites + [added]
    requires added.NeedsCommitment? ==> added.id in cs
    ensures TopologySound(cs[c := row], goals)
  {
  }

  lemma SameClaimNeedKeepsClaims(cs: Commitments, claims: Claims, boot: nat, c: CommitmentId, row: CommitmentRow)
    requires ClaimsAgree(cs, claims, boot) && c in cs && row.highWater == cs[c].highWater
    requires RequiresClaim(row.state) <==> RequiresClaim(cs[c].state)
    ensures ClaimsAgree(cs[c := row], claims, boot)
  {
  }

  lemma RequireKeepsInv(db: Db, target: CommitmentId, fence: Fence, prerequisite: Prerequisite)
    requires Inv(db) && MayRequire(db, target, fence, prerequisite)
    ensures Inv(RequireEffect(db, target, prerequisite))
  {
    var row := Requiring(db.commitments[target], prerequisite);
    SameClaimNeedKeepsClaims(db.commitments, db.claims, db.boot, target, row);
    RowKeepsActions(db.commitments, db.guards, target, row);
    RowKeepsGuards(db.commitments, db.guards, db.boot, target, row);
    GrowingKeepsTopology(db.commitments, db.goals, target, row, prerequisite);
    RowKeepsBarriers(db.commitments, db.guards, target, row);
    RowKeepsReleased(db.commitments, target, row);
  }

  lemma LinkKeepsBarriers(cs: Commitments, gs: Guards, target: CommitmentId, terminal: CommitmentId)
    requires BarriersHold(cs, gs) && target in cs && terminal in cs
    requires cs[target].replacement == None && cs[target].outstanding == None
    requires forall g :: g in gs && gs[g].commitment == target ==> !IsLive(gs[g].state)
    requires cs[terminal].parent == Some(target) && cs[terminal].goal == cs[target].goal && terminal != target
    ensures BarriersHold(cs[target := Linked(cs[target], terminal)], gs)
  {
    var after := cs[target := Linked(cs[target], terminal)];
    forall p | p in after && after[p].replacement.Some?
      ensures BarrierHolds(after, gs, p)
    {
      if p == target {
        assert NeedsCommitment(terminal) in after[p].prerequisites;
      } else {
        assert BarrierHolds(cs, gs, p);
      }
    }
  }

  lemma LinkKeepsReleased(cs: Commitments, target: CommitmentId, terminal: CommitmentId)
    requires BarriersReleased(cs) && target in cs && terminal in cs && terminal != target
    requires !cs[terminal].state.Completed?
    ensures BarriersReleased(cs[target := Linked(cs[target], terminal)])
  {
  }

  lemma DecomposeKeepsInv(db: Db, target: CommitmentId, fence: Fence, terminal: CommitmentId, children: seq<CommitmentId>)
    requires Inv(db) && MayDecompose(db, target, fence, terminal)
    ensures Inv(DecomposeEffect(db, target, terminal, children))
  {
    var row := Linked(db.commitments[target], terminal);
    SameClaimNeedKeepsClaims(db.commitments, db.claims, db.boot, target, row);
    RowKeepsActions(db.commitments, db.guards, target, row);
    RowKeepsGuards(db.commitments, db.guards, db.boot, target, row);
    GrowingKeepsTopology(db.commitments, db.goals, target, row, NeedsCommitment(terminal));
    LinkKeepsBarriers(db.commitments, db.guards, target, terminal);
    LinkKeepsReleased(db.commitments, target, terminal);
  }

  // ---- inserts ----

  /** The discipline that insertion itself does not enforce. */
  predicate SoundInsert(db: Db, d: Draft) {
    && NeedsCommitment(d.id) !in d.prerequisites
    && (d.parent.Some? && d.parent.value in db.commitments ==> db.commitments[d.parent.value].goal == d.goal)
  }

  lemma InsertKeepsClaims(cs: Commitments, claims: Claims, boot: nat, c: CommitmentId, row: CommitmentRow)
    requires ClaimsAgree(cs, claims, boot) && c !in cs && !RequiresClaim(row.state)
    ensures ClaimsAgree(cs[c := row], claims, boot)
  {
  }

  lemma InsertKeepsGuards(cs: Commitments, gs: Guards, boot: nat, c: CommitmentId, row: CommitmentRow)
    requires GuardsSound(cs, gs, boot) && c !in cs
    ensures GuardsSound(cs[c := row], gs, boot)
  {
  }

  lemma InsertKeepsReleased(cs: Commitments, c: CommitmentId, row: CommitmentRow)
    requires BarriersReleased(cs) && c !in cs && row.replacement == None && !row.state.Completed?
    ensures BarriersReleased(cs[c := row])
  {
  }

  lemma InsertKeepsActions(cs: Commitments, gs: Guards, boot: nat, c: CommitmentId, row: CommitmentRow)
    requires ActionsAgree(cs, gs) && GuardsSound(cs, gs, boot) && c !in cs && row.outstanding == None
    ensures ActionsAgree(cs[c := row], gs)
  {
    forall g | g in gs && IsActive(gs[g].state)
      ensures GuardFences(cs[c := row], gs[g])
    {
      assert GuardFences(cs, gs[g]);
    }
  }

  lemma InsertKeepsBarriers(cs: Commitments, gs: Guards, c: CommitmentId, row: CommitmentRow)
    requires BarriersHold(cs, gs) && c !in cs && row.replacement == None
    ensures BarriersHold(cs[c := row], gs)
  {
    var after := cs[c := row];
    forall p | p in after && after[p].replacement.Some?
      ensures BarrierHolds(after, gs, p)
    {
      assert BarrierHolds(cs, gs, p);
    }
  }

  lemma InsertExtendsGraph(cs: Commitments, c: CommitmentId, row: CommitmentRow)
    ensures GraphOf(cs[c := row]) == GraphOf(cs)[c := Dependencies(row.prerequisites)]
  {
  }

  lemma InsertKeepsAcyclic(cs: Commitments, goals: set<GoalId>, c: CommitmentId, row: CommitmentRow)
    requires TopologySound(cs, goals) && Acyclic.IsAcyclic(GraphOf(cs)) && c !in cs
    ensures Acyclic.IsAcyclic(GraphOf(cs[c := row])) <==> NeedsCommitment(c) !in row.prerequisites
  {
    InsertExtendsGraph(cs, c, row);
    var dependencies := Dependencies(row.prerequisites);
    if NeedsCommitment(c) in row.prerequisites {
      assert NeedsCommitment(c).id in dependencies;
      assert Acyclic.IsCycle(GraphOf(cs[c := row]), [c, c]);
    } else {
      Acyclic.FreshNodeKeepsAcyclic(GraphOf(cs), c, dependencies);
    }
  }

  lemma InsertKeepsTopology(db: Db, d: Draft, event: WorkEvent)
    requires Inv(db) && MayInsert(db, d, event)
    ensures TopologySound(db.commitments[d.id := RowOf(d)], db.goals)
            <==> (d.parent.Some? && d.parent.value in db.commitments ==> db.commitments[d.parent.value].goal == d.goal)
  {
    var after := db.commitments[d.id := RowOf(d)];
    if d.parent.Some? && d.parent.value in db.commitments && db.commitments[d.parent.value].goal != d.goal {
      assert after[d.id].parent == d.parent;
    }
  }

  /** An accepted insert keeps the invariant if and only if it names itself as
      no prerequisite and shares its parent's goal; the code checks neither. */
  lemma InsertKeepsInvIff(db: Db, d: Draft, event: WorkEvent)
    requires Inv(db) && MayInsert(db, d, event)
    ensures Inv(InsertEffect(db, d, event)) <==> SoundInsert(db, d)
  {
    InsertKeepsClaims(db.commitments, db.claims, db.boot, d.id, RowOf(d));
    InsertKeepsGuards(db.commitments, db.guards, db.boot, d.id, RowOf(d));
    InsertKeepsReleased(db.commitments, d.id, RowOf(d));
    InsertKeepsActions(db.commitments, db.guards, db.boot, d.id, RowOf(d));
    InsertKeepsBarriers(db.commitments, db.guards, d.id, RowOf(d));
    InsertKeepsAcyclic(db.commitments, db.goals, d.id, RowOf(d));
    InsertKeepsTopology(db, d, event);
  }

  lemma AddGoalKeepsInv(db: Db, goal: GoalId, event: WorkEvent)
    requires Inv(db)
    ensures Inv(db.(goals := db.goals + {goal}, events := db.events + [event]))
  {
  }
}
