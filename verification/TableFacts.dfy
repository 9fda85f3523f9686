/** Facts about the tables that the store's loops and checks rely on. */
module TableFacts {
  import opened Domain
  import opened Aggregates
  import opened Database
  import opened Mutations
  import opened Runs
  import Acyclic

  lemma ReservedLockIsIssued(db: Db, k: ScopeKey)
    requires Inv(db) && k in db.locks && db.locks[k].mode.Reserved?
    ensures db.locks[k].guard in db.guards
    ensures db.guards[db.locks[k].guard].state == GuardState.Issued(db.locks[k].mode.deadline)
  {
    hide ClaimsAgree, ActionsAgree, GuardsSound, TopologySound, BarriersHold, BarriersReleased, Acyclic.IsAcyclic;
  }

  lemma ExpiredIsIssued(db: Db, keys: set<ScopeKey>, now: nat)
    requires Inv(db)
    ensures forall g :: g in ExpiredOn(db.locks, keys, now) ==> MayExpire(db, g, now)
  {
    hide Inv;
    forall g | g in ExpiredOn(db.locks, keys, now)
      ensures MayExpire(db, g, now)
    {
      var k :| k in keys && k in db.locks && db.locks[k].mode.Reserved? && db.locks[k].mode.deadline <= now
        && db.locks[k].guard == g;
      ReservedLockIsIssued(db, k);
    }
  }

  lemma InvalidateAnother(gs: Guards, gone: set<GuardId>, g: GuardId)
    requires g in gs && g !in gone
    ensures g in InvalidateAll(gs, gone) && InvalidateAll(gs, gone)[g] == gs[g]
    ensures InvalidateAll(InvalidateAll(gs, gone), {g}) == InvalidateAll(gs, gone + {g})
  {
  }

  lemma FreeAnother(locks: Locks, gone: set<GuardId>, g: GuardId)
    ensures FreeReserved(FreeReserved(locks, gone), {g}) == FreeReserved(locks, gone + {g})
  {
  }

  lemma DropNothing(gs: Guards, locks: Locks)
    ensures InvalidateAll(gs, {}) == gs && FreeReserved(locks, {}) == locks
  {
  }

  lemma ExpiredOnNothing(locks: Locks, now: nat)
    ensures ExpiredOn(locks, {}, now) == {}
  {
  }

  lemma ExpiredOnAnother(locks: Locks, keys: set<ScopeKey>, k: ScopeKey, now: nat)
    ensures ExpiredOn(locks, keys + {k}, now) ==
      ExpiredOn(locks, keys, now)
      + if k in locks && locks[k].mode.Reserved? && locks[k].mode.deadline <= now then {locks[k].guard} else {}
  {
  }

  // ---- issuing ----

  /** A requested scope is free, or reserved only until `now`. */
  predicate FreeBy(locks: Locks, k: ScopeKey, now: nat) {
    k in locks ==> locks[k].mode.Reserved? && locks[k].mode.deadline <= now
  }

  predicate MayRequestIssue(db: Db, r: IssueRequest) {
    MayRequest(db, r) && forall k :: k in r.scopes ==> FreeBy(db.locks, k, r.fence.now)
  }

  lemma ExpiryFreesExactly(db: Db, keys: set<ScopeKey>, now: nat, k: ScopeKey)
    requires Inv(db) && k in keys
    ensures k in FreeReserved(db.locks, ExpiredOn(db.locks, keys, now)) <==> !FreeBy(db.locks, k, now)
  {
    hide Inv;
    var expired := ExpiredOn(db.locks, keys, now);
    if k in db.locks && db.locks[k].mode.Reserved? {
      ReservedLockIsIssued(db, k);
      if db.locks[k].guard in expired {
        var other :| other in keys && other in db.locks && db.locks[other].mode.Reserved?
          && db.locks[other].mode.deadline <= now && db.locks[other].guard == db.locks[k].guard;
        ReservedLockIsIssued(db, other);
      }
    }
  }

  /** What expiry leaves locked was blocked before, with the same lock row. */
  lemma BlockedIsBlocked(db: Db, keys: set<ScopeKey>, now: nat, k: ScopeKey)
    requires Inv(db) && k in keys && k in FreeReserved(db.locks, ExpiredOn(db.locks, keys, now))
    ensures k in db.locks && FreeReserved(db.locks, ExpiredOn(db.locks, keys, now))[k] == db.locks[k]
    ensures !FreeBy(db.locks, k, now)
    ensures forall other :: other in keys && !FreeBy(db.locks, other, now) ==>
              other in FreeReserved(db.locks, ExpiredOn(db.locks, keys, now))
  {
    hide Inv, FreeReserved, ExpiredOn, FreeBy;
    FreedLockWasThere(db.locks, ExpiredOn(db.locks, keys, now), k);
    forall other | other in keys
      ensures other in FreeReserved(db.locks, ExpiredOn(db.locks, keys, now)) <==> !FreeBy(db.locks, other, now)
    {
      ExpiryFreesExactly(db, keys, now, other);
    }
  }

  lemma FreedLockWasThere(locks: Locks, gone: set<GuardId>, k: ScopeKey)
    requires k in FreeReserved(locks, gone)
    ensures k in locks && FreeReserved(locks, gone)[k] == locks[k]
  {
  }

  lemma RequestSurvivesExpiry(db: Db, after: Db, r: IssueRequest)
    requires after.commitments == db.commitments && after.claims == db.claims && after.boot == db.boot
    requires after.guards.Keys == db.guards.Keys
    ensures MayRequest(after, r) <==> MayRequest(db, r)
  {
  }

  lemma InvalidateKeepsKeys(gs: Guards, gone: set<GuardId>)
    ensures InvalidateAll(gs, gone).Keys == gs.Keys
  {
  }

  lemma ReserveAnother(locks: Locks, done: set<ScopeKey>, k: ScopeKey, lock: LockRow)
    ensures Reserve(locks, done, lock)[k := lock] == Reserve(locks, done + {k}, lock)
    ensures Reserve(locks, {}, lock) == locks
  {
  }

  // ---- a guard's own scopes ----

  /** Expiring what blocks a guard's own scopes can only expire the guard itself. */
  lemma OwnScopesExpire(db: Db, g: GuardId, now: nat)
    requires Inv(db) && g in db.guards && db.guards[g].state.Issued?
    ensures ExpiredOn(db.locks, db.guards[g].scopes, now)
         == if db.guards[g].state.deadline <= now then {g} else {}
  {
    hide ClaimsAgree, ActionsAgree, TopologySound, BarriersHold, BarriersReleased, Acyclic.IsAcyclic;
    var row := db.guards[g];
    var k :| k in row.scopes;
    assert k in db.locks && db.locks[k] == LockFor(g, row);
    assert forall k' :: k' in row.scopes ==> k' in db.locks && db.locks[k'].guard == g;
    assert forall k' :: k' in row.scopes ==> db.locks[k'] == LockFor(g, row);
  }

  lemma OwnScopesReserved(db: Db, g: GuardId)
    requires Inv(db) && g in db.guards && db.guards[g].state.Issued?
    ensures forall k :: k in db.guards[g].scopes ==>
              k in db.locks && db.locks[k].guard == g && db.locks[k].mode.Reserved?
  {
    hide ClaimsAgree, ActionsAgree, TopologySound, BarriersHold, BarriersReleased, Acyclic.IsAcyclic;
  }

  lemma GuardHasCommitment(db: Db, g: GuardId)
    requires Inv(db) && g in db.guards
    ensures db.guards[g].commitment in db.commitments
    ensures db.guards[g].state.Issued? ==> db.guards[g].boot == db.boot
    ensures db.guards[g].scopes != {}
  {
    hide ClaimsAgree, ActionsAgree, TopologySound, BarriersHold, BarriersReleased, Acyclic.IsAcyclic;
  }

  /** A state that requires a claim has one, at the high-water mark and in this boot. */
  lemma ClaimFacts(db: Db, c: CommitmentId)
    requires Inv(db) && c in db.commitments
    ensures RequiresClaim(db.commitments[c].state) <==> c in db.claims
    ensures c in db.claims ==>
      && 0 < db.claims[c].epoch == db.commitments[c].highWater <= MAX_I64
      && db.claims[c].boot == db.boot
      && db.claims[c].heartbeat <= MAX_I64
  {
    hide ActionsAgree, GuardsSound, LocksAgree, TopologySound, BarriersHold, BarriersReleased, Acyclic.IsAcyclic;
  }

  lemma DroppedGuard(gs: Guards, g: GuardId)
    requires g in gs
    ensures g in InvalidateAll(gs, {g}) && InvalidateAll(gs, {g})[g].state.Invalidated?
  {
  }

  function ReservedBy(locks: Locks, g: GuardId): set<ScopeKey> {
    set k | k in locks && locks[k].guard == g && locks[k].mode.Reserved?
  }

  lemma HoldsReserved(locks: Locks, g: GuardId, action: ActionRef)
    ensures (map k | k in locks :: if k in ReservedBy(locks, g) then locks[k].(mode := Held(action)) else locks[k])
         == HoldAll(locks, g, action)
  {
  }

  function HeldBy(locks: Locks, g: GuardId): set<ScopeKey> {
    set k | k in locks && locks[k].guard == g && locks[k].mode.Held?
  }

  /** The reserved lock rows of an issued guard are its scopes, no more and no fewer. */
  lemma ReservedRows(db: Db, g: GuardId)
    requires Inv(db) && g in db.guards && db.guards[g].state.Issued?
    ensures ReservedBy(db.locks, g) == db.guards[g].scopes
  {
    hide ClaimsAgree, ActionsAgree, GuardsSound, TopologySound, BarriersHold, BarriersReleased, Acyclic.IsAcyclic;
  }

  lemma HeldRows(db: Db, g: GuardId)
    requires Inv(db) && g in db.guards && IsActive(db.guards[g].state)
    ensures HeldBy(db.locks, g) == db.guards[g].scopes
  {
    hide ClaimsAgree, ActionsAgree, GuardsSound, TopologySound, BarriersHold, BarriersReleased, Acyclic.IsAcyclic;
  }

  lemma NothingSwept(before: Db, swept: seq<Mutation>, after: Db)
    requires Commits(before, swept, after)
    requires forall m :: m in swept ==> m.Expire? && m.guard in {}
    ensures after == before
  {
    assert forall i :: 0 <= i < |swept| ==> swept[i] in swept;
    assert |swept| == 0;
  }

  // ---- outcomes and recovery ----

  predicate CarriesAction(gs: Guards, action: ActionRef) {
    exists g :: g in gs && ActionOf(gs[g].state) == Some(action)
  }

  lemma CarrierIsUnique(db: Db, g: GuardId, h: GuardId, action: ActionRef)
    requires Inv(db) && g in db.guards && h in db.guards
    requires ActionOf(db.guards[g].state) == Some(action) == ActionOf(db.guards[h].state)
    ensures g == h
  {
    hide ClaimsAgree, LocksAgree, GuardsSound, TopologySound, BarriersHold, BarriersReleased, Acyclic.IsAcyclic;
  }

  /** What an admitted guard says about its commitment. */
  lemma AdmittedFacts(db: Db, g: GuardId)
    requires Inv(db) && g in db.guards && db.guards[g].state.Admitted?
    ensures
      var c := db.guards[g].commitment;
      && c in db.commitments
      && db.commitments[c].outstanding == Some(db.guards[g].state.action)
      && (db.commitments[c].state.Working? || db.commitments[c].state.RecoveryPending?)
  {
    hide ClaimsAgree, LocksAgree, GuardsSound, TopologySound, BarriersHold, BarriersReleased, Acyclic.IsAcyclic;
    assert GuardFences(db.commitments, db.guards[g]);
  }

  lemma MoveOne(cs: Commitments, c: CommitmentId, state: CommitmentState)
    requires c in cs
    ensures MoveAll(cs, {c}, state) == cs[c := Moved(cs[c], state)]
  {
  }

  lemma DropOne(gs: Guards, g: GuardId)
    requires g in gs
    ensures InvalidateAll(gs, {g}) == gs[g := gs[g].(state := GuardState.Invalidated)]
  {
  }

  // ---- expired claims ----

  function OverdueClaims(claims: Claims, now: nat, lease: nat): set<CommitmentId> {
    set c | c in claims && LeaseOver(claims[c], now, lease)
  }

  /** The issued guards of some claims, at the epochs of those claims. */
  function RevokedWith(gs: Guards, claims: Claims, lapsed: set<CommitmentId>): set<GuardId> {
    set g | && g in gs && gs[g].state.Issued? && gs[g].commitment in lapsed
            && gs[g].commitment in claims && claims[gs[g].commitment].epoch == gs[g].epoch
  }

  /** The store once the claims in `lapsed` are gone, the log left out. */
  predicate Lapsed(before: Db, lapsed: set<CommitmentId>, after: Db) {
    && after.goals == before.goals && after.boot == before.boot
    && after.commitments == MoveAll(before.commitments, lapsed, RecoveryPending)
    && after.claims == before.claims - lapsed
    && after.guards == InvalidateAll(before.guards, RevokedWith(before.guards, before.claims, lapsed))
    && after.locks == FreeReserved(before.locks, RevokedWith(before.guards, before.claims, lapsed))
  }

  lemma LapsedNothing(db: Db)
    ensures Lapsed(db, {}, db)
  {
    assert MoveAll(db.commitments, {}, RecoveryPending) == db.commitments;
    assert RevokedWith(db.guards, db.claims, {}) == {};
  }

  lemma RevokedAnother(gs: Guards, claims: Claims, lapsed: set<CommitmentId>, c: CommitmentId)
    requires c in claims && c !in lapsed
    ensures RevokedWith(gs, claims, lapsed + {c})
         == RevokedWith(gs, claims, lapsed) + IssuedAt(gs, c, claims[c].epoch)
    ensures IssuedAt(InvalidateAll(gs, RevokedWith(gs, claims, lapsed)), c, claims[c].epoch)
         == IssuedAt(gs, c, claims[c].epoch)
  {
  }

  lemma MoveAnother(cs: Commitments, moved: set<CommitmentId>, c: CommitmentId, state: CommitmentState)
    requires c in cs && c !in moved
    ensures c in MoveAll(cs, moved, state) && MoveAll(cs, moved, state)[c] == cs[c]
    ensures MoveAll(MoveAll(cs, moved, state), {c}, state) == MoveAll(cs, moved + {c}, state)
  {
  }

  lemma InvalidateMore(gs: Guards, gone: set<GuardId>, more: set<GuardId>)
    ensures InvalidateAll(InvalidateAll(gs, gone), more) == InvalidateAll(gs, gone + more)
  {
  }

  lemma FreeMore(locks: Locks, gone: set<GuardId>, more: set<GuardId>)
    ensures FreeReserved(FreeReserved(locks, gone), more) == FreeReserved(locks, gone + more)
  {
  }

  lemma LapsedAnother(before: Db, lapsed: set<CommitmentId>, mid: Db, c: CommitmentId, revoked: seq<GuardId>)
    requires Lapsed(before, lapsed, mid) && c in before.commitments && c in before.claims && c !in lapsed
    requires Enumerates(revoked, IssuedAt(mid.guards, c, before.claims[c].epoch))
    ensures c in mid.claims && mid.claims[c] == before.claims[c]
    ensures Lapsed(before, lapsed + {c}, LapseEffect(mid, c, revoked))
  {
    hide InvalidateAll, FreeReserved, MoveAll, RevokedWith, IssuedAt;
    var claim := before.claims[c];
    RevokedAnother(before.guards, before.claims, lapsed, c);
    MoveAnother(before.commitments, lapsed, c, RecoveryPending);
    assert GuardIds(revoked) == IssuedAt(before.guards, c, claim.epoch);
    InvalidateMore(before.guards, RevokedWith(before.guards, before.claims, lapsed), GuardIds(revoked));
    FreeMore(before.locks, RevokedWith(before.guards, before.claims, lapsed), GuardIds(revoked));
    assert before.claims - lapsed - {c} == before.claims - (lapsed + {c});
  }

  /** A claim-bearing commitment has an outstanding action only while working. */
  lemma ClaimedActionIsWorking(db: Db, c: CommitmentId)
    requires Inv(db) && c in db.claims
    ensures c in db.commitments
    ensures db.commitments[c].outstanding.Some? ==> db.commitments[c].state.Working?
  {
    hide LocksAgree, GuardsSound, TopologySound, BarriersHold, BarriersReleased, Acyclic.IsAcyclic;
    if db.commitments[c].outstanding.Some? {
      var g :| g in db.guards && db.guards[g].commitment == c && IsActive(db.guards[g].state);
      assert GuardFences(db.commitments, db.guards[g]);
    }
  }

  lemma LapsedRow(before: Db, lapsed: set<CommitmentId>, mid: Db, c: CommitmentId)
    requires Lapsed(before, lapsed, mid) && c in before.commitments && c in before.claims && c !in lapsed
    ensures c in mid.commitments && mid.commitments[c] == before.commitments[c]
    ensures c in mid.claims && mid.claims[c] == before.claims[c]
    ensures mid.boot == before.boot
  {
  }

  lemma OverdueIs(claims: Claims, now: nat, lease: nat, c: CommitmentId)
    requires c in claims
    ensures c in OverdueClaims(claims, now, lease) <==> claims[c].heartbeat + lease <= now
  {
  }

  lemma IssuedAtIs(gs: Guards, c: CommitmentId, epoch: nat, issued: set<GuardId>)
    requires issued == set g | g in gs && gs[g].commitment == c && gs[g].epoch == epoch && gs[g].state.Issued?
    ensures issued == IssuedAt(gs, c, epoch)
    ensures issued <= gs.Keys
  {
  }

  lemma EnumerateAnother<T(!new)>(order: seq<T>, s: set<T>, x: T)
    requires Enumerates(order, s) && x !in s
    ensures Enumerates(order + [x], s + {x})
  {
  }

  lemma OverdueAreClaims(claims: Claims, now: nat, lease: nat)
    ensures OverdueClaims(claims, now, lease) <= claims.Keys
    ensures OverdueClaims(claims, now, lease) - claims.Keys == {}
  {
  }

  lemma LapsedBoot(before: Db, lapsed: set<CommitmentId>, mid: Db)
    requires Lapsed(before, lapsed, mid)
    ensures mid.boot == before.boot
  {
  }

  /** What the store expects of a claim and the row it belongs to. */
  predicate RegularClaim(claim: ClaimRow, row: CommitmentRow, boot: nat) {
    && claim.boot == boot
    && RequiresClaim(row.state)
    && row.highWater == claim.epoch
    && (row.outstanding.Some? ==> row.state.Working?)
  }

  lemma ClaimIsRegular(db: Db, c: CommitmentId)
    requires Inv(db) && c in db.claims
    ensures c in db.commitments && RegularClaim(db.claims[c], db.commitments[c], db.boot)
  {
    hide Inv;
    ClaimedActionIsWorking(db, c);
    ClaimFacts(db, c);
  }

  lemma LapseCommits(before: Db, ms: seq<Mutation>, lapsed: set<CommitmentId>, mid: Db, c: CommitmentId, now: nat,
                     lease: nat, revoked: seq<GuardId>)
    requires Commits(before, ms, mid) && Lapsed(before, lapsed, mid)
    requires c in before.commitments && c in before.claims && c !in lapsed
    requires LeaseOver(before.claims[c], now, lease) && before.commitments[c].version < MAX_I64
    requires Enumerates(revoked, IssuedAt(mid.guards, c, before.claims[c].epoch))
    ensures c in mid.claims
    ensures Lapsed(before, lapsed + {c}, LapseEffect(mid, c, revoked))
    ensures Commits(before, ms + [Lapse(c, now, lease, revoked)], LapseEffect(mid, c, revoked))
  {
    hide Commits, Lapsed, LapseEffect, Enumerates, IssuedAt;
    LapsedRow(before, lapsed, mid, c);
    LapsedAnother(before, lapsed, mid, c, revoked);
    CommitsNext(before, ms, mid, Lapse(c, now, lease, revoked));
  }

  /** No deadline overflows and no overdue commitment has run out of versions. */
  predicate MayLapseAll(db: Db, now: nat, lease: nat) {
    && (forall c :: c in db.claims ==> db.claims[c].heartbeat + lease <= MAX_U64)
    && (forall c :: c in OverdueClaims(db.claims, now, lease) ==>
          c in db.commitments && db.commitments[c].version < MAX_I64)
  }

  /** The error of a sweep names a claim that really stands in its way. */
  ghost predicate SweepBlockedBy(db: Db, now: nat, lease: nat, error: StoreError) {
    || (error == OfDomain(TimeOverflow) && exists c :: c in db.claims && db.claims[c].heartbeat + lease > MAX_U64)
    || (error == InvalidMutation && exists c :: IsExhausted(db, now, lease, c))
  }

  predicate IsExhausted(db: Db, now: nat, lease: nat, c: CommitmentId) {
    && c in db.claims && c in db.commitments
    && LeaseOver(db.claims[c], now, lease) && db.commitments[c].version >= MAX_I64
  }

  lemma ExhaustedIs(db: Db, now: nat, lease: nat, c: CommitmentId)
    requires c in db.claims && c in db.commitments
    ensures IsExhausted(db, now, lease, c) <==>
              db.claims[c].heartbeat + lease <= now && db.commitments[c].version >= MAX_I64
  {
  }

  lemma AllAreSwept(db: Db, now: nat, lease: nat)
    requires forall c :: c in db.claims ==> db.claims[c].heartbeat + lease <= MAX_U64
    requires forall c :: c in OverdueClaims(db.claims, now, lease) ==>
               c in db.commitments && db.commitments[c].version < MAX_I64
    ensures MayLapseAll(db, now, lease)
  {
  }

  lemma SweepIsBlocked(db: Db, now: nat, lease: nat, c: CommitmentId, error: StoreError)
    requires c in db.claims && c in db.commitments
    requires if db.claims[c].heartbeat + lease > MAX_U64 then error == OfDomain(TimeOverflow)
             else error == InvalidMutation && IsExhausted(db, now, lease, c)
    ensures SweepBlockedBy(db, now, lease, error) && !MayLapseAll(db, now, lease)
  {
    if db.claims[c].heartbeat + lease <= MAX_U64 {
      assert c in OverdueClaims(db.claims, now, lease);
    }
  }

  /** The end of some claims, one mutation for each, and nothing else. */
  predicate LapsesOnly(ms: seq<Mutation>, lapsed: set<CommitmentId>) {
    |ms| == |lapsed| && forall m :: m in ms ==> m.Lapse? && m.commitment in lapsed
  }

  lemma LapsesNothing()
    ensures LapsesOnly([], {})
  {
  }

  lemma LapsesAnother(ms: seq<Mutation>, lapsed: set<CommitmentId>, m: Mutation)
    requires LapsesOnly(ms, lapsed) && m.Lapse? && m.commitment !in lapsed
    ensures LapsesOnly(ms + [m], lapsed + {m.commitment})
  {
  }

  lemma LapsesCount(ms: seq<Mutation>, lapsed: set<CommitmentId>)
    requires LapsesOnly(ms, lapsed)
    ensures |ms| == |lapsed|
  {
  }

  lemma SeeAnother<T>(all: set<T>, unseen: set<T>, x: T)
    requires x in unseen
    ensures all - (unseen - {x}) == if x in all then all - unseen + {x} else all - unseen
  {
  }

  lemma RegularRow(claim: ClaimRow, row: CommitmentRow, boot: nat)
    requires RegularClaim(claim, row, boot)
    ensures claim.boot == boot && RequiresClaim(row.state) && row.highWater == claim.epoch
    ensures row.outstanding.Some? ==> row.state.Working?
  {
  }

  lemma MoveNothing(cs: Commitments, state: CommitmentState)
    ensures MoveAll(cs, {}, state) == cs
  {
  }

  lemma LapsedGuardsAndLocks(db: Db, lapsed: set<CommitmentId>, after: Db)
    requires LocksAgree(db.guards, db.locks) && Lapsed(db, lapsed, after)
    ensures HeldLocks(after.locks) == HeldLocks(db.locks)
    ensures forall g :: g in db.guards ==>
      && g in after.guards
      && after.guards[g] == if g in RevokedWith(db.guards, db.claims, lapsed)
                            then db.guards[g].(state := GuardState.Invalidated) else db.guards[g]
    ensures forall k :: k in db.locks ==> (k !in after.locks <==> db.locks[k].guard in RevokedWith(db.guards, db.claims, lapsed))
  {
  }

  /** Main result: a sweep ends exactly the overdue claims and revokes exactly the
      guards issued at their epochs; live claims, their commitments, held locks
      and outstanding actions are as before. */
  lemma ExpiryIsExact(db: Db, now: nat, lease: nat, after: Db)
    requires Inv(db) && Lapsed(db, OverdueClaims(db.claims, now, lease), after)
    ensures forall c :: c in db.claims ==>
      if db.claims[c].heartbeat + lease <= now
      then c !in after.claims && c in after.commitments && after.commitments[c] == Moved(db.commitments[c], RecoveryPending)
      else c in after.claims && after.claims[c] == db.claims[c] && after.commitments[c] == db.commitments[c]
    ensures forall c :: c in db.commitments ==>
      && c in after.commitments && after.commitments[c].outstanding == db.commitments[c].outstanding
      && (c !in db.claims ==> after.commitments[c] == db.commitments[c])
    ensures HeldLocks(after.locks) == HeldLocks(db.locks)
    ensures forall g :: g in db.guards ==>
      && g in after.guards
      && var overdue :=
           && db.guards[g].state.Issued?
           && db.guards[g].commitment in db.claims
           && db.claims[db.guards[g].commitment].heartbeat + lease <= now
           && db.claims[db.guards[g].commitment].epoch == db.guards[g].epoch;
         after.guards[g] == if overdue then db.guards[g].(state := GuardState.Invalidated) else db.guards[g]
    ensures after.locks.Keys <= db.locks.Keys
    ensures forall k :: k in db.locks ==>
      && db.locks[k].guard in db.guards
      && (k in after.locks <==> after.guards[db.locks[k].guard] == db.guards[db.locks[k].guard])
      && (k in after.locks ==> after.locks[k] == db.locks[k])
  {
    hide ActionsAgree, GuardsSound, TopologySound, BarriersHold, BarriersReleased, Acyclic.IsAcyclic, LocksAgree,
         InvalidateAll, FreeReserved, HeldLocks;
    LapsedGuardsAndLocks(db, OverdueClaims(db.claims, now, lease), after);
    ReservedIsFreed(db, OverdueClaims(db.claims, now, lease), after);
  }

  lemma ReservedIsFreed(db: Db, lapsed: set<CommitmentId>, after: Db)
    requires LocksAgree(db.guards, db.locks) && Lapsed(db, lapsed, after)
    ensures after.locks.Keys <= db.locks.Keys
    ensures forall k :: k in db.locks ==>
      && db.locks[k].guard in db.guards && db.locks[k].guard in after.guards
      && (k in after.locks <==> after.guards[db.locks[k].guard] == db.guards[db.locks[k].guard])
      && (k in after.locks ==> after.locks[k] == db.locks[k])
  {
  }
}
