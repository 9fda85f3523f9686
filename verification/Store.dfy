/** The store: tables as fields, public operations as transactions that commit
    a sequence of mutations or roll back. */
module Store {
  import opened Domain
  import opened Aggregates
  import opened Database
  import opened Mutations
  import opened Runs
  import opened Preservation
  import opened Outcomes
  import opened Planning
  import opened Startup
  import opened Lifecycle
  import opened TableFacts
  import opened Replies
  import opened Changes
  import opened Topology
  import opened ScopeSets
  import Acyclic
  import opened Cascade

  class SqliteStore {
    var goals: set<GoalId>
    var commitments: Commitments
    var claims: Claims
    var guards: Guards
    var locks: Locks
    var boot: nat
    var events: seq<WorkEvent>

    function Snapshot(): Db
      reads this
    {
      Db(goals, commitments, claims, guards, locks, boot, events)
    }

    constructor OpenInMemory()
      ensures Snapshot() == EMPTY
    {
      goals := {};
      commitments, claims, guards, locks := map[], map[], map[], map[];
      boot := 0;
      events := [];
    }

    /** What dropping an uncommitted transaction does. */
    method Rollback(saved: Db)
      modifies this
      ensures Snapshot() == saved
    {
      goals, commitments, claims := saved.goals, saved.commitments, saved.claims;
      guards, locks, boot, events := saved.guards, saved.locks, saved.boot, saved.events;
    }

    method AppendEvent(event: WorkEvent) returns (id: nat)
      modifies this`events
      ensures events == old(events) + [event] && id == |events|
    {
      events := events + [event];
      return |events|;
    }

    /** Invalidates one issued guard, deletes its reservations, logs `event`. */
    method DropGuard(g: GuardId, event: WorkEvent)
      requires g in guards
      modifies this`guards, this`locks, this`events
      ensures Snapshot() == DropEffect(old(Snapshot()), g, event)
    {
      locks := map k | k in locks && !(locks[k].guard == g && locks[k].mode.Reserved?) :: locks[k];
      guards := guards[g := guards[g].(state := GuardState.Invalidated)];
      var _ := AppendEvent(event);
    }

    method ExpireRelevantReservations(keys: set<ScopeKey>, now: nat) returns (ghost ms: seq<Mutation>)
      requires Inv(Snapshot())
      modifies this`guards, this`locks, this`events
      ensures Commits(old(Snapshot()), ms, Snapshot())
      ensures forall m :: m in ms ==> m.Expire? && m.guard in ExpiredOn(old(locks), keys, now)
      ensures guards == InvalidateAll(old(guards), ExpiredOn(old(locks), keys, now))
      ensures locks == FreeReserved(old(locks), ExpiredOn(old(locks), keys, now))
    {
      hide Inv, ExpiredOn, InvalidateAll, FreeReserved, Commits;
      ghost var before := Snapshot();
      var expired := {};
      var unseen := keys;
      ExpiredOnNothing(locks, now);
      assert keys - unseen == {};
      while unseen != {}
        invariant unseen <= keys && Snapshot() == before
        invariant expired == ExpiredOn(locks, keys - unseen, now)
        decreases unseen
      {
        var k :| k in unseen;
        ExpiredOnAnother(locks, keys - unseen, k, now);
        assert keys - (unseen - {k}) == keys - unseen + {k};
        if k in locks && locks[k].mode.Reserved? && locks[k].mode.deadline <= now {
          expired := expired + {locks[k].guard};
        }
        unseen := unseen - {k};
      }
      ms := [];
      CommitsNothing(before);
      ExpiredIsIssued(before, keys, now);
      DropNothing(guards, locks);
      assert keys - unseen == keys;
      var remaining := expired;
      assert expired - remaining == {};
      while remaining != {}
        invariant remaining <= expired
        invariant Commits(before, ms, Snapshot())
        invariant forall m :: m in ms ==> m.Expire? && m.guard in expired
        invariant guards == InvalidateAll(before.guards, expired - remaining)
        invariant locks == FreeReserved(before.locks, expired - remaining)
        decreases remaining
      {
        var g :| g in remaining;
        assert MayExpire(before, g, now);
        InvalidateAnother(before.guards, expired - remaining, g);
        FreeAnother(before.locks, expired - remaining, g);
        assert expired - (remaining - {g}) == expired - remaining + {g};
        if guards[g].state.Issued? {
          CommitsNext(before, ms, Snapshot(), Expire(g, now));
          DropGuard(g, GuardReservationExpired(g));
          ms := ms + [Expire(g, now)];
        }
        remaining := remaining - {g};
      }
      assert expired - remaining == expired;
    }

    /** The first of some scopes, in key order, that is locked. */
    method FindBlocked(scopes: set<ScopeKey>) returns (blocked: Option<ScopeKey>)
      ensures blocked == None ==> scopes !! locks.Keys
      ensures blocked.Some? ==>
        && blocked.value in scopes && blocked.value in locks
        && forall k :: k in scopes && k in locks ==> k == blocked.value || Before(blocked.value, k)
    {
      hide Before;
      var unchecked := scopes;
      while unchecked != {}
        invariant unchecked <= scopes
        invariant forall k :: k in scopes && k !in unchecked ==> k !in locks
        decreases unchecked
      {
        ghost var first := FirstKeyExists(unchecked);
        var k :| k in unchecked && forall other :: other in unchecked ==> other == k || Before(k, other);
        if k in locks { return Some(k); }
        unchecked := unchecked - {k};
      }
      return None;
    }

    /** The rows of a new guard: itself and a reservation on each of its scopes. */
    method InsertGuard(g: GuardId, row: GuardRow, deadline: nat)
      requires row.state == GuardState.Issued(deadline)
      modifies this`guards, this`locks, this`events
      ensures Snapshot() == old(Snapshot()).(
                guards := old(guards)[g := row],
                locks := Reserve(old(locks), row.scopes, LockFor(g, row)),
                events := old(events) + [WorkEvent.GuardIssued(g, row.commitment, row.epoch)])
    {
      hide Reserve;
      ghost var before := locks;
      guards := guards[g := row];
      var lock := LockRow(g, row.commitment, Reserved(deadline));
      var unlocked := row.scopes;
      ReserveAnother(before, {}, ScopeKey(""), lock);
      assert row.scopes - unlocked == {};
      while unlocked != {}
        invariant unlocked <= row.scopes
        invariant locks == Reserve(before, row.scopes - unlocked, lock)
        invariant guards == old(guards)[g := row] && events == old(events)
        decreases unlocked
      {
        var k :| k in unlocked;
        ReserveAnother(before, row.scopes - unlocked, k, lock);
        assert row.scopes - (unlocked - {k}) == row.scopes - unlocked + {k};
        locks := locks[k := lock];
        unlocked := unlocked - {k};
      }
      assert row.scopes - unlocked == row.scopes;
      var _ := AppendEvent(WorkEvent.GuardIssued(g, row.commitment, row.epoch));
    }

    /** Reserves every requested scope for a new guard, or reports why not. */
    method IssueGuard(r: IssueRequest) returns (result: Result<GuardRow>, ghost ms: seq<Mutation>)
      requires Inv(Snapshot())
      requires r.scopes != {}
      modifies this
      ensures Commits(old(Snapshot()), ms, Snapshot())
      ensures result.Ok? <==> MayRequestIssue(old(Snapshot()), r)
      ensures result.Ok? ==>
        && ms != [] && ms[|ms| - 1] == Issue(r)
        && (forall m :: m in ms[..|ms| - 1] ==> m.Expire? && m.guard in ExpiredOn(old(locks), r.scopes, r.fence.now))
        && r.guard in guards && result.value == guards[r.guard]
      ensures result.Ok? ==>
        && IssuedTables(old(Snapshot()), Snapshot(), r)
        && forall k :: k in r.scopes && k in old(locks) ==>
             old(locks)[k].mode.Reserved? && old(locks)[k].mode.deadline <= r.fence.now
      ensures result.Err? && result.error.ScopeLocked? && result.error.key in old(locks) ==>
        var mode := old(locks)[result.error.key].mode;
        mode.Held? || r.fence.now < mode.deadline
      ensures IssueRefusal(old(Snapshot()), r).Some? ==> result == Err(IssueRefusal(old(Snapshot()), r).value)
      ensures IssueRefusal(old(Snapshot()), r) == None && result.Err? ==>
        if forall k :: k in r.scopes ==> FreeBy(old(locks), k, r.fence.now)
        then result == Err(ConstraintFailed) && r.guard in old(guards) else result.error.ScopeLocked?
      ensures result.Err? ==> ms == [] && Snapshot() == old(Snapshot())
      ensures result.Err? && result.error.ScopeLocked? ==>
        var k := result.error.key;
        && k in r.scopes && k in old(locks) && old(locks)[k].guard == result.error.owner
        && !FreeBy(old(locks), k, r.fence.now)
        && forall other :: other in r.scopes && !FreeBy(old(locks), other, r.fence.now) ==>
             other == k || Before(k, other)
    {
      hide Inv, Commits, InvalidateAll, FreeReserved, ExpiredOn, Reserve, Before, IssuedTables;
      ghost var before := Snapshot();
      var saved := Snapshot();
      ms := [];
      CommitsNothing(before);
      IssueRefusalIsExact(before, r);
      var c, fence := r.commitment, r.fence;
      if c in commitments { ClaimFacts(before, c); }
      if fence.now > MAX_I64 || fence.epoch > MAX_I64 { return Err(InvalidMutation), ms; }
      if c !in commitments { return Err(NotFound), ms; }
      var row := commitments[c];
      if !row.state.Claimed? && !row.state.Working? { return Err(GuardInvalid), ms; }
      if row.outstanding.Some? { return Err(GuardInvalid), ms; }
      if c !in claims { return Err(ClaimMismatch), ms; }
      var claim := claims[c];
      if claim.worker != fence.worker { return Err(ClaimMismatch), ms; }
      if claim.epoch != fence.epoch { return Err(ClaimMismatch), ms; }
      if row.highWater != fence.epoch { return Err(InvalidPersistedData), ms; }
      if claim.boot != boot || r.boot != boot { return Err(ClaimMismatch), ms; }
      if claim.heartbeat + fence.lease > MAX_U64 { return Err(OfDomain(TimeOverflow)), ms; }
      if claim.heartbeat + fence.lease <= fence.now { return Err(LeaseElapsed), ms; }
      if fence.now + r.ttl > MAX_U64 { return Err(OfDomain(TimeOverflow)), ms; }
      var deadline := ReservationDeadline(claim, fence, r.ttl);
      if deadline > MAX_I64 { return Err(InvalidMutation), ms; }
      ms := ExpireRelevantReservations(r.scopes, fence.now);
      InvalidateKeepsKeys(before.guards, ExpiredOn(before.locks, r.scopes, fence.now));
      RequestSurvivesExpiry(before, Snapshot(), r);
      var blocked := FindBlocked(r.scopes);
      if blocked.Some? {
        var k := blocked.value;
        BlockedIsBlocked(before, r.scopes, fence.now, k);
        var owner := locks[k].guard;
        Rollback(saved);
        return Err(ScopeLocked(k, owner)), [];
      }
      forall k | k in r.scopes
        ensures FreeBy(before.locks, k, fence.now)
      {
        ExpiryFreesExactly(before, r.scopes, fence.now, k);
      }
      if r.guard in guards {
        Rollback(saved);
        return Err(ConstraintFailed), [];
      }
      assert r.scopes !! locks.Keys;
      CommitsNext(before, ms, Snapshot(), Issue(r));
      IssueChanges(before, Snapshot(), r);
      ghost var mid := Snapshot();
      var issued := GuardRow(c, fence.epoch, r.boot, r.scopes, GuardState.Issued(deadline));
      InsertGuard(r.guard, issued, deadline);
      assert Snapshot() == IssueEffect(mid, r);
      ms := ms + [Issue(r)];
      return Ok(issued), ms;
    }

    /** The three updates of an admission; false if the lock rows are not those
        that were reserved. */
    method PromoteGuard(g: GuardId, action: ActionRef, digest: Option<Digest>) returns (promoted: bool)
      requires g in guards && guards[g].commitment in commitments
      modifies this
      ensures promoted <==> |ReservedBy(old(locks), g)| == |old(guards)[g].scopes|
      ensures promoted ==> Snapshot() == AdmitEffect(old(Snapshot()), g, action, digest)
    {
      hide ReservedBy, HoldAll;
      var c := guards[g].commitment;
      var row := commitments[c];
      commitments := commitments[c := row.(outstanding := Some(action), version := row.version + 1)];
      guards := guards[g := guards[g].(state := GuardState.Admitted(action, digest))];
      var reserved := ReservedBy(locks, g);
      HoldsReserved(locks, g, action);
      locks := map k | k in locks :: if k in reserved then locks[k].(mode := Held(action)) else locks[k];
      if |reserved| != |guards[g].scopes| { return false; }
      var _ := AppendEvent(WorkEvent.GuardAdmitted(g, c, action, digest));
      return true;
    }

    /** Admits an issued guard: its reservations become held locks and its
        commitment carries the action. */
    method AdmitGuard(g: GuardId, scopes: set<ScopeKey>, action: ActionRef, digest: Option<Digest>, now: nat)
      returns (result: Result<GuardAdmission>, ghost ms: seq<Mutation>)
      requires Inv(Snapshot())
      modifies this
      ensures Commits(old(Snapshot()), ms, Snapshot())
      ensures result == AdmissionReply(old(Snapshot()), g, scopes, action, digest, now)
      ensures ms == if result == Ok(AdmittedNow) then [Admit(g, scopes, action, digest, now)] else []
      ensures result.Ok? ==>
        g in guards && guards[g].state == GuardState.Admitted(action, digest) && guards[g].scopes == scopes
      ensures result == Ok(AdmittedNow) ==> AdmittedTables(old(Snapshot()), Snapshot(), g, scopes, action, digest)
      ensures result != Ok(AdmittedNow) ==> Snapshot() == old(Snapshot())
      ensures result == Ok(AlreadyAdmitted) <==>
        && now <= MAX_I64 && g in old(guards)
        && old(guards)[g].state == GuardState.Admitted(action, digest) && old(guards)[g].scopes == scopes
      ensures now <= MAX_I64 && g in old(guards) && old(guards)[g].state.Admitted? ==>
        var held := old(guards)[g];
        && (held.state.action != action ==> result == Err(AdmissionRejected(GuardAlreadyBound)))
        && (held.state.action == action && held.state.digest != digest ==>
              result == Err(AdmissionRejected(PreparationMismatch)))
        && (held.state == GuardState.Admitted(action, digest) && held.scopes != scopes ==>
              result == Err(AdmissionRejected(ScopeKeysMismatch)))
      ensures now > MAX_I64 ==> result == Err(InvalidMutation)
      ensures now <= MAX_I64 && g !in old(guards) ==> result == Err(NotFound)
      ensures now <= MAX_I64 && g in old(guards) && !old(guards)[g].state.Issued? && !old(guards)[g].state.Admitted? ==>
        result == Err(AdmissionRejected(GuardRevoked))
      ensures now <= MAX_I64 && g in old(guards) && old(guards)[g].state.Issued? ==>
        (result == Err(AdmissionRejected(GuardExpired)) <==> old(guards)[g].state.deadline <= now)
    {
      hide Inv, Commits, InvalidateAll, FreeReserved, ExpiredOn, ReservedBy, AdmitEffect;
      ghost var before := Snapshot();
      var saved := Snapshot();
      ms := [];
      CommitsNothing(before);
      result := Err(AdmissionRejected(GuardExpired));
      label Transaction: {
        if now > MAX_I64 { result := Err(InvalidMutation); break Transaction; }
        if g !in guards { result := Err(NotFound); break Transaction; }
        var stored := guards[g].scopes;
        match guards[g].state {
          case Admitted(existing, binding) =>
            result := if existing != action then Err(AdmissionRejected(GuardAlreadyBound))
                      else if binding != digest then Err(AdmissionRejected(PreparationMismatch))
                      else if stored != scopes then Err(AdmissionRejected(ScopeKeysMismatch))
                      else Ok(AlreadyAdmitted);
            break Transaction;
          case Issued(_) =>
          case _ =>
            result := Err(AdmissionRejected(GuardRevoked));
            break Transaction;
        }
        OwnScopesExpire(before, g, now);
        GuardHasCommitment(before, g);
        DropNothing(before.guards, before.locks);
        ghost var swept := ExpireRelevantReservations(stored, now);
        DroppedGuard(before.guards, g);
        if !guards[g].state.Issued? { break Transaction; }
        NothingSwept(before, swept, Snapshot());
        if stored != scopes { result := Err(AdmissionRejected(ScopeKeysMismatch)); break Transaction; }
        OwnScopesReserved(before, g);
        var unchecked := stored;
        while unchecked != {}
          invariant unchecked <= stored
          decreases unchecked
        {
          var k :| k in unchecked;
          if !(k in locks && locks[k].guard == g && locks[k].mode.Reserved?) {
            result := Err(AdmissionRejected(InternalIntegrity));
            break Transaction;
          }
          unchecked := unchecked - {k};
        }
        if guards[g].state.deadline <= now { break Transaction; }
        var c := guards[g].commitment;
        var row := commitments[c];
        ClaimFacts(before, c);
        if !row.state.Working? { result := Err(AdmissionRejected(TaskNotActive)); break Transaction; }
        if row.outstanding.Some? { result := Err(AdmissionRejected(ActionMismatch)); break Transaction; }
        if c !in claims { result := Err(AdmissionRejected(OwnershipChanged)); break Transaction; }
        if claims[c].epoch != guards[g].epoch { result := Err(AdmissionRejected(FenceChanged)); break Transaction; }
        if row.highWater != guards[g].epoch { result := Err(InvalidPersistedData); break Transaction; }
        if claims[c].boot != boot || guards[g].boot != boot {
          result := Err(AdmissionRejected(FenceChanged));
          break Transaction;
        }
        if row.version >= MAX_I64 { result := Err(InvalidMutation); break Transaction; }
        if exists h :: h in guards && ActionOf(guards[h].state) == Some(action) {
          result := Err(ConstraintFailed);
          break Transaction;
        }
        ReservedRows(before, g);
        CommitsNext(before, ms, before, Admit(g, scopes, action, digest, now));
        AdmitChanges(before, g, scopes, action, digest, now);
        assert [] + [Admit(g, scopes, action, digest, now)] == [Admit(g, scopes, action, digest, now)];
        var promoted := PromoteGuard(g, action, digest);
        result := if promoted then Ok(AdmittedNow) else Err(InvalidMutation);
      }
      if result.Err? {
        Rollback(saved);
      } else if result.value.AdmittedNow? {
        ms := [Admit(g, scopes, action, digest, now)];
      }
    }

    // ---- the composite-barrier cascade ----

    /** The checks and updates for one composite over a completed child. */
    method CompleteComposite(p: CommitmentId, child: CommitmentId) returns (result: Result<bool>)
      requires p in commitments && child in commitments
      modifies this`commitments, this`claims, this`events
      ensures commitments.Keys == old(commitments).Keys
      ensures IsTerminal(old(commitments)[p].state) && old(commitments)[child].parent == Some(p)
           && old(commitments)[child].goal == old(commitments)[p].goal
        ==> result == Ok(false) && Snapshot() == old(Snapshot())
      ensures MayCompleteOver(old(Snapshot()), child, p) ==>
        if old(commitments)[p].version < MAX_I64 then
          && result == Ok(true)
          && Snapshot() == old(Snapshot()).(
               commitments := old(commitments)[p := Moved(old(commitments)[p], Completed)],
               claims := old(claims) - {p},
               events := old(events) + [CommitmentCompleted(p)])
        else result == Err(InvalidMutation)
    {
      var row := commitments[p];
      if commitments[child].parent != Some(p) || commitments[child].goal != row.goal {
        return Err(InvalidPersistedData);
      }
      if IsTerminal(row.state) { return Ok(false); }
      if row.outstanding.Some? { return Err(RecoveryBlocked); }
      if row.state != Waiting(OnPrerequisite(child)) && !row.state.RecoveryPending? {
        return Err(InvalidPersistedData);
      }
      if exists k :: k in locks && locks[k].commitment == p && locks[k].mode.Held? { return Err(RecoveryBlocked); }
      if row.version >= MAX_I64 { return Err(InvalidMutation); }
      commitments := commitments[p := row.(state := Completed, version := row.version + 1)];
      claims := claims - {p};
      var _ := AppendEvent(CommitmentCompleted(p));
      return Ok(true);
    }

    /** One round of the worklist: the composites over one completed commitment,
        those that it completed, and the running count of composites looked at. */
    method CompleteCompositesOver(child: CommitmentId, processed: nat, total: nat)
      returns (result: Result<seq<CommitmentId>>, count: nat)
      requires child in commitments
      requires |CompositesOver(commitments, child)| <= 1
      requires processed + |CompositesOver(commitments, child)| <= total
      requires forall p :: p in CompositesOver(commitments, child) ==>
                 p in commitments && (MayCompleteOver(Snapshot(), child, p) || EndedComposite(commitments, child, p))
      modifies this`commitments, this`claims, this`events
      ensures count <= processed + |CompositesOver(old(commitments), child)|
      ensures forall p :: p in CompositesOver(old(commitments), child) && MayCompleteOver(old(Snapshot()), child, p) ==>
        if old(commitments)[p].version < MAX_I64 then
          && result == Ok([p])
          && Snapshot() == old(Snapshot()).(
               commitments := old(commitments)[p := Moved(old(commitments)[p], Completed)],
               claims := old(claims) - {p},
               events := old(events) + [CommitmentCompleted(p)])
        else result == Err(InvalidMutation)
      ensures (forall p :: p in CompositesOver(old(commitments), child) ==> !MayCompleteOver(old(Snapshot()), child, p)) ==>
        result == Ok([]) && Snapshot() == old(Snapshot())
    {
      hide MayCompleteOver, EndedComposite, Moved;
      ghost var before := Snapshot();
      var parents := set p | p in commitments && commitments[p].replacement == Some(child);
      assert parents == CompositesOver(commitments, child);
      ghost var all := parents;
      var completed := [];
      count := processed;
      while parents != {}
        invariant parents <= all
        invariant count + |parents| == processed + |all|
        invariant parents != {} ==> parents == all && completed == [] && Snapshot() == before
        invariant parents == {} ==>
          forall p :: p in all && MayCompleteOver(before, child, p) ==>
            && before.commitments[p].version < MAX_I64
            && completed == [p]
            && Snapshot() == before.(
                 commitments := before.commitments[p := Moved(before.commitments[p], Completed)],
                 claims := before.claims - {p},
                 events := before.events + [CommitmentCompleted(p)])
        invariant parents == {} && (forall p :: p in all ==> !MayCompleteOver(before, child, p)) ==>
          completed == [] && Snapshot() == before
        decreases parents
      {
        var p :| p in parents;
        OnlyMember(parents, p);
        EndedIsNotReady(before, child, p);
        count := count + 1;
        if count > total { return Err(InvalidPersistedData), count; }
        var done := CompleteComposite(p, child);
        if done.Err? { return Err(done.error), count; }
        if done.value { completed := completed + [p]; }
        parents := parents - {p};
      }
      return Ok(completed), count;
    }

    /** Completes, above a completed commitment, every composite whose barrier
        that releases. The bound on the work is the number of commitments. */
    method CompleteCompositeBarrierCascade(child: CommitmentId) returns (result: Result<()>)
      requires Consistent(Snapshot())
      requires child in commitments && commitments[child].state.Completed?
      modifies this`commitments, this`claims, this`events
      ensures result == if CascadeFits(old(commitments), child) then Ok(()) else Err(InvalidMutation)
      ensures result.Ok? ==> Snapshot() == CompleteAll(old(Snapshot()), CascadeOf(old(commitments), child))
    {
      hide Consistent, CascadeOf, CompleteAll, MayCompleteOver, Moved, CompositesOver, EndedComposite, IsTerminal, MoveAll,
           BarrierParent, Chain;
      ghost var before := Snapshot();
      ghost var chain := CascadeOf(commitments, child);
      ChainIsShort(commitments, child);
      ChainMembers(commitments, child);
      CompleteNothing(before);
      var total := |commitments|;
      var pending := [child];
      var processed: nat := 0;
      ghost var i: nat := 0;
      assert chain[..0] == [];
      while pending != []
        invariant i <= |chain|
        invariant Snapshot() == CompleteAll(before, chain[..i])
        invariant forall j :: 0 <= j < i ==> before.commitments[chain[j]].version < MAX_I64
        invariant pending != [] ==> pending == [Rung(before.commitments, child, i)] && processed <= i
        invariant pending == [] ==> i == |chain|
        decreases |chain| - i, |pending|
      {
        var current := pending[|pending| - 1];
        pending := pending[..|pending| - 1];
        RungInTheMiddle(before, child, i);
        if current !in commitments { return Err(InvalidPersistedData); }
        if !commitments[current].state.Completed? { return Err(InvalidPersistedData); }
        var completed;
        completed, processed := CompleteCompositesOver(current, processed, total);
        if completed.Err? { return Err(completed.error); }
        pending := pending + completed.value;
        if i < |chain| { i := i + 1; }
      }
      assert chain[..i] == chain;
      return Ok(());
    }

    // ---- goals and commitments ----

    method InsertGoal(goal: GoalId, revision: nat, event: WorkEvent)
      returns (result: Result<nat>, ghost ms: seq<Mutation>)
      modifies this
      ensures Commits(old(Snapshot()), ms, Snapshot())
      ensures result.Ok? <==> Allowed(old(Snapshot()), AddGoal(goal, event)) && revision <= MAX_I64
      ensures result == Err(InvalidMutation) <==> !((event.GoalCreated? || event.GoalRevised?) && event.goal == goal)
      ensures result == Err(ConstraintFailed) <==> result != Err(InvalidMutation) && (goal in old(goals) || revision > MAX_I64)
      ensures ms == if result.Ok? then [AddGoal(goal, event)] else []
      ensures result.Ok? ==>
        && goal !in old(goals) && result.value == |events|
        && Snapshot() == old(Snapshot()).(goals := old(goals) + {goal}, events := old(events) + [event])
    {
      hide Commits;
      var saved := Snapshot();
      ms := [];
      CommitsNothing(saved);
      if !((event.GoalCreated? || event.GoalRevised?) && event.goal == goal) { return Err(InvalidMutation), ms; }
      var id := AppendEvent(event);
      if goal in goals || revision > MAX_I64 {
        Rollback(saved);
        return Err(ConstraintFailed), ms;
      }
      goals := goals + {goal};
      CommitsOne(saved, AddGoal(goal, event));
      ms := [AddGoal(goal, event)];
      return Ok(id), ms;
    }

    /** One row and then its prerequisite rows, each under its foreign keys. */
    method InsertSnapshot(d: Draft) returns (inserted: bool)
      modifies this`commitments
      ensures inserted <==>
        && d.id !in old(commitments) && d.goal in goals && d.lastEpoch <= MAX_I64
        && (d.parent.Some? ==> d.parent.value in old(commitments) || d.parent.value == d.id)
        && Dependencies(d.prerequisites) <= old(commitments).Keys + {d.id}
      ensures inserted ==> commitments == old(commitments)[d.id := RowOf(d)]
    {
      if d.id in commitments || d.goal !in goals || d.lastEpoch > MAX_I64 { return false; }
      if d.parent.Some? && d.parent.value !in commitments && d.parent.value != d.id { return false; }
      commitments := commitments[d.id := RowOf(d).(prerequisites := [])];
      var i := 0;
      while i < |d.prerequisites|
        invariant i <= |d.prerequisites|
        invariant commitments == old(commitments)[d.id := RowOf(d).(prerequisites := d.prerequisites[..i])]
        invariant forall j :: 0 <= j < i && d.prerequisites[j].NeedsCommitment? ==>
                    d.prerequisites[j].id in old(commitments).Keys + {d.id}
      {
        var p := d.prerequisites[i];
        if p.NeedsCommitment? && p.id !in commitments {
          assert p in d.prerequisites && p.id in Dependencies(d.prerequisites);
          return false;
        }
        assert d.prerequisites[..i + 1] == d.prerequisites[..i] + [p];
        commitments := commitments[d.id := commitments[d.id].(prerequisites := commitments[d.id].prerequisites + [p])];
        i := i + 1;
      }
      assert d.prerequisites[..i] == d.prerequisites;
      return true;
    }

    /** The insert checks less than the invariant needs: what it commits keeps
        the invariant exactly when the draft is sound. */
    method InsertCommitment(d: Draft, event: WorkEvent) returns (result: Result<nat>, ghost ms: seq<Mutation>)
      modifies this
      ensures Accepted(old(Snapshot()), ms) && Snapshot() == RunAll(old(Snapshot()), ms)
      ensures result.Err? || SoundInsert(old(Snapshot()), d) ==> Commits(old(Snapshot()), ms, Snapshot())
      ensures ms == if result.Ok? then [Insert(d, event)] else []
      ensures result.Ok? <==> MayInsert(old(Snapshot()), d, event)
      ensures result == Err(InvalidMutation) <==>
        EventCommitment(event) != Some(d.id) || !d.state.Proposed? || d.claim.Some? || d.outstanding.Some?
      ensures result.Err? ==> result.error == InvalidMutation || result.error == ConstraintFailed
      ensures result.Ok? ==> Snapshot() == InsertEffect(old(Snapshot()), d, event) && result.value == |events|
      ensures result.Ok? ==> InsertedTables(old(Snapshot()), Snapshot(), d, event)
      ensures result.Ok? && Inv(old(Snapshot())) ==> (Inv(Snapshot()) <==> SoundInsert(old(Snapshot()), d))
    {
      hide Inv, SoundInsert, Dependencies, Accepted, RunAll, SoundRun, InsertedTables;
      ghost var before := Snapshot();
      var saved := Snapshot();
      ms := [];
      CommitsNothing(before);
      if EventCommitment(event) != Some(d.id) { return Err(InvalidMutation), ms; }
      if !d.state.Proposed? || d.claim.Some? || d.outstanding.Some? { return Err(InvalidMutation), ms; }
      var id := AppendEvent(event);
      var inserted := InsertSnapshot(d);
      if !inserted {
        Rollback(saved);
        return Err(ConstraintFailed), ms;
      }
      InsertedIs(before, d, event);
      InsertChanges(before, d, event);
      ms := [Insert(d, event)];
      return Ok(id), ms;
    }

    /** Generic persistence may keep, release or open a claim, nothing else. */
    method ValidateClaimPersistence(d: Draft) returns (error: Option<StoreError>)
      requires d.id in commitments
      ensures error == ClaimRefusal(Snapshot(), d)
      ensures error == None <==> ClaimPersists(Snapshot(), d)
    {
      hide ClaimPersists;
      ClaimRefusalIsExact(Snapshot(), d);
      var row := commitments[d.id];
      if RequiresClaim(d.state) != d.claim.Some? { return Some(InvalidMutation); }
      if d.id in claims {
        var current := claims[d.id];
        if d.claim.Some? {
          var candidate := d.claim.value;
          if current.worker != candidate.worker || current.epoch != candidate.epoch
            || current.heartbeat != candidate.heartbeat
          {
            return Some(ClaimMismatch);
          }
          if row.highWater != current.epoch || d.lastEpoch != row.highWater { return Some(InvalidPersistedData); }
        } else if d.lastEpoch != row.highWater {
          return Some(InvalidMutation);
        }
      } else if d.claim.Some? {
        if !row.state.Ready? || !d.state.Claimed? { return Some(ClaimMismatch); }
        var next := row.highWater + 1;
        if next > MAX_I64 { return Some(InvalidMutation); }
        if d.claim.value.epoch != next || d.lastEpoch != next { return Some(OfDomain(StaleEpoch)); }
      } else if d.lastEpoch != row.highWater {
        return Some(InvalidMutation);
      }
      return None;
    }

    /** Everything that can fail before the cascade, in order. */
    method ValidateCandidate(d: Draft, expected: nat, event: WorkEvent) returns (error: Option<StoreError>)
      ensures error == CandidateRefusal(Snapshot(), d, expected, event)
      ensures error == None <==> MayPersistRow(Snapshot(), d, expected, event)
      ensures error == None ==> d.id in commitments
    {
      hide ClaimPersists, ClaimRefusal, MayPersistRow;
      CandidateRefusalIsExact(Snapshot(), d, expected, event);
      if EventCommitment(event) != Some(d.id) { return Some(InvalidMutation); }
      if d.id !in commitments { return Some(NotFound); }
      var row := commitments[d.id];
      if row.version != expected { return Some(VersionConflict); }
      if row.goal != d.goal || row.parent != d.parent || row.brief != d.brief { return Some(InvalidMutation); }
      if row.prerequisites != d.prerequisites { return Some(InvalidMutation); }
      if row.outstanding.Some? { return Some(OutstandingAction(row.outstanding.value)); }
      if row.replacement.Some? && !IsTerminal(row.state) && !d.state.Cancelled? && !d.state.Abandoned? {
        return Some(OfDomain(InvalidStructuralProposal));
      }
      if d.outstanding.Some? { return Some(InvalidMutation); }
      var illegal := ValidateTransition(row.state, d.state);
      if illegal.Some? { return Some(OfDomain(illegal.value)); }
      if !EventDescribes(event, d.state) { return Some(InvalidMutation); }
      error := ValidateClaimPersistence(d);
      if error.Some? { return; }
      if expected >= MAX_I64 { return Some(InvalidMutation); }
      // the claim row has a signed 64-bit column
      if d.claim.Some? && d.claim.value.heartbeat > MAX_I64 { return Some(ConstraintFailed); }
    }

    /** Writes the row and its claim; the prerequisites are as they were. */
    method ReplaceSnapshot(d: Draft, event: WorkEvent) returns (id: nat)
      requires d.id in commitments
      modifies this
      ensures Snapshot() == PersistRow(old(Snapshot()), d, event)
      ensures d.id in commitments && commitments[d.id].state == d.state
      ensures id == |old(events)| + 1
    {
      var row := commitments[d.id];
      id := AppendEvent(event);
      var mark := if d.lastEpoch > row.highWater then d.lastEpoch else row.highWater;
      commitments := commitments[d.id :=
        row.(state := d.state, highWater := mark, outstanding := d.outstanding, version := row.version + 1)];
      claims := claims - {d.id};
      if d.claim.Some? {
        claims := claims[d.id := ClaimRow(d.claim.value.worker, d.claim.value.epoch, d.claim.value.heartbeat, boot)];
      }
    }

    /** Persists a changed commitment snapshot; a completion cascades. */
    method PersistCommitmentChange(d: Draft, expected: nat, event: WorkEvent)
      returns (result: Result<nat>, ghost ms: seq<Mutation>)
      requires Inv(Snapshot())
      modifies this
      ensures Commits(old(Snapshot()), ms, Snapshot())
      ensures result.Ok? <==> MayPersist(old(Snapshot()), d, expected, event)
      ensures ms == if result.Ok? then [Persist(d, expected, event)] else []
      ensures result.Ok? ==> result.value == |old(events)| + 1
      ensures if result.Ok? then PersistedTables(old(Snapshot()), Snapshot(), d, expected, event)
              else Snapshot() == old(Snapshot())
      ensures result.Err? ==>
        var refusal := CandidateRefusal(old(Snapshot()), d, expected, event);
        result.error == if refusal.Some? then refusal.value else InvalidMutation
    {
      hide Inv, Commits, Consistent, MayPersistRow, CascadeOf, CompleteAll, CascadeFits, PersistedRow, CandidateRefusal, PersistedTables;
      ghost var before := Snapshot();
      var saved := Snapshot();
      ms := [];
      CommitsNothing(before);
      var error := ValidateCandidate(d, expected, event);
      if error.Some? { return Err(error.value), ms; }
      var id := ReplaceSnapshot(d, event);
      if d.state.Completed? {
        PersistRowKeepsConsistent(before, d, expected, event);
        var cascaded := CompleteCompositeBarrierCascade(d.id);
        if cascaded.Err? {
          Rollback(saved);
          return Err(cascaded.error), ms;
        }
      }
      CommitsNext(before, ms, before, Persist(d, expected, event));
      PersistChanges(before, d, expected, event);
      ms := ms + [Persist(d, expected, event)];
      return Ok(id), ms;
    }

    /** A stored commitment as an aggregate. */
    method LoadCommitment(c: CommitmentId) returns (commitment: Commitment?)
      requires Inv(Snapshot())
      ensures commitment != null <==> c in commitments
      ensures commitment != null ==> fresh(commitment) && commitment.Snapshot() == Loaded(Snapshot(), c)
    {
      hide Inv;
      if c !in commitments { return null; }
      LoadedRestores(Snapshot(), c);
      TerminalIsChild(Snapshot(), c);
      var row := commitments[c];
      if row.replacement.Some? {
        if row.replacement.value !in commitments { return null; }
        var terminal := commitments[row.replacement.value];
        if terminal.parent != Some(c) || terminal.goal != row.goal { return null; }
      }
      var claim := None;
      if c in claims { claim := Some(Lease(claims[c].worker, claims[c].epoch, claims[c].heartbeat)); }
      commitment := Commitment.Restore(
        Draft(c, row.goal, row.parent, row.brief, row.state, row.prerequisites, claim, row.outstanding, row.highWater));
    }

    // ---- leases, outcomes, recovery ----

    /** Gives up an issued guard on behalf of the current claim. */
    method InvalidateGuard(g: GuardId, fence: Fence) returns (result: Result<()>, ghost ms: seq<Mutation>)
      requires Inv(Snapshot())
      modifies this
      ensures Commits(old(Snapshot()), ms, Snapshot())
      ensures result == Unless(InvalidationRefusal(old(Snapshot()), g, fence))
      ensures result.Ok? <==> MayInvalidate(old(Snapshot()), g, fence)
      ensures if result.Ok? then DroppedTables(old(Snapshot()), Snapshot(), g) else Snapshot() == old(Snapshot())
      ensures ms == if result.Ok? then [Mutation.Invalidate(g, fence)] else []
    {
      hide Inv, Commits, InvalidateAll, FreeReserved, ExpiredOn, DropEffect, MayInvalidate, DroppedTables;
      ghost var before := Snapshot();
      var saved := Snapshot();
      ms := [];
      CommitsNothing(before);
      InvalidationRefusalIsExact(before, g, fence);
      label Transaction: {
        if fence.now > MAX_I64 { result := Err(InvalidMutation); break Transaction; }
        if g !in guards { result := Err(NotFound); break Transaction; }
        if !guards[g].state.Issued? { result := Err(GuardInvalid); break Transaction; }
        OwnScopesExpire(before, g, fence.now);
        GuardHasCommitment(before, g);
        DropNothing(before.guards, before.locks);
        DroppedGuard(before.guards, g);
        ghost var swept := ExpireRelevantReservations(guards[g].scopes, fence.now);
        if !guards[g].state.Issued? { result := Err(LeaseElapsed); break Transaction; }
        NothingSwept(before, swept, Snapshot());
        if guards[g].state.deadline <= fence.now { result := Err(LeaseElapsed); break Transaction; }
        var c := guards[g].commitment;
        ClaimFacts(before, c);
        if c !in claims { result := Err(ClaimMismatch); break Transaction; }
        if claims[c].heartbeat + fence.lease > MAX_U64 { result := Err(OfDomain(TimeOverflow)); break Transaction; }
        if claims[c].heartbeat + fence.lease <= fence.now { result := Err(LeaseElapsed); break Transaction; }
        if claims[c].worker != fence.worker { result := Err(ClaimMismatch); break Transaction; }
        if fence.epoch > MAX_I64 { result := Err(InvalidMutation); break Transaction; }
        if claims[c].epoch != fence.epoch { result := Err(ClaimMismatch); break Transaction; }
        if claims[c].boot != boot || guards[g].boot != boot { result := Err(ClaimMismatch); break Transaction; }
        CommitsNext(before, ms, before, Mutation.Invalidate(g, fence));
        DropChanges(before, g);
        DropGuard(g, WorkEvent.GuardInvalidated(g));
        result := Ok(());
        ms := ms + [Mutation.Invalidate(g, fence)];
      }
      if result.Err? { Rollback(saved); }
    }

    /** Moves the heartbeat of the current claim forward. */
    method RecordHeartbeat(c: CommitmentId, fence: Fence)
      returns (result: Result<HeartbeatResult>, ghost ms: seq<Mutation>)
      requires Inv(Snapshot())
      modifies this
      ensures Commits(old(Snapshot()), ms, Snapshot())
      ensures result == HeartbeatReply(old(Snapshot()), c, fence)
      ensures result == Ok(Beaten) <==> MayBeat(old(Snapshot()), c, fence)
      ensures result == Ok(AlreadyCurrent) <==>
                Holds(old(Snapshot()), c, fence) && old(claims)[c].heartbeat == fence.now
      ensures ms == if result == Ok(Beaten) then [Beat(c, fence)] else []
      ensures result == Ok(Beaten) ==>
        && BeatTables(old(Snapshot()), Snapshot(), c, fence)
        && claims == old(claims)[c := old(claims)[c].(heartbeat := fence.now)]
      ensures result != Ok(Beaten) ==> Snapshot() == old(Snapshot())
    {
      hide Inv, Commits, MayBeat, Holds;
      ghost var before := Snapshot();
      ms := [];
      CommitsNothing(before);
      HeartbeatReplyIsExact(before, c, fence);
      if c in commitments { ClaimFacts(before, c); }
      if fence.now > MAX_I64 || fence.epoch > MAX_I64 { return Err(InvalidMutation), ms; }
      if c !in commitments || c !in claims { return Err(ClaimMismatch), ms; }
      var claim := claims[c];
      if !RequiresClaim(commitments[c].state) { return Err(ClaimMismatch), ms; }
      if claim.worker != fence.worker || claim.epoch != fence.epoch || claim.boot != boot {
        return Err(ClaimMismatch), ms;
      }
      if commitments[c].highWater != fence.epoch { return Err(InvalidPersistedData), ms; }
      if claim.heartbeat + fence.lease > MAX_U64 { return Err(OfDomain(TimeOverflow)), ms; }
      if claim.heartbeat + fence.lease <= fence.now { return Err(LeaseElapsed), ms; }
      if fence.now < claim.heartbeat { return Err(InvalidMutation), ms; }
      if fence.now == claim.heartbeat { return Ok(AlreadyCurrent), ms; }
      CommitsNext(before, ms, before, Beat(c, fence));
      BeatChanges(before, c, fence);
      claims := claims[c := claim.(heartbeat := fence.now)];
      var _ := AppendEvent(HeartbeatAccepted(c, fence.worker, fence.epoch));
      ms := ms + [Beat(c, fence)];
      return Ok(Beaten), ms;
    }

    /** The writes of a first delivery; false if a held lock has gone missing. */
    method SettleGuard(g: GuardId, outcome: Outcome, digest: Option<Digest>) returns (settled: bool)
      requires MayRecord(Snapshot(), g, outcome, digest)
      modifies this
      ensures settled <==> outcome.Uncertain? || |HeldBy(old(locks), g)| == |old(guards)[g].scopes|
      ensures settled ==> Snapshot() == RecordEffect(old(Snapshot()), g, outcome, digest)
    {
      hide HeldBy;
      var c := guards[g].commitment;
      var row := commitments[c];
      var _ := AppendEvent(OutcomeRecorded(outcome, digest));
      if outcome.Uncertain? {
        var waiting := OnUncertainAction(outcome.action);
        commitments := commitments[c := row.(state := Waiting(waiting), version := row.version + 1)];
        claims := claims - {c};
        guards := guards[g := guards[g].(state := GuardState.Uncertain(outcome.action, digest))];
        var _ := AppendEvent(CommitmentWaiting(c, waiting));
      } else {
        guards := guards[g := guards[g].(state := GuardState.Resolved(outcome, digest))];
        var held := HeldBy(locks, g);
        locks := map k | k in locks && !(locks[k].guard == g && locks[k].mode.Held?) :: locks[k];
        if |held| != |guards[g].scopes| { return false; }
        var recovering := row.state.RecoveryPending?;
        var next := if recovering then Ready else row.state;
        commitments := commitments[c := row.(state := next, outstanding := None, version := row.version + 1)];
        if recovering { var _ := AppendEvent(RecoveryCompleted(c, outcome.action)); }
      }
      return true;
    }

    /** The binding and state checks that decide a delivery. */
    static method AnswerDelivery(state: GuardState, outcome: Outcome, digest: Option<Digest>)
      returns (answer: Result<Recording>)
      ensures answer == Reply(state, outcome, digest) != Err(NotFound)
      ensures answer == Ok(Recorded) ==> state.Admitted? && state.digest == digest
    {
      var binding := DigestOf(state);
      if binding == None && digest.Some? { return Err(OutcomePreparationBindingMissing); }
      if binding != digest { return Err(OutcomePreparationMismatch); }
      match state {
        case Resolved(recorded, _) =>
          if recorded == outcome { return Ok(AlreadyRecorded); }
          return Err(OutcomeConflict);
        case Uncertain(_, _) =>
          if outcome.Uncertain? { return Ok(AlreadyRecorded); }
          return Err(OutcomeConflict);
        case Admitted(_, _) => return Ok(Recorded);
        case _ => return Err(GuardInvalid);
      }
    }

    /** The guard that carries an action, if any: the column is unique. */
    method FindCarrier(action: ActionRef) returns (carrier: Option<GuardId>)
      ensures carrier == None <==> !CarriesAction(guards, action)
      ensures carrier.Some? ==> carrier.value in guards && ActionOf(guards[carrier.value].state) == Some(action)
    {
      if !exists g :: g in guards && ActionOf(guards[g].state) == Some(action) { return None; }
      var g :| g in guards && ActionOf(guards[g].state) == Some(action);
      return Some(g);
    }

    /** A delivery for the guard that carries the action. */
    method DeliverTo(g: GuardId, outcome: Outcome, digest: Option<Digest>)
      returns (result: Result<Recording>, ghost ms: seq<Mutation>)
      requires Inv(Snapshot()) && g in guards && ActionOf(guards[g].state) == Some(outcome.action)
      modifies this
      ensures Commits(old(Snapshot()), ms, Snapshot())
      ensures DeliveredTo(old(Snapshot()), g, outcome, digest, result)
      ensures if result == Ok(Recorded) then RecordedTables(old(Snapshot()), Snapshot(), g, outcome, digest)
              else Snapshot() == old(Snapshot())
      ensures ms == if result == Ok(Recorded) then [Record(g, outcome, digest)] else []
    {
      hide Inv, Commits, RecordEffect, HeldBy, Reply, RecordedTables;
      ghost var before := Snapshot();
      var saved := Snapshot();
      ms := [];
      CommitsNothing(before);
      label Transaction: {
        result := AnswerDelivery(guards[g].state, outcome, digest);
        if result != Ok(Recorded) { break Transaction; }
        AdmittedFacts(before, g);
        HeldRows(before, g);
        var c := guards[g].commitment;
        if commitments[c].outstanding != Some(outcome.action) {
          result := Err(OutcomeCorrelationMismatch);
          break Transaction;
        }
        if !commitments[c].state.Working? && !commitments[c].state.RecoveryPending? {
          result := Err(GuardInvalid);
          break Transaction;
        }
        if commitments[c].version >= MAX_I64 { result := Err(InvalidMutation); break Transaction; }
        CommitsOne(before, Record(g, outcome, digest));
        RecordChanges(before, g, outcome, digest);
        var settled := SettleGuard(g, outcome, digest);
        result := if settled then Ok(Recorded) else Err(InvalidMutation);
        ms := [Record(g, outcome, digest)];
      }
      if result.Err? { Rollback(saved); }
    }

    /** Records the outcome of an action at most once. */
    method RecordTethersOutcome(outcome: Outcome, digest: Option<Digest>)
      returns (result: Result<Recording>, ghost ms: seq<Mutation>)
      requires Inv(Snapshot())
      modifies this
      ensures Commits(old(Snapshot()), ms, Snapshot())
      ensures result == Err(NotFound) <==> !CarriesAction(old(guards), outcome.action)
      ensures forall g :: g in old(guards) && ActionOf(old(guards)[g].state) == Some(outcome.action) ==>
        && DeliveredTo(old(Snapshot()), g, outcome, digest, result)
        && (result == Ok(Recorded) ==> RecordedTables(old(Snapshot()), Snapshot(), g, outcome, digest))
        && ms == if result == Ok(Recorded) then [Record(g, outcome, digest)] else []
      ensures result != Ok(Recorded) ==> ms == [] && Snapshot() == old(Snapshot())
    {
      hide Inv, Commits, DeliveredTo, RecordedTables;
      ghost var before := Snapshot();
      var carrier := FindCarrier(outcome.action);
      if carrier == None {
        CommitsNothing(before);
        return Err(NotFound), [];
      }
      forall h | h in guards && ActionOf(guards[h].state) == Some(outcome.action)
        ensures h == carrier.value
      {
        CarrierIsUnique(before, carrier.value, h, outcome.action);
      }
      result, ms := DeliverTo(carrier.value, outcome, digest);
      DeliveryFound(before, carrier.value, outcome, digest, result);
    }

    /** The writes that make recovered work ready again. */
    method MarkReady(c: CommitmentId)
      requires c in commitments
      modifies this`commitments, this`events
      ensures Snapshot() == ReleaseEffect(old(Snapshot()), c)
    {
      hide MoveAll;
      var row := commitments[c];
      MoveOne(commitments, c, Ready);
      commitments := commitments[c := row.(state := Ready, version := row.version + 1)];
      var _ := AppendEvent(RecoveryReleased(c));
    }

    /** Makes recovered work ready again, or finishes a composite whose barrier
        has completed. */
    method RecoverWithoutAction(c: CommitmentId) returns (result: Result<()>, ghost ms: seq<Mutation>)
      requires Consistent(Snapshot())
      modifies this
      ensures result == Unless(RecoveryRefusal(old(Snapshot()), c))
      ensures result.Ok? <==> MayRelease(old(Snapshot()), c) || BarrierIsOver(old(Snapshot()), c)
      ensures MayRelease(old(Snapshot()), c) ==> ReleasedTables(old(Snapshot()), Snapshot(), c)
      ensures BarrierIsOver(old(Snapshot()), c) ==>
        Snapshot() == CompleteAll(old(Snapshot()), CascadeOf(old(commitments), old(commitments)[c].replacement.value))
      ensures result.Err? ==> Snapshot() == old(Snapshot())
      ensures Inv(old(Snapshot())) ==> Commits(old(Snapshot()), ms, Snapshot())
      ensures ms == if MayRelease(old(Snapshot()), c) then [Mutation.Release(c)] else []
      ensures Inv(old(Snapshot())) ==> (result.Ok? <==> ms == [Mutation.Release(c)])
    {
      hide Consistent, CascadeOf, CompleteAll, MoveAll, CascadeFits, Commits, Inv, ReleaseEffect, ReleasedTables;
      var saved := Snapshot();
      ms := [];
      CommitsNothing(saved);
      if Inv(saved) { RecoveryNeedsNoCascade(saved, c); }
      RecoveryRefusalIsExact(saved, c);
      if c !in commitments { return Err(NotFound), ms; }
      var row := commitments[c];
      var held := exists k :: k in locks && locks[k].commitment == c && locks[k].mode.Held?;
      if !row.state.RecoveryPending? || row.outstanding.Some? || held || c in claims { return Err(RecoveryBlocked), ms; }
      if row.replacement.Some? {
        var terminal := row.replacement.value;
        TerminalExists(Snapshot(), c);
        if terminal !in commitments { return Err(InvalidPersistedData), ms; }
        if !commitments[terminal].state.Completed? { return Err(RecoveryBlocked), ms; }
        result := CompleteCompositeBarrierCascade(terminal);
        if result.Err? { Rollback(saved); }
        return;
      }
      if row.version >= MAX_I64 { return Err(InvalidMutation), ms; }
      ReleaseChanges(saved, c);
      MarkReady(c);
      CommitsOne(saved, Mutation.Release(c));
      ms := [Mutation.Release(c)];
      return Ok(()), ms;
    }

    /** Ends one claim: its commitment awaits recovery, the guards issued at its
        epoch are invalid, their reservations free. */
    method LapseClaim(c: CommitmentId, claim: ClaimRow) returns (ghost revoked: seq<GuardId>)
      requires c in commitments && c in claims && claims[c] == claim
      modifies this
      ensures Enumerates(revoked, IssuedAt(old(guards), c, claim.epoch))
      ensures Snapshot() == LapseEffect(old(Snapshot()), c, revoked)
    {
      hide InvalidateAll, FreeReserved, IssuedAt;
      ghost var before := Snapshot();
      MoveOne(commitments, c, RecoveryPending);
      var row := commitments[c];
      commitments := commitments[c := row.(state := RecoveryPending, version := row.version + 1)];
      claims := claims - {c};
      var _ := AppendEvent(LeaseExpired(c, claim.worker, claim.epoch));
      var _ := AppendEvent(CommitmentRecoveryPending(c));
      ghost var mid := Snapshot();
      var issued := set g | g in guards && guards[g].commitment == c && guards[g].epoch == claim.epoch
                            && guards[g].state.Issued?;
      IssuedAtIs(guards, c, claim.epoch, issued);
      revoked := InvalidateIssued(issued);
      assert mid.events + Invalidations(revoked)
          == before.events + [LeaseExpired(c, claim.worker, claim.epoch), CommitmentRecoveryPending(c)] + Invalidations(revoked);
    }

    /** Invalidates some issued guards one by one, in the order returned. */
    method InvalidateIssued(issued: set<GuardId>) returns (ghost order: seq<GuardId>)
      requires issued <= guards.Keys
      modifies this`guards, this`locks, this`events
      ensures Enumerates(order, issued)
      ensures guards == InvalidateAll(old(guards), GuardIds(order))
      ensures locks == FreeReserved(old(locks), GuardIds(order))
      ensures events == old(events) + Invalidations(order)
    {
      hide InvalidateAll, FreeReserved;
      order := [];
      var remaining := issued;
      DropNothing(guards, locks);
      assert issued - remaining == {} == GuardIds(order);
      while remaining != {}
        invariant remaining <= issued
        invariant Enumerates(order, issued - remaining) && GuardIds(order) == issued - remaining
        invariant guards == InvalidateAll(old(guards), GuardIds(order))
        invariant locks == FreeReserved(old(locks), GuardIds(order))
        invariant events == old(events) + Invalidations(order)
        decreases remaining
      {
        var g :| g in remaining;
        InvalidateAnother(old(guards), GuardIds(order), g);
        FreeAnother(old(locks), GuardIds(order), g);
        DropGuard(g, WorkEvent.GuardInvalidated(g));
        EnumerateAnother(order, issued - remaining, g);
        assert Invalidations(order + [g]) == Invalidations(order) + [WorkEvent.GuardInvalidated(g)];
        assert issued - (remaining - {g}) == issued - remaining + {g};
        order := order + [g];
        remaining := remaining - {g};
      }
      assert issued - remaining == issued;
    }

    /** Is the lease of this claim over, and may its commitment be moved? */
    static method LeaseVerdict(claim: ClaimRow, row: CommitmentRow, boot: nat, now: nat, lease: nat)
      returns (over: Result<bool>)
      ensures over == Ok(true) ==> claim.heartbeat + lease <= now && claim.heartbeat + lease <= MAX_U64 && row.version < MAX_I64
      ensures over == Ok(false) ==> now < claim.heartbeat + lease <= MAX_U64
      ensures over.Err? && RegularClaim(claim, row, boot) ==>
        if claim.heartbeat + lease > MAX_U64 then over.error == OfDomain(TimeOverflow)
        else over.error == InvalidMutation && claim.heartbeat + lease <= now && row.version >= MAX_I64
    {
      if claim.boot != boot { return Err(RecoveryBlocked); }
      if !RequiresClaim(row.state) { return Err(InvalidPersistedData); }
      if row.highWater != claim.epoch { return Err(InvalidPersistedData); }
      if claim.heartbeat + lease > MAX_U64 { return Err(OfDomain(TimeOverflow)); }
      if claim.heartbeat + lease > now { return Ok(false); }
      if row.outstanding.Some? && !row.state.Working? { return Err(InvalidPersistedData); }
      if row.version >= MAX_I64 { return Err(InvalidMutation); }
      return Ok(true);
    }

    /** The loop over the claims; on an error it stops where it is. */
    method LapseOverdueClaims(now: nat, lease: nat) returns (result: Result<nat>, ghost ms: seq<Mutation>)
      requires Inv(Snapshot())
      modifies this
      ensures result.Ok? <==> MayLapseAll(old(Snapshot()), now, lease)
      ensures result.Err? ==> SweepBlockedBy(old(Snapshot()), now, lease, result.error)
      ensures result.Ok? ==>
        && Commits(old(Snapshot()), ms, Snapshot())
        && Lapsed(old(Snapshot()), OverdueClaims(old(claims), now, lease), Snapshot())
        && result.value == |OverdueClaims(old(claims), now, lease)| == |ms|
        && LapsesOnly(ms, OverdueClaims(old(claims), now, lease))
    {
      hide Inv, Commits, Lapsed, LapseEffect, IssuedAt, OverdueClaims, RegularClaim, Enumerates, RequiresClaim,
           Allowed, Do, MoveAll, InvalidateAll, FreeReserved, Moved, RevokedWith, SweepBlockedBy, MayLapseAll,
           IsExhausted, LapsesOnly;
      ghost var before := Snapshot();
      ms := [];
      CommitsNothing(before);
      LapsedNothing(before);
      LapsesNothing();
      OverdueAreClaims(before.claims, now, lease);
      var listed, rows := claims, commitments;
      var unseen := listed.Keys;
      var count := 0;
      ghost var gone := {};
      while unseen != {}
        invariant unseen <= listed.Keys
        invariant gone == OverdueClaims(before.claims, now, lease) - unseen
        invariant Lapsed(before, gone, Snapshot())
        invariant Commits(before, ms, Snapshot())
        invariant count == |ms|
        invariant LapsesOnly(ms, gone)
        invariant forall c :: c in listed && c !in unseen ==> listed[c].heartbeat + lease <= MAX_U64
        invariant forall c :: c in gone ==> c in rows && rows[c].version < MAX_I64
        decreases unseen
      {
        var c :| c in unseen;
        SeeAnother(OverdueClaims(before.claims, now, lease), unseen, c);
        unseen := unseen - {c};
        ClaimIsRegular(before, c);
        OverdueIs(before.claims, now, lease, c);
        LapsedBoot(before, gone, Snapshot());
        var over := LeaseVerdict(listed[c], rows[c], boot, now, lease);
        if over.Err? {
          ExhaustedIs(before, now, lease, c);
          SweepIsBlocked(before, now, lease, c, over.error);
          return Err(over.error), ms;
        }
        if over.value {
          ghost var mid := Snapshot();
          LapsedRow(before, gone, mid, c);
          ghost var revoked := LapseClaim(c, listed[c]);
          LapseCommits(before, ms, gone, mid, c, now, lease, revoked);
          LapsesAnother(ms, gone, Lapse(c, now, lease, revoked));
          ms := ms + [Lapse(c, now, lease, revoked)];
          gone := gone + {c};
          count := count + 1;
        }
      }
      assert gone == OverdueClaims(before.claims, now, lease);
      AllAreSwept(before, now, lease);
      LapsesCount(ms, gone);
      return Ok(count), ms;
    }

    /** Ends every claim whose lease is over and reports how many there were. */
    method ProcessExpiredClaims(now: nat, lease: nat) returns (result: Result<nat>, ghost ms: seq<Mutation>)
      requires Inv(Snapshot())
      modifies this
      ensures Commits(old(Snapshot()), ms, Snapshot())
      ensures result.Ok? <==> now <= MAX_I64 && MayLapseAll(old(Snapshot()), now, lease)
      ensures result.Err? && now <= MAX_I64 ==> SweepBlockedBy(old(Snapshot()), now, lease, result.error)
      ensures now > MAX_I64 ==> result == Err(InvalidMutation)
      ensures result.Ok? ==>
        && Lapsed(old(Snapshot()), OverdueClaims(old(claims), now, lease), Snapshot())
        && result.value == |OverdueClaims(old(claims), now, lease)| == |ms|
        && LapsesOnly(ms, OverdueClaims(old(claims), now, lease))
      ensures result.Err? ==> ms == []
    {
      hide *;
      ghost var before := Snapshot();
      var saved := Snapshot();
      CommitsNothing(before);
      if now > MAX_I64 { return Err(InvalidMutation), []; }
      result, ms := LapseOverdueClaims(now, lease);
      if result.Err? {
        Rollback(saved);
        ms := [];
      }
    }

    // ---- structural proposals ----

    /** The dependency graph as stored, refused if an edge dangles or closes a cycle. */
    method LoadDependencyGraph() returns (result: Result<Acyclic.Graph>)
      ensures result.Ok? <==>
        && (forall c :: c in commitments ==> Dependencies(commitments[c].prerequisites) <= commitments.Keys)
        && Acyclic.IsAcyclic(GraphOf(commitments))
      ensures result.Ok? ==> result.value == GraphOf(commitments)
    {
      hide Acyclic.IsAcyclic, Dependencies;
      var graph: Acyclic.Graph := map[];
      var remaining := commitments.Keys;
      while remaining != {}
        invariant remaining <= commitments.Keys
        invariant graph.Keys == commitments.Keys - remaining
        invariant forall c :: c in graph ==>
                    graph[c] == Dependencies(commitments[c].prerequisites) <= commitments.Keys
        decreases remaining
      {
        var c :| c in remaining;
        var edges := CollectEdges(commitments[c].prerequisites, commitments.Keys);
        if edges.None? { return Err(InvalidPersistedData); }
        graph := graph[c := edges.value];
        remaining := remaining - {c};
      }
      assert graph == GraphOf(commitments);
      var acyclic := Acyclic.ValidateAcyclic(graph);
      if !acyclic { return Err(OfDomain(DependencyCycle)); }
      return Ok(graph);
    }

    /** The commitments that some prerequisites name, if all of them are known. */
    static method CollectEdges(prerequisites: seq<Prerequisite>, known: set<CommitmentId>)
      returns (edges: Option<set<CommitmentId>>)
      ensures edges.Some? <==> Dependencies(prerequisites) <= known
      ensures edges.Some? ==> edges.value == Dependencies(prerequisites)
    {
      var found := {};
      var i := 0;
      while i < |prerequisites|
        invariant i <= |prerequisites|
        invariant found == Dependencies(prerequisites[..i]) <= known
      {
        var p := prerequisites[i];
        assert prerequisites[..i + 1] == prerequisites[..i] + [p];
        assert forall q :: q in prerequisites[..i + 1] <==> q in prerequisites[..i] || q == p;
        if p.NeedsCommitment? {
          assert p in prerequisites && p.id in Dependencies(prerequisites);
          assert p in prerequisites[..i + 1] && p.id in Dependencies(prerequisites[..i + 1]);
          if p.id !in known { return None; }
          found := found + {p.id};
        }
        i := i + 1;
      }
      assert prerequisites[..i] == prerequisites;
      return Some(found);
    }

    /** Expires the target's own overdue reservations, one issued guard at a time. */
    method ExpireTargetReservations(target: CommitmentId, now: nat) returns (ghost ms: seq<Mutation>)
      requires Inv(Snapshot())
      modifies this`guards, this`locks, this`events
      ensures Commits(old(Snapshot()), ms, Snapshot())
      ensures forall m :: m in ms ==> m.Expire? && m.guard in OverdueGuards(old(guards), target, now)
      ensures guards == InvalidateAll(old(guards), OverdueGuards(old(guards), target, now))
    {
      hide Inv, Commits, InvalidateAll, ExpiredOn, FreeReserved;
      ghost var before := Snapshot();
      ms := [];
      CommitsNothing(before);
      DropNothing(guards, locks);
      ghost var overdue := OverdueGuards(guards, target, now);
      var issued := set g | g in guards && guards[g].commitment == target && guards[g].state.Issued?;
      var remaining := issued;
      assert overdue - issued == {};
      while remaining != {}
        invariant remaining <= issued
        invariant Inv(Snapshot()) && Commits(before, ms, Snapshot())
        invariant forall m :: m in ms ==> m.Expire? && m.guard in overdue
        invariant guards == InvalidateAll(before.guards, overdue - remaining)
        decreases remaining
      {
        var g :| g in remaining;
        ghost var mid := Snapshot();
        SeeAnother(overdue, remaining, g);
        InvalidateAnother(before.guards, overdue - remaining, g);
        DropNothing(mid.guards, mid.locks);
        OwnScopesExpire(mid, g, now);
        ghost var swept := ExpireRelevantReservations(guards[g].scopes, now);
        CommitsConcat(before, ms, mid, swept, Snapshot());
        CommitsKeepsInv(mid, swept, Snapshot());
        ms := ms + swept;
        remaining := remaining - {g};
      }
      assert overdue - remaining == overdue;
    }

    /** The dependency graph as it will be once the children are stored. */
    static method BuildCandidate(graph: Acyclic.Graph, target: CommitmentId, children: seq<NewCommitment>,
                                 terminal: CommitmentId)
      returns (candidate: Result<Acyclic.Graph>)
      requires target in graph
      ensures candidate.Ok? <==>
        && (forall i :: 0 <= i < |children| ==> children[i].id !in graph)
        && (forall i :: 0 <= i < |children| ==>
              Dependencies(children[i].prerequisites) <= graph.Keys + Ids(ChildIds(children)))
      ensures candidate.Ok? ==>
        candidate.value == (graph + ChildEdges(children))[target := graph[target] + {terminal}]
      ensures candidate.Err? ==> candidate.error == OfDomain(InvalidStructuralProposal)
    {
      hide Dependencies;
      var proposed := set i | 0 <= i < |children| :: children[i].id;
      ProposedIds(children, proposed);
      if exists c :: c in proposed && (c in graph || c == target) {
        return Err(OfDomain(InvalidStructuralProposal));
      }
      var edges := graph;
      var i := 0;
      assert children[..0] == [];
      assert graph + map[] == graph;
      while i < |children|
        invariant i <= |children|
        invariant edges == graph + ChildEdges(children[..i])
        invariant ChildEdges(children[..i]).Keys <= proposed
        invariant forall j :: 0 <= j < i ==> Dependencies(children[j].prerequisites) <= graph.Keys + proposed
      {
        var dependencies := CollectEdges(children[i].prerequisites, graph.Keys + proposed);
        if dependencies.None? { return Err(OfDomain(InvalidStructuralProposal)); }
        ExtendBoth(graph, ChildEdges(children[..i]), children[i].id, dependencies.value);
        assert children[..i + 1][..i] == children[..i];
        edges := edges[children[i].id := dependencies.value];
        i := i + 1;
      }
      assert children[..i] == children;
      return Ok(edges[target := edges[target] + {terminal}]);
    }

    /** Inserts the children in list order, each under its foreign keys. */
    method InsertChildren(target: CommitmentId, goal: GoalId, children: seq<NewCommitment>) returns (inserted: bool)
      requires goal in goals && target in commitments && Distinct(ChildIds(children))
      requires forall i :: 0 <= i < |children| ==> children[i].id !in commitments
      modifies this`commitments, this`events
      ensures inserted <==> InListOrder(old(commitments), children)
      ensures inserted ==> Snapshot() == WithChildren(old(Snapshot()), target, goal, children)
    {
      hide Dependencies, Distinct, GraphOf, ChildEdges, Ids, WithChildren, RowOf;
      WithNoChildren(Snapshot(), target, goal);
      ghost var before := Snapshot();
      var i := 0;
      assert children[..0] == [];
      while i < |children|
        invariant i <= |children|
        invariant Snapshot() == WithChildren(before, target, goal, children[..i])
        invariant forall j :: 0 <= j < i ==>
                    Dependencies(children[j].prerequisites) <= before.commitments.Keys + Ids(ChildIds(children[..j + 1]))
      {
        var child := children[i];
        WithChildrenRows(before, target, goal, children[..i]);
        ChildIdsSnoc(children, i);
        EarlierIds(children, i);
        WithOneMoreChild(before, target, goal, children, i);
        var d := ChildDraft(target, goal, child);
        var _ := AppendEvent(CommitmentCreated(child.id, goal));
        var stored := InsertSnapshot(d);
        if !stored { return false; }
        i := i + 1;
      }
      assert children[..i] == children;
      return true;
    }

    /** Appends the prerequisite row, then updates the parent's own row. */
    method LinkTerminal(target: CommitmentId, children: seq<NewCommitment>, terminal: CommitmentId) returns (id: nat)
      requires target in commitments
      modifies this`commitments, this`events
      ensures Snapshot() == DecomposeEffect(old(Snapshot()), target, terminal, ChildIds(children))
      ensures id == |events|
    {
      var row := commitments[target];
      commitments := commitments[target := row.(prerequisites := row.prerequisites + [NeedsCommitment(terminal)])];
      commitments := commitments[target := commitments[target].(
        state := Waiting(OnPrerequisite(terminal)), replacement := Some(terminal), version := row.version + 1)];
      var _ := AppendEvent(CommitmentWaiting(target, OnPrerequisite(terminal)));
      id := AppendEvent(ProposalApplied(target, IntoChildren(ChildIds(children), terminal)));
    }

    method ApplyDecomposition(graph: Acyclic.Graph, target: CommitmentId, children: seq<NewCommitment>,
                              terminal: CommitmentId)
      returns (result: Result<nat>)
      requires graph == GraphOf(commitments) && target in commitments
      requires commitments[target].goal in goals && Distinct(ChildIds(children))
      modifies this`commitments, this`events
      ensures result.Ok? <==>
        && old(commitments)[target].replacement == None && old(commitments)[target].version < MAX_I64
        && MayDecomposeInto(old(Snapshot()), target, children, terminal)
      ensures result.Ok? ==>
        && target in WithChildren(old(Snapshot()), target, old(commitments)[target].goal, children).commitments
        && Snapshot() == DecomposeEffect(
             WithChildren(old(Snapshot()), target, old(commitments)[target].goal, children), target, terminal,
             ChildIds(children))
      ensures result.Ok? && old(commitments)[target].state.Working? ==>
        DecomposedRows(old(commitments), commitments, target, children, terminal)
      ensures result.Ok? ==> result.value == |events|
      ensures result.Err? && old(commitments)[target].replacement == None ==>
        ChildrenRefusal(old(commitments), target, children, terminal) == Some(result.error)
    {
      hide Distinct, Acyclic.IsAcyclic, InListOrder, WithChildren, ChildEdges, Dependencies, DecomposeEffect, DecomposedRows;
      ghost var before := Snapshot();
      var row := commitments[target];
      if row.replacement.Some? { return Err(OfDomain(InvalidStructuralProposal)); }
      FreshChildren(graph, children);
      if InListOrder(commitments, children) { OrderedIsKnown(commitments, children); }
      var candidate := BuildCandidate(graph, target, children, terminal);
      if candidate.Err? { return Err(candidate.error); }
      assert candidate.value == CandidateGraph(commitments, target, children, terminal);
      var acyclic := Acyclic.ValidateAcyclic(candidate.value);
      if !acyclic { return Err(OfDomain(DependencyCycle)); }
      var inserted := InsertChildren(target, row.goal, children);
      if !inserted { return Err(ConstraintFailed); }
      CandidateIsReload(before, target, row.goal, children, terminal);
      if row.version >= MAX_I64 { return Err(InvalidMutation); }
      if before.commitments[target].state.Working? { DecomposeChanges(before, target, children, terminal); }
      var id := LinkTerminal(target, children, terminal);
      return Ok(id);
    }

    method ApplyAddPrerequisite(graph: Acyclic.Graph, target: CommitmentId, prerequisite: Prerequisite)
      returns (result: Result<nat>)
      requires graph == GraphOf(commitments) && target in commitments
      modifies this`commitments, this`events
      ensures result.Ok? <==>
        && old(commitments)[target].version < MAX_I64
        && MayAddPrerequisite(old(commitments), target, prerequisite)
      ensures result.Ok? ==> Snapshot() == RequireEffect(old(Snapshot()), target, prerequisite)
      ensures result.Ok? ==> result.value == |events|
      ensures result.Err? ==> PrerequisiteRefusal(old(commitments), target, prerequisite) == Some(result.error)
    {
      hide Acyclic.IsAcyclic;
      var row := commitments[target];
      if prerequisite in row.prerequisites { return Err(OfDomain(InvalidStructuralProposal)); }
      var candidate := graph;
      RequiringIsReload(commitments, target, prerequisite);
      assert graph[target] + {} == graph[target];
      if prerequisite.NeedsCommitment? {
        if prerequisite.id !in candidate { return Err(OfDomain(InvalidStructuralProposal)); }
        candidate := candidate[target := candidate[target] + {prerequisite.id}];
      }
      assert candidate == GraphOf(commitments[target := Requiring(row, prerequisite)]);
      var acyclic := Acyclic.ValidateAcyclic(candidate);
      if !acyclic { return Err(OfDomain(DependencyCycle)); }
      if row.version >= MAX_I64 { return Err(InvalidMutation); }
      commitments := commitments[target := row.(prerequisites := row.prerequisites + [prerequisite])];
      commitments := commitments[target := commitments[target].(version := row.version + 1)];
      var id := AppendEvent(ProposalApplied(target, WithPrerequisite(prerequisite)));
      return Ok(id);
    }

    method ApplyAbandon(target: CommitmentId, rationale: string) returns (result: Result<nat>)
      requires target in commitments
      modifies this`commitments, this`claims, this`events
      ensures result.Ok? <==> old(commitments)[target].version < MAX_I64
      ensures result.Ok? ==> Snapshot() == GiveUpEffect(old(Snapshot()), target, rationale)
      ensures result.Ok? ==> result.value == |events|
      ensures result.Err? ==> result.error == InvalidMutation
    {
      var row := commitments[target];
      if row.version >= MAX_I64 { return Err(InvalidMutation); }
      MoveOne(commitments, target, Abandoned);
      commitments := commitments[target := row.(state := Abandoned, version := row.version + 1)];
      claims := claims - {target};
      var _ := AppendEvent(CommitmentAbandoned(target));
      var id := AppendEvent(ProposalApplied(target, GivenUp(rationale)));
      return Ok(id);
    }

    /** The checks on the target's row and claim, in order. */
    method CheckTarget(p: Proposal, fence: Fence) returns (error: Option<StoreError>)
      requires Inv(Snapshot()) && fence.epoch == p.epoch && fence.now <= MAX_I64
      ensures error == TargetRefusal(Snapshot(), p, fence)
      ensures error == None <==> TargetReady(Snapshot(), p, fence)
    {
      hide Inv, TargetReady;
      TargetRefusalIsExact(Snapshot(), p, fence);
      var target := p.target;
      if target !in commitments { return Some(NotFound); }
      ClaimFacts(Snapshot(), target);
      var row := commitments[target];
      if IsTerminal(row.state) { return Some(OfDomain(TerminalCommitmentImmutable)); }
      if row.state.RecoveryPending? || (row.state.Waiting? && row.state.reason.OnUncertainAction?) {
        return Some(OfDomain(InvalidStructuralProposal));
      }
      if !RequiresClaim(row.state) { return Some(ClaimMismatch); }
      if p.Decomposition? && !row.state.Working? { return Some(OfDomain(InvalidStructuralProposal)); }
      if !p.Abandonment? && row.replacement.Some? { return Some(OfDomain(InvalidStructuralProposal)); }
      if row.outstanding.Some? { return Some(OutstandingAction(row.outstanding.value)); }
      if target !in claims { return Some(ClaimMismatch); }
      var claim := claims[target];
      if p.epoch > MAX_I64 { return Some(InvalidMutation); }
      if claim.epoch != p.epoch || row.highWater != claim.epoch { return Some(ClaimMismatch); }
      if claim.worker != fence.worker || claim.boot != boot { return Some(ClaimMismatch); }
      if claim.heartbeat + fence.lease > MAX_U64 { return Some(OfDomain(TimeOverflow)); }
      if claim.heartbeat + fence.lease <= fence.now { return Some(LeaseElapsed); }
      return None;
    }

    /** The writes of one proposal, once its target is clear. */
    method ApplyChange(p: Proposal) returns (result: Result<nat>)
      requires Inv(Snapshot()) && WellShaped(p) && p.target in commitments
      requires !p.Abandonment? ==> commitments[p.target].replacement == None
      modifies this`commitments, this`claims, this`events
      ensures result.Ok? <==> ChangeFits(old(Snapshot()), p)
      ensures result.Err? ==> ChangeRefusal(old(Snapshot()), p) == Some(result.error)
      ensures result.Ok? && p.Decomposition? ==>
        p.target in WithChildren(old(Snapshot()), p.target, old(commitments)[p.target].goal, p.children).commitments
      ensures result.Ok? ==> Snapshot() == ProposalEffect(old(Snapshot()), p) && result.value == |events|
    {
      hide Inv, Distinct, MayDecomposeInto, MayAddPrerequisite, Acyclic.IsAcyclic, WithChildren, GiveUpEffect,
           DecomposeEffect, RequireEffect, IsBlank, GraphOf, Dependencies;
      StoredGraphIsAcyclic(Snapshot());
      GoalIsStored(Snapshot(), p.target);
      ChangeRefusalIsExact(Snapshot(), p);
      var graph := LoadDependencyGraph();
      if graph.Err? { return Err(OfDomain(DependencyCycle)); }
      match p {
        case Decomposition(target, _, children, terminal) =>
          result := ApplyDecomposition(graph.value, target, children, terminal);
        case AddPrerequisite(target, _, prerequisite) =>
          result := ApplyAddPrerequisite(graph.value, target, prerequisite);
        case Abandonment(target, _, rationale) =>
          result := ApplyAbandon(target, rationale);
      }
    }

    /** Applies one claim-fenced structural proposal, or nothing of it. */
    method ApplyStructuralProposal(p: Proposal, worker: WorkerId, asOf: nat, now: nat, lease: nat)
      returns (result: Result<nat>, ghost ms: seq<Mutation>, ghost swept: seq<Mutation>)
      requires Inv(Snapshot())
      modifies this
      ensures Commits(old(Snapshot()), ms, Snapshot())
      ensures result.Ok? <==> asOf == old(boot) && MayApply(old(Snapshot()), p, Fence(worker, p.epoch, now, lease))
      ensures result.Ok? ==>
        && p.target in old(commitments)
        && ms == swept + ProposalMutations(old(Snapshot()), p, Fence(worker, p.epoch, now, lease))
        && (forall m :: m in swept ==> m.Expire? && m.guard in OverdueGuards(old(guards), p.target, now))
        && ProposalTables(old(Snapshot()), Snapshot(), p)
        && result.value == |events|
      ensures result.Err? ==>
        && ms == [] && Snapshot() == old(Snapshot())
        && ProposalRefusal(old(Snapshot()), p, worker, asOf, now, lease) == Some(result.error)
    {
      hide Inv, Commits, InvalidateAll, OverdueGuards, MayApply, WellShaped, TargetReady, ChangeFits, NoLiveReservation,
           ProposalEffect, WithChildren, NothingInFlight, TargetRefusal, ChangeRefusal, ProposalTables;
      ghost var before := Snapshot();
      var saved := Snapshot();
      var fence := Fence(worker, p.epoch, now, lease);
      ms, swept := [], [];
      CommitsNothing(before);
      MayApplyInParts(before, p, fence);
      if TargetReady(before, p, fence) { NowFits(before, p, fence); }
      label Transaction: {
        var shaped := ValidateProposalShape(p);
        if !shaped { result := Err(OfDomain(InvalidStructuralProposal)); break Transaction; }
        if now > MAX_I64 { result := Err(InvalidMutation); break Transaction; }
        if asOf != boot { result := Err(ClaimMismatch); break Transaction; }
        var error := CheckTarget(p, fence);
        if error.Some? { result := Err(error.value); break Transaction; }
        TargetFacts(before, p, fence);
        swept := ExpireTargetReservations(p.target, now);
        ClearedTarget(before, guards, p.target, now);
        if exists g :: g in guards && guards[g].commitment == p.target && IsLive(guards[g].state) {
          result := Err(GuardInvalid);
          break Transaction;
        }
        ghost var mid := Snapshot();
        CommitsKeepsInv(before, swept, mid);
        NothingIsInFlight(mid, p.target);
        ChangeRefusalAfterSweep(before, mid, p);
        MayApplyAfterSweep(before, mid, p, fence);
        result := ApplyChange(p);
        if result.Err? { break Transaction; }
        GoalIsStored(before, p.target);
        ProposalCommits(mid, p, fence);
        ProposalChanges(before, mid, p, fence);
        ms := swept + ProposalMutations(before, p, fence);
        CommitsConcat(before, swept, mid, ProposalMutations(before, p, fence), Snapshot());
      }
      if result.Err? {
        Rollback(saved);
        ms := [];
      }
    }

    // ---- startup ----

    /** The guard and lock check, as written. */
    method ValidateGuardLockConsistency() returns (ok: bool)
      ensures ok <==> GuardLocksAccepted(Snapshot())
    {
      hide GuardAccepted;
      var remaining := guards.Keys;
      while remaining != {}
        invariant remaining <= guards.Keys
        invariant forall g :: g in guards && g !in remaining ==> GuardAccepted(guards[g], g, locks)
        decreases remaining
      {
        var g :| g in remaining;
        var accepted := ValidateGuardLocks(guards[g], g);
        if !accepted { return false; }
        remaining := remaining - {g};
      }
      return true;
    }

    method ValidateGuardLocks(row: GuardRow, g: GuardId) returns (ok: bool)
      ensures ok <==> GuardAccepted(row, g, locks)
    {
      var owned := set k | k in locks && locks[k].guard == g;
      if |owned| != |row.scopes| || !(owned <= row.scopes) { return false; }
      var unchecked := row.scopes;
      while unchecked != {}
        invariant unchecked <= row.scopes
        invariant forall k :: k in row.scopes && k !in unchecked ==> k in owned && LockMatches(row, locks[k])
        decreases unchecked
      {
        var k :| k in unchecked;
        if k !in owned { return false; }
        match row.state {
          case Issued(deadline) =>
            if locks[k].mode != Reserved(deadline) { return false; }
          case Admitted(action, _) =>
            if locks[k].mode != Held(action) { return false; }
          case Uncertain(action, _) =>
            if locks[k].mode != Held(action) { return false; }
          case _ => return false;
        }
        if locks[k].commitment != row.commitment { return false; }
        unchecked := unchecked - {k};
      }
      return true;
    }

    method ValidatePersistedTopology() returns (ok: bool)
      ensures ok <==> TopologyAccepted(commitments)
    {
      hide Acyclic.IsAcyclic, RowAccepted, Dependencies;
      var graph := LoadDependencyGraph();
      if graph.Err? { return false; }
      var remaining := commitments.Keys;
      while remaining != {}
        invariant remaining <= commitments.Keys
        invariant forall c :: c in commitments && c !in remaining ==> RowAccepted(commitments, c)
        decreases remaining
      {
        var c :| c in remaining;
        var accepted := ValidateRow(c);
        if !accepted { return false; }
        remaining := remaining - {c};
      }
      return true;
    }

    method ValidateRow(c: CommitmentId) returns (ok: bool)
      requires c in commitments
      ensures ok <==> RowAccepted(commitments, c)
    {
      var row := commitments[c];
      if row.parent.Some? {
        if row.parent.value !in commitments { return false; }
        if commitments[row.parent.value].goal != row.goal { return false; }
      }
      if row.replacement.Some? {
        var terminal := row.replacement.value;
        if terminal !in commitments { return false; }
        if commitments[terminal].parent != Some(c) || commitments[terminal].goal != row.goal { return false; }
        if !IsTerminal(row.state) && row.state != Waiting(OnPrerequisite(terminal)) && !row.state.RecoveryPending? {
          return false;
        }
      }
      return true;
    }

    /** First half of the recovery: every claim lapses. */
    method RetireClaims() returns (result: Result<()>, ghost lapsed: seq<CommitmentId>)
      requires Inv(Snapshot())
      modifies this`commitments, this`claims, this`events
      ensures result.Ok? <==> forall c :: c in old(claims) ==> c in old(commitments) && old(commitments)[c].version < MAX_I64
      ensures result.Err? ==> result.error == InvalidMutation
      ensures result.Ok? ==>
        && Enumerates(lapsed, old(claims).Keys)
        && commitments == MoveAll(old(commitments), old(claims).Keys, RecoveryPending)
        && claims == map[]
        && events == old(events) + RecoveryNotices(lapsed)
    {
      hide Inv, MoveAll, RegularClaim, RequiresClaim;
      ghost var before := Snapshot();
      var listed, rows := claims, commitments;
      var remaining := listed.Keys;
      lapsed := [];
      MoveNothing(rows, RecoveryPending);
      assert listed.Keys - remaining == {};
      while remaining != {}
        invariant remaining <= listed.Keys
        invariant Enumerates(lapsed, listed.Keys - remaining)
        invariant forall c :: c in listed && c !in remaining ==> c in rows && rows[c].version < MAX_I64
        invariant commitments == MoveAll(rows, listed.Keys - remaining, RecoveryPending)
        invariant claims.Keys == remaining
        invariant events == before.events + RecoveryNotices(lapsed)
        decreases remaining
      {
        var c :| c in remaining;
        ClaimIsRegular(before, c);
        RegularRow(listed[c], rows[c], before.boot);
        var row := rows[c];
        if listed[c].boot != boot || !RequiresClaim(row.state) || (row.outstanding.Some? && !row.state.Working?)
          || row.highWater != listed[c].epoch
        {
          return Err(InvalidPersistedData), lapsed;
        }
        if row.version >= MAX_I64 { return Err(InvalidMutation), lapsed; }
        MoveAnother(rows, listed.Keys - remaining, c, RecoveryPending);
        MoveOne(commitments, c, RecoveryPending);
        SeeAnother(listed.Keys, remaining, c);
        EnumerateAnother(lapsed, listed.Keys - remaining, c);
        assert RecoveryNotices(lapsed + [c]) == RecoveryNotices(lapsed) + [CommitmentRecoveryPending(c)];
        commitments := commitments[c := row.(state := RecoveryPending, version := row.version + 1)];
        claims := claims - {c};
        var _ := AppendEvent(CommitmentRecoveryPending(c));
        lapsed := lapsed + [c];
        remaining := remaining - {c};
      }
      assert listed.Keys - remaining == listed.Keys;
      return Ok(()), lapsed;
    }

    /** No claim and no claim-bearing state may survive. */
    method CheckRestoredRows() returns (ok: bool)
      ensures ok <==> claims.Keys !! commitments.Keys && forall c :: c in commitments ==> RestoredRow(commitments[c])
    {
      var remaining := commitments.Keys;
      while remaining != {}
        invariant remaining <= commitments.Keys
        invariant forall c :: c in commitments && c !in remaining ==> c !in claims && RestoredRow(commitments[c])
        decreases remaining
      {
        var c :| c in remaining;
        var row := commitments[c];
        if c in claims { return false; }
        if RequiresClaim(row.state) { return false; }
        if row.outstanding.Some? && !row.state.RecoveryPending? && !(row.state.Waiting? && row.state.reason.OnUncertainAction?) {
          return false;
        }
        remaining := remaining - {c};
      }
      return true;
    }

    /** Every issued guard becomes invalid; its lock rows are dealt with later. */
    method RevokeIssuedGuards() returns (ghost revoked: seq<GuardId>)
      modifies this`guards, this`events
      ensures Enumerates(revoked, IssuedGuards(old(guards)))
      ensures guards == InvalidateAll(old(guards), IssuedGuards(old(guards)))
      ensures events == old(events) + Invalidations(revoked)
    {
      hide InvalidateAll;
      var rows := guards;
      var issued := set g | g in guards && guards[g].state.Issued?;
      assert issued == IssuedGuards(guards);
      var remaining := issued;
      revoked := [];
      DropNothing(rows, locks);
      assert issued - remaining == {};
      while remaining != {}
        invariant remaining <= issued
        invariant Enumerates(revoked, issued - remaining)
        invariant guards == InvalidateAll(rows, issued - remaining)
        invariant events == old(events) + Invalidations(revoked)
        decreases remaining
      {
        var g :| g in remaining;
        InvalidateAnother(rows, issued - remaining, g);
        DropOne(guards, g);
        SeeAnother(issued, remaining, g);
        EnumerateAnother(revoked, issued - remaining, g);
        assert Invalidations(revoked + [g]) == Invalidations(revoked) + [WorkEvent.GuardInvalidated(g)];
        guards := guards[g := guards[g].(state := GuardState.Invalidated)];
        var _ := AppendEvent(WorkEvent.GuardInvalidated(g));
        revoked := revoked + [g];
        remaining := remaining - {g};
      }
      assert issued - remaining == issued;
    }

    /** Adds one guard's scopes to the expected locks; none may be there already. */
    static method ExpectScopes(expected: Locks, scopes: set<ScopeKey>, lock: LockRow) returns (more: Option<Locks>)
      ensures more.Some? <==> scopes !! expected.Keys
      ensures more.Some? ==> more.value == expected + map k | k in scopes :: lock
    {
      var locks := expected;
      var remaining := scopes;
      while remaining != {}
        invariant remaining <= scopes && scopes - remaining !! expected.Keys
        invariant locks == expected + map k | k in scopes - remaining :: lock
        decreases remaining
      {
        var k :| k in remaining;
        if k in locks {
          assert k in expected;
          return None;
        }
        locks := locks[k := lock];
        remaining := remaining - {k};
      }
      return Some(locks);
    }

    /** Do an active guard and its commitment agree after the claims are gone? */
    static method CheckActiveGuard(row: GuardRow, action: ActionRef, of: CommitmentRow) returns (error: Option<StoreError>)
      ensures error == None <==>
        && of.highWater == row.epoch && of.outstanding == Some(action)
        && (row.state.Admitted? ==> of.state.RecoveryPending?)
        && (row.state.Uncertain? ==> of.state == Waiting(OnUncertainAction(action)))
    {
      if of.highWater != row.epoch { return Some(InvalidPersistedData); }
      if of.outstanding != Some(action) { return Some(RecoveryBlocked); }
      if row.state.Admitted? && !of.state.RecoveryPending? { return Some(RecoveryBlocked); }
      if row.state.Uncertain? && of.state != Waiting(OnUncertainAction(action)) { return Some(RecoveryBlocked); }
      return None;
    }

    /** The lock table that the active guards call for, checked against their commitments. */
    method ExpectedLocks() returns (result: Result<Locks>)
      requires Retired(Snapshot())
      ensures result == Ok(HeldLocks(locks))
    {
      hide Retired, HeldOf, HeldLocks, HeldAgree, ActionsTaken;
      RetiredLocks(Snapshot());
      AllActiveIsHeld(guards, locks);
      NoActionTaken(guards);
      var expected: Locks := map[];
      var actions: map<CommitmentId, ActionRef> := map[];
      var active := set g | g in guards && (guards[g].state.Admitted? || guards[g].state.Uncertain?);
      assert active == ActiveGuards(guards);
      var remaining := active;
      assert active - remaining == {};
      while remaining != {}
        invariant remaining <= active
        invariant expected == HeldOf(locks, active - remaining)
        invariant ActionsTaken(guards, active - remaining, actions)
        decreases remaining
      {
        var g :| g in remaining;
        var row := guards[g];
        var c := row.commitment;
        var action := row.state.action;
        var lock := LockRow(g, c, Held(action));
        RetiredGuardFacts(Snapshot(), g);
        ExpectAnother(guards, locks, active - remaining, g, lock);
        TakeAnother(Snapshot(), active - remaining, actions, g);
        SeeAnother(active, remaining, g);
        var more := ExpectScopes(expected, row.scopes, lock);
        if more.None? { return Err(RecoveryBlocked); }
        expected := more.value;
        var error := CheckActiveGuard(row, action, commitments[c]);
        match error {
          case Some(reason) => return Err(reason);
          case None =>
        }
        if c in actions { return Err(RecoveryBlocked); }
        actions := actions[c := action];
        remaining := remaining - {g};
      }
      assert active - remaining == active;
      var covered := OwedActionsAreCovered(actions);
      if !covered { return Err(RecoveryBlocked); }
      return Ok(expected);
    }

    /** Every outstanding action must belong to the active guard of its commitment. */
    method OwedActionsAreCovered(actions: map<CommitmentId, ActionRef>) returns (covered: bool)
      ensures covered <==> forall c :: c in commitments && commitments[c].outstanding.Some? ==>
                             c in actions && commitments[c].outstanding == Some(actions[c])
      ensures Retired(Snapshot()) && ActionsTaken(guards, ActiveGuards(guards), actions) ==> covered
    {
      hide Retired, ActionsTaken;
      var owing := set c | c in commitments && commitments[c].outstanding.Some?;
      var unseen := owing;
      while unseen != {}
        invariant unseen <= owing
        invariant forall c :: c in owing && c !in unseen ==> c in actions && commitments[c].outstanding == Some(actions[c])
        decreases unseen
      {
        var c :| c in unseen;
        if !(c in actions && commitments[c].outstanding == Some(actions[c])) {
          if Retired(Snapshot()) && ActionsTaken(guards, ActiveGuards(guards), actions) {
            OwedIsTaken(Snapshot(), actions, c);
          }
          return false;
        }
        unseen := unseen - {c};
      }
      return true;
    }

    /** Deletes every lock row and inserts the expected ones. */
    method ReplaceLocks(expected: Locks)
      modifies this`locks
      ensures locks == expected
    {
      locks := map[];
      var remaining := expected.Keys;
      while remaining != {}
        invariant remaining <= expected.Keys
        invariant locks.Keys == expected.Keys - remaining
        invariant forall k :: k in locks ==> locks[k] == expected[k]
        decreases remaining
      {
        var k :| k in remaining;
        locks := locks[k := expected[k]];
        remaining := remaining - {k};
      }
    }

    /** The recovery that follows an accepted reopen; on an error it stops where it is. */
    method RecoverTables() returns (result: Result<()>, ghost m: Mutation)
      requires Inv(Snapshot())
      modifies this
      ensures result.Ok? <==> forall c :: c in old(claims) ==> c in old(commitments) && old(commitments)[c].version < MAX_I64
      ensures result.Err? ==> result.error == InvalidMutation
      ensures result.Ok? ==>
        && m.Restart? && MayRestart(old(Snapshot()), m.lapsed, m.revoked)
        && Snapshot() == RestartEffect(old(Snapshot()), m.lapsed, m.revoked)
    {
      hide Inv, MoveAll, InvalidateAll, IssuedGuards, HeldLocks, Enumerates, RestoredRow, Retired;
      ghost var before := Snapshot();
      m := Restart([], []);
      ghost var lapsed;
      result, lapsed := RetireClaims();
      if result.Err? { return; }
      RetiredRows(before);
      var restored := CheckRestoredRows();
      if !restored { return Err(InvalidPersistedData), m; }
      ghost var revoked := RevokeIssuedGuards();
      m := Restart(lapsed, revoked);
      RetiredAfterInvalidation(before, Snapshot());
      var expected := ExpectedLocks();
      if expected.Err? { return Err(RecoveryBlocked), m; }
      ReplaceLocks(expected.value);
      boot := boot + 1;
      return Ok(()), m;
    }

    /** Reopening: both checks, then the recovery, in one transaction. */
    method StartupRecovery() returns (result: Result<()>, ghost ms: seq<Mutation>)
      requires Inv(Snapshot())
      modifies this
      ensures Commits(old(Snapshot()), ms, Snapshot())
      ensures result.Ok? <==>
        && (forall g :: g in old(guards) ==> IsLive(old(guards)[g].state))
        && (forall c :: c in old(claims) ==> c in old(commitments) && old(commitments)[c].version < MAX_I64)
      ensures result.Ok? ==>
        |ms| == 1 && ms[0].Restart? && Snapshot() == RestartEffect(old(Snapshot()), ms[0].lapsed, ms[0].revoked)
      ensures result.Err? ==>
        && ms == []
        && result.error == if forall g :: g in old(guards) ==> IsLive(old(guards)[g].state) then InvalidMutation
                           else InvalidPersistedData
    {
      hide Inv, Commits, GuardLocksAccepted, RestartEffect, TopologyAccepted;
      ghost var before := Snapshot();
      var saved := Snapshot();
      ms := [];
      CommitsNothing(before);
      TopologyCheckAccepts(before);
      AcceptedIffNoGuardEnded(before);
      var sound := ValidatePersistedTopology();
      if !sound { return Err(InvalidPersistedData), ms; }
      var locked := ValidateGuardLockConsistency();
      if !locked { return Err(InvalidPersistedData), ms; }
      ghost var m;
      result, m := RecoverTables();
      if result.Err? {
        Rollback(saved);
        return;
      }
      CommitsOne(before, m);
      ms := [m];
    }
  }
}
