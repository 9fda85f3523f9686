/** What each operation leaves in the tables, said row by row from the tables it
    found and apart from the functions that compute it. */
module Changes {
  import opened Domain
  import opened Aggregates
  import opened Database
  import opened Mutations
  import opened Preservation
  import opened Runs
  import opened Planning
  import opened TableFacts
  import opened Safety
  import opened Exclusion
  import opened Topology
  import Acyclic
  import Replay

  // ---- inserts ----

  predicate InsertedTables(before: Db, after: Db, d: Draft, event: WorkEvent) {
    && d.id !in before.commitments
    && after == before.(
         commitments := before.commitments[d.id :=
           CommitmentRow(d.goal, d.parent, d.brief, Proposed, d.prerequisites, d.lastEpoch, None, None, 1)],
         events := before.events + [event])
  }

  lemma InsertChanges(db: Db, d: Draft, event: WorkEvent)
    requires MayInsert(db, d, event)
    ensures InsertedTables(db, InsertEffect(db, d, event), d, event)
  {
  }

  // ---- heartbeats ----

  predicate BeatTables(before: Db, after: Db, c: CommitmentId, fence: Fence) {
    && c in before.claims && before.claims[c].heartbeat < fence.now
    && after == before.(
         claims := before.claims[c := ClaimRow(fence.worker, fence.epoch, fence.now, before.claims[c].boot)],
         events := before.events + [HeartbeatAccepted(c, fence.worker, fence.epoch)])
  }

  lemma BeatChanges(db: Db, c: CommitmentId, fence: Fence)
    requires MayBeat(db, c, fence)
    ensures BeatTables(db, BeatEffect(db, c, fence), c, fence)
  {
  }

  // ---- guards ----

  /** A reservation of `g` stands in the way of `scopes` but has run out. */
  predicate RunOut(before: Db, g: GuardId, scopes: set<ScopeKey>, now: nat) {
    && g in before.guards && before.guards[g].state.Issued? && before.guards[g].state.deadline <= now
    && !(before.guards[g].scopes !! scopes)
  }

  /** The guard is issued until the end of the requested time or of the lease,
      whichever comes first, and each of its scopes is reserved until then. */
  predicate ReservedUntil(claim: ClaimRow, after: Db, r: IssueRequest) {
    && r.guard in after.guards && after.guards[r.guard].state.Issued?
    && var d := after.guards[r.guard].state.deadline;
       && d <= r.fence.now + r.ttl && d <= claim.heartbeat + r.fence.lease
       && (d == r.fence.now + r.ttl || d == claim.heartbeat + r.fence.lease)
       && (r.ttl > 0 ==> r.fence.now < d)
       && after.guards[r.guard] == GuardRow(r.commitment, r.fence.epoch, r.boot, r.scopes, GuardState.Issued(d))
       && forall k :: k in r.scopes ==> k in after.locks && after.locks[k] == LockRow(r.guard, r.commitment, Reserved(d))
  }

  /** The new guard with its reservations; of the others only those that had run
      out on a requested scope are gone. */
  ghost predicate IssuedTables(before: Db, after: Db, r: IssueRequest) {
    && r.commitment in before.claims
    && r.guard !in before.guards && after.guards.Keys == before.guards.Keys + {r.guard}
    && after.commitments == before.commitments && after.claims == before.claims
    && after.goals == before.goals && after.boot == before.boot
    && ReservedUntil(before.claims[r.commitment], after, r)
    && (forall g :: g in before.guards ==>
          after.guards[g] == if RunOut(before, g, r.scopes, r.fence.now)
                             then before.guards[g].(state := GuardState.Invalidated) else before.guards[g])
    && (forall k :: k in before.locks && k !in r.scopes ==>
          if RunOut(before, before.locks[k].guard, r.scopes, r.fence.now) then k !in after.locks
          else k in after.locks && after.locks[k] == before.locks[k])
    && after.locks.Keys <= before.locks.Keys + r.scopes
    && after.events != []
    && after.events[|after.events| - 1] == WorkEvent.GuardIssued(r.guard, r.commitment, r.fence.epoch)
  }

  lemma ExpiredIsRunOut(db: Db, keys: set<ScopeKey>, now: nat, g: GuardId)
    requires Inv(db)
    ensures g in ExpiredOn(db.locks, keys, now) <==> RunOut(db, g, keys, now)
  {
    hide ClaimsAgree, ActionsAgree, GuardsSound, TopologySound, BarriersHold, BarriersReleased, Acyclic.IsAcyclic;
    if RunOut(db, g, keys, now) {
      var k :| k in db.guards[g].scopes && k in keys;
      assert k in db.locks && db.locks[k].guard == g;
      assert db.locks[k] == LockFor(g, db.guards[g]);
    }
    if g in ExpiredOn(db.locks, keys, now) {
      var k :| k in keys && k in db.locks && db.locks[k].mode.Reserved? && db.locks[k].mode.deadline <= now
        && db.locks[k].guard == g;
      assert db.locks[k] == LockFor(g, db.guards[g]);
    }
  }

  lemma HeldLockHasNotRunOut(db: Db, keys: set<ScopeKey>, now: nat, k: ScopeKey)
    requires Inv(db) && k in db.locks && RunOut(db, db.locks[k].guard, keys, now)
    ensures db.locks[k].mode.Reserved?
  {
    hide ClaimsAgree, ActionsAgree, GuardsSound, TopologySound, BarriersHold, BarriersReleased, Acyclic.IsAcyclic;
  }

  lemma SweptLock(locks: Locks, gone: set<GuardId>, k: ScopeKey)
    requires k in locks
    ensures k in FreeReserved(locks, gone) <==> !(locks[k].guard in gone && locks[k].mode.Reserved?)
    ensures k in FreeReserved(locks, gone) ==> FreeReserved(locks, gone)[k] == locks[k]
  {
  }

  lemma SweptGuard(gs: Guards, gone: set<GuardId>, g: GuardId)
    requires g in gs
    ensures InvalidateAll(gs, gone).Keys == gs.Keys
    ensures InvalidateAll(gs, gone)[g] == if g in gone then gs[g].(state := GuardState.Invalidated) else gs[g]
  {
  }

  lemma ReservedLock(locks: Locks, scopes: set<ScopeKey>, lock: LockRow, k: ScopeKey)
    ensures k in Reserve(locks, scopes, lock) <==> k in locks || k in scopes
    ensures k in scopes ==> Reserve(locks, scopes, lock)[k] == lock
    ensures k in locks && k !in scopes ==> Reserve(locks, scopes, lock)[k] == locks[k]
  {
  }

  lemma IssueChanges(db: Db, mid: Db, r: IssueRequest)
    requires Inv(db) && MayIssue(mid, r)
    requires mid.commitments == db.commitments && mid.claims == db.claims && mid.goals == db.goals && mid.boot == db.boot
    requires mid.guards == InvalidateAll(db.guards, ExpiredOn(db.locks, r.scopes, r.fence.now))
    requires mid.locks == FreeReserved(db.locks, ExpiredOn(db.locks, r.scopes, r.fence.now))
    ensures IssuedTables(db, IssueEffect(mid, r), r)
  {
    hide Inv, RunOut, InvalidateAll, FreeReserved, ExpiredOn, Reserve;
    var gone := ExpiredOn(db.locks, r.scopes, r.fence.now);
    var after := IssueEffect(mid, r);
    InvalidateKeepsKeys(db.guards, gone);
    forall g | g in db.guards
      ensures after.guards[g] == if RunOut(db, g, r.scopes, r.fence.now)
                                 then db.guards[g].(state := GuardState.Invalidated) else db.guards[g]
    {
      SweptGuard(db.guards, gone, g);
      ExpiredIsRunOut(db, r.scopes, r.fence.now, g);
    }
    var lock := LockFor(r.guard, after.guards[r.guard]);
    forall k | k in r.scopes
      ensures k in after.locks && after.locks[k] == lock
    {
      ReservedLock(mid.locks, r.scopes, lock, k);
    }
    forall k | k in after.locks && k !in r.scopes
      ensures k in db.locks
    {
      ReservedLock(mid.locks, r.scopes, lock, k);
      FreedLockWasThere(db.locks, gone, k);
    }
    forall k | k in db.locks && k !in r.scopes
      ensures
        if RunOut(db, db.locks[k].guard, r.scopes, r.fence.now) then k !in after.locks
        else k in after.locks && after.locks[k] == db.locks[k]
    {
      ReservedLock(mid.locks, r.scopes, lock, k);
      SweptLock(db.locks, gone, k);
      ExpiredIsRunOut(db, r.scopes, r.fence.now, db.locks[k].guard);
      if RunOut(db, db.locks[k].guard, r.scopes, r.fence.now) { HeldLockHasNotRunOut(db, r.scopes, r.fence.now, k); }
    }
  }

  predicate AdmittedTables(before: Db, after: Db, g: GuardId, scopes: set<ScopeKey>, action: ActionRef,
                          digest: Option<Digest>)
  {
    && g in before.guards && before.guards[g].state.Issued? && before.guards[g].scopes == scopes
    && var c := before.guards[g].commitment;
       && c in before.commitments && before.commitments[c].state.Working? && before.commitments[c].outstanding == None
       && after.commitments == before.commitments[c :=
            before.commitments[c].(outstanding := Some(action), version := before.commitments[c].version + 1)]
       && after.guards == before.guards[g := before.guards[g].(state := GuardState.Admitted(action, digest))]
       && after.locks.Keys == before.locks.Keys
       && (forall k :: k in before.locks ==>
             after.locks[k] == if k in scopes then LockRow(g, c, Held(action)) else before.locks[k])
       && after.claims == before.claims && after.goals == before.goals && after.boot == before.boot
       && after.events == before.events + [WorkEvent.GuardAdmitted(g, c, action, digest)]
  }

  lemma AdmitChanges(db: Db, g: GuardId, scopes: set<ScopeKey>, action: ActionRef, digest: Option<Digest>, now: nat)
    requires Inv(db) && MayAdmit(db, g, scopes, action, now)
    ensures AdmittedTables(db, AdmitEffect(db, g, action, digest), g, scopes, action, digest)
  {
    hide ClaimsAgree, ActionsAgree, GuardsSound, TopologySound, BarriersHold, BarriersReleased, Acyclic.IsAcyclic;
    forall k | k in db.locks
      ensures k in scopes <==> db.locks[k].guard == g && db.locks[k].mode.Reserved?
      ensures k in scopes ==> db.locks[k].commitment == db.guards[g].commitment
    {
      assert k in scopes ==> k in db.locks && db.locks[k].guard == g;
    }
  }

  predicate DroppedTables(before: Db, after: Db, g: GuardId) {
    && g in before.guards && before.guards[g].state.Issued?
    && after.guards == before.guards[g := before.guards[g].(state := GuardState.Invalidated)]
    && after.locks.Keys <= before.locks.Keys
    && (forall k :: k in before.locks ==>
          && (k in after.locks <==> before.locks[k].guard != g)
          && (k in after.locks ==> after.locks[k] == before.locks[k]))
    && after.commitments == before.commitments && after.claims == before.claims
    && after.goals == before.goals && after.boot == before.boot
    && after.events == before.events + [WorkEvent.GuardInvalidated(g)]
  }

  lemma DropChanges(db: Db, g: GuardId)
    requires Inv(db) && g in db.guards && db.guards[g].state.Issued?
    ensures DroppedTables(db, DropEffect(db, g, WorkEvent.GuardInvalidated(g)), g)
  {
    hide ClaimsAgree, ActionsAgree, GuardsSound, TopologySound, BarriersHold, BarriersReleased, Acyclic.IsAcyclic,
         InvalidateAll;
    DropOne(db.guards, g);
  }

  // ---- outcomes and recovery ----

  ghost predicate RecordedTables(before: Db, after: Db, g: GuardId, outcome: Outcome, digest: Option<Digest>) {
    && g in before.guards && before.guards[g].state == GuardState.Admitted(outcome.action, digest)
    && var c := before.guards[g].commitment;
       && c in before.commitments
       && var row := before.commitments[c];
          && (row.state.Working? || row.state.RecoveryPending?)
          && after.goals == before.goals && after.boot == before.boot
          && after.guards == before.guards[g := before.guards[g].(state :=
               if outcome.Uncertain? then GuardState.Uncertain(outcome.action, digest)
               else GuardState.Resolved(outcome, digest))]
          && after.commitments == before.commitments[c := row.(
               state := if outcome.Uncertain? then Waiting(OnUncertainAction(outcome.action))
                        else if row.state.RecoveryPending? then Ready else Working,
               outstanding := if outcome.Uncertain? then Some(outcome.action) else None,
               version := row.version + 1)]
          && after.claims == (if outcome.Uncertain? then before.claims - {c} else before.claims)
          && (forall k :: k in after.locks <==>
                k in before.locks && (outcome.Uncertain? || k !in before.guards[g].scopes))
          && (forall k :: k in after.locks ==> after.locks[k] == before.locks[k])
          && after.events == before.events + [OutcomeRecorded(outcome, digest)]
               + if outcome.Uncertain? then [CommitmentWaiting(c, OnUncertainAction(outcome.action))]
                 else if row.state.RecoveryPending? then [RecoveryCompleted(c, outcome.action)]
                 else []
  }

  lemma RecordChanges(db: Db, g: GuardId, outcome: Outcome, digest: Option<Digest>)
    requires Inv(db) && MayRecord(db, g, outcome, digest)
    ensures RecordedTables(db, RecordEffect(db, g, outcome, digest), g, outcome, digest)
  {
    hide ClaimsAgree, ActionsAgree, GuardsSound, TopologySound, BarriersHold, BarriersReleased, Acyclic.IsAcyclic, Inv;
    AdmittedFacts(db, g);
    HeldRows(db, g);
    forall k | k in db.locks
      ensures k in db.guards[g].scopes <==> db.locks[k].guard == g && db.locks[k].mode.Held?
    {
      assert k in HeldBy(db.locks, g) <==> k in db.guards[g].scopes;
    }
  }

  predicate ReleasedTables(before: Db, after: Db, c: CommitmentId) {
    && c in before.commitments && before.commitments[c].state.RecoveryPending?
    && after == before.(
         commitments := before.commitments[c :=
           before.commitments[c].(state := Ready, version := before.commitments[c].version + 1)],
         events := before.events + [RecoveryReleased(c)])
  }

  lemma ReleaseChanges(db: Db, c: CommitmentId)
    requires MayRelease(db, c)
    ensures ReleasedTables(db, ReleaseEffect(db, c), c)
  {
    hide MoveAll;
    MoveOne(db.commitments, c, Ready);
  }

  // ---- structural proposals, on commitments and claims ----

  /** The children as proposed, and the target waiting on its terminal. */
  predicate DecomposedRows(before: Commitments, after: Commitments, target: CommitmentId,
                                 children: seq<NewCommitment>, terminal: CommitmentId)
  {
    && target in before && before[target].state.Working? && before[target].replacement == None
    && after.Keys == before.Keys + Ids(ChildIds(children))
    && (forall i :: 0 <= i < |children| ==>
          && children[i].id !in before
          && children[i].id in after
          && after[children[i].id] == CommitmentRow(before[target].goal, Some(target), children[i].brief, Proposed,
                                                    children[i].prerequisites, 0, None, None, 1))
    && after[target] == before[target].(
         state := Waiting(OnPrerequisite(terminal)),
         prerequisites := before[target].prerequisites + [NeedsCommitment(terminal)],
         replacement := Some(terminal),
         version := before[target].version + 1)
    && forall c :: c in before && c != target ==> after[c] == before[c]
  }

  predicate RequiringRows(before: Commitments, after: Commitments, target: CommitmentId, prerequisite: Prerequisite) {
    && target in before && prerequisite !in before[target].prerequisites
    && after == before[target := before[target].(
         prerequisites := before[target].prerequisites + [prerequisite], version := before[target].version + 1)]
  }

  predicate AbandonedRows(before: Commitments, after: Commitments, target: CommitmentId) {
    && target in before
    && after == before[target := before[target].(state := Abandoned, version := before[target].version + 1)]
  }

  /** The event that tells of an accepted proposal. */
  predicate TellsProposal(event: WorkEvent, p: Proposal) {
    && event.ProposalApplied? && event.id == p.target
    && match p
       case Decomposition(_, _, children, terminal) =>
         && event.change.IntoChildren? && event.change.terminal == terminal
         && |event.change.children| == |children|
         && forall i :: 0 <= i < |children| ==> event.change.children[i] == children[i].id
       case AddPrerequisite(_, _, prerequisite) => event.change == WithPrerequisite(prerequisite)
       case Abandonment(_, _, rationale) => event.change == GivenUp(rationale)
  }

  predicate ProposalTables(before: Db, after: Db, p: Proposal) {
    && after.events != [] && TellsProposal(after.events[|after.events| - 1], p)
    && after.goals == before.goals && after.boot == before.boot
    && (forall g :: g in before.guards ==>
          && g in after.guards
          && (before.guards[g].commitment == p.target ==> !IsLive(after.guards[g].state))
          && (before.guards[g].commitment != p.target ==> after.guards[g] == before.guards[g]))
    && match p
       case Decomposition(target, _, children, terminal) =>
         && terminal in ChildIds(children)
         && (forall i :: 0 <= i < |children| ==> children[i].id !in after.claims)
         && DecomposedRows(before.commitments, after.commitments, target, children, terminal)
         && after.claims == before.claims
       case AddPrerequisite(target, _, prerequisite) =>
         && (prerequisite.NeedsCommitment? ==> prerequisite.id in before.commitments)
         && RequiringRows(before.commitments, after.commitments, target, prerequisite)
         && after.claims == before.claims
       case Abandonment(target, _, _) =>
         && AbandonedRows(before.commitments, after.commitments, target)
         && after.claims == before.claims - {target}
  }

  lemma ChildIdAt(children: seq<NewCommitment>)
    ensures forall i :: 0 <= i < |children| ==> children[i].id in ChildIds(children)
  {
    assert forall i :: 0 <= i < |children| ==> children[i].id == ChildIds(children)[i];
  }

  lemma LinkedRows(before: Commitments, mid: Commitments, target: CommitmentId, children: seq<NewCommitment>,
                   terminal: CommitmentId)
    requires target in before && before[target].state.Working? && before[target].replacement == None
    requires forall c :: c in ChildIds(children) ==> c !in before
    requires mid.Keys == before.Keys + Ids(ChildIds(children))
    requires forall c :: c in before && c !in ChildIds(children) ==> c in mid && mid[c] == before[c]
    requires forall i :: 0 <= i < |children| ==>
      && children[i].id in mid
      && mid[children[i].id] == CommitmentRow(before[target].goal, Some(target), children[i].brief, Proposed,
                                              children[i].prerequisites, 0, None, None, 1)
    ensures target in mid && DecomposedRows(before, mid[target := Linked(mid[target], terminal)], target, children, terminal)
  {
    ChildIdAt(children);
  }

  lemma DecomposeChanges(db: Db, target: CommitmentId, children: seq<NewCommitment>, terminal: CommitmentId)
    requires target in db.commitments && db.commitments[target].state.Working? && db.commitments[target].replacement == None
    requires Distinct(ChildIds(children)) && forall c :: c in ChildIds(children) ==> c !in db.commitments
    ensures
      var mid := WithChildren(db, target, db.commitments[target].goal, children);
      && target in mid.commitments
      && var after := DecomposeEffect(mid, target, terminal, ChildIds(children));
         && DecomposedRows(db.commitments, after.commitments, target, children, terminal)
         && after == db.(commitments := after.commitments, events := after.events)
  {
    hide Distinct, GraphOf, ChildEdges, WithChildren, Dependencies, DecomposedRows, Linked;
    var mid := WithChildren(db, target, db.commitments[target].goal, children);
    WithChildrenRows(db, target, db.commitments[target].goal, children);
    LinkedRows(db.commitments, mid.commitments, target, children, terminal);
  }

  lemma DecompositionIsTold(mid: Db, p: Proposal)
    requires p.Decomposition? && p.target in mid.commitments
    ensures
      var after := DecomposeEffect(mid, p.target, p.terminal, ChildIds(p.children)).events;
      after != [] && TellsProposal(after[|after| - 1], p)
  {
    hide Linked;
  }

  lemma OthersAreTold(mid: Db, p: Proposal)
    requires !p.Decomposition? && p.target in mid.commitments
    ensures
      var after := ProposalEffect(mid, p).events;
      after != [] && TellsProposal(after[|after| - 1], p)
  {
    hide MoveAll;
  }

  /** Every child of a proposal is announced, so the log goes on telling the tables. */
  lemma ProposalsAreAnnounced(db: Db, p: Proposal, fence: Fence)
    requires p.target in db.commitments
    ensures Replay.InsertsAnnounced(ProposalMutations(db, p, fence))
    ensures forall m :: m in ProposalMutations(db, p, fence) && m.Insert? ==>
      m.event == CommitmentCreated(m.draft.id, db.commitments[p.target].goal)
  {
    if p.Decomposition? {
      var inserts := Inserts(p.target, db.commitments[p.target].goal, p.children);
      forall m | m in inserts
        ensures m.Insert? && m.event == CommitmentCreated(m.draft.id, db.commitments[p.target].goal)
      {
        var i :| 0 <= i < |inserts| && inserts[i] == m;
        assert m == InsertChild(p.target, db.commitments[p.target].goal, p.children[i]);
      }
    }
  }

  /** What the sweep leaves of the guards once nothing of the target's is live. */
  lemma SweptGuards(gs: Guards, after: Guards, target: CommitmentId, now: nat)
    requires after == InvalidateAll(gs, OverdueGuards(gs, target, now))
    requires forall g :: g in after && after[g].commitment == target ==> !IsLive(after[g].state)
    ensures forall g :: g in gs ==>
      && g in after
      && (gs[g].commitment == target ==> !IsLive(after[g].state))
      && (gs[g].commitment != target ==> after[g] == gs[g])
  {
  }

  /** An accepted proposal, from the tables before its target's reservations were swept. */
  lemma ProposalChanges(db: Db, mid: Db, p: Proposal, fence: Fence)
    requires Inv(db) && MayApply(db, p, fence)
    requires mid.commitments == db.commitments && mid.claims == db.claims && mid.goals == db.goals && mid.boot == db.boot
    requires mid.guards == InvalidateAll(db.guards, OverdueGuards(db.guards, p.target, fence.now))
    requires forall g :: g in mid.guards && mid.guards[g].commitment == p.target ==> !IsLive(mid.guards[g].state)
    requires p.target in mid.commitments
    requires p.Decomposition? ==>
      p.target in WithChildren(mid, p.target, mid.commitments[p.target].goal, p.children).commitments
    ensures ProposalTables(db, ProposalEffect(mid, p), p)
  {
    hide Inv, Acyclic.IsAcyclic, Distinct, WithChildren, Holds, InListOrder, CandidateGraph, GraphOf, MoveAll, DecomposedRows,
         DecomposeEffect, InvalidateAll, OverdueGuards, NoLiveReservation, IsLive, TellsProposal;
    SweptGuards(db.guards, mid.guards, p.target, fence.now);
    match p
    case Decomposition(target, _, children, terminal) =>
      DecomposeChanges(mid, target, children, terminal);
      DecompositionIsTold(WithChildren(mid, target, mid.commitments[target].goal, children), p);
      ChildIdAt(children);
      forall c | c in db.claims
        ensures c in db.commitments
      {
        ClaimIsRegular(db, c);
      }
    case AddPrerequisite(target, _, prerequisite) =>
      OthersAreTold(mid, p);
    case Abandonment(target, _, _) =>
      OthersAreTold(mid, p);
      MoveOne(mid.commitments, target, Abandoned);
  }

  // ---- generic persistence ----

  /** The persisted row takes the candidate's state and mark along an edge of the
      store; another row changes only if it is a composite that ends with it. */
  ghost predicate PersistedTables(before: Db, after: Db, d: Draft, expected: nat, event: WorkEvent) {
    && d.id in before.commitments && before.commitments[d.id].version == expected
    && Persistable(before.commitments[d.id].state, d.state)
    && after.goals == before.goals && after.boot == before.boot
    && after.guards == before.guards && after.locks == before.locks
    && after.commitments.Keys == before.commitments.Keys
    && after.commitments[d.id] == before.commitments[d.id].(
         state := d.state, highWater := d.lastEpoch, version := expected + 1)
    && (forall c :: c in before.commitments && c != d.id ==>
          || after.commitments[c] == before.commitments[c]
          || (&& d.state.Completed? && EndsWithTerminal(before.commitments[c], after.commitments)
              && after.commitments[c] == before.commitments[c].(
                   state := Completed, version := before.commitments[c].version + 1)))
    && (d.id in after.claims <==> d.claim.Some?)
    && (d.claim.Some? ==>
          after.claims[d.id] == ClaimRow(d.claim.value.worker, d.claim.value.epoch, d.claim.value.heartbeat, before.boot))
    && (forall c :: c in after.claims && c != d.id ==> c in before.claims && after.claims[c] == before.claims[c])
    && |before.events| < |after.events| && after.events[..|before.events| + 1] == before.events + [event]
  }

  lemma PersistLeaves(db: Db, d: Draft, event: WorkEvent)
    requires d.id in db.commitments
    ensures
      var after := PersistEffect(db, d, event);
      && after.goals == db.goals && after.boot == db.boot && after.guards == db.guards && after.locks == db.locks
      && after.commitments.Keys == db.commitments.Keys
      && |db.events| < |after.events| && after.events[..|db.events| + 1] == db.events + [event]
      && (d.claim == None ==> d.id !in after.claims)
  {
    hide CascadeOf;
  }

  lemma PersistedMarkIs(db: Db, d: Draft, expected: nat, event: WorkEvent)
    requires MayPersistRow(db, d, expected, event)
    requires d.id in db.claims ==> db.claims[d.id].epoch == db.commitments[d.id].highWater
    ensures d.id in db.commitments && db.commitments[d.id].version == expected
    ensures PersistedRow(db.commitments[d.id], d)
         == db.commitments[d.id].(state := d.state, highWater := d.lastEpoch, version := expected + 1)
    ensures d.claim.Some? ==> !d.state.Completed?
  {
    hide EventDescribes, LegalTransition;
  }

  lemma PersistChanges(db: Db, d: Draft, expected: nat, event: WorkEvent)
    requires Inv(db) && MayPersist(db, d, expected, event)
    ensures PersistedTables(db, PersistEffect(db, d, event), d, expected, event)
  {
    hide Inv, MayPersistRow, CascadeFits, CascadeOf, PersistEffect, PersistRow, Persistable, EndsWithTerminal, PersistedRow;
    CandidateHasRow(db, d, expected, event);
    ClaimFacts(db, d.id);
    PersistedMarkIs(db, d, expected, event);
    PersistedIsPersistable(db, d, expected, event);
    PersistLeaves(db, d, event);
    PersistedRows(db, d, expected, event, d.id);
    forall c | c in db.commitments && c != d.id
      ensures
        var after := PersistEffect(db, d, event).commitments;
        || after[c] == db.commitments[c]
        || (&& d.state.Completed? && EndsWithTerminal(db.commitments[c], after)
            && after[c] == db.commitments[c].(state := Completed, version := db.commitments[c].version + 1))
    {
      PersistedRows(db, d, expected, event, c);
      if d.state.Completed? && c in CascadeOf(PersistRow(db, d, event).commitments, d.id) {
        CascadedEntry(db, d, event, expected, c);
      }
    }
    forall c | c in PersistEffect(db, d, event).claims
      ensures
        var claim := PersistEffect(db, d, event).claims[c];
        if c == d.id then d.claim.Some? && claim == ClaimRowOf(d.claim.value, db.boot)
        else c in db.claims && claim == db.claims[c]
    {
      PersistedClaims(db, d, event, c);
    }
    PersistedClaimStays(db, d, event);
  }
}
