/** Rehydration measured against the tables: the snapshots that restore are
    exactly those that some consistent store could have handed out. */
module Restoring {
  import opened Domain
  import opened Aggregates
  import opened Database
  import opened TableFacts
  import opened Lifecycle
  import Acyclic

  /** What the columns ask beyond the checks of the aggregate: epochs in use are
      positive and fit, and the commitment does not require itself. */
  predicate FitsColumns(d: Draft) {
    && (d.claim.Some? ==> 0 < d.claim.value.epoch <= MAX_I64 && d.claim.value.heartbeat <= MAX_I64)
    && (d.outstanding.Some? ==> 0 < d.lastEpoch)
    && NeedsCommitment(d.id) !in d.prerequisites
  }

  ghost predicate HandsOut(db: Db, d: Draft) {
    Inv(db) && d.id in db.commitments && Loaded(db, d.id) == d
  }

  // ---- a store around a snapshot ----

  function References(d: Draft): set<CommitmentId> {
    Dependencies(d.prerequisites) + if d.parent.Some? then {d.parent.value} else {}
  }

  /** The commitments that a snapshot refers to, as fresh proposals of its goal. */
  function Neighbours(d: Draft): Commitments {
    map c | c in References(d) :: CommitmentRow(d.goal, None, Brief("", []), Proposed, [], 0, None, None, 0)
  }

  function RowOf(d: Draft): CommitmentRow {
    CommitmentRow(d.goal, d.parent, d.brief, d.state, d.prerequisites, d.lastEpoch, d.outstanding, None, 0)
  }

  function ClaimsOf(d: Draft): Claims {
    match d.claim
    case None => map[]
    case Some(lease) => map[d.id := ClaimRow(lease.worker, lease.epoch, lease.heartbeat, 0)]
  }

  /** The guard behind an outstanding action. */
  function GuardOf(d: Draft, action: ActionRef): GuardRow {
    GuardRow(d.id, d.lastEpoch, 0, {ScopeKey("scope")},
             if d.state.Waiting? then GuardState.Uncertain(action, None) else Admitted(action, None))
  }

  function GuardsOf(d: Draft): Guards {
    match d.outstanding
    case None => map[]
    case Some(action) => map[GuardId("guard") := GuardOf(d, action)]
  }

  function LocksFor(d: Draft): Locks {
    match d.outstanding
    case None => map[]
    case Some(action) => map[ScopeKey("scope") := LockRow(GuardId("guard"), d.id, Held(action))]
  }

  function StoreAround(d: Draft): Db {
    Db({d.goal}, Neighbours(d)[d.id := RowOf(d)], ClaimsOf(d), GuardsOf(d), LocksFor(d), 0, [])
  }

  lemma NoEdgesIsAcyclic(graph: Acyclic.Graph)
    requires forall a :: a in graph ==> graph[a] == {}
    ensures Acyclic.IsAcyclic(graph)
  {
    forall path
      ensures !Acyclic.IsCycle(graph, path)
    {
      if |path| >= 2 {
        assert !Acyclic.Edge(graph, path[0], path[0 + 1]);
      }
    }
  }

  lemma AroundIsAcyclic(d: Draft)
    requires NeedsCommitment(d.id) !in d.prerequisites
    ensures Acyclic.IsAcyclic(GraphOf(StoreAround(d).commitments))
  {
    hide Acyclic.IsAcyclic;
    var others := GraphOf(Neighbours(d) - {d.id});
    NoEdgesIsAcyclic(others);
    Acyclic.FreshNodeKeepsAcyclic(others, d.id, Dependencies(d.prerequisites));
    assert GraphOf(StoreAround(d).commitments) == others[d.id := Dependencies(d.prerequisites)];
  }

  /** The snapshot's own row among rows that hold nothing. */
  predicate Surrounds(cs: Commitments, d: Draft) {
    && d.id in cs && cs[d.id] == RowOf(d) && References(d) <= cs.Keys
    && forall c :: c in cs ==>
         && cs[c].goal == d.goal && cs[c].replacement == None
         && (c != d.id ==>
               cs[c].parent == None && cs[c].state.Proposed? && cs[c].prerequisites == [] && cs[c].outstanding == None)
  }

  lemma AroundActions(cs: Commitments, d: Draft)
    requires Restorable(d) && Surrounds(cs, d)
    ensures ActionsAgree(cs, GuardsOf(d))
  {
    hide Surrounds, RowOf, References;
    PlainRows(cs, d);
    if d.outstanding.Some? {
      assert GuardFences(cs, GuardsOf(d)[GuardId("guard")]);
      assert HasActiveGuard(GuardsOf(d), d.id);
    }
  }

  lemma PlainRows(cs: Commitments, d: Draft)
    requires Surrounds(cs, d)
    ensures d.id in cs
    ensures cs[d.id].state == d.state && cs[d.id].outstanding == d.outstanding && cs[d.id].highWater == d.lastEpoch
    ensures forall c :: c in cs && c != d.id ==> cs[c].state.Proposed? && cs[c].outstanding == None
  {
  }

  lemma AroundClaims(cs: Commitments, d: Draft)
    requires Restorable(d) && FitsColumns(d) && Surrounds(cs, d)
    ensures ClaimsAgree(cs, ClaimsOf(d), 0)
  {
    hide Surrounds, RowOf, References;
    PlainRows(cs, d);
  }

  lemma AroundGuards(cs: Commitments, d: Draft)
    requires Restorable(d) && FitsColumns(d) && Surrounds(cs, d)
    ensures GuardsSound(cs, GuardsOf(d), 0) && LocksAgree(GuardsOf(d), LocksFor(d))
  {
    hide Surrounds, RowOf, References;
    PlainRows(cs, d);
  }

  lemma AroundTopology(cs: Commitments, gs: Guards, d: Draft)
    requires Surrounds(cs, d)
    ensures TopologySound(cs, {d.goal}) && BarriersHold(cs, gs) && BarriersReleased(cs)
  {
  }

  lemma AroundIsSound(d: Draft)
    requires Restorable(d) && FitsColumns(d)
    ensures HandsOut(StoreAround(d), d)
  {
    hide Restorable, Acyclic.IsAcyclic, ClaimsAgree, ActionsAgree, LocksAgree, GuardsSound, TopologySound, BarriersHold,
         BarriersReleased, GuardsOf, LocksFor;
    var db := StoreAround(d);
    AroundIsAcyclic(d);
    AroundActions(db.commitments, d);
    AroundClaims(db.commitments, d);
    AroundGuards(db.commitments, d);
    AroundTopology(db.commitments, db.guards, d);
  }

  lemma HandedOutFits(db: Db, d: Draft)
    requires HandsOut(db, d)
    ensures Restorable(d) && FitsColumns(d)
  {
    hide LocksAgree, TopologySound, BarriersHold, BarriersReleased;
    LoadedRestores(db, d.id);
    if d.outstanding.Some? {
      var g :| g in db.guards && db.guards[g].commitment == d.id && IsActive(db.guards[g].state);
    }
    if NeedsCommitment(d.id) in d.prerequisites {
      Acyclic.GreyIsCycle(GraphOf(db.commitments), [d.id], d.id);
    }
  }

  /** Main result: within its columns, a snapshot restores if and only if some
      store that keeps the invariant hands it out. */
  lemma RestorableIffHandedOut(d: Draft)
    ensures Restorable(d) && FitsColumns(d) <==> exists db :: HandsOut(db, d)
  {
    hide Restorable, FitsColumns, HandsOut;
    if Restorable(d) && FitsColumns(d) {
      AroundIsSound(d);
    }
    if exists db :: HandsOut(db, d) {
      var db :| HandsOut(db, d);
      HandedOutFits(db, d);
    }
  }
}
