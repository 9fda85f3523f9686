/** The tables of the store as one value, and the invariant that ties them
    together. Every conjunct names the tables it reads. */
module Database {
  import opened Domain
  import Acyclic

  datatype CommitmentRow = CommitmentRow(
    goal: GoalId,
    parent: Option<CommitmentId>,
    brief: Brief,
    state: CommitmentState,
    prerequisites: seq<Prerequisite>,
    highWater: nat,
    outstanding: Option<ActionRef>,
    replacement: Option<CommitmentId>,
    version: nat)

  datatype ClaimRow = ClaimRow(worker: WorkerId, epoch: nat, heartbeat: nat, boot: nat)

  datatype GuardRow = GuardRow(
    commitment: CommitmentId, epoch: nat, boot: nat, scopes: set<ScopeKey>, state: GuardState)

  datatype LockMode = Reserved(deadline: nat) | Held(action: ActionRef)

  datatype LockRow = LockRow(guard: GuardId, commitment: CommitmentId, mode: LockMode)

  type Commitments = map<CommitmentId, CommitmentRow>
  type Claims = map<CommitmentId, ClaimRow>
  type Guards = map<GuardId, GuardRow>
  type Locks = map<ScopeKey, LockRow>

  datatype Db = Db(
    goals: set<GoalId>,
    commitments: Commitments,
    claims: Claims,
    guards: Guards,
    locks: Locks,
    boot: nat,
    events: seq<WorkEvent>)

  const EMPTY := Db({}, map[], map[], map[], map[], 0, [])

  predicate IsLive(state: GuardState) {
    state.Issued? || state.Admitted? || state.Uncertain?
  }

  /** Admitted or uncertain: the guard fences an outstanding action. */
  predicate IsActive(state: GuardState) {
    state.Admitted? || state.Uncertain?
  }

  function ActionOf(state: GuardState): Option<ActionRef> {
    match state
    case Issued(_) => None
    case Admitted(action, _) => Some(action)
    case Resolved(outcome, _) => Some(outcome.action)
    case Uncertain(action, _) => Some(action)
    case Invalidated => None
  }

  /** The lock row that a live guard must have on each of its scopes. */
  function LockFor(g: GuardId, row: GuardRow): LockRow
    requires IsLive(row.state)
  {
    LockRow(g, row.commitment,
            match row.state
            case Issued(deadline) => Reserved(deadline)
            case Admitted(action, _) => Held(action)
            case Uncertain(action, _) => Held(action))
  }

  function Dependencies(prerequisites: seq<Prerequisite>): set<CommitmentId> {
    set p | p in prerequisites && p.NeedsCommitment? :: p.id
  }

  /** The graph that a reload of the tables would build. */
  function GraphOf(cs: Commitments): Acyclic.Graph {
    map c | c in cs :: Dependencies(cs[c].prerequisites)
  }

  /** A claim exists exactly where the state requires one, at the high-water
      epoch and in the current boot. */
  ghost predicate ClaimsAgree(cs: Commitments, claims: Claims, boot: nat) {
    && (forall c :: c in claims ==> c in cs)
    && (forall c :: c in cs ==> (RequiresClaim(cs[c].state) <==> c in claims))
    && (forall c :: c in claims ==>
          && 0 < claims[c].epoch == cs[c].highWater <= MAX_I64
          && claims[c].boot == boot
          && claims[c].heartbeat <= MAX_I64)
  }

  /** An active guard and its commitment name the same action at the same epoch. */
  ghost predicate GuardFences(cs: Commitments, row: GuardRow) {
    && row.commitment in cs
    && IsActive(row.state)
    && var c := cs[row.commitment];
       && c.outstanding == ActionOf(row.state)
       && c.highWater == row.epoch
       && (row.state.Admitted? ==> c.state.Working? || c.state.RecoveryPending?)
       && (row.state.Uncertain? ==> c.state == Waiting(OnUncertainAction(row.state.action)))
  }

  ghost predicate HasActiveGuard(gs: Guards, c: CommitmentId) {
    exists g :: g in gs && gs[g].commitment == c && IsActive(gs[g].state)
  }

  /** Outstanding actions and active guards correspond one to one. */
  ghost predicate ActionsAgree(cs: Commitments, gs: Guards) {
    && (forall g :: g in gs && IsActive(gs[g].state) ==> GuardFences(cs, gs[g]))
    && (forall c :: c in cs && cs[c].outstanding.Some? ==> HasActiveGuard(gs, c))
    && (forall g, h :: (&& g in gs && h in gs
                        && ActionOf(gs[g].state).Some?
                        && ActionOf(gs[g].state) == ActionOf(gs[h].state)) ==> g == h)
  }

  /** The lock rows are exactly the scopes of the live guards. */
  ghost predicate LocksAgree(gs: Guards, locks: Locks) {
    && (forall k :: k in locks ==>
          && locks[k].guard in gs
          && k in gs[locks[k].guard].scopes
          && IsLive(gs[locks[k].guard].state)
          && locks[k] == LockFor(locks[k].guard, gs[locks[k].guard]))
    && (forall g, k :: g in gs && IsLive(gs[g].state) && k in gs[g].scopes ==>
          k in locks && locks[k].guard == g)
  }

  ghost predicate GuardsSound(cs: Commitments, gs: Guards, boot: nat) {
    forall g :: g in gs ==>
      && gs[g].commitment in cs
      && 0 < gs[g].epoch <= cs[gs[g].commitment].highWater
      && gs[g].scopes != {}
      && (gs[g].state.Issued? ==> gs[g].boot == boot && gs[g].state.deadline <= MAX_I64)
  }

  /** Every reference resolves, and a parent shares its child's goal. */
  ghost predicate TopologySound(cs: Commitments, goals: set<GoalId>) {
    forall c :: c in cs ==>
      && cs[c].goal in goals
      && (cs[c].parent.Some? ==> cs[c].parent.value in cs && cs[cs[c].parent.value].goal == cs[c].goal)
      && Dependencies(cs[c].prerequisites) <= cs.Keys
  }

  /** A replacement terminal is a direct same-goal child and a prerequisite;
      while its parent is not terminal, the parent waits on it or is pending
      recovery, and nothing else of the parent's is in flight. */
  ghost predicate BarrierHolds(cs: Commitments, gs: Guards, p: CommitmentId)
    requires p in cs && cs[p].replacement.Some?
  {
    var terminal := cs[p].replacement.value;
    && terminal in cs
    && cs[terminal].parent == Some(p)
    && cs[terminal].goal == cs[p].goal
    && NeedsCommitment(terminal) in cs[p].prerequisites
    && (!IsTerminal(cs[p].state) ==>
          && (cs[p].state == Waiting(OnPrerequisite(terminal)) || cs[p].state.RecoveryPending?)
          && cs[p].outstanding == None
          && forall g :: g in gs && gs[g].commitment == p ==> !IsLive(gs[g].state))
  }

  ghost predicate BarriersHold(cs: Commitments, gs: Guards) {
    forall p :: p in cs && cs[p].replacement.Some? ==> BarrierHolds(cs, gs, p)
  }

  /** A completed replacement terminal has released its parent. */
  ghost predicate BarriersReleased(cs: Commitments) {
    forall p :: (&& p in cs && cs[p].replacement.Some? && !IsTerminal(cs[p].state)
                 && cs[p].replacement.value in cs) ==> !cs[cs[p].replacement.value].state.Completed?
  }

  /** Everything but barrier release, which a completion breaks until its cascade is done. */
  ghost predicate Consistent(db: Db) {
    && ClaimsAgree(db.commitments, db.claims, db.boot)
    && ActionsAgree(db.commitments, db.guards)
    && LocksAgree(db.guards, db.locks)
    && GuardsSound(db.commitments, db.guards, db.boot)
    && TopologySound(db.commitments, db.goals)
    && BarriersHold(db.commitments, db.guards)
    && Acyclic.IsAcyclic(GraphOf(db.commitments))
  }

  ghost predicate Inv(db: Db) {
    Consistent(db) && BarriersReleased(db.commitments)
  }
}
