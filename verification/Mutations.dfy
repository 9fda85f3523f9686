/** The committed changes of the store, one constructor each: when a change is
    allowed and what it does to the tables. Every public operation commits a
    sequence of these or nothing. */
module Mutations {
  import opened Domain
  import opened Aggregates
  import opened Database
  import Acyclic

  /** Who acts on a claim, at which epoch, and under which lease. */
  datatype Fence = Fence(worker: WorkerId, epoch: nat, now: nat, lease: nat)

  datatype IssueRequest = IssueRequest(
    guard: GuardId,
    commitment: CommitmentId,
    fence: Fence,
    scopes: set<ScopeKey>,
    boot: nat,
    ttl: nat)

  datatype Mutation =
    | AddGoal(goal: GoalId, event: WorkEvent)
    | Insert(draft: Draft, event: WorkEvent)
    | Persist(draft: Draft, expected: nat, event: WorkEvent)
    | Decompose(target: CommitmentId, fence: Fence, terminal: CommitmentId, children: seq<CommitmentId>)
    | Require(target: CommitmentId, fence: Fence, prerequisite: Prerequisite)
    | GiveUp(target: CommitmentId, fence: Fence, rationale: string)
    | Issue(request: IssueRequest)
    | Admit(guard: GuardId, scopes: set<ScopeKey>, action: ActionRef, digest: Option<Digest>, now: nat)
    | Expire(guard: GuardId, now: nat)
    | Invalidate(guard: GuardId, fence: Fence)
    | Beat(commitment: CommitmentId, fence: Fence)
    | Lapse(commitment: CommitmentId, now: nat, lease: nat, revoked: seq<GuardId>)
    | Release(commitment: CommitmentId)
    | Record(guard: GuardId, outcome: Outcome, digest: Option<Digest>)
    | Restart(lapsed: seq<CommitmentId>, revoked: seq<GuardId>)

  predicate LeaseLive(claim: ClaimRow, now: nat, lease: nat) {
    now < claim.heartbeat + lease <= MAX_U64
  }

  predicate LeaseOver(claim: ClaimRow, now: nat, lease: nat) {
    claim.heartbeat + lease <= now
  }

  /** The fence names the worker, the epoch and a live lease of the current claim. */
  predicate Holds(db: Db, c: CommitmentId, fence: Fence) {
    && c in db.commitments
    && c in db.claims
    && db.claims[c].worker == fence.worker
    && db.claims[c].epoch == fence.epoch
    && fence.now <= MAX_I64
    && LeaseLive(db.claims[c], fence.now, fence.lease)
  }

  function Min(a: nat, b: nat): nat {
    if a <= b then a else b
  }

  /** The earlier of the requested time to live and the end of the lease. */
  function ReservationDeadline(claim: ClaimRow, fence: Fence, ttl: nat): nat {
    Min(fence.now + ttl, claim.heartbeat + fence.lease)
  }

  // ---- effects on single tables ----

  function Moved(row: CommitmentRow, state: CommitmentState): CommitmentRow {
    row.(state := state, version := row.version + 1)
  }

  function MoveAll(cs: Commitments, moved: set<CommitmentId>, state: CommitmentState): Commitments {
    map c | c in cs :: if c in moved then Moved(cs[c], state) else cs[c]
  }

  function InvalidateAll(gs: Guards, dropped: set<GuardId>): Guards {
    map g | g in gs :: if g in dropped then gs[g].(state := GuardState.Invalidated) else gs[g]
  }

  /** Deletes the reserved locks of some guards. */
  function FreeReserved(locks: Locks, dropped: set<GuardId>): Locks {
    map k | k in locks && !(locks[k].guard in dropped && locks[k].mode.Reserved?) :: locks[k]
  }

  function HeldLocks(locks: Locks): Locks {
    map k | k in locks && locks[k].mode.Held? :: locks[k]
  }

  function HoldAll(locks: Locks, g: GuardId, action: ActionRef): Locks {
    map k | k in locks ::
      if locks[k].guard == g && locks[k].mode.Reserved? then locks[k].(mode := Held(action)) else locks[k]
  }

  function FreeHeld(locks: Locks, g: GuardId): Locks {
    map k | k in locks && !(locks[k].guard == g && locks[k].mode.Held?) :: locks[k]
  }

  function Reserve(locks: Locks, scopes: set<ScopeKey>, lock: LockRow): Locks {
    locks + map k | k in scopes :: lock
  }

  /** The guards behind the reserved locks on `keys` whose deadline has passed. */
  function ExpiredOn(locks: Locks, keys: set<ScopeKey>, now: nat): set<GuardId> {
    set k | k in keys && k in locks && locks[k].mode.Reserved? && locks[k].mode.deadline <= now :: locks[k].guard
  }

  function IssuedGuards(gs: Guards): set<GuardId> {
    set g | g in gs && gs[g].state.Issued?
  }

  function IssuedAt(gs: Guards, c: CommitmentId, epoch: nat): set<GuardId> {
    set g | g in gs && gs[g].state.Issued? && gs[g].commitment == c && gs[g].epoch == epoch
  }

  function Ids(s: seq<CommitmentId>): set<CommitmentId> {
    set c | c in s
  }

  function GuardIds(s: seq<GuardId>): set<GuardId> {
    set g | g in s
  }

  function Invalidations(order: seq<GuardId>): seq<WorkEvent> {
    seq(|order|, i requires 0 <= i < |order| => WorkEvent.GuardInvalidated(order[i]))
  }

  function RecoveryNotices(order: seq<CommitmentId>): seq<WorkEvent> {
    seq(|order|, i requires 0 <= i < |order| => CommitmentRecoveryPending(order[i]))
  }

  function Completions(order: seq<CommitmentId>): seq<WorkEvent> {
    seq(|order|, i requires 0 <= i < |order| => CommitmentCompleted(order[i]))
  }

  // ---- the upward chain of composite parents ----

  function Unfinished(cs: Commitments): set<CommitmentId> {
    set c | c in cs && !IsTerminal(cs[c].state)
  }

  /** The parent whose barrier `child` is, if there is one. */
  function BarrierParent(cs: Commitments, child: CommitmentId): Option<CommitmentId> {
    if && child in cs && cs[child].parent.Some? && cs[child].parent.value in cs
       && cs[cs[child].parent.value].replacement == Some(child)
    then cs[child].parent
    else None
  }

  /** The composite ancestors above `child`, up to the first that is not in `open`. */
  function Chain(cs: Commitments, child: CommitmentId, open: set<CommitmentId>): seq<CommitmentId>
    decreases open
  {
    var parent := BarrierParent(cs, child);
    if parent.Some? && parent.value in open
    then [parent.value] + Chain(cs, parent.value, open - {parent.value})
    else []
  }

  /** What completing `child` completes above it. */
  function CascadeOf(cs: Commitments, child: CommitmentId): seq<CommitmentId> {
    Chain(cs, child, Unfinished(cs))
  }

  function CompleteAll(db: Db, order: seq<CommitmentId>): Db {
    db.(commitments := MoveAll(db.commitments, Ids(order), Completed),
        claims := db.claims - Ids(order),
        events := db.events + Completions(order))
  }

  // ---- insert and generic persistence ----

  function RowOf(d: Draft): CommitmentRow {
    CommitmentRow(d.goal, d.parent, d.brief, d.state, d.prerequisites, d.lastEpoch, d.outstanding, None, 1)
  }

  /** What the code and its primary and foreign keys check on insert. */
  predicate MayInsert(db: Db, d: Draft, event: WorkEvent) {
    && EventCommitment(event) == Some(d.id)
    && d.state.Proposed? && d.claim == None && d.outstanding == None
    && d.id !in db.commitments
    && d.goal in db.goals
    && (d.parent.Some? ==> d.parent.value in db.commitments || d.parent.value == d.id)
    && Dependencies(d.prerequisites) <= db.commitments.Keys + {d.id}
    && d.lastEpoch <= MAX_I64
  }

  function InsertEffect(db: Db, d: Draft, event: WorkEvent): Db {
    db.(commitments := db.commitments[d.id := RowOf(d)], events := db.events + [event])
  }

  function ClaimRowOf(lease: Lease, boot: nat): ClaimRow {
    ClaimRow(lease.worker, lease.epoch, lease.heartbeat, boot)
  }

  /** Generic persistence keeps, releases or opens a claim, never rewrites one. */
  predicate ClaimPersists(db: Db, d: Draft)
    requires d.id in db.commitments
  {
    var row := db.commitments[d.id];
    && (RequiresClaim(d.state) <==> d.claim.Some?)
    && (if d.id in db.claims && d.claim.Some? then
          var current := db.claims[d.id];
          && d.claim == Some(Lease(current.worker, current.epoch, current.heartbeat))
          && d.lastEpoch == row.highWater == current.epoch
        else if d.claim.Some? then
          && row.state.Ready? && d.state.Claimed?
          && d.claim.value.epoch == d.lastEpoch == row.highWater + 1 <= MAX_I64
        else d.lastEpoch == row.highWater)
  }

  function PersistedRow(row: CommitmentRow, d: Draft): CommitmentRow {
    var mark := if d.lastEpoch > row.highWater then d.lastEpoch else row.highWater;
    Moved(row, d.state).(highWater := mark, outstanding := d.outstanding)
  }

  /** The update of the one row and its claim, before any cascade. */
  function PersistRow(db: Db, d: Draft, event: WorkEvent): Db
    requires d.id in db.commitments
  {
    db.(commitments := db.commitments[d.id := PersistedRow(db.commitments[d.id], d)],
        claims := if d.claim.Some? then db.claims[d.id := ClaimRowOf(d.claim.value, db.boot)] else db.claims - {d.id},
        events := db.events + [event])
  }

  /** No version in the cascade is exhausted. */
  predicate CascadeFits(cs: Commitments, child: CommitmentId) {
    forall p :: p in CascadeOf(cs, child) ==> p in cs && cs[p].version < MAX_I64
  }

  /** What is checked before the row is written. */
  predicate MayPersistRow(db: Db, d: Draft, expected: nat, event: WorkEvent) {
    && EventCommitment(event) == Some(d.id)
    && d.id in db.commitments
    && var row := db.commitments[d.id];
       && row.version == expected < MAX_I64
       && row.goal == d.goal && row.parent == d.parent && row.brief == d.brief
       && row.prerequisites == d.prerequisites
       && row.outstanding == None && d.outstanding == None
       && (row.replacement.Some? && !IsTerminal(row.state) ==> d.state.Cancelled? || d.state.Abandoned?)
       && LegalTransition(row.state, d.state)
       && EventDescribes(event, d.state)
       && ClaimPersists(db, d)
       && (d.claim.Some? ==> d.claim.value.heartbeat <= MAX_I64)
  }

  predicate MayPersist(db: Db, d: Draft, expected: nat, event: WorkEvent) {
    && MayPersistRow(db, d, expected, event)
    && (d.state.Completed? ==> CascadeFits(PersistRow(db, d, event).commitments, d.id))
  }

  function PersistEffect(db: Db, d: Draft, event: WorkEvent): Db
    requires d.id in db.commitments
  {
    var moved := PersistRow(db, d, event);
    if d.state.Completed? then CompleteAll(moved, CascadeOf(moved.commitments, d.id)) else moved
  }

  // ---- structural proposals ----

  predicate NothingInFlight(db: Db, c: CommitmentId)
    requires c in db.commitments
  {
    && db.commitments[c].outstanding == None
    && forall g :: g in db.guards && db.guards[g].commitment == c ==> !IsLive(db.guards[g].state)
  }

  predicate MayRestructure(db: Db, target: CommitmentId, fence: Fence) {
    && Holds(db, target, fence)
    && RequiresClaim(db.commitments[target].state)
    && db.commitments[target].version < MAX_I64
    && NothingInFlight(db, target)
  }

  function Linked(row: CommitmentRow, terminal: CommitmentId): CommitmentRow {
    Moved(row, Waiting(OnPrerequisite(terminal)))
      .(replacement := Some(terminal), prerequisites := row.prerequisites + [NeedsCommitment(terminal)])
  }

  /** The parent's half of a decomposition, its children already inserted. */
  ghost predicate MayDecompose(db: Db, target: CommitmentId, fence: Fence, terminal: CommitmentId) {
    && MayRestructure(db, target, fence)
    && db.commitments[target].state.Working?
    && db.commitments[target].replacement == None
    && terminal in db.commitments
    && db.commitments[terminal].state.Proposed?
    && db.commitments[terminal].parent == Some(target)
    && db.commitments[terminal].goal == db.commitments[target].goal
    && Acyclic.IsAcyclic(GraphOf(db.commitments[target := Linked(db.commitments[target], terminal)]))
  }

  function DecomposeEffect(db: Db, target: CommitmentId, terminal: CommitmentId, children: seq<CommitmentId>): Db
    requires target in db.commitments
  {
    db.(commitments := db.commitments[target := Linked(db.commitments[target], terminal)],
        events := db.events + [CommitmentWaiting(target, OnPrerequisite(terminal)),
                               ProposalApplied(target, IntoChildren(children, terminal))])
  }

  function Requiring(row: CommitmentRow, prerequisite: Prerequisite): CommitmentRow {
    row.(prerequisites := row.prerequisites + [prerequisite], version := row.version + 1)
  }

  ghost predicate MayRequire(db: Db, target: CommitmentId, fence: Fence, prerequisite: Prerequisite) {
    && MayRestructure(db, target, fence)
    && db.commitments[target].replacement == None
    && prerequisite !in db.commitments[target].prerequisites
    && (prerequisite.NeedsCommitment? ==> prerequisite.id in db.commitments)
    && Acyclic.IsAcyclic(GraphOf(db.commitments[target := Requiring(db.commitments[target], prerequisite)]))
  }

  function RequireEffect(db: Db, target: CommitmentId, prerequisite: Prerequisite): Db
    requires target in db.commitments
  {
    db.(commitments := db.commitments[target := Requiring(db.commitments[target], prerequisite)],
        events := db.events + [ProposalApplied(target, WithPrerequisite(prerequisite))])
  }

  function GiveUpEffect(db: Db, target: CommitmentId, rationale: string): Db {
    db.(commitments := MoveAll(db.commitments, {target}, Abandoned),
        claims := db.claims - {target},
        events := db.events + [CommitmentAbandoned(target), ProposalApplied(target, GivenUp(rationale))])
  }

  // ---- guards ----

  /** The lock-independent conditions on an issue request. */
  predicate MayRequest(db: Db, r: IssueRequest) {
    && Holds(db, r.commitment, r.fence)
    && r.boot == db.boot
    && (db.commitments[r.commitment].state.Claimed? || db.commitments[r.commitment].state.Working?)
    && db.commitments[r.commitment].outstanding == None
    && r.fence.now + r.ttl <= MAX_U64
    && ReservationDeadline(db.claims[r.commitment], r.fence, r.ttl) <= MAX_I64
    && r.scopes != {}
    && r.guard !in db.guards
  }

  predicate MayIssue(db: Db, r: IssueRequest) {
    MayRequest(db, r) && r.scopes !! db.locks.Keys
  }

  function IssueEffect(db: Db, r: IssueRequest): Db
    requires r.commitment in db.claims
  {
    var deadline := ReservationDeadline(db.claims[r.commitment], r.fence, r.ttl);
    var row := GuardRow(r.commitment, r.fence.epoch, r.boot, r.scopes, GuardState.Issued(deadline));
    db.(guards := db.guards[r.guard := row],
        locks := Reserve(db.locks, r.scopes, LockFor(r.guard, row)),
        events := db.events + [WorkEvent.GuardIssued(r.guard, r.commitment, r.fence.epoch)])
  }

  predicate Reserving(db: Db, g: GuardId, now: nat) {
    && g in db.guards && db.guards[g].state.Issued?
    && now < db.guards[g].state.deadline && now <= MAX_I64
  }

  predicate MayAdmit(db: Db, g: GuardId, scopes: set<ScopeKey>, action: ActionRef, now: nat) {
    && Reserving(db, g, now)
    && var row := db.guards[g];
       && row.scopes == scopes
       && row.boot == db.boot
       && row.commitment in db.commitments
       && row.commitment in db.claims
       && db.commitments[row.commitment].state.Working?
       && db.commitments[row.commitment].outstanding == None
       && db.commitments[row.commitment].version < MAX_I64
       && db.claims[row.commitment].epoch == row.epoch
       && forall h :: h in db.guards ==> ActionOf(db.guards[h].state) != Some(action)
  }

  function AdmitEffect(db: Db, g: GuardId, action: ActionRef, digest: Option<Digest>): Db
    requires g in db.guards && db.guards[g].commitment in db.commitments
  {
    var c := db.guards[g].commitment;
    var row := db.commitments[c];
    db.(commitments := db.commitments[c := row.(outstanding := Some(action), version := row.version + 1)],
        guards := db.guards[g := db.guards[g].(state := GuardState.Admitted(action, digest))],
        locks := HoldAll(db.locks, g, action),
        events := db.events + [WorkEvent.GuardAdmitted(g, c, action, digest)])
  }

  predicate MayExpire(db: Db, g: GuardId, now: nat) {
    g in db.guards && db.guards[g].state.Issued? && db.guards[g].state.deadline <= now
  }

  function DropEffect(db: Db, g: GuardId, event: WorkEvent): Db {
    db.(guards := InvalidateAll(db.guards, {g}),
        locks := FreeReserved(db.locks, {g}),
        events := db.events + [event])
  }

  predicate MayInvalidate(db: Db, g: GuardId, fence: Fence) {
    && Reserving(db, g, fence.now)
    && db.guards[g].boot == db.boot
    && Holds(db, db.guards[g].commitment, fence)
  }

  // ---- leases ----

  predicate MayBeat(db: Db, c: CommitmentId, fence: Fence) {
    Holds(db, c, fence) && db.claims[c].heartbeat < fence.now
  }

  function BeatEffect(db: Db, c: CommitmentId, fence: Fence): Db
    requires c in db.claims
  {
    db.(claims := db.claims[c := db.claims[c].(heartbeat := fence.now)],
        events := db.events + [HeartbeatAccepted(c, fence.worker, fence.epoch)])
  }

  ghost predicate MayLapse(db: Db, c: CommitmentId, now: nat, lease: nat, revoked: seq<GuardId>) {
    && c in db.commitments && c in db.claims
    && LeaseOver(db.claims[c], now, lease)
    && db.commitments[c].version < MAX_I64
    && Enumerates(revoked, IssuedAt(db.guards, c, db.claims[c].epoch))
  }

  function LapseEffect(db: Db, c: CommitmentId, revoked: seq<GuardId>): Db
    requires c in db.claims
  {
    var claim := db.claims[c];
    db.(commitments := MoveAll(db.commitments, {c}, RecoveryPending),
        claims := db.claims - {c},
        guards := InvalidateAll(db.guards, GuardIds(revoked)),
        locks := FreeReserved(db.locks, GuardIds(revoked)),
        events := db.events + [LeaseExpired(c, claim.worker, claim.epoch), CommitmentRecoveryPending(c)]
                  + Invalidations(revoked))
  }

  // ---- recovery, outcomes, restart ----

  predicate HoldsNoLock(locks: Locks, c: CommitmentId) {
    forall k :: k in locks && locks[k].commitment == c ==> !locks[k].mode.Held?
  }

  predicate MayRelease(db: Db, c: CommitmentId) {
    && c in db.commitments && c !in db.claims
    && db.commitments[c].state.RecoveryPending?
    && db.commitments[c].outstanding == None
    && db.commitments[c].replacement == None
    && db.commitments[c].version < MAX_I64
    && HoldsNoLock(db.locks, c)
  }

  function ReleaseEffect(db: Db, c: CommitmentId): Db {
    db.(commitments := MoveAll(db.commitments, {c}, Ready),
        events := db.events + [RecoveryReleased(c)])
  }

  predicate MayRecord(db: Db, g: GuardId, outcome: Outcome, digest: Option<Digest>) {
    && g in db.guards
    && db.guards[g].state == GuardState.Admitted(outcome.action, digest)
    && db.guards[g].commitment in db.commitments
    && db.commitments[db.guards[g].commitment].outstanding == Some(outcome.action)
    && db.commitments[db.guards[g].commitment].version < MAX_I64
  }

  function RecordEffect(db: Db, g: GuardId, outcome: Outcome, digest: Option<Digest>): Db
    requires g in db.guards && db.guards[g].commitment in db.commitments
  {
    var c := db.guards[g].commitment;
    var row := db.commitments[c];
    if outcome.Uncertain? then
      var waiting := OnUncertainAction(outcome.action);
      db.(commitments := db.commitments[c := Moved(row, Waiting(waiting))],
          claims := db.claims - {c},
          guards := db.guards[g := db.guards[g].(state := GuardState.Uncertain(outcome.action, digest))],
          events := db.events + [OutcomeRecorded(outcome, digest), CommitmentWaiting(c, waiting)])
    else
      var next := if row.state.RecoveryPending? then Ready else row.state;
      var recovered := if row.state.RecoveryPending? then [RecoveryCompleted(c, outcome.action)] else [];
      db.(commitments := db.commitments[c := Moved(row, next).(outstanding := None)],
          guards := db.guards[g := db.guards[g].(state := GuardState.Resolved(outcome, digest))],
          locks := FreeHeld(db.locks, g),
          events := db.events + [OutcomeRecorded(outcome, digest)] + recovered)
  }

  ghost predicate MayRestart(db: Db, lapsed: seq<CommitmentId>, revoked: seq<GuardId>) {
    && Enumerates(lapsed, db.claims.Keys)
    && Enumerates(revoked, IssuedGuards(db.guards))
    && forall c :: c in db.claims ==> c in db.commitments && db.commitments[c].version < MAX_I64
  }

  function RestartEffect(db: Db, lapsed: seq<CommitmentId>, revoked: seq<GuardId>): Db {
    db.(commitments := MoveAll(db.commitments, db.claims.Keys, RecoveryPending),
        claims := map[],
        guards := InvalidateAll(db.guards, IssuedGuards(db.guards)),
        locks := HeldLocks(db.locks),
        boot := db.boot + 1,
        events := db.events + RecoveryNotices(lapsed) + Invalidations(revoked))
  }

  // ---- all of them ----

  ghost predicate Allowed(db: Db, m: Mutation) {
    match m
    case AddGoal(goal, event) => goal !in db.goals && (event.GoalCreated? || event.GoalRevised?) && event.goal == goal
    case Insert(draft, event) => MayInsert(db, draft, event)
    case Persist(draft, expected, event) => MayPersist(db, draft, expected, event)
    case Decompose(target, fence, terminal, children) => MayDecompose(db, target, fence, terminal)
    case Require(target, fence, prerequisite) => MayRequire(db, target, fence, prerequisite)
    case GiveUp(target, fence, rationale) => MayRestructure(db, target, fence)
    case Issue(request) => MayIssue(db, request)
    case Admit(guard, scopes, action, digest, now) => MayAdmit(db, guard, scopes, action, now)
    case Expire(guard, now) => MayExpire(db, guard, now)
    case Invalidate(guard, fence) => MayInvalidate(db, guard, fence)
    case Beat(commitment, fence) => MayBeat(db, commitment, fence)
    case Lapse(commitment, now, lease, revoked) => MayLapse(db, commitment, now, lease, revoked)
    case Release(commitment) => MayRelease(db, commitment)
    case Record(guard, outcome, digest) => MayRecord(db, guard, outcome, digest)
    case Restart(lapsed, revoked) => MayRestart(db, lapsed, revoked)
  }

  ghost function Do(db: Db, m: Mutation): Db
    requires Allowed(db, m)
  {
    match m
    case AddGoal(goal, event) => db.(goals := db.goals + {goal}, events := db.events + [event])
    case Insert(draft, event) => InsertEffect(db, draft, event)
    case Persist(draft, expected, event) => PersistEffect(db, draft, event)
    case Decompose(target, fence, terminal, children) => DecomposeEffect(db, target, terminal, children)
    case Require(target, fence, prerequisite) => RequireEffect(db, target, prerequisite)
    case GiveUp(target, fence, rationale) => GiveUpEffect(db, target, rationale)
    case Issue(request) => IssueEffect(db, request)
    case Admit(guard, scopes, action, digest, now) => AdmitEffect(db, guard, action, digest)
    case Expire(guard, now) => DropEffect(db, guard, GuardReservationExpired(guard))
    case Invalidate(guard, fence) => DropEffect(db, guard, WorkEvent.GuardInvalidated(guard))
    case Beat(commitment, fence) => BeatEffect(db, commitment, fence)
    case Lapse(commitment, now, lease, revoked) => LapseEffect(db, commitment, revoked)
    case Release(commitment) => ReleaseEffect(db, commitment)
    case Record(guard, outcome, digest) => RecordEffect(db, guard, outcome, digest)
    case Restart(lapsed, revoked) => RestartEffect(db, lapsed, revoked)
  }
}
