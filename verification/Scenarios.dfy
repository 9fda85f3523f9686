/** Concrete runs of the store from its empty state: one goal, one commitment,
    one worker. The lemmas that show what the code lets through start here, so
    every state they name is one that the store really reaches. */
module Scenarios {
  import opened Domain
  import opened Aggregates
  import opened Database
  import opened Mutations
  import opened Preservation
  import opened Runs

  const G := GoalId("g")
  const C := CommitmentId("c")
  const W := WorkerId("w")
  const X := GuardId("x")
  const DISK := ScopeKey("disk")
  const BRIEF := Brief("work", [])

  function Row(state: CommitmentState, mark: nat, version: nat): CommitmentRow {
    CommitmentRow(G, None, BRIEF, state, [], mark, None, None, version)
  }

  function Snap(state: CommitmentState, claim: Option<Lease>, mark: nat): Draft {
    Draft(C, G, None, BRIEF, state, [], claim, None, mark)
  }

  function ClaimOf(claim: Option<Lease>): Claims {
    if claim.Some? then map[C := ClaimRowOf(claim.value, 0)] else map[]
  }

  /** The store with its one commitment in some state. */
  function Tables(state: CommitmentState, mark: nat, version: nat, claim: Option<Lease>, guards: Guards, locks: Locks,
                  events: seq<WorkEvent>): Db
  {
    Db({G}, map[C := Row(state, mark, version)], ClaimOf(claim), guards, locks, 0, events)
  }

  function Lease1(epoch: nat): Option<Lease> {
    Some(Lease(W, epoch, 0))
  }

  function Holder(epoch: nat, now: nat): Fence {
    Fence(W, epoch, now, 100)
  }

  // ---- steps ----

  lemma PersistStep(state: CommitmentState, mark: nat, version: nat, claim: Option<Lease>, guards: Guards, locks: Locks,
                    events: seq<WorkEvent>, next: CommitmentState, nextClaim: Option<Lease>, nextMark: nat, event: WorkEvent)
    requires LegalTransition(state, next) && !next.Completed? && version < MAX_I64
    requires EventCommitment(event) == Some(C) && EventDescribes(event, next)
    requires RequiresClaim(next) <==> nextClaim.Some?
    requires nextClaim.Some? ==> nextClaim.value.heartbeat <= MAX_I64
    requires
      if claim.Some? && nextClaim.Some? then nextClaim == claim && nextMark == mark == claim.value.epoch
      else if nextClaim.Some? then
        state.Ready? && next.Claimed? && nextClaim.value.epoch == nextMark == mark + 1 <= MAX_I64
      else nextMark == mark
    ensures
      var db := Tables(state, mark, version, claim, guards, locks, events);
      && MayPersist(db, Snap(next, nextClaim, nextMark), version, event)
      && PersistEffect(db, Snap(next, nextClaim, nextMark), event)
         == Tables(next, nextMark, version + 1, nextClaim, guards, locks, events + [event])
  {
    hide LegalTransition, EventDescribes, EventCommitment;
    var db := Tables(state, mark, version, claim, guards, locks, events);
    var d := Snap(next, nextClaim, nextMark);
    var after := PersistEffect(db, d, event);
    assert after.commitments == map[C := Row(next, nextMark, version + 1)];
    assert after.claims == ClaimOf(nextClaim);
  }

  /** One more persist at the end of a run. */
  lemma ThenPersist(ms: seq<Mutation>, state: CommitmentState, mark: nat, version: nat, claim: Option<Lease>,
                    guards: Guards, locks: Locks, events: seq<WorkEvent>, next: CommitmentState,
                    nextClaim: Option<Lease>, nextMark: nat, event: WorkEvent)
    requires Commits(EMPTY, ms, Tables(state, mark, version, claim, guards, locks, events))
    requires LegalTransition(state, next) && !next.Completed? && version < MAX_I64
    requires EventCommitment(event) == Some(C) && EventDescribes(event, next)
    requires RequiresClaim(next) <==> nextClaim.Some?
    requires nextClaim.Some? ==> nextClaim.value.heartbeat <= MAX_I64
    requires
      if claim.Some? && nextClaim.Some? then nextClaim == claim && nextMark == mark == claim.value.epoch
      else if nextClaim.Some? then
        state.Ready? && next.Claimed? && nextClaim.value.epoch == nextMark == mark + 1 <= MAX_I64
      else nextMark == mark
    ensures Commits(EMPTY, ms + [Persist(Snap(next, nextClaim, nextMark), version, event)],
                    Tables(next, nextMark, version + 1, nextClaim, guards, locks, events + [event]))
  {
    hide Commits, Tables, MayPersist, PersistEffect, LegalTransition, EventDescribes, EventCommitment;
    PersistStep(state, mark, version, claim, guards, locks, events, next, nextClaim, nextMark, event);
    CommitsNext(EMPTY, ms, Tables(state, mark, version, claim, guards, locks, events),
                Persist(Snap(next, nextClaim, nextMark), version, event));
  }

  // ---- the log of the common beginning ----

  const BEGUN := [GoalCreated(G, 1), CommitmentCreated(C, G)]
  const READY_LOG := BEGUN + [CommitmentActivated(C)]
  const CLAIMED_LOG := READY_LOG + [CommitmentClaimed(C, W, 1)]
  const WORKING_LOG := CLAIMED_LOG + [CommitmentStarted(C)]

  const READY := Tables(Ready, 0, 2, None, map[], map[], READY_LOG)
  const CLAIMED := Tables(Claimed, 1, 3, Lease1(1), map[], map[], CLAIMED_LOG)
  const WORKING := Tables(Working, 1, 4, Lease1(1), map[], map[], WORKING_LOG)

  lemma Begin() returns (ms: seq<Mutation>)
    ensures Commits(EMPTY, ms, Tables(Proposed, 0, 1, None, map[], map[], BEGUN))
  {
    hide Commits;
    var goal := AddGoal(G, GoalCreated(G, 1));
    var insert := Insert(Snap(Proposed, None, 0), CommitmentCreated(C, G));
    var one := EMPTY.(goals := {G}, events := [GoalCreated(G, 1)]);
    assert EMPTY.goals + {G} == {G} && EMPTY.events + [GoalCreated(G, 1)] == [GoalCreated(G, 1)];
    CommitsNothing(EMPTY);
    CommitsNext(EMPTY, [], EMPTY, goal);
    assert [] + [goal] == [goal];
    assert Dependencies(Snap(Proposed, None, 0).prerequisites) == {};
    assert [GoalCreated(G, 1)] + [CommitmentCreated(C, G)] == BEGUN;
    CommitsNext(EMPTY, [goal], one, insert);
    ms := [goal] + [insert];
  }

  lemma ReachReady() returns (ms: seq<Mutation>)
    ensures Commits(EMPTY, ms, READY)
  {
    hide Commits, Tables;
    var begun := Begin();
    ThenPersist(begun, Proposed, 0, 1, None, map[], map[], BEGUN, Ready, None, 0, CommitmentActivated(C));
    ms := begun + [Persist(Snap(Ready, None, 0), 1, CommitmentActivated(C))];
  }

  lemma ReachClaimed() returns (ms: seq<Mutation>)
    ensures Commits(EMPTY, ms, CLAIMED)
  {
    hide Commits, Tables;
    var ready := ReachReady();
    ThenPersist(ready, Ready, 0, 2, None, map[], map[], READY_LOG, Claimed, Lease1(1), 1, CommitmentClaimed(C, W, 1));
    ms := ready + [Persist(Snap(Claimed, Lease1(1), 1), 2, CommitmentClaimed(C, W, 1))];
  }

  lemma ReachWorking() returns (ms: seq<Mutation>)
    ensures Commits(EMPTY, ms, WORKING)
  {
    hide Commits, Tables;
    var claimed := ReachClaimed();
    ThenPersist(claimed, Claimed, 1, 3, Lease1(1), map[], map[], CLAIMED_LOG, Working, Lease1(1), 1, CommitmentStarted(C));
    ms := claimed + [Persist(Snap(Working, Lease1(1), 1), 3, CommitmentStarted(C))];
  }

  /** So the invariant holds wherever such a run ends. */
  lemma ReachedKeepsInv(ms: seq<Mutation>, db: Db)
    requires Commits(EMPTY, ms, db)
    ensures Inv(db)
  {
    hide Inv;
    EmptyKeepsInv();
    CommitsKeepsInv(EMPTY, ms, db);
  }

  // ---- a guard, given up ----

  const REQUEST := IssueRequest(X, C, Holder(1, 1), {DISK}, 0, 50)
  const ISSUED_ROW := GuardRow(C, 1, 0, {DISK}, GuardState.Issued(51))
  const GUARDED := map[X := ISSUED_ROW]
  const RESERVED := map[DISK := LockRow(X, C, Reserved(51))]
  const GUARDED_LOG := WORKING_LOG + [WorkEvent.GuardIssued(X, C, 1)]
  const GUARDED_WORK := Tables(Working, 1, 4, Lease1(1), GUARDED, RESERVED, GUARDED_LOG)

  lemma IssueStep()
    ensures MayIssue(WORKING, REQUEST) && IssueEffect(WORKING, REQUEST) == GUARDED_WORK
  {
    var after := IssueEffect(WORKING, REQUEST);
    assert DISK in REQUEST.scopes;
    assert after.guards == GUARDED;
    assert after.locks == RESERVED;
  }

  lemma ReachGuarded() returns (ms: seq<Mutation>)
    ensures Commits(EMPTY, ms, GUARDED_WORK)
  {
    hide Commits, Tables, MayIssue, IssueEffect;
    var working := ReachWorking();
    IssueStep();
    CommitsNext(EMPTY, working, WORKING, Issue(REQUEST));
    ms := working + [Issue(REQUEST)];
  }

  const GIVEN_UP := map[X := ISSUED_ROW.(state := GuardState.Invalidated)]
  const STUCK := Tables(Working, 1, 4, Lease1(1), GIVEN_UP, map[], GUARDED_LOG + [WorkEvent.GuardInvalidated(X)])

  lemma GiveUpStep()
    ensures MayInvalidate(GUARDED_WORK, X, Holder(1, 2))
    ensures DropEffect(GUARDED_WORK, X, WorkEvent.GuardInvalidated(X)) == STUCK
  {
    var after := DropEffect(GUARDED_WORK, X, WorkEvent.GuardInvalidated(X));
    assert after.guards == GIVEN_UP;
    assert after.locks == map[];
  }

  lemma ReachStuck() returns (ms: seq<Mutation>)
    ensures Commits(EMPTY, ms, STUCK)
  {
    hide Commits, Tables, MayInvalidate, DropEffect;
    var guarded := ReachGuarded();
    GiveUpStep();
    CommitsNext(EMPTY, guarded, GUARDED_WORK, Mutation.Invalidate(X, Holder(1, 2)));
    ms := guarded + [Mutation.Invalidate(X, Holder(1, 2))];
  }

  // ---- a guard that outlives its claim ----

  const MAIL := OnExternal("mail")
  const WAITING_LOG := GUARDED_LOG + [CommitmentWaiting(C, MAIL)]
  const RESUMED_LOG := WAITING_LOG + [CommitmentActivated(C)]
  const RECLAIMED_LOG := RESUMED_LOG + [CommitmentClaimed(C, W, 2)]
  const RECLAIMED := Tables(Claimed, 2, 7, Lease1(2), GUARDED, RESERVED, RECLAIMED_LOG)

  /** After the guard is issued: wait, resume to ready, claim again. */
  lemma ReachReclaimed() returns (ms: seq<Mutation>)
    ensures Commits(EMPTY, ms, RECLAIMED)
  {
    hide Commits, Tables;
    var guarded := ReachGuarded();
    ThenPersist(guarded, Working, 1, 4, Lease1(1), GUARDED, RESERVED, GUARDED_LOG, Waiting(MAIL), Lease1(1), 1,
                CommitmentWaiting(C, MAIL));
    var waiting := guarded + [Persist(Snap(Waiting(MAIL), Lease1(1), 1), 4, CommitmentWaiting(C, MAIL))];
    ThenPersist(waiting, Waiting(MAIL), 1, 5, Lease1(1), GUARDED, RESERVED, WAITING_LOG, Ready, None, 1,
                CommitmentActivated(C));
    var resumed := waiting + [Persist(Snap(Ready, None, 1), 5, CommitmentActivated(C))];
    ThenPersist(resumed, Ready, 1, 6, None, GUARDED, RESERVED, RESUMED_LOG, Claimed, Lease1(2), 2,
                CommitmentClaimed(C, W, 2));
    ms := resumed + [Persist(Snap(Claimed, Lease1(2), 2), 6, CommitmentClaimed(C, W, 2))];
  }
}
