/** Concrete cases in which the store accepts more than its documentation says.
    The exact conditions are InsertKeepsInvIff and InsertIsReplayedIff for inserts,
    and InvalidationIsCurrentIff for the invalidation of guards. */
module Gaps {
  import opened Domain
  import opened Aggregates
  import opened Database
  import opened Mutations
  import opened Preservation
  import opened Runs
  import opened Replay
  import opened Scenarios

  const H := GoalId("h")
  const ONE_GOAL := EMPTY.(goals := {G}, events := [GoalCreated(G, 1)])
  const TWO_GOALS := ONE_GOAL.(goals := {G} + {H}, events := ONE_GOAL.events + [GoalCreated(H, 1)])

  function Fresh(id: CommitmentId, goal: GoalId, parent: Option<CommitmentId>, prerequisites: seq<Prerequisite>): Draft {
    Draft(id, goal, parent, Brief("work", []), Proposed, prerequisites, None, None, 0)
  }

  lemma GoalsKeepInv()
    ensures Inv(ONE_GOAL) && Inv(TWO_GOALS)
  {
    hide Inv;
    EmptyKeepsInv();
    AddGoalKeepsInv(EMPTY, G, GoalCreated(G, 1));
    assert EMPTY.goals + {G} == {G} && EMPTY.events + [GoalCreated(G, 1)] == [GoalCreated(G, 1)];
    AddGoalKeepsInv(ONE_GOAL, H, GoalCreated(H, 1));
  }

  /** A commitment that requires itself is stored, and the graph has a cycle. */
  lemma SelfPrerequisiteIsAccepted()
    ensures
      var c := CommitmentId("c");
      var d := Fresh(c, G, None, [NeedsCommitment(c)]);
      && Inv(ONE_GOAL) && MayInsert(ONE_GOAL, d, CommitmentCreated(c, G))
      && !Inv(InsertEffect(ONE_GOAL, d, CommitmentCreated(c, G)))
  {
    hide Inv;
    GoalsKeepInv();
    var c := CommitmentId("c");
    var d := Fresh(c, G, None, [NeedsCommitment(c)]);
    assert NeedsCommitment(c) in d.prerequisites;
    InsertKeepsInvIff(ONE_GOAL, d, CommitmentCreated(c, G));
  }

  /** A child is stored under a parent that serves another goal. */
  lemma ForeignParentIsAccepted()
    ensures
      var p, c := CommitmentId("p"), CommitmentId("c");
      var parent, child := Fresh(p, G, None, []), Fresh(c, H, Some(p), []);
      var db := InsertEffect(TWO_GOALS, parent, CommitmentCreated(p, G));
      && Inv(db) && MayInsert(db, child, CommitmentCreated(c, H))
      && !Inv(InsertEffect(db, child, CommitmentCreated(c, H)))
  {
    hide Inv;
    GoalsKeepInv();
    var p, c := CommitmentId("p"), CommitmentId("c");
    var parent, child := Fresh(p, G, None, []), Fresh(c, H, Some(p), []);
    assert p.text[0] != c.text[0];
    InsertKeepsInvIff(TWO_GOALS, parent, CommitmentCreated(p, G));
    var db := InsertEffect(TWO_GOALS, parent, CommitmentCreated(p, G));
    assert G.text[0] != H.text[0];
    InsertKeepsInvIff(db, child, CommitmentCreated(c, H));
  }

  /** An insert announced by another event is stored, and the log no longer
      tells the commitment's state. */
  lemma MisannouncedInsertIsAccepted()
    ensures
      var c := CommitmentId("c");
      && Inv(ONE_GOAL) && Replayed(ONE_GOAL)
      && MayInsert(ONE_GOAL, Fresh(c, G, None, []), CommitmentActivated(c))
      && !Replayed(InsertEffect(ONE_GOAL, Fresh(c, G, None, []), CommitmentActivated(c)))
  {
    hide Inv, Replayed;
    GoalsKeepInv();
    var c := CommitmentId("c");
    var m := AddGoal(G, GoalCreated(G, 1));
    assert [] + [m] == [m];
    RunSnoc(EMPTY, [], m);
    assert EMPTY.goals + {G} == {G} && EMPTY.events + [GoalCreated(G, 1)] == [GoalCreated(G, 1)];
    SnapshotIsReplay([m]);
    InsertIsReplayedIff(ONE_GOAL, Fresh(c, G, None, []), CommitmentActivated(c));
  }

  /** A concrete run: a guard is issued under one claim, the work is resumed to
      ready and claimed again, and the second claim may give the guard up. */
  lemma OlderGuardIsInvalidated() returns (ms: seq<Mutation>)
    ensures Commits(EMPTY, ms, RECLAIMED)
    ensures RECLAIMED.guards[X].epoch < RECLAIMED.claims[C].epoch
    ensures MayInvalidate(RECLAIMED, X, Holder(2, 5))
  {
    hide Commits;
    ms := ReachReclaimed();
  }
}
