/** Structural proposals: their shape, the candidate dependency graph, and the
    mutations a decomposition commits. */
module Planning {
  import opened Domain
  import opened Aggregates
  import opened Database
  import opened Mutations
  import opened Preservation
  import opened Runs
  import Acyclic

  datatype NewCommitment = NewCommitment(id: CommitmentId, brief: Brief, prerequisites: seq<Prerequisite>)

  datatype Proposal =
    | Decomposition(target: CommitmentId, epoch: nat, children: seq<NewCommitment>, terminal: CommitmentId)
    | AddPrerequisite(target: CommitmentId, epoch: nat, prerequisite: Prerequisite)
    | Abandonment(target: CommitmentId, epoch: nat, rationale: string)

  // ---- shape ----

  predicate IsWhitespace(c: char) {
    var n := c as int;
    || 0x09 <= n <= 0x0d || n == 0x20 || n == 0x85 || n == 0xa0 || n == 0x1680
    || 0x2000 <= n <= 0x200a || n == 0x2028 || n == 0x2029 || n == 0x202f || n == 0x205f || n == 0x3000
  }

  predicate IsBlank(text: string) {
    forall c :: c in text ==> IsWhitespace(c)
  }

  predicate Distinct<T(==)>(s: seq<T>) {
    forall i, j :: 0 <= i < j < |s| ==> s[i] != s[j]
  }

  function ChildIds(children: seq<NewCommitment>): (ids: seq<CommitmentId>)
    ensures |ids| == |children|
  {
    seq(|children|, i requires 0 <= i < |children| => children[i].id)
  }

  /** The rules a proposal must meet on its own. */
  predicate WellShaped(p: Proposal) {
    match p
    case Decomposition(target, _, children, terminal) =>
      && children != [] && Distinct(ChildIds(children))
      && target != terminal && terminal in ChildIds(children)
      && forall i :: 0 <= i < |children| ==> Distinct(children[i].prerequisites)
    case AddPrerequisite(_, _, prerequisite) =>
      !(prerequisite.NeedsCommitment? && IsBlank(prerequisite.id.text))
    case Abandonment(_, _, rationale) => !IsBlank(rationale)
  }

  predicate HasDuplicatePrerequisites(prerequisites: seq<Prerequisite>)
    ensures HasDuplicatePrerequisites(prerequisites) <==> !Distinct(prerequisites)
  {
    exists i :: 0 <= i < |prerequisites| && prerequisites[i] in prerequisites[..i]
  }

  method ValidateProposalShape(p: Proposal) returns (ok: bool)
    ensures ok <==> WellShaped(p)
  {
    match p {
      case Decomposition(target, _, children, terminal) =>
        if children == [] { return false; }
        var ids := {};
        var i := 0;
        while i < |children|
          invariant i <= |children|
          invariant ids == set j | 0 <= j < i :: children[j].id
          invariant Distinct(ChildIds(children)[..i])
        {
          if children[i].id in ids {
            var j :| 0 <= j < i && children[j].id == children[i].id;
            assert ChildIds(children)[j] == ChildIds(children)[i];
            return false;
          }
          ids := ids + {children[i].id};
          i := i + 1;
        }
        assert ChildIds(children)[..i] == ChildIds(children);
        if target == terminal { return false; }
        if terminal !in ids {
          assert terminal !in ChildIds(children);
          return false;
        }
        assert terminal in ChildIds(children) by {
          var j :| 0 <= j < |children| && children[j].id == terminal;
          assert ChildIds(children)[j] == terminal;
        }
        i := 0;
        while i < |children|
          invariant i <= |children|
          invariant forall j :: 0 <= j < i ==> Distinct(children[j].prerequisites)
        {
          if HasDuplicatePrerequisites(children[i].prerequisites) { return false; }
          i := i + 1;
        }
        return true;
      case AddPrerequisite(_, _, prerequisite) =>
        return !(prerequisite.NeedsCommitment? && IsBlank(prerequisite.id.text));
      case Abandonment(_, _, rationale) =>
        return !IsBlank(rationale);
    }
  }

  function Elements<T(==)>(s: seq<T>): set<T> {
    set x | x in s
  }

  lemma ElementsSnoc<T>(s: seq<T>, k: nat)
    requires |s| == k + 1
    ensures Elements(s) == Elements(s[..k]) + {s[k]}
    ensures s[k] in Elements(s[..k]) <==> s[k] in s[..k]
  {
    assert forall x :: x in s <==> x in s[..k] || x == s[k];
  }

  lemma DistinctSnoc<T>(s: seq<T>, k: nat)
    requires |s| == k + 1
    ensures Distinct(s) <==> Distinct(s[..k]) && s[k] !in s[..k]
  {
    if s[k] in s[..k] {
      var i :| 0 <= i < k && s[i] == s[k];
    }
  }

  lemma {:induction false} DistinctByCount<T>(s: seq<T>)
    ensures Distinct(s) <==> |Elements(s)| == |s|
    ensures |Elements(s)| <= |s|
  {
    if s != [] {
      hide Distinct, Elements;
      var k := |s| - 1;
      DistinctByCount(s[..k]);
      DistinctSnoc(s, k);
      ElementsSnoc(s, k);
      if s[k] in Elements(s[..k]) {
        assert Elements(s) == Elements(s[..k]);
      }
    }
  }

  function ChildIdSet(children: seq<NewCommitment>): set<CommitmentId> {
    set i | 0 <= i < |children| :: children[i].id
  }

  predicate HasText(text: string) {
    exists c :: c in text && !IsWhitespace(c)
  }

  /** The same rules by counting: as many names as children, the terminal among
      them and not the target, as many requirements as entries; and texts with text. */
  lemma ShapeByCounts(p: Proposal)
    ensures p.Decomposition? ==> (WellShaped(p) <==>
      && |ChildIdSet(p.children)| == |p.children| && p.terminal in ChildIdSet(p.children) - {p.target}
      && forall i :: 0 <= i < |p.children| ==>
           |Elements(p.children[i].prerequisites)| == |p.children[i].prerequisites|)
    ensures p.AddPrerequisite? ==>
      (WellShaped(p) <==> p.prerequisite.NeedsCommitment? ==> HasText(p.prerequisite.id.text))
    ensures p.Abandonment? ==> (WellShaped(p) <==> HasText(p.rationale))
  {
    hide Distinct, IsWhitespace;
    if p.Decomposition? {
      DistinctByCount(ChildIds(p.children));
      assert forall i :: 0 <= i < |p.children| ==> ChildIds(p.children)[i] == p.children[i].id;
      assert Elements(ChildIds(p.children)) == ChildIdSet(p.children);
      forall i | 0 <= i < |p.children|
        ensures Distinct(p.children[i].prerequisites)
            <==> |Elements(p.children[i].prerequisites)| == |p.children[i].prerequisites|
      {
        DistinctByCount(p.children[i].prerequisites);
      }
    }
  }

  // ---- the rows a decomposition adds ----

  function ChildDraft(target: CommitmentId, goal: GoalId, child: NewCommitment): Draft {
    Draft(child.id, goal, Some(target), child.brief, Proposed, child.prerequisites, None, None, 0)
  }

  function InsertChild(target: CommitmentId, goal: GoalId, child: NewCommitment): Mutation {
    Insert(ChildDraft(target, goal, child), CommitmentCreated(child.id, goal))
  }

  function Inserts(target: CommitmentId, goal: GoalId, children: seq<NewCommitment>): (ms: seq<Mutation>)
    ensures |ms| == |children|
  {
    seq(|children|, i requires 0 <= i < |children| => InsertChild(target, goal, children[i]))
  }

  function WithChildren(db: Db, target: CommitmentId, goal: GoalId, children: seq<NewCommitment>): Db
    decreases |children|
  {
    if children == [] then db
    else
      var k := |children| - 1;
      InsertEffect(WithChildren(db, target, goal, children[..k]), ChildDraft(target, goal, children[k]),
                   CommitmentCreated(children[k].id, goal))
  }

  /** Every prerequisite of a child is stored already or listed no later than the child. */
  predicate InListOrder(cs: Commitments, children: seq<NewCommitment>) {
    forall i :: 0 <= i < |children| ==>
      Dependencies(children[i].prerequisites) <= cs.Keys + Ids(ChildIds(children[..i + 1]))
  }

  // ---- the candidate graph ----

  function ChildEdges(children: seq<NewCommitment>): Acyclic.Graph
    decreases |children|
  {
    if children == [] then map[]
    else
      var k := |children| - 1;
      ChildEdges(children[..k])[children[k].id := Dependencies(children[k].prerequisites)]
  }

  /** The stored graph, the children's edges, and the target's new edge to its terminal. */
  function CandidateGraph(cs: Commitments, target: CommitmentId, children: seq<NewCommitment>, terminal: CommitmentId)
    : Acyclic.Graph
    requires target in cs
  {
    (GraphOf(cs) + ChildEdges(children))[target := Dependencies(cs[target].prerequisites) + {terminal}]
  }

  lemma ChildIdsSnoc(children: seq<NewCommitment>, i: nat)
    requires i < |children|
    ensures ChildIds(children[..i + 1]) == ChildIds(children[..i]) + [children[i].id]
    ensures Ids(ChildIds(children[..i + 1])) == Ids(ChildIds(children[..i])) + {children[i].id}
    ensures ChildIds(children)[i] == children[i].id
    ensures children[..i + 1][..i] == children[..i]
  {
    assert ChildIds(children[..i + 1]) == ChildIds(children[..i]) + [children[i].id];
  }

  lemma ExtendBoth(graph: Acyclic.Graph, edges: Acyclic.Graph, c: CommitmentId, dependencies: set<CommitmentId>)
    ensures (graph + edges)[c := dependencies] == graph + edges[c := dependencies]
  {
  }

  /** A stored child is exactly what was proposed: unclaimed, unlinked, proposed,
      with its description, acceptance references and whole list of prerequisites. */
  lemma {:induction false} ChildRow(db: Db, target: CommitmentId, goal: GoalId, children: seq<NewCommitment>, i: nat)
    requires Distinct(ChildIds(children)) && i < |children|
    ensures
      var after := WithChildren(db, target, goal, children).commitments;
      && children[i].id in after
      && after[children[i].id] == CommitmentRow(goal, Some(target), children[i].brief, Proposed,
                                                children[i].prerequisites, 0, None, None, 1)
    decreases |children|
  {
    var k := |children| - 1;
    if i < k {
      assert ChildIds(children[..k]) == ChildIds(children)[..k];
      ChildRow(db, target, goal, children[..k], i);
      assert ChildIds(children)[i] != ChildIds(children)[k];
    }
  }

  lemma {:induction false} WithChildrenRows(db: Db, target: CommitmentId, goal: GoalId, children: seq<NewCommitment>)
    ensures
      var after := WithChildren(db, target, goal, children);
      && after.commitments.Keys == db.commitments.Keys + Ids(ChildIds(children))
      && (forall c :: c in db.commitments && c !in ChildIds(children) ==> after.commitments[c] == db.commitments[c])
      && GraphOf(after.commitments) == GraphOf(db.commitments) + ChildEdges(children)
      && after == db.(commitments := after.commitments, events := after.events)
      && (Distinct(ChildIds(children)) ==> forall i :: 0 <= i < |children| ==>
            && children[i].id in after.commitments
            && after.commitments[children[i].id] == CommitmentRow(goal, Some(target), children[i].brief, Proposed,
                                                                  children[i].prerequisites, 0, None, None, 1))
    decreases |children|
  {
    hide GraphOf, Dependencies, Ids, Distinct;
    if Distinct(ChildIds(children)) {
      forall i | 0 <= i < |children|
        ensures
          var after := WithChildren(db, target, goal, children).commitments;
          && children[i].id in after
          && after[children[i].id] == CommitmentRow(goal, Some(target), children[i].brief, Proposed,
                                                    children[i].prerequisites, 0, None, None, 1)
      {
        ChildRow(db, target, goal, children, i);
      }
    }
    if children == [] {
      assert Ids(ChildIds(children)) == {} by { NoIds(); assert ChildIds(children) == []; }
      assert GraphOf(db.commitments) + ChildEdges(children) == GraphOf(db.commitments);
    } else {
      var k := |children| - 1;
      var child := children[k];
      WithChildrenRows(db, target, goal, children[..k]);
      var mid := WithChildren(db, target, goal, children[..k]);
      InsertExtendsGraph(mid.commitments, child.id, RowOf(ChildDraft(target, goal, child)));
      ExtendBoth(GraphOf(db.commitments), ChildEdges(children[..k]), child.id, Dependencies(child.prerequisites));
      ChildIdsSnoc(children, k);
      assert children[..k + 1] == children;
    }
  }

  lemma NoIds()
    ensures Ids([]) == {}
  {
  }

  /** The graph that is validated before the writes is the graph a reload
      would build after them. */
  lemma CandidateIsReload(db: Db, target: CommitmentId, goal: GoalId, children: seq<NewCommitment>, terminal: CommitmentId)
    requires target in db.commitments && target !in ChildIds(children)
    ensures
      var after := WithChildren(db, target, goal, children).commitments;
      && target in after && after[target] == db.commitments[target]
      && GraphOf(after[target := Linked(after[target], terminal)])
         == CandidateGraph(db.commitments, target, children, terminal)
  {
    WithChildrenRows(db, target, goal, children);
    var after := WithChildren(db, target, goal, children).commitments;
    var row := Linked(after[target], terminal);
    InsertExtendsGraph(after, target, row);
    LinkedDependencies(after[target], terminal);
  }

  lemma LinkedDependencies(row: CommitmentRow, terminal: CommitmentId)
    ensures Dependencies(Linked(row, terminal).prerequisites) == Dependencies(row.prerequisites) + {terminal}
  {
    var more := Linked(row, terminal).prerequisites;
    assert forall p :: p in more <==> p in row.prerequisites || p == NeedsCommitment(terminal);
    assert NeedsCommitment(terminal) in more;
    assert forall d :: d in Dependencies(more) ==> d in Dependencies(row.prerequisites) + {terminal};
    forall d | d in Dependencies(row.prerequisites) + {terminal}
      ensures d in Dependencies(more)
    {
      assert NeedsCommitment(d) in more;
    }
  }

  /** The candidate with one more prerequisite is again the reloaded graph. */
  lemma RequiringIsReload(cs: Commitments, target: CommitmentId, prerequisite: Prerequisite)
    requires target in cs
    ensures GraphOf(cs[target := Requiring(cs[target], prerequisite)])
         == GraphOf(cs)[target := Dependencies(cs[target].prerequisites)
                                  + if prerequisite.NeedsCommitment? then {prerequisite.id} else {}]
  {
    var row := Requiring(cs[target], prerequisite);
    InsertExtendsGraph(cs, target, row);
    var more := row.prerequisites;
    assert forall p :: p in more <==> p in cs[target].prerequisites || p == prerequisite;
    assert prerequisite in more;
    forall d | d in Dependencies(cs[target].prerequisites)
      ensures d in Dependencies(more)
    {
      assert NeedsCommitment(d) in more;
    }
    if prerequisite.NeedsCommitment? {
      assert prerequisite.id in Dependencies(more);
    }
    assert Dependencies(more) == Dependencies(cs[target].prerequisites)
                                 + if prerequisite.NeedsCommitment? then {prerequisite.id} else {};
  }

  lemma {:induction false} ChildEdgesAt(children: seq<NewCommitment>, i: nat)
    requires i < |children| && Distinct(ChildIds(children))
    ensures children[i].id in ChildEdges(children)
    ensures ChildEdges(children)[children[i].id] == Dependencies(children[i].prerequisites)
    decreases |children|
  {
    var k := |children| - 1;
    if i < k {
      assert ChildIds(children[..k]) == ChildIds(children)[..k];
      ChildEdgesAt(children[..k], i);
      assert ChildIds(children)[i] != ChildIds(children)[k];
    }
  }

  // ---- what a decomposition commits ----

  /** Everything a decomposition needs of the tables, given the target may be restructured. */
  ghost predicate MayDecomposeInto(db: Db, target: CommitmentId, children: seq<NewCommitment>, terminal: CommitmentId) {
    && target in db.commitments
    && (forall c :: c in ChildIds(children) ==> c !in db.commitments)
    && InListOrder(db.commitments, children)
    && Acyclic.IsAcyclic(CandidateGraph(db.commitments, target, children, terminal))
  }

  lemma NoChildNeedsItself(db: Db, target: CommitmentId, children: seq<NewCommitment>, terminal: CommitmentId, i: nat)
    requires MayDecomposeInto(db, target, children, terminal) && Distinct(ChildIds(children)) && i < |children|
    ensures NeedsCommitment(children[i].id) !in children[i].prerequisites
  {
    var c := children[i].id;
    assert ChildIds(children)[i] == c;
    if NeedsCommitment(c) in children[i].prerequisites {
      ChildEdgesAt(children, i);
      assert NeedsCommitment(c).id in Dependencies(children[i].prerequisites);
      assert Acyclic.IsCycle(CandidateGraph(db.commitments, target, children, terminal), [c, c]);
    }
  }

  lemma WithOneMoreChild(db: Db, target: CommitmentId, goal: GoalId, children: seq<NewCommitment>, i: nat)
    requires i < |children|
    ensures WithChildren(db, target, goal, children[..i + 1])
         == InsertEffect(WithChildren(db, target, goal, children[..i]), ChildDraft(target, goal, children[i]),
                         CommitmentCreated(children[i].id, goal))
  {
    assert children[..i + 1][..i] == children[..i];
  }

  lemma EarlierIds(children: seq<NewCommitment>, i: nat)
    requires Distinct(ChildIds(children)) && i < |children|
    ensures children[i].id !in Ids(ChildIds(children[..i]))
  {
    forall c | c in ChildIds(children[..i])
      ensures c != children[i].id
    {
      var j :| 0 <= j < i && ChildIds(children[..i])[j] == c;
      assert ChildIds(children)[j] == c && ChildIds(children)[i] == children[i].id;
    }
  }

  lemma ChildMayFollow(db: Db, target: CommitmentId, children: seq<NewCommitment>, terminal: CommitmentId, i: nat)
    requires MayDecomposeInto(db, target, children, terminal) && Distinct(ChildIds(children)) && i < |children|
    requires db.commitments[target].goal in db.goals
    ensures
      var goal := db.commitments[target].goal;
      var mid := WithChildren(db, target, goal, children[..i]);
      && MayInsert(mid, ChildDraft(target, goal, children[i]), CommitmentCreated(children[i].id, goal))
      && SoundInsert(mid, ChildDraft(target, goal, children[i]))
      && WithChildren(db, target, goal, children[..i + 1])
         == InsertEffect(mid, ChildDraft(target, goal, children[i]), CommitmentCreated(children[i].id, goal))
  {
    hide Acyclic.IsAcyclic, Dependencies, GraphOf, ChildEdges, CandidateGraph, InsertEffect, Ids, Distinct;
    var goal := db.commitments[target].goal;
    WithChildrenRows(db, target, goal, children[..i]);
    NoChildNeedsItself(db, target, children, terminal, i);
    ChildIdsSnoc(children, i);
    EarlierIds(children, i);
    TargetIsNoChild(db.commitments, target, children, i);
  }

  lemma TargetIsNoChild(cs: Commitments, target: CommitmentId, children: seq<NewCommitment>, i: nat)
    requires target in cs && i <= |children|
    requires forall c :: c in ChildIds(children) ==> c !in cs
    ensures target !in ChildIds(children[..i])
  {
    assert forall j :: 0 <= j < i ==> ChildIds(children[..i])[j] == ChildIds(children)[j];
  }

  lemma WithNoChildren(db: Db, target: CommitmentId, goal: GoalId)
    ensures WithChildren(db, target, goal, []) == db
  {
  }

  lemma {:induction false} ChildrenCommit(db: Db, target: CommitmentId, children: seq<NewCommitment>,
                                          terminal: CommitmentId, i: nat)
    requires MayDecomposeInto(db, target, children, terminal) && Distinct(ChildIds(children)) && i <= |children|
    requires db.commitments[target].goal in db.goals
    ensures
      var goal := db.commitments[target].goal;
      Commits(db, Inserts(target, goal, children)[..i], WithChildren(db, target, goal, children[..i]))
  {
    hide MayInsert, SoundInsert, Commits, InListOrder, CandidateGraph, Acyclic.IsAcyclic, WithChildren, InsertEffect, Distinct;
    var goal := db.commitments[target].goal;
    if i == 0 {
      assert Inserts(target, goal, children)[..0] == [];
      assert children[..0] == [];
      WithNoChildren(db, target, goal);
      CommitsNothing(db);
    } else {
      ChildrenCommit(db, target, children, terminal, i - 1);
      ChildMayFollow(db, target, children, terminal, i - 1);
      CommitsNext(db, Inserts(target, goal, children)[..i - 1], WithChildren(db, target, goal, children[..i - 1]),
                  InsertChild(target, goal, children[i - 1]));
      assert Inserts(target, goal, children)[..i]
          == Inserts(target, goal, children)[..i - 1] + [InsertChild(target, goal, children[i - 1])];
    }
  }

  lemma {:induction false} TerminalRow(db: Db, target: CommitmentId, goal: GoalId, children: seq<NewCommitment>,
                                       terminal: CommitmentId)
    requires terminal in ChildIds(children)
    ensures
      var after := WithChildren(db, target, goal, children).commitments;
      && terminal in after && after[terminal].state.Proposed?
      && after[terminal].parent == Some(target) && after[terminal].goal == goal
    decreases |children|
  {
    var k := |children| - 1;
    assert ChildIds(children) == ChildIds(children[..k]) + [children[k].id];
    if terminal != children[k].id {
      TerminalRow(db, target, goal, children[..k], terminal);
    }
  }

  lemma RestructureSurvivesInserts(db: Db, after: Db, target: CommitmentId, fence: Fence)
    requires target in db.commitments && target in after.commitments
    requires after.commitments[target] == db.commitments[target]
    requires after.claims == db.claims && after.guards == db.guards
    ensures MayRestructure(after, target, fence) <==> MayRestructure(db, target, fence)
  {
  }

  /** A permitted decomposition is a transaction: the children in list order, then the parent. */
  lemma DecompositionCommits(db: Db, target: CommitmentId, fence: Fence, children: seq<NewCommitment>,
                             terminal: CommitmentId)
    requires MayDecomposeInto(db, target, children, terminal) && Distinct(ChildIds(children))
    requires terminal in ChildIds(children)
    requires db.commitments[target].goal in db.goals
    requires MayRestructure(db, target, fence)
    requires db.commitments[target].state.Working? && db.commitments[target].replacement == None
    ensures
      var goal := db.commitments[target].goal;
      var mid := WithChildren(db, target, goal, children);
      && target in mid.commitments
      && Commits(db, Inserts(target, goal, children) + [Decompose(target, fence, terminal, ChildIds(children))],
                 DecomposeEffect(mid, target, terminal, ChildIds(children)))
  {
    hide Commits, MayRestructure, Acyclic.IsAcyclic, InListOrder, CandidateGraph;
    var goal := db.commitments[target].goal;
    var mid := WithChildren(db, target, goal, children);
    assert target !in ChildIds(children);
    ChildrenCommit(db, target, children, terminal, |children|);
    assert Inserts(target, goal, children)[..|children|] == Inserts(target, goal, children);
    assert children[..|children|] == children;
    WithChildrenRows(db, target, goal, children);
    CandidateIsReload(db, target, goal, children, terminal);
    TerminalRow(db, target, goal, children, terminal);
    RestructureSurvivesInserts(db, mid, target, fence);
    CommitsNext(db, Inserts(target, goal, children), mid, Decompose(target, fence, terminal, ChildIds(children)));
  }

  lemma FreshChildren(graph: Acyclic.Graph, children: seq<NewCommitment>)
    ensures (forall c :: c in ChildIds(children) ==> c !in graph)
        <==> (forall i :: 0 <= i < |children| ==> children[i].id !in graph)
  {
    if forall c :: c in ChildIds(children) ==> c !in graph {
      assert forall i :: 0 <= i < |children| ==> children[i].id == ChildIds(children)[i];
    }
  }

  lemma OrderedIsKnown(cs: Commitments, children: seq<NewCommitment>)
    requires InListOrder(cs, children)
    ensures forall i :: 0 <= i < |children| ==>
              Dependencies(children[i].prerequisites) <= cs.Keys + Ids(ChildIds(children))
  {
    hide Dependencies;
    forall i | 0 <= i < |children|
      ensures Dependencies(children[i].prerequisites) <= cs.Keys + Ids(ChildIds(children))
    {
      PrefixIds(children, i);
    }
  }

  lemma PrefixIds(children: seq<NewCommitment>, i: nat)
    requires i < |children|
    ensures Ids(ChildIds(children[..i + 1])) <= Ids(ChildIds(children))
  {
    assert ChildIds(children[..i + 1]) == ChildIds(children)[..i + 1];
    assert forall c :: c in ChildIds(children)[..i + 1] ==> c in ChildIds(children);
  }

  lemma ProposedIds(children: seq<NewCommitment>, proposed: set<CommitmentId>)
    requires proposed == set i | 0 <= i < |children| :: children[i].id
    ensures proposed == Ids(ChildIds(children))
  {
    assert forall i :: 0 <= i < |children| ==> children[i].id == ChildIds(children)[i];
    forall c | c in Ids(ChildIds(children))
      ensures c in proposed
    {
      var i :| 0 <= i < |children| && ChildIds(children)[i] == c;
      assert children[i].id == c;
    }
  }

  // ---- when a proposal is accepted ----

  function OverdueGuards(gs: Guards, c: CommitmentId, now: nat): set<GuardId> {
    set g | g in gs && gs[g].state.Issued? && gs[g].commitment == c && gs[g].state.deadline <= now
  }

  predicate NoLiveReservation(gs: Guards, c: CommitmentId, now: nat) {
    forall g :: g in gs && gs[g].commitment == c && gs[g].state.Issued? ==> gs[g].state.deadline <= now
  }

  ghost predicate MayAddPrerequisite(cs: Commitments, target: CommitmentId, prerequisite: Prerequisite) {
    && target in cs
    && prerequisite !in cs[target].prerequisites
    && (prerequisite.NeedsCommitment? ==> prerequisite.id in cs)
    && Acyclic.IsAcyclic(GraphOf(cs[target := Requiring(cs[target], prerequisite)]))
  }

  ghost predicate MayApply(db: Db, p: Proposal, fence: Fence) {
    && WellShaped(p)
    && Holds(db, p.target, fence)
    && RequiresClaim(db.commitments[p.target].state)
    && db.commitments[p.target].outstanding == None
    && db.commitments[p.target].version < MAX_I64
    && NoLiveReservation(db.guards, p.target, fence.now)
    && match p
       case Decomposition(target, _, children, terminal) =>
         && db.commitments[target].state.Working? && db.commitments[target].replacement == None
         && MayDecomposeInto(db, target, children, terminal)
       case AddPrerequisite(target, _, prerequisite) =>
         && db.commitments[target].replacement == None
         && MayAddPrerequisite(db.commitments, target, prerequisite)
       case Abandonment(target, _, _) => true
  }

  /** What an accepted proposal commits once overdue reservations are gone. */
  function ProposalMutations(db: Db, p: Proposal, fence: Fence): seq<Mutation>
    requires p.target in db.commitments
  {
    match p
    case Decomposition(target, _, children, terminal) =>
      Inserts(target, db.commitments[target].goal, children)
      + [Decompose(target, fence, terminal, ChildIds(children))]
    case AddPrerequisite(target, _, prerequisite) => [Require(target, fence, prerequisite)]
    case Abandonment(target, _, rationale) => [GiveUp(target, fence, rationale)]
  }

  function ProposalEffect(db: Db, p: Proposal): Db
    requires p.target in db.commitments
    requires p.Decomposition? ==>
      p.target in WithChildren(db, p.target, db.commitments[p.target].goal, p.children).commitments
  {
    match p
    case Decomposition(target, _, children, terminal) =>
      DecomposeEffect(WithChildren(db, target, db.commitments[target].goal, children), target, terminal, ChildIds(children))
    case AddPrerequisite(target, _, prerequisite) => RequireEffect(db, target, prerequisite)
    case Abandonment(target, _, rationale) => GiveUpEffect(db, target, rationale)
  }

  /** With no outstanding action, only an issued guard that is not overdue can be live. */
  lemma ClearedTarget(db: Db, gs: Guards, target: CommitmentId, now: nat)
    requires Inv(db) && target in db.commitments && db.commitments[target].outstanding == None
    requires gs == InvalidateAll(db.guards, OverdueGuards(db.guards, target, now))
    ensures NoLiveReservation(db.guards, target, now)
        <==> forall g :: g in gs && gs[g].commitment == target ==> !IsLive(gs[g].state)
  {
    hide ClaimsAgree, LocksAgree, GuardsSound, TopologySound, BarriersHold, BarriersReleased, Acyclic.IsAcyclic;
    forall g | g in db.guards && db.guards[g].commitment == target
      ensures !IsActive(db.guards[g].state)
    {
      assert IsActive(db.guards[g].state) ==> GuardFences(db.commitments, db.guards[g]);
    }
    if g :| g in db.guards && db.guards[g].commitment == target && db.guards[g].state.Issued?
            && now < db.guards[g].state.deadline {
      assert g in gs && gs[g] == db.guards[g];
    }
  }

  /** What is checked of the target before its reservations are swept. */
  predicate TargetReady(db: Db, p: Proposal, fence: Fence) {
    && Holds(db, p.target, fence)
    && RequiresClaim(db.commitments[p.target].state)
    && db.commitments[p.target].outstanding == None
    && (p.Decomposition? ==> db.commitments[p.target].state.Working?)
    && (!p.Abandonment? ==> db.commitments[p.target].replacement == None)
  }

  ghost predicate ChangeFits(db: Db, p: Proposal) {
    && p.target in db.commitments
    && db.commitments[p.target].version < MAX_I64
    && match p
       case Decomposition(target, _, children, terminal) => MayDecomposeInto(db, target, children, terminal)
       case AddPrerequisite(target, _, prerequisite) => MayAddPrerequisite(db.commitments, target, prerequisite)
       case Abandonment(target, _, _) => true
  }

  lemma MayApplyInParts(db: Db, p: Proposal, fence: Fence)
    ensures MayApply(db, p, fence) <==>
      && WellShaped(p) && TargetReady(db, p, fence)
      && NoLiveReservation(db.guards, p.target, fence.now)
      && ChangeFits(db, p)
  {
    hide WellShaped, NoLiveReservation, MayDecomposeInto, MayAddPrerequisite, LeaseLive;
  }

  /** Sweeping reservations changes none of the other conditions. */
  lemma MayApplyAfterSweep(db: Db, mid: Db, p: Proposal, fence: Fence)
    requires mid.commitments == db.commitments && mid.claims == db.claims
    requires p.target in db.commitments && NothingInFlight(mid, p.target)
    ensures MayApply(mid, p, fence) <==>
      WellShaped(p) && TargetReady(db, p, fence) && ChangeFits(db, p)
    ensures ChangeFits(mid, p) <==> ChangeFits(db, p)
  {
    hide WellShaped, LeaseLive;
    MayApplyInParts(mid, p, fence);
    assert forall g :: g in mid.guards && mid.guards[g].commitment == p.target ==> !mid.guards[g].state.Issued?;
  }

  lemma NowFits(db: Db, p: Proposal, fence: Fence)
    requires TargetReady(db, p, fence)
    ensures fence.now <= MAX_I64
  {
  }

  lemma TargetFacts(db: Db, p: Proposal, fence: Fence)
    requires TargetReady(db, p, fence)
    ensures p.target in db.commitments && db.commitments[p.target].outstanding == None
    ensures !p.Abandonment? ==> db.commitments[p.target].replacement == None
  {
  }

  lemma NothingIsInFlight(db: Db, target: CommitmentId)
    requires target in db.commitments && db.commitments[target].outstanding == None
    requires forall g :: g in db.guards && db.guards[g].commitment == target ==> !IsLive(db.guards[g].state)
    ensures NothingInFlight(db, target)
  {
  }

  lemma GoalIsStored(db: Db, target: CommitmentId)
    requires Inv(db) && target in db.commitments
    ensures db.commitments[target].goal in db.goals
  {
    hide ClaimsAgree, LocksAgree, GuardsSound, ActionsAgree, BarriersHold, BarriersReleased, Acyclic.IsAcyclic;
  }

  lemma StoredGraphIsAcyclic(db: Db)
    requires Inv(db)
    ensures Acyclic.IsAcyclic(GraphOf(db.commitments))
    ensures forall c :: c in db.commitments ==> Dependencies(db.commitments[c].prerequisites) <= db.commitments.Keys
  {
    hide ClaimsAgree, LocksAgree, GuardsSound, ActionsAgree, BarriersHold, BarriersReleased, Acyclic.IsAcyclic;
  }

  lemma ProposalCommits(db: Db, p: Proposal, fence: Fence)
    requires MayApply(db, p, fence) && NothingInFlight(db, p.target)
    requires db.commitments[p.target].goal in db.goals
    ensures p.Decomposition? ==>
      p.target in WithChildren(db, p.target, db.commitments[p.target].goal, p.children).commitments
    ensures Commits(db, ProposalMutations(db, p, fence), ProposalEffect(db, p))
  {
    hide Commits, MayDecomposeInto, Holds, NothingInFlight, NoLiveReservation, Distinct, Acyclic.IsAcyclic;
    assert MayRestructure(db, p.target, fence);
    match p
    case Decomposition(target, _, children, terminal) =>
      DecompositionCommits(db, target, fence, children, terminal);
    case AddPrerequisite(target, _, prerequisite) =>
      CommitsOne(db, Require(target, fence, prerequisite));
    case Abandonment(target, _, rationale) =>
      CommitsOne(db, GiveUp(target, fence, rationale));
  }

  lemma AcceptsOne(db: Db, m: Mutation)
    requires Allowed(db, m)
    ensures Accepted(db, [m]) && RunAll(db, [m]) == Do(db, m)
  {
    hide Allowed, Do;
    assert [m][..0] == [];
    assert RunAll(db, []) == db;
  }

  /** What one accepted insert is, sound or not. */
  lemma InsertedIs(db: Db, d: Draft, event: WorkEvent)
    requires MayInsert(db, d, event)
    ensures Accepted(db, [Insert(d, event)]) && RunAll(db, [Insert(d, event)]) == InsertEffect(db, d, event)
    ensures SoundInsert(db, d) ==> Commits(db, [Insert(d, event)], InsertEffect(db, d, event))
    ensures Inv(db) ==> (Inv(InsertEffect(db, d, event)) <==> SoundInsert(db, d))
  {
    hide Inv, SoundInsert, MayInsert, Commits, Accepted, RunAll, InsertEffect;
    AcceptsOne(db, Insert(d, event));
    if SoundInsert(db, d) { CommitsOne(db, Insert(d, event)); }
    if Inv(db) { InsertKeepsInvIff(db, d, event); }
  }

  lemma CommitsOne(db: Db, m: Mutation)
    requires Allowed(db, m) && SoundStep(db, m)
    ensures Commits(db, [m], Do(db, m))
  {
    hide Commits, Allowed, SoundStep, Do;
    CommitsNothing(db);
    CommitsNext(db, [], db, m);
    assert [] + [m] == [m];
  }
}
