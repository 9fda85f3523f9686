/** Decomposition inserts children in list order under immediate foreign keys,
    so the order of the list matters although the graph check ignores it. */
module SiblingOrder {
  import opened Domain
  import opened Database
  import opened Mutations
  import opened Planning
  import opened Cascade
  import opened Replies
  import opened Runs
  import opened Scenarios
  import Acyclic

  // ---- a refused order ----

  const FIRST := NewCommitment(CommitmentId("a"), Brief("first", []), [NeedsCommitment(CommitmentId("b"))])
  const SECOND := NewCommitment(CommitmentId("b"), Brief("second", []), [])

  function Proposed2(children: seq<NewCommitment>): Proposal {
    Decomposition(C, 1, children, FIRST.id)
  }

  lemma TwoChildren(first: NewCommitment, second: NewCommitment)
    ensures ChildEdges([first, second])
         == map[first.id := Dependencies(first.prerequisites)][second.id := Dependencies(second.prerequisites)]
    ensures ChildIds([first, second]) == [first.id, second.id]
    ensures ChildIds([first, second][..1]) == [first.id] && ChildIds([first, second][..2]) == [first.id, second.id]
  {
    assert [first, second][..1] == [first];
    assert [first, second][..2] == [first, second];
    assert [first][..0] == [];
    assert ChildEdges([]) == map[];
    assert ChildEdges([first]) == map[first.id := Dependencies(first.prerequisites)];
  }

  lemma LaterIsRefused(cs: Commitments, first: NewCommitment, second: NewCommitment)
    requires NeedsCommitment(second.id) in first.prerequisites && second.id !in cs && second.id != first.id
    ensures !InListOrder(cs, [first, second])
  {
    var children := [first, second];
    TwoChildren(first, second);
    assert NeedsCommitment(second.id).id in Dependencies(children[0].prerequisites);
    assert ChildIds(children[..0 + 1]) == [first.id];
    assert second.id !in Ids(ChildIds(children[..0 + 1]));
  }

  lemma EarlierIsAccepted(cs: Commitments, first: NewCommitment, second: NewCommitment)
    requires Dependencies(first.prerequisites) <= cs.Keys
    requires Dependencies(second.prerequisites) <= cs.Keys + {first.id}
    ensures InListOrder(cs, [first, second])
  {
    hide Dependencies;
    var children := [first, second];
    TwoChildren(first, second);
    assert children[..1 + 1] == children;
    assert first.id in ChildIds(children) by { assert ChildIds(children)[0] == first.id; }
  }

  lemma TwoSiblings()
    ensures FIRST.id != SECOND.id && FIRST.id != C && SECOND.id != C
    ensures Dependencies(FIRST.prerequisites) == {SECOND.id} && Dependencies(SECOND.prerequisites) == {}
  {
    assert FIRST.id.text[0] != SECOND.id.text[0] && FIRST.id.text[0] != C.text[0] && SECOND.id.text[0] != C.text[0];
    assert NeedsCommitment(SECOND.id) in FIRST.prerequisites;
    assert SECOND.id in Dependencies(FIRST.prerequisites);
  }

  lemma FamilyGraph(children: seq<NewCommitment>)
    requires children == [FIRST, SECOND] || children == [SECOND, FIRST]
    ensures Acyclic.IsAcyclic(CandidateGraph(WORKING.commitments, C, children, FIRST.id))
  {
    hide Acyclic.IsAcyclic;
    var a, b, cs := FIRST.id, SECOND.id, WORKING.commitments;
    TwoSiblings();
    TwoChildren(FIRST, SECOND);
    TwoChildren(SECOND, FIRST);
    Acyclic.AllBlackIsAcyclic(map[], {});
    Acyclic.FreshNodeKeepsAcyclic(map[], b, {});
    Acyclic.FreshNodeKeepsAcyclic(map[b := {}], a, {b});
    Acyclic.FreshNodeKeepsAcyclic(map[b := {}][a := {b}], C, {a});
    assert Dependencies(cs[C].prerequisites) == {};
    assert GraphOf(cs) == map[C := {}];
    assert Dependencies(cs[C].prerequisites) + {a} == {a};
    assert CandidateGraph(cs, C, children, a) == map[b := {}][a := {b}][C := {a}];
  }

  lemma FamilyShape(children: seq<NewCommitment>)
    requires children == [FIRST, SECOND] || children == [SECOND, FIRST]
    ensures WellShaped(Proposed2(children))
    ensures forall c :: c in ChildIds(children) ==> c !in WORKING.commitments
    ensures forall i :: 0 <= i < |children| ==>
              Dependencies(children[i].prerequisites) <= WORKING.commitments.Keys + Ids(ChildIds(children))
  {
    hide Dependencies;
    TwoSiblings();
    TwoChildren(FIRST, SECOND);
    TwoChildren(SECOND, FIRST);
    assert FIRST.id in ChildIds(children) && SECOND.id in ChildIds(children) by {
      assert ChildIds(children)[0] in ChildIds(children) && ChildIds(children)[1] in ChildIds(children);
    }
  }

  lemma WorkingIsReady(children: seq<NewCommitment>)
    ensures TargetReady(WORKING, Proposed2(children), Holder(1, 1)) && NoLiveReservation(WORKING.guards, C, 1)
  {
  }

  /** A concrete run to working work, and two orders of the same two children:
      one is refused by the foreign keys and by nothing else, the other applies. */
  lemma LaterSiblingIsRefused() returns (ms: seq<Mutation>)
    ensures Commits(EMPTY, ms, WORKING)
    ensures !MayApply(WORKING, Proposed2([FIRST, SECOND]), Holder(1, 1))
    ensures ProposalRefusal(WORKING, Proposed2([FIRST, SECOND]), W, 0, 1, 100) == Some(ConstraintFailed)
    ensures MayApply(WORKING, Proposed2([SECOND, FIRST]), Holder(1, 1))
  {
    hide Commits, Acyclic.IsAcyclic, CandidateGraph, Dependencies, InListOrder, WellShaped, TargetReady, NoLiveReservation,
         Inv, TargetRefusal;
    ms := ReachWorking();
    ReachedKeepsInv(ms, WORKING);
    var refused, accepted := [FIRST, SECOND], [SECOND, FIRST];
    TwoSiblings();
    FamilyGraph(refused);
    FamilyGraph(accepted);
    FamilyShape(refused);
    FamilyShape(accepted);
    WorkingIsReady(refused);
    WorkingIsReady(accepted);
    LaterIsRefused(WORKING.commitments, FIRST, SECOND);
    EarlierIsAccepted(WORKING.commitments, SECOND, FIRST);
    MayApplyInParts(WORKING, Proposed2(refused), Holder(1, 1));
    MayApplyInParts(WORKING, Proposed2(accepted), Holder(1, 1));
    TargetRefusalIsExact(WORKING, Proposed2(refused), Holder(1, 1));
    FreshChildren(GraphOf(WORKING.commitments), refused);
    assert forall i :: 0 <= i < |refused| ==> refused[i].id in ChildIds(refused) by {
      assert forall i :: 0 <= i < |refused| ==> ChildIds(refused)[i] == refused[i].id;
    }
  }

  // ---- some order is always accepted ----

  /** A walk inside a finite set of an acyclic graph ends at a node with no way on. */
  lemma {:induction false} SinkExists(graph: Acyclic.Graph, s: set<CommitmentId>, path: seq<CommitmentId>)
    returns (sink: CommitmentId)
    requires Acyclic.IsAcyclic(graph) && Acyclic.IsPath(graph, path)
    requires path != [] && (forall n :: n in path ==> n in s)
    requires forall i, j :: 0 <= i < j < |path| ==> path[i] != path[j]
    ensures sink in s && forall n :: n in s ==> !Acyclic.Edge(graph, sink, n)
    decreases |s| - |path|
  {
    var last := path[|path| - 1];
    assert last in path;
    var walked := set n | n in path;
    EnumerationLength(path, walked);
    SubsetIsShorter(walked, s);
    if exists n :: n in s && Acyclic.Edge(graph, last, n) {
      var n :| n in s && Acyclic.Edge(graph, last, n);
      assert n !in path by { NoWayBack(graph, path, n); }
      SubsetIsShorter(walked + {n}, s);
      sink := SinkExists(graph, s, path + [n]);
    } else {
      sink := last;
    }
  }

  lemma NoWayBack(graph: Acyclic.Graph, path: seq<CommitmentId>, n: CommitmentId)
    requires Acyclic.IsAcyclic(graph) && Acyclic.IsPath(graph, path)
    requires path != [] && Acyclic.Edge(graph, path[|path| - 1], n)
    ensures n !in path
  {
    if n in path {
      var i :| 0 <= i < |path| && path[i] == n;
      var cycle := path[i..] + [n];
      forall j | 0 <= j < |cycle| - 1
        ensures Acyclic.Edge(graph, cycle[j], cycle[j + 1])
      {
        assert cycle[j] == path[i + j];
        if j + 1 < |cycle| - 1 { assert cycle[j + 1] == path[i + j + 1]; }
      }
      assert Acyclic.IsCycle(graph, cycle);
    }
  }

  /** Every prerequisite of a child is known or belongs to a child listed no later. */
  predicate InOrder(known: set<CommitmentId>, children: seq<NewCommitment>)
    decreases |children|
  {
    children == [] ||
    (&& Dependencies(children[0].prerequisites) <= known + {children[0].id}
     && InOrder(known + {children[0].id}, children[1..]))
  }

  lemma {:induction false} InOrderIsListOrder(cs: Commitments, known: set<CommitmentId>, before: seq<NewCommitment>,
                                              children: seq<NewCommitment>)
    requires known == cs.Keys + Ids(ChildIds(before)) && InOrder(known, children)
    requires forall i :: 0 <= i < |before| ==>
               Dependencies(before[i].prerequisites) <= cs.Keys + Ids(ChildIds((before + children)[..i + 1]))
    ensures InListOrder(cs, before + children)
    decreases |children|
  {
    if children == [] {
      assert before + children == before;
    } else {
      var more := before + [children[0]];
      assert more + children[1..] == before + children;
      assert (before + children)[..|before| + 1] == more;
      ChildIdsSnoc(more, |before|);
      assert more[..|before|] == before && more[..|before| + 1] == more;
      InOrderIsListOrder(cs, known + {children[0].id}, more, children[1..]);
    }
  }

  /** Children whose prerequisites are known or among themselves, without a cycle. */
  ghost predicate Orderable(graph: Acyclic.Graph, known: set<CommitmentId>, children: seq<NewCommitment>) {
    && Acyclic.IsAcyclic(graph)
    && Distinct(ChildIds(children))
    && forall i :: 0 <= i < |children| ==>
         && children[i].id in graph && graph[children[i].id] == Dependencies(children[i].prerequisites)
         && Dependencies(children[i].prerequisites) <= known + Ids(ChildIds(children))
  }

  /** One child needs nothing of the others and can come first. */
  lemma FirstChild(graph: Acyclic.Graph, known: set<CommitmentId>, children: seq<NewCommitment>) returns (i: nat)
    requires Orderable(graph, known, children) && children != []
    ensures i < |children| && Dependencies(children[i].prerequisites) <= known
  {
    hide Acyclic.IsAcyclic, Dependencies;
    var ids := Ids(ChildIds(children));
    assert ChildIds(children)[0] in ids;
    var sink := SinkExists(graph, ids, [ChildIds(children)[0]]);
    i :| 0 <= i < |children| && ChildIds(children)[i] == sink;
    forall d | d in Dependencies(children[i].prerequisites)
      ensures d in known
    {
      assert d in ids ==> Acyclic.Edge(graph, sink, d);
    }
  }

  lemma WithoutOne(graph: Acyclic.Graph, known: set<CommitmentId>, children: seq<NewCommitment>, i: nat)
    requires Orderable(graph, known, children) && i < |children|
    ensures Orderable(graph, known + {children[i].id}, children[..i] + children[i + 1..])
  {
    hide Acyclic.IsAcyclic, Dependencies;
    var rest := children[..i] + children[i + 1..];
    assert ChildIds(rest) == ChildIds(children)[..i] + ChildIds(children)[i + 1..];
    forall c | c in Ids(ChildIds(children))
      ensures c in {children[i].id} + Ids(ChildIds(rest))
    {
      var j :| 0 <= j < |children| && ChildIds(children)[j] == c;
      if j < i { assert ChildIds(rest)[j] == c; }
      if j > i { assert ChildIds(rest)[j - 1] == c; }
    }
    assert Ids(ChildIds(children)) <= {children[i].id} + Ids(ChildIds(rest));
  }

  lemma WithoutOneIds(children: seq<NewCommitment>, i: nat)
    requires Distinct(ChildIds(children)) && i < |children|
    ensures
      var rest := ChildIds(children[..i] + children[i + 1..]);
      children[i].id !in rest && Ids(rest) + {children[i].id} == Ids(ChildIds(children))
  {
    var ids := ChildIds(children);
    var rest := ChildIds(children[..i] + children[i + 1..]);
    assert rest == ids[..i] + ids[i + 1..];
    forall c | c in ids
      ensures c in rest || c == ids[i]
    {
      var j :| 0 <= j < |ids| && ids[j] == c;
      if j < i { assert rest[j] == c; }
      if j > i { assert rest[j - 1] == c; }
    }
    assert ids[i] in ids;
    assert forall c :: c in rest ==> c in ids;
  }

  lemma PrependedIds(x: NewCommitment, rest: seq<NewCommitment>)
    requires Distinct(ChildIds(rest)) && x.id !in Ids(ChildIds(rest))
    ensures Distinct(ChildIds([x] + rest)) && Ids(ChildIds([x] + rest)) == {x.id} + Ids(ChildIds(rest))
  {
    assert ChildIds([x] + rest) == [x.id] + ChildIds(rest);
  }

  /** Putting the removed child in front of a reordering of the others reorders them all. */
  lemma Reassembled(children: seq<NewCommitment>, i: nat, rest: seq<NewCommitment>)
    requires i < |children| && multiset(rest) == multiset(children[..i] + children[i + 1..])
    ensures multiset([children[i]] + rest) == multiset(children)
  {
    assert children == children[..i] + [children[i]] + children[i + 1..];
  }

  lemma NothingIsInOrder(known: set<CommitmentId>)
    ensures InOrder(known, [])
  {
  }

  lemma FirstThenOthers(known: set<CommitmentId>, x: NewCommitment, rest: seq<NewCommitment>)
    requires Dependencies(x.prerequisites) <= known && InOrder(known + {x.id}, rest)
    ensures InOrder(known, [x] + rest)
  {
    assert ([x] + rest)[1..] == rest;
  }

  lemma {:induction false} OrderExists(graph: Acyclic.Graph, known: set<CommitmentId>, children: seq<NewCommitment>)
    returns (order: seq<NewCommitment>)
    requires Orderable(graph, known, children)
    ensures multiset(order) == multiset(children) && InOrder(known, order)
    ensures Distinct(ChildIds(order)) && Ids(ChildIds(order)) == Ids(ChildIds(children))
    decreases |children|
  {
    hide Orderable, Dependencies, Ids, Distinct, InOrder;
    assert Distinct(ChildIds(children)) by { OrderableIsDistinct(graph, known, children); }
    if children == [] {
      order := [];
      NothingIsInOrder(known);
    } else {
      var i := FirstChild(graph, known, children);
      var x := children[i];
      WithoutOne(graph, known, children, i);
      WithoutOneIds(children, i);
      var rest := OrderExists(graph, known + {x.id}, children[..i] + children[i + 1..]);
      NotAmongIds(ChildIds(children[..i] + children[i + 1..]), x.id);
      PrependedIds(x, rest);
      Reassembled(children, i, rest);
      FirstThenOthers(known, x, rest);
      order := [x] + rest;
    }
  }

  lemma OrderableIsDistinct(graph: Acyclic.Graph, known: set<CommitmentId>, children: seq<NewCommitment>)
    requires Orderable(graph, known, children)
    ensures Distinct(ChildIds(children))
  {
  }

  lemma NotAmongIds(ids: seq<CommitmentId>, c: CommitmentId)
    requires c !in ids
    ensures c !in Ids(ids)
  {
  }

  lemma {:induction false} ChildEdgeKeys(children: seq<NewCommitment>)
    ensures ChildEdges(children).Keys == Ids(ChildIds(children))
    decreases |children|
  {
    if children != [] {
      var k := |children| - 1;
      ChildEdgeKeys(children[..k]);
      ChildIdsSnoc(children, k);
      assert children[..k + 1] == children;
    }
  }

  /** Reordering distinct children leaves their edges as they were. */
  lemma ReorderingKeepsEdges(children: seq<NewCommitment>, order: seq<NewCommitment>)
    requires Distinct(ChildIds(children)) && Distinct(ChildIds(order))
    requires multiset(order) == multiset(children) && Ids(ChildIds(order)) == Ids(ChildIds(children))
    ensures ChildEdges(order) == ChildEdges(children)
  {
    hide Dependencies, Distinct;
    ChildEdgeKeys(children);
    ChildEdgeKeys(order);
    forall c | c in ChildEdges(order)
      ensures ChildEdges(order)[c] == ChildEdges(children)[c]
    {
      var i :| 0 <= i < |order| && ChildIds(order)[i] == c;
      assert order[i] in multiset(children);
      var j :| 0 <= j < |children| && children[j] == order[i];
      ChildEdgesAt(order, i);
      ChildEdgesAt(children, j);
    }
  }

  /** Main result: whenever the graph check accepts a decomposition, its children
      can be listed in an order in which the whole decomposition is accepted. */
  lemma SomeOrderIsAccepted(db: Db, target: CommitmentId, children: seq<NewCommitment>, terminal: CommitmentId)
    returns (order: seq<NewCommitment>)
    requires target in db.commitments && Distinct(ChildIds(children))
    requires forall c :: c in ChildIds(children) ==> c !in db.commitments
    requires forall i :: 0 <= i < |children| ==>
               Dependencies(children[i].prerequisites) <= db.commitments.Keys + Ids(ChildIds(children))
    requires Acyclic.IsAcyclic(CandidateGraph(db.commitments, target, children, terminal))
    ensures multiset(order) == multiset(children) && MayDecomposeInto(db, target, order, terminal)
  {
    hide Acyclic.IsAcyclic, InOrder, InListOrder, Distinct, Dependencies, GraphOf, Ids;
    var cs := db.commitments;
    var graph := CandidateGraph(cs, target, children, terminal);
    forall i | 0 <= i < |children|
      ensures children[i].id in graph && graph[children[i].id] == Dependencies(children[i].prerequisites)
    {
      ChildEdgesAt(children, i);
      assert ChildIds(children)[i] in ChildIds(children);
    }
    order := OrderExists(graph, cs.Keys, children);
    NoIds();
    assert ChildIds([]) == [];
    assert [] + order == order;
    assert cs.Keys + {} == cs.Keys;
    InOrderIsListOrder(cs, cs.Keys, [], order);
    ReorderingKeepsEdges(children, order);
    SameIds(children, order);
  }

  lemma SameIds(children: seq<NewCommitment>, order: seq<NewCommitment>)
    requires Ids(ChildIds(order)) == Ids(ChildIds(children))
    ensures forall c :: c in ChildIds(order) <==> c in ChildIds(children)
  {
    assert forall c :: c in ChildIds(order) <==> c in Ids(ChildIds(order));
    assert forall c :: c in ChildIds(children) <==> c in Ids(ChildIds(children));
  }
}
