/** The dependency graph and the grey/black depth-first cycle check. */
module Acyclic {
  import opened Domain

  type Node = CommitmentId
  type Graph = map<Node, set<Node>>

  datatype Colour = Grey | Black

  predicate Edge(graph: Graph, a: Node, b: Node) {
    a in graph && b in graph[a]
  }

  ghost predicate IsPath(graph: Graph, path: seq<Node>) {
    forall i :: 0 <= i < |path| - 1 ==> Edge(graph, path[i], path[i + 1])
  }

  /** A non-empty path that ends where it begins. */
  ghost predicate IsCycle(graph: Graph, path: seq<Node>) {
    |path| >= 2 && IsPath(graph, path) && path[0] == path[|path| - 1]
  }

  /** No node reaches itself by a non-empty path. */
  ghost predicate IsAcyclic(graph: Graph) {
    forall path :: !IsCycle(graph, path)
  }

  /** Every node of the graph: its keys and whatever they point at, key or not. */
  ghost function Nodes(graph: Graph): set<Node> {
    graph.Keys + set a, b | a in graph && b in graph[a] :: b
  }

  ghost predicate Closed(graph: Graph, s: set<Node>) {
    forall a, b :: a in s && Edge(graph, a, b) ==> b in s
  }

  lemma {:induction false} PathStaysInside(graph: Graph, path: seq<Node>, s: set<Node>, i: nat, k: nat)
    requires IsPath(graph, path) && Closed(graph, s)
    requires i <= k < |path| && path[i] in s
    ensures path[k] in s
    decreases k
  {
    if i < k {
      PathStaysInside(graph, path, s, i, k - 1);
      assert Edge(graph, path[k - 1], path[k - 1 + 1]);
    }
  }

  /** No cycle passes through the nodes of `s`. */
  ghost predicate CycleFree(graph: Graph, s: set<Node>) {
    forall path :: IsCycle(graph, path) ==> path[0] !in s
  }

  /** Turning a node black: once everything it points at is in a closed set
      without cycles, it can join that set. */
  lemma BlackenKeepsCycleFree(graph: Graph, black: set<Node>, node: Node)
    requires Closed(graph, black) && CycleFree(graph, black) && node !in black
    requires forall b :: Edge(graph, node, b) ==> b in black
    ensures Closed(graph, black + {node}) && CycleFree(graph, black + {node})
  {
    forall path | IsCycle(graph, path)
      ensures path[0] !in black + {node}
    {
      if path[0] == node {
        assert Edge(graph, path[0], path[0 + 1]);
        PathStaysInside(graph, path, black, 1, |path| - 1);
      }
    }
  }

  lemma AllBlackIsAcyclic(graph: Graph, black: set<Node>)
    requires graph.Keys <= black && CycleFree(graph, black)
    ensures IsAcyclic(graph)
  {
    forall path
      ensures !IsCycle(graph, path)
    {
      if |path| >= 2 && IsPath(graph, path) {
        assert Edge(graph, path[0], path[0 + 1]);
      }
    }
  }

  /** Meeting a node of the current path again closes a cycle. */
  lemma GreyIsCycle(graph: Graph, stack: seq<Node>, node: Node)
    requires IsPath(graph, stack) && node in stack && Edge(graph, stack[|stack| - 1], node)
    ensures !IsAcyclic(graph)
  {
    var i :| 0 <= i < |stack| && stack[i] == node;
    var cycle := stack[i..] + [node];
    forall j | 0 <= j < |cycle| - 1
      ensures Edge(graph, cycle[j], cycle[j + 1])
    {
      assert cycle[j] == stack[i + j];
      if j + 1 < |cycle| - 1 { assert cycle[j + 1] == stack[i + j + 1]; }
    }
    assert IsCycle(graph, cycle);
  }

  lemma DeeperPath(graph: Graph, stack: seq<Node>, node: Node)
    requires IsPath(graph, stack) && (stack != [] ==> Edge(graph, stack[|stack| - 1], node))
    ensures IsPath(graph, stack + [node])
  {
  }

  /** The colour map threaded by reference through the recursive visits. */
  class Colouring {
    const graph: Graph
    var colours: map<Node, Colour>

    constructor (graph: Graph)
      ensures this.graph == graph && colours == map[]
    {
      this.graph := graph;
      colours := map[];
    }

    ghost function Painted(colour: Colour): set<Node>
      reads this
    {
      set n | n in colours && colours[n] == colour
    }

    /** `stack` is the path of nodes whose visit has not returned. */
    ghost predicate Valid(stack: seq<Node>)
      reads this
    {
      && colours.Keys <= Nodes(graph)
      && Painted(Grey) == (set n | n in stack)
      && IsPath(graph, stack)
      && Closed(graph, Painted(Black))
      && CycleFree(graph, Painted(Black))
    }

    method Visit(node: Node, ghost stack: seq<Node>) returns (ok: bool)
      requires Valid(stack) && node in Nodes(graph)
      requires stack != [] ==> Edge(graph, stack[|stack| - 1], node)
      modifies this
      ensures ok ==> Valid(stack) && node in Painted(Black) && old(Painted(Black)) <= Painted(Black)
      ensures !ok ==> !IsAcyclic(graph)
      ensures old(colours.Keys) <= colours.Keys
      decreases Nodes(graph) - colours.Keys
    {
      hide IsAcyclic, IsCycle, Closed, CycleFree, IsPath;
      if node in colours && colours[node].Grey? {
        assert node in Painted(Grey);
        GreyIsCycle(graph, stack, node);
        return false;
      }
      if node in colours && colours[node].Black? {
        return true;
      }
      assert node !in stack by {
        assert node in stack ==> node in Painted(Grey);
      }
      colours := colours[node := Grey];
      ghost var deeper := stack + [node];
      DeeperPath(graph, stack, node);
      assert forall n :: n in deeper <==> n in stack || n == node;
      assert Painted(Black) == old(Painted(Black));
      assert Painted(Grey) == old(Painted(Grey)) + {node};
      assert Painted(Grey) == (set n | n in deeper);
      if node in graph {
        var remaining := graph[node];
        while remaining != {}
          invariant remaining <= graph[node]
          invariant Valid(deeper)
          invariant node in colours && old(colours.Keys) <= colours.Keys
          invariant old(Painted(Black)) <= Painted(Black)
          invariant forall d :: d in graph[node] - remaining ==> d in Painted(Black)
          decreases remaining
        {
          var dependency :| dependency in remaining;
          assert Edge(graph, node, dependency);
          label Before:
          assert old@Before(colours.Keys) <= colours.Keys;
          var visited := Visit(dependency, deeper);
          if !visited {
            return false;
          }
          remaining := remaining - {dependency};
        }
      }
      ghost var black := Painted(Black);
      assert node in Painted(Grey);
      BlackenKeepsCycleFree(graph, black, node);
      colours := colours[node := Black];
      assert Painted(Black) == black + {node};
      assert Painted(Grey) == (set n | n in stack);
      return true;
    }
  }

  /** Accepts exactly the acyclic graphs; a successful search leaves every key
      black and nothing grey. */
  method ValidateAcyclic(graph: Graph) returns (ok: bool)
    ensures ok <==> IsAcyclic(graph)
  {
    var search := new Colouring(graph);
    var remaining := graph.Keys;
    while remaining != {}
      invariant remaining <= graph.Keys && search.graph == graph
      invariant fresh(search)
      invariant search.Valid([])
      invariant graph.Keys - remaining <= search.Painted(Black)
      decreases remaining
    {
      var node :| node in remaining;
      if !(node in search.colours && search.colours[node].Black?) {
        var visited := search.Visit(node, []);
        if !visited {
          return false;
        }
      }
      remaining := remaining - {node};
    }
    assert search.Painted(Grey) == {};
    AllBlackIsAcyclic(graph, search.Painted(Black));
    return true;
  }

  /** A new node that nothing points at, and that does not point at itself,
      closes no cycle. */
  lemma FreshNodeKeepsAcyclic(graph: Graph, node: Node, dependencies: set<Node>)
    requires IsAcyclic(graph) && node !in graph && node !in dependencies
    requires forall a :: a in graph ==> node !in graph[a]
    ensures IsAcyclic(graph[node := dependencies])
  {
    var larger := graph[node := dependencies];
    forall path
      ensures !IsCycle(larger, path)
    {
      if |path| >= 2 && IsPath(larger, path) && path[0] == path[|path| - 1] {
        forall i | 0 < i < |path|
          ensures path[i] != node
        {
          assert Edge(larger, path[i - 1], path[i - 1 + 1]);
        }
        forall i | 0 <= i < |path| - 1
          ensures Edge(graph, path[i], path[i + 1])
        {
          assert Edge(larger, path[i], path[i + 1]);
        }
        assert IsCycle(graph, path);
      }
    }
  }
}
