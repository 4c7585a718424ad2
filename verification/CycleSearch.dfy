/** The depth-first cycle search of the relationship registry. */
module CycleSearch {
  import opened Wrappers
  import opened Ordering
  import opened Digraphs

  ghost predicate OnPath(active: set<string>, path: seq<string>) {
    && (forall n :: n in active <==> n in path)
    && Distinct(path)
  }

  /** Every node of `rank` leads only to nodes of `rank`, and only downwards. */
  ghost predicate Finished(edges: Graph, rank: map<string, nat>) {
    && (forall n | n in rank :: rank[n] < |rank|)
    && (forall n, t | n in rank && Edge(edges, n, t) :: t in rank && rank[t] < rank[n])
  }

  /** What the search keeps between two calls of `visit`. `rank` is the finishing order of the
      nodes that were left without finding a cycle. */
  ghost predicate SearchState(edges: Graph, visited: set<string>, active: set<string>, path: seq<string>,
                              rank: map<string, nat>)
  {
    && OnPath(active, path)
    && (path != [] ==> Walk(edges, path))
    && active <= visited <= Nodes(edges)
    && rank.Keys == visited - active
    && Finished(edges, rank)
  }

  /** `path.index(node)`. */
  function IndexOf(path: seq<string>, node: string): (i: nat)
    requires node in path
    ensures i < |path| && path[i] == node && node !in path[..i]
  {
    if path[0] == node then 0 else 1 + IndexOf(path[1..], node)
  }

  lemma SuffixWalk(edges: Graph, path: seq<string>, start: nat, node: string)
    requires start < |path| && Walk(edges, path) && Edge(edges, path[|path| - 1], node)
    ensures Walk(edges, path[start..] + [node])
  {
    hide Edge;
    var w := path[start..] + [node];
    forall i | 0 <= i < |w| - 1 ensures Edge(edges, w[i], w[i + 1]) {
      assert w[i] == path[start + i];
      if i + 1 < |w| - 1 {
        assert w[i + 1] == path[start + i + 1];
      }
    }
  }

  lemma CloseCycle(edges: Graph, visited: set<string>, active: set<string>, path: seq<string>,
                   rank: map<string, nat>, node: string)
    requires SearchState(edges, visited, active, path, rank) && node in active
    requires path != [] ==> Edge(edges, path[|path| - 1], node)
    ensures node in path && SimpleCycle(edges, path[IndexOf(path, node)..] + [node])
  {
    hide Edge, Finished, Walk, Nodes;
    SuffixWalk(edges, path, IndexOf(path, node), node);
  }

  lemma EnterPath(active: set<string>, path: seq<string>, node: string)
    requires OnPath(active, path) && node !in active
    ensures OnPath(active + {node}, path + [node])
  {
    assert forall n :: n in path + [node] <==> n in path || n == node;
  }

  lemma EnterWalk(edges: Graph, path: seq<string>, node: string)
    requires path != [] ==> Walk(edges, path) && Edge(edges, path[|path| - 1], node)
    ensures Walk(edges, path + [node])
  {
    hide Edge;
    var longer := path + [node];
    forall i | 0 <= i < |longer| - 1 ensures Edge(edges, longer[i], longer[i + 1]) {
      assert longer[i] == path[i];
    }
  }

  lemma Enter(edges: Graph, visited: set<string>, active: set<string>, path: seq<string>,
              rank: map<string, nat>, node: string)
    requires SearchState(edges, visited, active, path, rank)
    requires node in Nodes(edges) && node !in visited
    requires path != [] ==> Edge(edges, path[|path| - 1], node)
    ensures SearchState(edges, visited + {node}, active + {node}, path + [node], rank)
  {
    hide Walk, Finished, Edge, OnPath, Nodes;
    EnterPath(active, path, node);
    EnterWalk(edges, path, node);
    assert rank.Keys == (visited + {node}) - (active + {node});
  }

  lemma LeavePath(active: set<string>, path: seq<string>, node: string)
    requires OnPath(active, path + [node])
    ensures OnPath(active - {node}, path)
  {
    var longer := path + [node];
    forall i, j | 0 <= i < j < |path| ensures path[i] != path[j] {
      assert longer[i] != longer[j];
    }
    assert node !in path by {
      forall i | 0 <= i < |path| ensures path[i] != node {
        assert longer[i] != longer[|path|];
      }
    }
    assert forall n :: n in longer <==> n in path || n == node;
  }

  lemma LeaveWalk(edges: Graph, path: seq<string>, node: string)
    requires Walk(edges, path + [node]) && path != []
    ensures Walk(edges, path)
  {
    var longer := path + [node];
    forall i | 0 <= i < |path| - 1 ensures Edge(edges, path[i], path[i + 1]) {
      assert Edge(edges, longer[i], longer[i + 1]);
    }
  }

  lemma Finish(edges: Graph, rank: map<string, nat>, node: string)
    requires Finished(edges, rank) && node !in rank
    requires forall t | Edge(edges, node, t) :: t in rank
    ensures Finished(edges, rank[node := |rank|])
  {
    assert |rank[node := |rank|]| == |rank| + 1;
  }

  lemma Leave(edges: Graph, visited: set<string>, active: set<string>, path: seq<string>,
              rank: map<string, nat>, node: string)
    requires SearchState(edges, visited, active, path + [node], rank)
    requires forall t | t in Successors(edges, node) :: t in rank
    ensures SearchState(edges, visited, active - {node}, path, rank[node := |rank|])
    ensures node in active
  {
    hide Walk, Finished;
    assert (path + [node])[|path|] == node;
    assert node in path + [node];
    assert node in active;
    LeavePath(active, path, node);
    if path != [] {
      LeaveWalk(edges, path, node);
    }
    Finish(edges, rank, node);
    assert rank[node := |rank|].Keys == visited - (active - {node});
  }

  lemma SuccessorEdge(edges: Graph, node: string, target: string)
    requires target in Successors(edges, node)
    ensures Edge(edges, node, target) && target in Nodes(edges)
  {
  }

  lemma RankedAreVisited(edges: Graph, visited: set<string>, active: set<string>, path: seq<string>,
                         rank: map<string, nat>)
    requires SearchState(edges, visited, active, path, rank)
    ensures rank.Keys == visited - active
  {
  }

  /** A search that finished every node has ranked every edge. */
  lemma SearchComplete(edges: Graph, visited: set<string>, active: set<string>, path: seq<string>,
                       rank: map<string, nat>)
    requires SearchState(edges, visited, active, path, rank)
    requires forall n | n in Nodes(edges) :: n in rank
    ensures Acyclic(edges)
  {
    hide Walk;
    RankedIsAcyclic(edges, rank);
  }

  lemma SimpleCycleRefutes(edges: Graph, w: seq<string>)
    requires SimpleCycle(edges, w)
    ensures !Acyclic(edges)
  {
    assert ClosedWalk(edges, w);
  }

  /** The state the nested `visit` closes over. */
  class CycleFinder {
    const edges: Graph
    var visited: set<string>
    var active: set<string>
    var path: seq<string>
    ghost var rank: map<string, nat>

    ghost predicate Valid()
      reads this
    {
      SearchState(edges, visited, active, path, rank)
    }

    constructor (edges: Graph)
      ensures Valid() && this.edges == edges
      ensures path == [] && active == {} && visited == {} && rank == map[]
    {
      this.edges := edges;
      visited, active, path, rank := {}, {}, [], map[];
    }

    lemma Unfold()
      requires Valid()
      ensures SearchState(edges, visited, active, path, rank)
    {
    }

    lemma Fold()
      requires SearchState(edges, visited, active, path, rank)
      ensures Valid()
    {
    }

    /** `visited.add(node); active.add(node); path.append(node)`. */
    method Advance(node: string)
      requires Valid() && node in Nodes(edges) && node !in visited
      requires path != [] ==> Edge(edges, path[|path| - 1], node)
      modifies this
      ensures Valid() && rank == old(rank)
      ensures visited == old(visited) + {node} && active == old(active) + {node} && path == old(path) + [node]
    {
      hide *;
      Unfold();
      Enter(edges, visited, active, path, rank, node);
      visited, active, path := visited + {node}, active + {node}, path + [node];
      Fold();
    }

    /** `path.pop(); active.remove(node)`. */
    method Retreat(node: string)
      requires Valid() && path != [] && path[|path| - 1] == node
      requires forall t | t in Successors(edges, node) :: t in rank
      modifies this
      ensures Valid() && visited == old(visited)
      ensures path == old(path[..|path| - 1]) && active == old(active) - {node}
      ensures rank.Keys == old(rank.Keys) + {node}
      ensures node in old(active)
    {
      hide *;
      Unfold();
      assert path == path[..|path| - 1] + [node];
      Leave(edges, visited, active, path[..|path| - 1], rank, node);
      path, active, rank := path[..|path| - 1], active - {node}, rank[node := |rank|];
      Fold();
    }

    /** Either a simple cycle is returned, or the search state is back where it was with `node`
        and everything it leads to finished. */
    method Visit(node: string) returns (cycle: Option<seq<string>>)
      requires Valid() && node in Nodes(edges)
      requires path != [] ==> Edge(edges, path[|path| - 1], node)
      modifies this
      ensures cycle.Some? ==> SimpleCycle(edges, cycle.value)
      ensures cycle.None? ==> Valid() && path == old(path) && active == old(active)
      ensures cycle.None? ==> old(visited) <= visited && old(rank.Keys) <= rank.Keys && node in rank
      decreases Nodes(edges) - visited
    {
      hide *;
      Unfold();
      if node in active {
        CloseCycle(edges, visited, active, path, rank, node);
        return Some(path[IndexOf(path, node)..] + [node]);
      }
      if node in visited {
        RankedAreVisited(edges, visited, active, path, rank);
        return None;
      }
      Advance(node);
      var targets := SortedSet(Successors(edges, node));
      for i := 0 to |targets|
        invariant Valid() && path == old(path) + [node] && active == old(active) + {node}
        invariant old(visited) + {node} <= visited && old(rank.Keys) <= rank.Keys
        invariant forall j | 0 <= j < i :: targets[j] in rank
      {
        assert targets[i] in targets;
        SuccessorEdge(edges, node, targets[i]);
        cycle := Visit(targets[i]);
        if cycle.Some? {
          return;
        }
      }
      forall t | t in Successors(edges, node) ensures t in rank {
        assert t in targets;
      }
      Retreat(node);
      assert active == old(active) && path == old(path);
      cycle := None;
    }
  }

  /** `_first_cycle`: nothing exactly when the graph is acyclic, a simple cycle otherwise. */
  method FirstCycle(edges: Graph) returns (cycle: Option<seq<string>>)
    ensures cycle.None? <==> Acyclic(edges)
    ensures cycle.Some? ==> SimpleCycle(edges, cycle.value)
  {
    hide *;
    var finder := new CycleFinder(edges);
    var nodes := SortedSet(Nodes(edges));
    for i := 0 to |nodes|
      invariant finder.Valid() && finder.path == [] && finder.edges == edges
      invariant forall j | 0 <= j < i :: nodes[j] in finder.rank
    {
      assert nodes[i] in nodes;
      cycle := finder.Visit(nodes[i]);
      if cycle.Some? {
        SimpleCycleRefutes(edges, cycle.value);
        return;
      }
    }
    finder.Unfold();
    SearchComplete(edges, finder.visited, finder.active, finder.path, finder.rank);
    cycle := None;
  }
}
