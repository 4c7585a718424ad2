/** Finite directed graphs as the adjacency dictionaries the domain layer builds
    (`edges.setdefault(source, set()).add(target)`), their walks and their cycles. */
module Digraphs {

  type Graph = map<string, set<string>>

  function Successors(g: Graph, node: string): set<string> {
    if node in g then g[node] else {}
  }

  predicate Edge(g: Graph, source: string, target: string) {
    target in Successors(g, source)
  }

  function AddEdge(g: Graph, source: string, target: string): (r: Graph)
    ensures forall a, b :: Edge(r, a, b) <==> Edge(g, a, b) || (a == source && b == target)
  {
    g[source := Successors(g, source) + {target}]
  }

  function Nodes(g: Graph): (r: set<string>)
    ensures forall a, b :: Edge(g, a, b) ==> a in r && b in r
  {
    g.Keys + set n, t | n in g && t in g[n] :: t
  }

  /** A non-empty list of nodes, each joined to the next by an edge. */
  ghost predicate Walk(g: Graph, w: seq<string>) {
    |w| > 0 && forall i | 0 <= i < |w| - 1 :: Edge(g, w[i], w[i + 1])
  }

  /** A walk of at least one edge that ends where it starts. */
  ghost predicate ClosedWalk(g: Graph, w: seq<string>) {
    |w| >= 2 && Walk(g, w) && w[0] == w[|w| - 1]
  }

  /** A closed walk that repeats no node except its first as its last. */
  ghost predicate SimpleCycle(g: Graph, w: seq<string>) {
    ClosedWalk(g, w) && forall i, j | 0 <= i < j < |w| - 1 :: w[i] != w[j]
  }

  ghost predicate Acyclic(g: Graph) {
    forall w :: !ClosedWalk(g, w)
  }

  /** A walk of at least one edge leads from `a` to `b`. */
  ghost predicate Leads(g: Graph, a: string, b: string) {
    exists w :: |w| >= 2 && Walk(g, w) && w[0] == a && w[|w| - 1] == b
  }

  /** `rank` strictly decreases along every edge. */
  ghost predicate Ranked(g: Graph, rank: map<string, nat>) {
    forall a, b | Edge(g, a, b) :: a in rank && b in rank && rank[b] < rank[a]
  }

  lemma {:induction false} RankFallsAlongWalk(g: Graph, rank: map<string, nat>, w: seq<string>, i: nat)
    requires Ranked(g, rank) && Walk(g, w) && 0 < i < |w|
    ensures w[0] in rank && w[i] in rank && rank[w[i]] < rank[w[0]]
  {
    assert Edge(g, w[i - 1], w[i]);
    if i > 1 {
      RankFallsAlongWalk(g, rank, w, i - 1);
    }
  }

  lemma RankedIsAcyclic(g: Graph, rank: map<string, nat>)
    requires Ranked(g, rank)
    ensures Acyclic(g)
  {
    forall w ensures !ClosedWalk(g, w) {
      if ClosedWalk(g, w) {
        RankFallsAlongWalk(g, rank, w, |w| - 1);
      }
    }
  }

  /** A closed walk can be entered at any of its nodes. */
  lemma ClosedWalkLeadsBack(g: Graph, w: seq<string>, i: nat)
    requires ClosedWalk(g, w) && i < |w|
    ensures Leads(g, w[i], w[i])
  {
    var r := w[i..] + w[1..i + 1];
    assert |r| == |w| && r[0] == w[i];
    assert r[|r| - 1] == w[i];
    forall k | 0 <= k < |r| - 1 ensures Edge(g, r[k], r[k + 1]) {
      if k < |w| - i - 1 {
        assert r[k] == w[i + k] && r[k + 1] == w[i + k + 1];
      } else {
        var m := k - (|w| - i - 1);
        assert r[k] == w[m] by {
          if m > 0 {
            assert r[k] == w[1..i + 1][m - 1];
          }
        }
        assert r[k + 1] == w[m + 1];
      }
    }
  }

  lemma AcyclicIffNothingLeadsBack(g: Graph)
    ensures Acyclic(g) <==> forall n :: !Leads(g, n, n)
  {
    if !Acyclic(g) {
      var w :| ClosedWalk(g, w);
      ClosedWalkLeadsBack(g, w, 0);
    }
    forall n | Leads(g, n, n) ensures !Acyclic(g) {
      var w :| |w| >= 2 && Walk(g, w) && w[0] == n && w[|w| - 1] == n;
      assert ClosedWalk(g, w);
    }
  }
}
