/** How far the bidirectional search really looks, against what is documented. */
module SearchScope {
  import opened Graphs
  import opened DashboardPathQuery

  /** The chain `0 - 1 - ... - n`; the node of index `i` is a string of length `i`. */
  ghost function Chain(n: nat): Graph {
    map u | u in ChainWalk(n) ::
      (if u == "" then [] else [NodeAt(|u| - 1)]) + (if |u| == n then [] else [NodeAt(|u| + 1)])
  }

  function NodeAt(i: nat): (u: Node)
    ensures |u| == i
  {
    seq(i, _ => 'x')
  }

  function ChainWalk(n: nat): (p: seq<Node>)
    ensures |p| == n + 1 && forall i :: 0 <= i <= n ==> p[i] == NodeAt(i)
  {
    seq(n + 1, i requires 0 <= i => NodeAt(i))
  }

  lemma ChainEdge(n: nat, u: Node, v: Node)
    ensures Edge(Chain(n), u, v) <==>
              u in ChainWalk(n) && ((u != "" && v == NodeAt(|u| - 1)) || (|u| < n && v == NodeAt(|u| + 1)))
  {
  }

  lemma ChainUndirected(n: nat)
    ensures Undirected(Chain(n))
  {
    forall u, v | Edge(Chain(n), u, v)
      ensures Edge(Chain(n), v, u)
    {
      ChainEdge(n, u, v);
      assert v == ChainWalk(n)[|v|];
      ChainEdge(n, v, u);
    }
  }

  lemma {:induction false} ChainSteps(n: nat, p: seq<Node>, k: nat)
    requires IsWalk(Chain(n), p) && p[0] == NodeAt(0) && k < |p|
    ensures |p[k]| <= k
  {
    if k > 0 {
      ChainSteps(n, p, k - 1);
      assert Edge(Chain(n), p[k - 1], p[k - 1 + 1]);
      ChainEdge(n, p[k - 1], p[k]);
    }
  }

  /** On a chain the ends are exactly `n` hops apart. */
  lemma ChainEndsApart(n: nat, hops: nat)
    ensures Undirected(Chain(n))
    ensures WithinHops(Chain(n), NodeAt(0), NodeAt(n), hops) <==> n <= hops
  {
    hide Chain;
    ChainUndirected(n);
    if p :| WalkFromTo(Chain(n), p, NodeAt(0), NodeAt(n)) && |p| - 1 <= hops {
      ChainSteps(n, p, |p| - 1);
    }
    if n <= hops {
      ChainWalkIsWalk(n);
    }
  }

  lemma ChainWalkIsWalk(n: nat)
    ensures WalkFromTo(Chain(n), ChainWalk(n), NodeAt(0), NodeAt(n))
  {
    var p := ChainWalk(n);
    forall i | 0 <= i < |p| - 1
      ensures Edge(Chain(n), p[i], p[i + 1])
    {
      assert p[i] in p;
      ChainEdge(n, p[i], p[i + 1]);
    }
  }

  /** The nodes are at most `maxDepth` hops apart; no two nodes are when it is negative. */
  ghost predicate WithinMaxDepth(g: Graph, a: Node, b: Node, maxDepth: int) {
    maxDepth >= 0 && WithinHops(g, a, b, maxDepth)
  }

  ghost predicate LimitIsMaxDepth(g: Graph, a: Node, b: Node, maxDepth: int) {
    WithinHops(g, a, b, HopLimit(maxDepth)) <==> WithinMaxDepth(g, a, b, maxDepth)
  }

  /** The documented scope of the search, "paths of at most `max_depth` hops", is what it really
      searches on every graph exactly when `max_depth` is even and at least 2. */
  lemma DocumentedScopeHolds(maxDepth: int)
    ensures (forall g, a, b :: Undirected(g) ==> LimitIsMaxDepth(g, a, b, maxDepth)) <==>
            maxDepth >= 2 && maxDepth % 2 == 0
  {
    var limit := HopLimit(maxDepth);
    if limit != maxDepth {
      var n := if limit < maxDepth then maxDepth else limit;
      ChainEndsApart(n, limit);
      if maxDepth >= 0 {
        ChainEndsApart(n, maxDepth);
      }
      assert !LimitIsMaxDepth(Chain(n), NodeAt(0), NodeAt(n), maxDepth);
    }
  }
}
