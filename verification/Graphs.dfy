/** Undirected graphs, walks and balls. */
module Graphs {

  type Node = string

  /** An undirected link, as the set of its endpoints (one element for a self-link). */
  type Link = set<Node>

  function LinkOf(a: Node, b: Node): Link {
    {a, b}
  }

  ghost predicate IsPair(e: Link) {
    exists a, b :: e == LinkOf(a, b)
  }

  lemma PairIsPair(a: Node, b: Node)
    ensures IsPair(LinkOf(a, b))
  {
  }

  function NodesOf(links: set<Link>): set<Node> {
    set e, v | e in links && v in e :: v
  }

  /** Adjacency lists, in the order `neighbors` yields them. */
  type Graph = map<Node, seq<Node>>

  predicate Edge(g: Graph, u: Node, v: Node) {
    u in g && v in g[u]
  }

  ghost predicate Undirected(g: Graph) {
    forall u, v :: Edge(g, u, v) ==> Edge(g, v, u)
  }

  ghost predicate IsWalk(g: Graph, p: seq<Node>) {
    && p != []
    && (forall i :: 0 <= i < |p| ==> p[i] in g)
    && (forall i :: 0 <= i < |p| - 1 ==> Edge(g, p[i], p[i + 1]))
  }

  ghost predicate WalkFromTo(g: Graph, p: seq<Node>, s: Node, t: Node) {
    IsWalk(g, p) && p[0] == s && p[|p| - 1] == t
  }

  ghost predicate IsShortest(g: Graph, p: seq<Node>, s: Node, t: Node) {
    WalkFromTo(g, p, s, t) && forall q :: WalkFromTo(g, q, s, t) ==> |p| <= |q|
  }

  ghost predicate WithinHops(g: Graph, s: Node, t: Node, n: nat) {
    exists p :: WalkFromTo(g, p, s, t) && |p| - 1 <= n
  }

  function Reverse(p: seq<Node>): (r: seq<Node>)
    ensures |r| == |p|
    ensures forall i :: 0 <= i < |p| ==> r[i] == p[|p| - 1 - i]
  {
    seq(|p|, i requires 0 <= i < |p| => p[|p| - 1 - i])
  }

  lemma ReverseWalk(g: Graph, p: seq<Node>)
    requires Undirected(g) && IsWalk(g, p)
    ensures IsWalk(g, Reverse(p))
  {
    var r := Reverse(p);
    forall i | 0 <= i < |r| - 1
      ensures Edge(g, r[i], r[i + 1])
    {
      assert Edge(g, p[|p| - 2 - i], p[|p| - 2 - i + 1]);
    }
  }

  lemma JoinWalks(g: Graph, p: seq<Node>, q: seq<Node>)
    requires IsWalk(g, p) && IsWalk(g, q) && Edge(g, p[|p| - 1], q[0])
    ensures IsWalk(g, p + q)
  {
    forall i | 0 <= i < |p + q| - 1
      ensures Edge(g, (p + q)[i], (p + q)[i + 1])
    {
      if i >= |p| {
        assert Edge(g, q[i - |p|], q[i - |p| + 1]);
      }
    }
  }

  /** The nodes within `n` hops of `s`. */
  ghost function Ball(g: Graph, s: Node, n: nat): set<Node> {
    if n == 0 then {s} else Ball(g, s, n - 1) + (set u, v | u in Ball(g, s, n - 1) && u in g && v in g[u] :: v)
  }

  lemma BallStep(g: Graph, s: Node, n: nat, v: Node)
    ensures v in Ball(g, s, n + 1) <==> v in Ball(g, s, n) || exists u :: u in Ball(g, s, n) && Edge(g, u, v)
  {
  }

  lemma {:induction false} BallGrows(g: Graph, s: Node, m: nat, n: nat)
    requires m <= n
    ensures Ball(g, s, m) <= Ball(g, s, n)
    decreases n
  {
    if m < n {
      BallGrows(g, s, m, n - 1);
    }
  }

  /** The end of a walk of at most `n` hops is in the ball. */
  lemma {:induction false} WalkInBall(g: Graph, p: seq<Node>, n: nat)
    requires IsWalk(g, p) && |p| - 1 <= n
    ensures p[|p| - 1] in Ball(g, p[0], n)
    decreases |p|
  {
    if |p| == 1 {
      BallGrows(g, p[0], 0, n);
    } else {
      WalkInBall(g, p[..|p| - 1], n - 1);
      assert Edge(g, p[|p| - 2], p[|p| - 2 + 1]);
      BallStep(g, p[0], n - 1, p[|p| - 1]);
    }
  }

  lemma WalkParts(g: Graph, p: seq<Node>, k: nat)
    requires IsWalk(g, p) && k < |p|
    ensures IsWalk(g, p[..k + 1]) && IsWalk(g, p[k..])
  {
    hide Edge;
    var q := p[k..];
    forall i | 0 <= i < |q| - 1
      ensures Edge(g, q[i], q[i + 1])
    {
      assert Edge(g, p[k + i], p[k + i + 1]);
    }
  }

  /** If the balls of radius `a` and `b` around the ends are disjoint, every walk has more than `a + b` hops. */
  lemma DisjointBallsSeparate(g: Graph, s: Node, t: Node, a: nat, b: nat, p: seq<Node>)
    requires Undirected(g) && WalkFromTo(g, p, s, t)
    requires Ball(g, s, a) !! Ball(g, t, b)
    ensures |p| - 1 > a + b
  {
    if |p| - 1 <= a + b {
      var k := if a <= |p| - 1 then a else |p| - 1;
      var (front, back) := (p[..k + 1], p[k..]);
      WalkParts(g, p, k);
      ReverseWalk(g, back);
      hide *;
      WalkInBall(g, front, a);
      WalkInBall(g, Reverse(back), b);
    }
  }

  /** A ball that stops growing holds everything reachable. */
  lemma {:induction false} SaturatedBall(g: Graph, s: Node, n: nat, p: seq<Node>)
    requires IsWalk(g, p) && p[0] == s
    requires forall u, v :: u in Ball(g, s, n) && Edge(g, u, v) ==> v in Ball(g, s, n)
    ensures p[|p| - 1] in Ball(g, s, n)
    decreases |p|
  {
    if |p| == 1 {
      BallGrows(g, s, 0, n);
    } else {
      SaturatedBall(g, s, n, p[..|p| - 1]);
      assert Edge(g, p[|p| - 2], p[|p| - 2 + 1]);
    }
  }

  /** A shortest walk repeats no node. */
  lemma ShortestIsSimple(g: Graph, p: seq<Node>, s: Node, t: Node, i: nat, j: nat)
    requires IsShortest(g, p, s, t) && i < j < |p|
    ensures p[i] != p[j]
  {
    if p[i] == p[j] {
      var q := p[..i] + p[j..];
      forall k | 0 <= k < |q| - 1
        ensures Edge(g, q[k], q[k + 1])
      {
        if k < i {
          assert Edge(g, p[k], p[k + 1]);
        } else {
          assert Edge(g, p[j + k - i], p[j + k - i + 1]);
        }
      }
      assert WalkFromTo(g, q, s, t);
    }
  }
}
