/** The dashboard's two-endpoint path query: depth-limited bidirectional breadth-first search. */
module DashboardPathQuery {
  import opened Options
  import opened Graphs

  /** One side of the search: each visited node but the root has a visited predecessor one
      level closer to the root. */
  ghost predicate IsTree(g: Graph, root: Node, parent: map<Node, Option<Node>>, level: map<Node, nat>) {
    && parent.Keys == level.Keys
    && root in parent && parent[root] == None && level[root] == 0
    && (forall v :: v in parent ==> v in g)
    && (forall v :: v in parent && v != root ==>
          && parent[v].Some? && parent[v].value in parent
          && Edge(g, parent[v].value, v) && level[v] == level[parent[v].value] + 1)
  }

  /** A side explored to `depth`: it has visited exactly the ball, and `frontier` is its rim. */
  ghost predicate Explored(g: Graph, root: Node, parent: map<Node, Option<Node>>, level: map<Node, nat>,
                           depth: nat, frontier: seq<Node>) {
    && IsTree(g, root, parent, level)
    && parent.Keys == Ball(g, root, depth)
    && (forall v :: v in level ==> level[v] <= depth)
    && (forall v :: v in frontier <==> v in level && level[v] == depth)
    && (forall v, w :: v in level && level[v] < depth && Edge(g, v, w) ==> w in parent)
  }

  ghost function NeighborSet(g: Graph, s: seq<Node>): set<Node> {
    if s == [] then {} else NeighborSet(g, s[..|s| - 1]) + ListSet(Neighbors(g, s[|s| - 1]))
  }

  function Neighbors(g: Graph, u: Node): seq<Node> {
    if u in g then g[u] else []
  }

  ghost function ListSet(s: seq<Node>): set<Node> {
    set v | v in s
  }

  lemma {:induction false} NeighborSetMembers(g: Graph, s: seq<Node>, w: Node)
    ensures w in NeighborSet(g, s) <==> exists u :: u in s && Edge(g, u, w)
  {
    if s != [] {
      var n := |s| - 1;
      NeighborSetMembers(g, s[..n], w);
      assert s == s[..n] + [s[n]];
      assert w in ListSet(Neighbors(g, s[n])) <==> Edge(g, s[n], w);
    }
  }

  /** A level half expanded: `seen` are the neighbours already looked at. */
  ghost predicate Expanding(g: Graph, root: Node, parent0: map<Node, Option<Node>>, level0: map<Node, nat>, depth: nat,
                            seen: set<Node>, parent: map<Node, Option<Node>>, level: map<Node, nat>, next: seq<Node>) {
    && IsTree(g, root, parent, level)
    && parent.Keys == parent0.Keys + seen
    && (forall v :: v in parent0.Keys && v in level0 && v in level ==> level[v] == level0[v])
    && (forall v :: v in parent && v !in parent0 ==> level[v] == depth + 1)
    && (forall v :: v in next <==> v in parent && v !in parent0)
  }

  lemma ExpandingStart(g: Graph, root: Node, parent: map<Node, Option<Node>>, level: map<Node, nat>,
                       depth: nat, frontier: seq<Node>)
    requires Explored(g, root, parent, level, depth, frontier)
    ensures Expanding(g, root, parent, level, depth, {}, parent, level, [])
  {
  }

  lemma SeenAlready(g: Graph, root: Node, parent0: map<Node, Option<Node>>, level0: map<Node, nat>, depth: nat,
                    seen: set<Node>, parent: map<Node, Option<Node>>, level: map<Node, nat>, next: seq<Node>, v: Node)
    requires Expanding(g, root, parent0, level0, depth, seen, parent, level, next) && v in parent
    ensures Expanding(g, root, parent0, level0, depth, seen + {v}, parent, level, next)
  {
  }

  lemma SeenFresh(g: Graph, root: Node, parent0: map<Node, Option<Node>>, level0: map<Node, nat>, depth: nat,
                  frontier: seq<Node>, seen: set<Node>, parent: map<Node, Option<Node>>, level: map<Node, nat>,
                  next: seq<Node>, u: Node, v: Node)
    requires Explored(g, root, parent0, level0, depth, frontier) && u in frontier
    requires Expanding(g, root, parent0, level0, depth, seen, parent, level, next)
    requires Undirected(g) && Edge(g, u, v) && v !in parent
    ensures IsTree(g, root, parent[v := Some(u)], level[v := depth + 1])
    ensures Expanding(g, root, parent0, level0, depth, seen + {v}, parent[v := Some(u)], level[v := depth + 1],
                      next + [v])
  {
    hide Ball, Undirected;
    assert u in parent && u in level && level[u] == depth && v in g by {
      FrontierNode(g, root, parent0, level0, depth, frontier, seen, parent, level, next, u, v);
    }
    assert IsTree(g, root, parent[v := Some(u)], level[v := depth + 1]) by { GrowTree(g, root, parent, level, u, v); }
    hide IsTree, Explored;
    TreeKeys(g, root, parent, level);
  }

  lemma FrontierNode(g: Graph, root: Node, parent0: map<Node, Option<Node>>, level0: map<Node, nat>, depth: nat,
                     frontier: seq<Node>, seen: set<Node>, parent: map<Node, Option<Node>>, level: map<Node, nat>,
                     next: seq<Node>, u: Node, v: Node)
    requires Explored(g, root, parent0, level0, depth, frontier) && u in frontier
    requires Expanding(g, root, parent0, level0, depth, seen, parent, level, next)
    requires Undirected(g) && Edge(g, u, v)
    ensures u in parent && u in level && level[u] == depth && v in g
  {
    hide Ball;
    assert Edge(g, v, u);
  }

  lemma GrowTree(g: Graph, root: Node, parent: map<Node, Option<Node>>, level: map<Node, nat>, u: Node, v: Node)
    requires IsTree(g, root, parent, level) && u in parent && Edge(g, u, v) && v in g && v !in parent
    ensures IsTree(g, root, parent[v := Some(u)], level[v := level[u] + 1])
  {
  }

  /** Once every neighbour of the frontier has been looked at, the side is explored one level deeper. */
  lemma ExpandingDone(g: Graph, root: Node, parent0: map<Node, Option<Node>>, level0: map<Node, nat>, depth: nat,
                      frontier: seq<Node>, parent: map<Node, Option<Node>>, level: map<Node, nat>, next: seq<Node>)
    requires Explored(g, root, parent0, level0, depth, frontier)
    requires Expanding(g, root, parent0, level0, depth, NeighborSet(g, frontier), parent, level, next)
    ensures Explored(g, root, parent, level, depth + 1, next)
  {
    hide NeighborSet, IsTree, Ball;
    assert parent0.Keys == level0.Keys && parent.Keys == level.Keys by {
      TreeKeys(g, root, parent0, level0);
      TreeKeys(g, root, parent, level);
    }
    forall w
      ensures w in parent <==> w in Ball(g, root, depth + 1)
    {
      NeighborSetMembers(g, frontier, w);
      BallStep(g, root, depth, w);
    }
    forall v, w | v in level && level[v] < depth + 1 && Edge(g, v, w)
      ensures w in parent
    {
      BallStep(g, root, depth, w);
    }
  }

  lemma TreeKeys(g: Graph, root: Node, parent: map<Node, Option<Node>>, level: map<Node, nat>)
    requires IsTree(g, root, parent, level)
    ensures parent.Keys == level.Keys
  {
  }

  /** Expand one whole level of one side, stopping at the first neighbour the other side has visited. */
  method ExpandLevel(g: Graph, ghost root: Node, parent: map<Node, Option<Node>>, ghost level: map<Node, nat>,
                     ghost depth: nat, frontier: seq<Node>, other: map<Node, Option<Node>>)
    returns (parent': map<Node, Option<Node>>, ghost level': map<Node, nat>, next: seq<Node>, meeting: Option<Node>)
    requires Undirected(g) && Explored(g, root, parent, level, depth, frontier)
    requires parent.Keys !! other.Keys
    ensures meeting.None? ==> Explored(g, root, parent', level', depth + 1, next) && parent'.Keys !! other.Keys
    ensures meeting.Some? ==> && IsTree(g, root, parent', level')
                              && meeting.value in parent' && meeting.value in level'
                              && level'[meeting.value] == depth + 1
                              && meeting.value in other
  {
    hide Explored, Expanding, IsTree, NeighborSet;
    parent', level', next, meeting := parent, level, [], None;
    ExpandingStart(g, root, parent, level, depth, frontier);
    EmptyNeighborSet(g);
    for i := 0 to |frontier|
      invariant Expanding(g, root, parent, level, depth, NeighborSet(g, frontier[..i]), parent', level', next)
      invariant parent'.Keys !! other.Keys && meeting.None?
    {
      var node := frontier[i];
      var neighbors := Neighbors(g, node);
      assert ListSet(neighbors[..0]) == {};
      assert NeighborSet(g, frontier[..i]) + {} == NeighborSet(g, frontier[..i]);
      for j := 0 to |neighbors|
        invariant Expanding(g, root, parent, level, depth, NeighborSet(g, frontier[..i]) + ListSet(neighbors[..j]),
                            parent', level', next)
        invariant parent'.Keys !! other.Keys && meeting.None?
      {
        var neighbor := neighbors[j];
        ghost var seen := NeighborSet(g, frontier[..i]) + ListSet(neighbors[..j]);
        assert seen + {neighbor} == NeighborSet(g, frontier[..i]) + ListSet(neighbors[..j + 1]);
        assert Edge(g, node, neighbor);
        if neighbor in other {
          SeenFresh(g, root, parent, level, depth, frontier, seen, parent', level', next, node, neighbor);
          parent', level' := parent'[neighbor := Some(node)], level'[neighbor := depth + 1];
          meeting := Some(neighbor);
          return;
        }
        if neighbor !in parent' {
          SeenFresh(g, root, parent, level, depth, frontier, seen, parent', level', next, node, neighbor);
          parent', level' := parent'[neighbor := Some(node)], level'[neighbor := depth + 1];
          next := next + [neighbor];
        } else {
          SeenAlready(g, root, parent, level, depth, seen, parent', level', next, neighbor);
        }
      }
      assert neighbors[..|neighbors|] == neighbors;
      NeighborSetSnoc(g, frontier, i);
    }
    assert frontier[..|frontier|] == frontier;
    ExpandingDone(g, root, parent, level, depth, frontier, parent', level', next);
  }

  lemma EmptyNeighborSet(g: Graph)
    ensures NeighborSet(g, []) == {}
  {
  }

  lemma NeighborSetSnoc(g: Graph, s: seq<Node>, i: nat)
    requires i < |s|
    ensures NeighborSet(g, s[..i + 1]) == NeighborSet(g, s[..i]) + ListSet(Neighbors(g, s[i]))
  {
    assert s[..i + 1][..i] == s[..i];
  }

  /** Follow predecessors from `start` to the root of the tree. */
  method WalkBack(g: Graph, ghost root: Node, parent: map<Node, Option<Node>>, ghost level: map<Node, nat>,
                  start: Option<Node>) returns (p: seq<Node>)
    requires Undirected(g) && IsTree(g, root, parent, level)
    requires start.Some? ==> start.value in parent
    ensures start.None? ==> p == []
    ensures start.Some? ==> |p| == level[start.value] + 1 && WalkFromTo(g, p, start.value, root)
  {
    p := [];
    var node := start;
    while node.Some?
      invariant node.Some? ==> node.value in parent
      invariant start.None? ==> p == [] && node.None?
      invariant start.Some? && node.Some? ==> |p| + level[node.value] == level[start.value]
      invariant start.Some? && node.None? ==> |p| == level[start.value] + 1 && p[|p| - 1] == root
      invariant p != [] ==> start.Some? && IsWalk(g, p) && p[0] == start.value
      invariant p != [] && node.Some? ==> Edge(g, p[|p| - 1], node.value)
      invariant p == [] ==> node == start
      decreases if node.Some? then level[node.value] + 1 else 0
    {
      if p != [] {
        JoinWalks(g, p, [node.value]);
      }
      p := p + [node.value];
      node := parent[node.value];
      if node.Some? {
        assert Edge(g, node.value, p[|p| - 1]);
      }
    }
  }

  /** The two half paths through the meeting node. */
  method Reconstruct(g: Graph, ghost source: Node, ghost target: Node,
                     parentS: map<Node, Option<Node>>, ghost levelS: map<Node, nat>,
                     parentT: map<Node, Option<Node>>, ghost levelT: map<Node, nat>, meeting: Node)
    returns (path: seq<Node>)
    requires Undirected(g) && IsTree(g, source, parentS, levelS) && IsTree(g, target, parentT, levelT)
    requires meeting in parentS && meeting in parentT && meeting in levelS && meeting in levelT
    ensures WalkFromTo(g, path, source, target)
    ensures |path| - 1 == levelS[meeting] + levelT[meeting]
  {
    var back := WalkBack(g, source, parentS, levelS, Some(meeting));
    ReverseWalk(g, back);
    var toTarget := WalkBack(g, target, parentT, levelT, parentT[meeting]);
    path := Reverse(back) + toTarget;
    if parentT[meeting].Some? {
      assert Edge(g, toTarget[0], meeting);
      JoinWalks(g, Reverse(back), toTarget);
    } else {
      assert path == Reverse(back);
    }
  }

  /** The real bound on the length of a path the search can find. */
  function HopLimit(maxDepth: int): nat {
    2 * HalfDepth(maxDepth)
  }

  function HalfDepth(maxDepth: int): (half: nat)
    ensures half >= 1
  {
    if maxDepth / 2 >= 1 then maxDepth / 2 else 1
  }

  /** A meeting one level beyond two disjoint balls is on a shortest path. */
  lemma MeetingIsShortest(g: Graph, s: Node, t: Node, a: nat, b: nat, path: seq<Node>, limit: nat)
    requires Undirected(g) && Ball(g, s, a) !! Ball(g, t, b) && limit >= a + b + 1
    requires WalkFromTo(g, path, s, t) && |path| - 1 <= a + b + 1
    ensures IsShortest(g, path, s, t) && |path| - 1 == a + b + 1
    ensures WithinHops(g, s, t, limit)
  {
    DisjointBallsSeparate(g, s, t, a, b, path);
    forall q | WalkFromTo(g, q, s, t)
      ensures |path| <= |q|
    {
      DisjointBallsSeparate(g, s, t, a, b, q);
    }
  }

  lemma ExploredStart(g: Graph, root: Node)
    requires root in g
    ensures Explored(g, root, map[root := None], map[root := 0], 0, [root])
  {
  }

  lemma ExploredTree(g: Graph, root: Node, parent: map<Node, Option<Node>>, level: map<Node, nat>,
                     depth: nat, frontier: seq<Node>)
    requires Explored(g, root, parent, level, depth, frontier)
    ensures IsTree(g, root, parent, level)
  {
  }

  /** Two explored sides without a common node have covered disjoint balls. */
  lemma BallsApart(g: Graph, s: Node, t: Node,
                   parentS: map<Node, Option<Node>>, levelS: map<Node, nat>, depthS: nat, frontierS: seq<Node>,
                   parentT: map<Node, Option<Node>>, levelT: map<Node, nat>, depthT: nat, frontierT: seq<Node>)
    requires Explored(g, s, parentS, levelS, depthS, frontierS) && Explored(g, t, parentT, levelT, depthT, frontierT)
    requires parentS.Keys !! parentT.Keys
    ensures Ball(g, s, depthS) !! Ball(g, t, depthT)
  {
    hide Ball, IsTree;
  }

  lemma ExploredLevel(g: Graph, root: Node, parent: map<Node, Option<Node>>, level: map<Node, nat>,
                      depth: nat, frontier: seq<Node>, v: Node)
    requires Explored(g, root, parent, level, depth, frontier) && v in parent
    ensures v in level && level[v] <= depth
  {
  }

  /** No edge leaves the ball. */
  ghost predicate Saturated(g: Graph, root: Node, depth: nat) {
    forall u, v :: u in Ball(g, root, depth) && Edge(g, u, v) ==> v in Ball(g, root, depth)
  }

  /** A side whose frontier ran empty has nothing more to reach. */
  lemma ExploredClosed(g: Graph, root: Node, parent: map<Node, Option<Node>>, level: map<Node, nat>,
                       depth: nat, frontier: seq<Node>)
    requires Explored(g, root, parent, level, depth, frontier)
    ensures frontier == [] ==> Saturated(g, root, depth)
  {
    if frontier == [] {
      forall v | v in level
        ensures level[v] < depth
      {
        assert v !in frontier;
      }
    }
  }

  /** Neither endpoint reaches the other within the limit once the balls stay disjoint to the end. */
  lemma ExhaustedMeansTooFar(g: Graph, s: Node, t: Node, a: nat, b: nat, closed: bool, limit: nat)
    requires Undirected(g) && Ball(g, s, a) !! Ball(g, t, b)
    requires a + b >= limit || closed
    requires closed ==> Saturated(g, s, a) || Saturated(g, t, b)
    ensures !WithinHops(g, s, t, limit)
  {
    if p :| WalkFromTo(g, p, s, t) && |p| - 1 <= limit {
      DisjointBallsSeparate(g, s, t, a, b, p);
      BallGrows(g, s, 0, a);
      BallGrows(g, t, 0, b);
      ReverseWalk(g, p);
      if Saturated(g, s, a) {
        SaturatedBall(g, s, a, p);
      } else {
        SaturatedBall(g, t, b, Reverse(p));
      }
      assert false;
    }
  }

  /** The path through a node where the two sides met. */
  method PathThrough(g: Graph, ghost source: Node, ghost target: Node,
                     parentS: map<Node, Option<Node>>, ghost levelS: map<Node, nat>, ghost a: nat,
                     parentT: map<Node, Option<Node>>, ghost levelT: map<Node, nat>, ghost b: nat,
                     meeting: Node, ghost limit: nat)
    returns (path: seq<Node>)
    requires Undirected(g) && IsTree(g, source, parentS, levelS) && IsTree(g, target, parentT, levelT)
    requires meeting in parentS && meeting in parentT && meeting in levelS && meeting in levelT
    requires levelS[meeting] + levelT[meeting] <= a + b + 1 <= limit
    requires Ball(g, source, a) !! Ball(g, target, b)
    ensures IsShortest(g, path, source, target) && |path| - 1 <= limit && WithinHops(g, source, target, limit)
  {
    hide *;
    path := Reconstruct(g, source, target, parentS, levelS, parentT, levelT, meeting);
    MeetingIsShortest(g, source, target, a, b, path, limit);
  }

  /** Alternating expansion of both sides, at most `HalfDepth` levels each. A returned path is a
      shortest one; nothing is returned exactly when no path has at most `HopLimit` hops. */
  method BidirectionalBfs(g: Graph, source: Node, target: Node, maxDepth: int) returns (r: Option<seq<Node>>)
    requires Undirected(g)
    ensures source == target ==> r == Some([source])
    ensures source != target && r.Some? ==>
              IsShortest(g, r.value, source, target) && |r.value| - 1 <= HopLimit(maxDepth)
    ensures r.None? <==>
              source != target && (source !in g || target !in g || !WithinHops(g, source, target, HopLimit(maxDepth)))
  {
    hide Explored, IsTree, Ball, Saturated, HalfDepth, Edge, Undirected, WalkFromTo, IsShortest, WithinHops;
    if source == target {
      return Some([source]);
    }
    if source !in g || target !in g {
      return None;
    }
    var half := HalfDepth(maxDepth);
    var parentS, parentT: map<Node, Option<Node>> := map[source := None], map[target := None];
    ghost var levelS, levelT: map<Node, nat> := map[source := 0], map[target := 0];
    var frontierS, frontierT := [source], [target];
    var depthS: nat, depthT: nat := 0, 0;
    ExploredStart(g, source);
    ExploredStart(g, target);
    while frontierS != [] && frontierT != [] && depthS < half && depthT < half
      invariant Explored(g, source, parentS, levelS, depthS, frontierS)
      invariant Explored(g, target, parentT, levelT, depthT, frontierT)
      invariant parentS.Keys !! parentT.Keys && depthS == depthT <= half
      decreases half - depthS
    {
      BallsApart(g, source, target, parentS, levelS, depthS, frontierS, parentT, levelT, depthT, frontierT);
      var meeting;
      parentS, levelS, frontierS, meeting := ExpandLevel(g, source, parentS, levelS, depthS, frontierS, parentT);
      if meeting.Some? {
        ExploredTree(g, target, parentT, levelT, depthT, frontierT);
        ExploredLevel(g, target, parentT, levelT, depthT, frontierT, meeting.value);
        var path := PathThrough(g, source, target, parentS, levelS, depthS, parentT, levelT, depthT, meeting.value,
                                HopLimit(maxDepth));
        return Some(path);
      }
      depthS := depthS + 1;
      if frontierT != [] && depthT < half {
        BallsApart(g, source, target, parentS, levelS, depthS, frontierS, parentT, levelT, depthT, frontierT);
        parentT, levelT, frontierT, meeting := ExpandLevel(g, target, parentT, levelT, depthT, frontierT, parentS);
        if meeting.Some? {
          ExploredTree(g, source, parentS, levelS, depthS, frontierS);
          ExploredLevel(g, source, parentS, levelS, depthS, frontierS, meeting.value);
          var path := PathThrough(g, source, target, parentS, levelS, depthS, parentT, levelT, depthT, meeting.value,
                                  HopLimit(maxDepth));
          return Some(path);
        }
        depthT := depthT + 1;
      }
    }
    BallsApart(g, source, target, parentS, levelS, depthS, frontierS, parentT, levelT, depthT, frontierT);
    ExploredClosed(g, source, parentS, levelS, depthS, frontierS);
    ExploredClosed(g, target, parentT, levelT, depthT, frontierT);
    ExhaustedMeansTooFar(g, source, target, depthS, depthT, frontierS == [] || frontierT == [], HopLimit(maxDepth));
    r := None;
  }

  datatype PathQueryResult = PathQueryResult(found: bool, path: Option<seq<Node>>, hopCount: Option<int>,
                                             searchDepthUsed: int)

  /** The dashboard entry point over a k-anonymized view. */
  method FindKnownBadActorPath(view: Graph, a: Node, b: Node, maxDepth: int) returns (r: PathQueryResult)
    requires Undirected(view)
    ensures r.searchDepthUsed == maxDepth
    ensures r.found <==> a in view && b in view && WithinHops(view, a, b, HopLimit(maxDepth))
    ensures !r.found ==> r.path == None && r.hopCount == None
    ensures r.found ==> && r.path.Some? && IsShortest(view, r.path.value, a, b)
                        && r.hopCount == Some(|r.path.value| - 1) && |r.path.value| - 1 <= HopLimit(maxDepth)
  {
    if a !in view || b !in view {
      return PathQueryResult(false, None, None, maxDepth);
    }
    var path := BidirectionalBfs(view, a, b, maxDepth);
    if path.Some? {
      if a == b {
        StayingIsShortest(view, a);
      }
      r := PathQueryResult(true, path, Some(|path.value| - 1), maxDepth);
    } else {
      r := PathQueryResult(false, None, None, maxDepth);
    }
  }

  lemma StayingIsShortest(g: Graph, a: Node)
    requires a in g
    ensures IsShortest(g, [a], a, a) && forall n: nat :: WithinHops(g, a, a, n)
  {
    assert WalkFromTo(g, [a], a, a);
  }
}
