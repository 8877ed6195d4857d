/** The campaign correlation graph: incident aggregation behind a k-anonymity gate. */
module CampaignGraph {
  import opened Options
  import opened Sets
  import opened Graphs
  import opened DashboardPathQuery

  const K_ANONYMITY_FLOOR := 5
  const ISOLATED_NODE_PRUNE_DAYS := 90.0
  const SECONDS_PER_DAY := 86400.0

  datatype NodeInfo = NodeInfo(firstSeen: real, lastSeen: real, incidentIds: set<string>)

  /** Nodes, links with their last activity, and the incidents that corroborate each link. */
  datatype Campaign = Campaign(nodes: map<Node, NodeInfo>, links: map<Link, real>, incidents: map<Link, set<string>>)

  const EMPTY := Campaign(map[], map[], map[])

  /** The pairs one incident reports together. */
  function PairsOf(keys: seq<Node>): set<Link> {
    set i, j | 0 <= i < j < |keys| :: LinkOf(keys[i], keys[j])
  }

  function Touched(nodes: map<Node, NodeInfo>, k: Node, id: string, now: real): NodeInfo {
    if k in nodes then nodes[k].(lastSeen := now, incidentIds := nodes[k].incidentIds + {id})
    else NodeInfo(now, now, {id})
  }

  function IdsOf(incidents: map<Link, set<string>>, e: Link): set<string> {
    if e in incidents then incidents[e] else {}
  }

  /** One incident: its keys seen now, its pairs linked and corroborated by its id. */
  function Recorded(st: Campaign, keys: seq<Node>, id: string, now: real): Campaign {
    Campaign(map k | k in st.nodes.Keys + (set k | k in keys) ::
               if k in keys then Touched(st.nodes, k, id, now) else st.nodes[k],
             LinkedBy(st.links, PairsOf(keys), now),
             CorroboratedBy(st.incidents, PairsOf(keys), id))
  }

  function LinkedBy(links: map<Link, real>, pairs: set<Link>, now: real): map<Link, real> {
    map e | e in links.Keys + pairs :: if e in pairs then now else links[e]
  }

  function CorroboratedBy(incidents: map<Link, set<string>>, pairs: set<Link>, id: string): map<Link, set<string>> {
    map e | e in incidents.Keys + pairs :: IdsOf(incidents, e) + (if e in pairs then {id} else {})
  }

  predicate Isolated(st: Campaign, n: Node) {
    forall e :: e in st.links ==> n !in e
  }

  predicate Prunable(st: Campaign, n: Node, now: real) {
    n in st.nodes && Isolated(st, n) && (now - st.nodes[n].lastSeen) / SECONDS_PER_DAY >= ISOLATED_NODE_PRUNE_DAYS
  }

  function Pruned(st: Campaign, now: real): Campaign {
    st.(nodes := map n | n in st.nodes && !Prunable(st, n, now) :: st.nodes[n])
  }

  function CorroborationCount(st: Campaign, a: Node, b: Node): nat {
    |IdsOf(st.incidents, LinkOf(a, b))|
  }

  predicate IsLinkExposable(st: Campaign, a: Node, b: Node) {
    CorroborationCount(st, a, b) >= K_ANONYMITY_FLOOR
  }

  /** The links of the k-anonymized view. */
  function ExposedLinks(st: Campaign): set<Link> {
    set e | e in st.links && |IdsOf(st.incidents, e)| >= K_ANONYMITY_FLOOR
  }

  // ------------------------------------------------------------------- runs

  datatype Op = Record(keys: seq<Node>, id: string, at: real) | Prune(at: real)

  function Apply(st: Campaign, op: Op): Campaign {
    match op
    case Record(keys, id, at) => Recorded(st, keys, id, at)
    case Prune(at) => Pruned(st, at)
  }

  function Run(ops: seq<Op>): Campaign {
    if ops == [] then EMPTY else Apply(Run(ops[..|ops| - 1]), ops[|ops| - 1])
  }

  /** The distinct incidents of a history that report both ends of a link together. */
  ghost function CoReporting(ops: seq<Op>, e: Link): set<string> {
    set i | 0 <= i < |ops| && ops[i].Record? && e in PairsOf(ops[i].keys) :: ops[i].id
  }

  lemma CoReportingStep(ops: seq<Op>, e: Link)
    requires ops != []
    ensures var last := ops[|ops| - 1];
            CoReporting(ops, e) == CoReporting(ops[..|ops| - 1], e)
              + (if last.Record? && e in PairsOf(last.keys) then {last.id} else {})
  {
    var front := ops[..|ops| - 1];
    forall id
      ensures id in CoReporting(ops, e) <==>
                id in CoReporting(front, e)
                || (ops[|ops| - 1].Record? && e in PairsOf(ops[|ops| - 1].keys) && id == ops[|ops| - 1].id)
    {
      assert forall i :: 0 <= i < |front| ==> front[i] == ops[i];
    }
  }

  /** Exactly the links of counted pairs exist, and their ends are never pruned away. */
  ghost predicate WellFormed(st: Campaign) {
    && st.links.Keys == st.incidents.Keys
    && (forall e :: e in st.links ==> IsPair(e))
    && (forall e, n :: e in st.links && n in e ==> n in st.nodes)
  }

  lemma IdsAfter(incidents: map<Link, set<string>>, pairs: set<Link>, id: string, e: Link)
    ensures var after := CorroboratedBy(incidents, pairs, id);
            && (e in after <==> e in incidents || e in pairs)
            && IdsOf(after, e) == IdsOf(incidents, e) + (if e in pairs then {id} else {})
            && (e in after ==> after[e] == IdsOf(after, e))
  {
  }

  lemma PairsArePairs(keys: seq<Node>)
    ensures forall e :: e in PairsOf(keys) ==> IsPair(e) && forall n :: n in e ==> n in keys
  {
    forall e | e in PairsOf(keys)
      ensures IsPair(e) && forall n :: n in e ==> n in keys
    {
      var i, j :| 0 <= i < j < |keys| && e == LinkOf(keys[i], keys[j]);
      PairIsPair(keys[i], keys[j]);
    }
  }

  lemma ApplyKeeps(st: Campaign, op: Op)
    requires WellFormed(st)
    ensures WellFormed(Apply(st, op))
    ensures forall e :: IdsOf(Apply(st, op).incidents, e) ==
                          IdsOf(st.incidents, e) + (if op.Record? && e in PairsOf(op.keys) then {op.id} else {})
    ensures forall e :: e in Apply(st, op).links <==> e in st.links || (op.Record? && e in PairsOf(op.keys))
  {
    hide IsPair, PairsOf, IdsOf;
    match op
    case Record(keys, id, at) =>
      PairsArePairs(keys);
      forall e
        ensures IdsOf(Apply(st, op).incidents, e) == IdsOf(st.incidents, e) + (if e in PairsOf(keys) then {id} else {})
      {
        IdsAfter(st.incidents, PairsOf(keys), id, e);
      }
    case Prune(at) =>
  }

  /** Over every run, the incidents recorded for a link are those of the history that co-report it. */
  lemma {:induction false} RunCounts(ops: seq<Op>)
    ensures WellFormed(Run(ops))
    ensures forall e :: IdsOf(Run(ops).incidents, e) == CoReporting(ops, e)
    ensures forall e :: e in Run(ops).links <==> CoReporting(ops, e) != {}
  {
    if ops != [] {
      RunCounts(ops[..|ops| - 1]);
      ApplyKeeps(Run(ops[..|ops| - 1]), ops[|ops| - 1]);
      hide Apply, CoReporting, WellFormed, PairsOf, IdsOf;
      forall e
        ensures IdsOf(Run(ops).incidents, e) == CoReporting(ops, e)
        ensures e in Run(ops).links <==> CoReporting(ops, e) != {}
      {
        CoReportingStep(ops, e);
      }
    }
  }

  /** The k-anonymity gate: a link is in the view exactly when at least five distinct incidents
      report its ends together. */
  lemma ViewIsKAnonymous(ops: seq<Op>, e: Link)
    ensures e in ExposedLinks(Run(ops)) <==> |CoReporting(ops, e)| >= 5
  {
    RunCounts(ops);
    if CoReporting(ops, e) == {} {
      assert |CoReporting(ops, e)| == 0;
    }
  }

  /** Exposed links never disappear, whatever is recorded or pruned later. */
  lemma ExposureIsPermanent(ops: seq<Op>, more: seq<Op>)
    ensures ExposedLinks(Run(ops)) <= ExposedLinks(Run(ops + more))
  {
    forall e | e in ExposedLinks(Run(ops))
      ensures e in ExposedLinks(Run(ops + more))
    {
      ViewIsKAnonymous(ops, e);
      ViewIsKAnonymous(ops + more, e);
      assert forall i :: 0 <= i < |ops| ==> (ops + more)[i] == ops[i];
      SubsetSize(CoReporting(ops, e), CoReporting(ops + more, e));
    }
  }

  // ---------------------------------------------------------- which nodes stay

  predicate Names(op: Op, v: Node) {
    op.Record? && v in op.keys
  }

  /** The position of the latest incident naming `v`, or -1. */
  function LatestReport(ops: seq<Op>, v: Node): (i: int)
    ensures -1 <= i < |ops|
    ensures i >= 0 ==> Names(ops[i], v)
    ensures forall j :: i < j < |ops| ==> !Names(ops[j], v)
  {
    if ops == [] then -1
    else if Names(ops[|ops| - 1], v) then |ops| - 1
    else LatestReport(ops[..|ops| - 1], v)
  }

  /** Some incident reported `v` together with a node. */
  ghost predicate CoReported(ops: seq<Op>, v: Node) {
    exists w :: CoReporting(ops, LinkOf(v, w)) != {}
  }

  /** No prune after position `i` came ninety days or more later. */
  ghost predicate NeverStale(ops: seq<Op>, i: nat)
    requires i < |ops|
  {
    forall j :: i < j < |ops| && ops[j].Prune? ==> (ops[j].at - ops[i].at) / 86400.0 < 90.0
  }

  /** Over every run: a reported node is still there exactly when it was ever reported with another, or no prune
      since its latest report came ninety days or more after it. */
  lemma {:induction false} NodesAfterRun(ops: seq<Op>, v: Node)
    ensures var i := LatestReport(ops, v);
            && (v in Run(ops).nodes <==> i >= 0 && (CoReported(ops, v) || NeverStale(ops, i)))
            && (v in Run(ops).nodes ==> Run(ops).nodes[v].lastSeen == ops[i].at)
  {
    if ops != [] {
      var front, op := ops[..|ops| - 1], ops[|ops| - 1];
      NodesAfterRun(front, v);
      hide CoReporting;
      CoReportedStep(ops, v);
      match op
      case Record(keys, id, at) =>
      case Prune(at) => LinkedMeansCoReported(front, v);
    }
  }

  lemma CoReportedStep(ops: seq<Op>, v: Node)
    requires ops != []
    ensures !Names(ops[|ops| - 1], v) ==> (CoReported(ops, v) <==> CoReported(ops[..|ops| - 1], v))
  {
    forall w
      ensures !Names(ops[|ops| - 1], v) ==>
                CoReporting(ops, LinkOf(v, w)) == CoReporting(ops[..|ops| - 1], LinkOf(v, w))
    {
      CoReportingStep(ops, LinkOf(v, w));
      if ops[|ops| - 1].Record? {
        PairsArePairs(ops[|ops| - 1].keys);
        assert v in LinkOf(v, w);
      }
    }
  }

  lemma LinkedMeansCoReported(ops: seq<Op>, v: Node)
    ensures Isolated(Run(ops), v) <==> !CoReported(ops, v)
  {
    RunCounts(ops);
    hide CoReporting, Run, IsPair;
    if e :| e in Run(ops).links && v in e {
      var w := OtherEnd(e, v) by { assert WellFormed(Run(ops)); }
      assert CoReporting(ops, LinkOf(v, w)) != {};
    }
    if w :| CoReporting(ops, LinkOf(v, w)) != {} {
      assert v in LinkOf(v, w);
    }
  }

  lemma OtherEnd(e: Link, v: Node) returns (w: Node)
    requires IsPair(e) && v in e
    ensures e == LinkOf(v, w)
  {
    var a, b :| e == LinkOf(a, b);
    w := if v == a then b else a;
  }

  /** The incidents from position `b` on that name `v`. */
  ghost function Naming(ops: seq<Op>, b: nat, v: Node): set<string> {
    set i | b <= i < |ops| && Names(ops[i], v) :: ops[i].id
  }

  /** `v` became a node with operation `b` and has been one ever since. */
  ghost predicate PresentSince(ops: seq<Op>, b: nat, v: Node) {
    b < |ops| && v !in Run(ops[..b]).nodes && forall k :: b < k <= |ops| ==> v in Run(ops[..k]).nodes
  }

  lemma ApplyToNode(st: Campaign, op: Op, v: Node)
    requires v in Apply(st, op).nodes
    ensures var info := Apply(st, op).nodes[v];
            if v in st.nodes then
              && info.firstSeen == st.nodes[v].firstSeen
              && info.incidentIds == st.nodes[v].incidentIds + if Names(op, v) then {op.id} else {}
            else Names(op, v) && info.firstSeen == op.at && info.incidentIds == {op.id}
  {
  }

  /** A node dates from the incident that last created it, and lists the incidents naming it since. */
  lemma {:induction false} NodeDatesFrom(ops: seq<Op>, v: Node) returns (b: nat)
    requires v in Run(ops).nodes
    ensures b < |ops| && Names(ops[b], v) && PresentSince(ops, b, v)
    ensures Run(ops).nodes[v].firstSeen == ops[b].at && Run(ops).nodes[v].incidentIds == Naming(ops, b, v)
  {
    var n := |ops| - 1;
    var front, op := ops[..n], ops[n];
    ApplyToNode(Run(front), op, v);
    hide Apply, Naming, PresentSince, Names;
    if v in Run(front).nodes {
      b := NodeDatesFrom(front, v);
      StillPresent(ops, b, v);
      NamingStep(ops, b, v);
    } else {
      b := n;
      NowPresent(ops, v);
      NamingLast(ops, v);
    }
  }

  lemma StillPresent(ops: seq<Op>, b: nat, v: Node)
    requires b < |ops| - 1 && PresentSince(ops[..|ops| - 1], b, v) && v in Run(ops).nodes
    ensures PresentSince(ops, b, v)
  {
    hide Run;
    var n := |ops| - 1;
    forall k | b < k <= |ops|
      ensures v in Run(ops[..k]).nodes
    {
      if k <= n {
        assert ops[..n][..k] == ops[..k];
      } else {
        assert ops[..k] == ops;
      }
    }
    assert ops[..n][..b] == ops[..b];
  }

  lemma NowPresent(ops: seq<Op>, v: Node)
    requires ops != [] && v in Run(ops).nodes && v !in Run(ops[..|ops| - 1]).nodes
    ensures PresentSince(ops, |ops| - 1, v)
  {
    assert ops[..|ops|] == ops;
  }

  lemma NamingLast(ops: seq<Op>, v: Node)
    requires ops != [] && Names(ops[|ops| - 1], v)
    ensures Naming(ops, |ops| - 1, v) == {ops[|ops| - 1].id}
  {
  }

  lemma NamingStep(ops: seq<Op>, b: nat, v: Node)
    requires b < |ops| - 1
    ensures var (front, op) := (ops[..|ops| - 1], ops[|ops| - 1]);
            Naming(ops, b, v) == Naming(front, b, v) + if Names(op, v) then {op.id} else {}
  {
    var front := ops[..|ops| - 1];
    assert forall i :: 0 <= i < |front| ==> front[i] == ops[i];
  }

  // ------------------------------------------------------------- path queries

  /** The adjacency lists of the view: nodes of exposed links, joined exactly by those links. */
  ghost predicate IsViewOf(view: Graph, exposed: set<Link>) {
    && (forall n :: n in view <==> n in NodesOf(exposed))
    && (forall u, v :: Edge(view, u, v) <==> LinkOf(u, v) in exposed)
  }

  lemma ViewIsUndirected(view: Graph, exposed: set<Link>)
    requires IsViewOf(view, exposed)
    ensures Undirected(view)
  {
    forall u, v | Edge(view, u, v)
      ensures Edge(view, v, u)
    {
      assert LinkOf(u, v) == LinkOf(v, u);
    }
  }

  lemma ViewNodesExist(st: Campaign, view: Graph)
    requires WellFormed(st) && IsViewOf(view, ExposedLinks(st))
    ensures forall n :: n in view ==> n in st.nodes
  {
  }

  /** Every hop of a path found in the view is corroborated by at least five incidents of the history. */
  lemma PathHopsAreCorroborated(ops: seq<Op>, view: Graph, path: seq<Node>, i: nat)
    requires IsViewOf(view, ExposedLinks(Run(ops))) && IsWalk(view, path) && i + 1 < |path|
    ensures |CoReporting(ops, LinkOf(path[i], path[i + 1]))| >= 5
  {
    assert Edge(view, path[i], path[i + 1]);
    ViewIsKAnonymous(ops, LinkOf(path[i], path[i + 1]));
  }

  // -------------------------------------------------------------- the graph

  function AddNeighbor(view: Graph, u: Node, v: Node): Graph {
    view[u := if Edge(view, u, v) then view[u] else Neighbors(view, u) + [v]]
  }

  /** `add_edge` on the view. */
  function AddLink(view: Graph, a: Node, b: Node): Graph {
    AddNeighbor(AddNeighbor(view, a, b), b, a)
  }

  lemma AddNeighborEdges(view: Graph, a: Node, b: Node)
    ensures forall u, v :: Edge(AddNeighbor(view, a, b), u, v) <==> Edge(view, u, v) || (u == a && v == b)
    ensures AddNeighbor(view, a, b).Keys == view.Keys + {a}
  {
  }

  lemma AddLinkExtendsView(view: Graph, exposed: set<Link>, a: Node, b: Node)
    requires IsViewOf(view, exposed)
    ensures IsViewOf(AddLink(view, a, b), exposed + {LinkOf(a, b)})
  {
    hide AddNeighbor;
    AddNeighborEdges(view, a, b);
    AddNeighborEdges(AddNeighbor(view, a, b), b, a);
    var view' := AddLink(view, a, b);
    forall u, v
      ensures Edge(view', u, v) <==> LinkOf(u, v) in exposed + {LinkOf(a, b)}
    {
      assert LinkOf(u, v) == LinkOf(a, b) <==> (u == a && v == b) || (u == b && v == a) by { SameEnds(u, v, a, b); }
    }
  }

  lemma SameEnds(u: Node, v: Node, a: Node, b: Node)
    ensures LinkOf(u, v) == LinkOf(a, b) <==> (u == a && v == b) || (u == b && v == a)
  {
    assert u in LinkOf(u, v) && v in LinkOf(u, v) && a in LinkOf(a, b) && b in LinkOf(a, b);
  }

  /** The sorted pairs of one incident, up to the one at (`i`, `j`). */
  ghost function PairsUpTo(keys: seq<Node>, i: nat, j: nat): set<Link> {
    set p, q | 0 <= p < q < |keys| && (p < i || (p == i && q < j)) :: LinkOf(keys[p], keys[q])
  }

  class CampaignStore {
    var nodes: map<Node, NodeInfo>
    var links: map<Link, real>
    var incidents: map<Link, set<string>>

    function Abs(): Campaign
      reads this
    {
      Campaign(nodes, links, incidents)
    }

    constructor ()
      ensures Abs() == EMPTY
    {
      nodes, links, incidents := map[], map[], map[];
    }

    /** Record one incident. Without an id of its own it gets the fresh one supplied. */
    method RecordIncident(keys: seq<Node>, incidentId: Option<string>, freshId: string, now: real) returns (id: string)
      modifies this
      ensures id == if incidentId.Some? && incidentId.value != "" then incidentId.value else freshId
      ensures Abs() == Recorded(old(Abs()), keys, id, now)
    {
      hide PairsOf, PairsUpTo, LinkedBy, CorroboratedBy;
      id := if incidentId.Some? && incidentId.value != "" then incidentId.value else freshId;
      for k := 0 to |keys|
        invariant nodes.Keys == old(nodes).Keys + (set n | n in keys[..k])
        invariant forall n :: n in nodes ==>
                    nodes[n] == if n in keys[..k] then Touched(old(nodes), n, id, now) else old(nodes)[n]
        invariant links == old(links) && incidents == old(incidents)
      {
        nodes := nodes[keys[k] := Touched(nodes, keys[k], id, now)];
        assert keys[..k + 1] == keys[..k] + [keys[k]];
      }
      assert keys[..|keys|] == keys;
      NoPairs(links, incidents, keys, id, now);
      for i := 0 to |keys|
        invariant nodes == Recorded(old(Abs()), keys, id, now).nodes
        invariant links == LinkedBy(old(links), PairsUpTo(keys, i, i + 1), now)
        invariant incidents == CorroboratedBy(old(incidents), PairsUpTo(keys, i, i + 1), id)
      {
        for j := i + 1 to |keys|
          invariant nodes == Recorded(old(Abs()), keys, id, now).nodes
          invariant links == LinkedBy(old(links), PairsUpTo(keys, i, j), now)
          invariant incidents == CorroboratedBy(old(incidents), PairsUpTo(keys, i, j), id)
        {
          var e := LinkOf(keys[i], keys[j]);
          NextPair(old(links), old(incidents), keys, i, j, id, now);
          incidents := incidents[e := IdsOf(incidents, e) + {id}];
          links := links[e := now];
        }
        NextRow(keys, i);
      }
      AllPairs(keys);
    }

    /** Remove the isolated nodes whose last activity is at least 90 days old. */
    method PruneIsolatedNodes(now: real) returns (removed: set<Node>)
      modifies this
      ensures Abs() == Pruned(old(Abs()), now)
      ensures removed == set n | n in old(nodes) && Prunable(old(Abs()), n, now)
    {
      removed := {};
      var todo := nodes.Keys;
      while todo != {}
        invariant todo <= nodes.Keys
        invariant removed == set n | n in nodes && n !in todo && Prunable(Abs(), n, now)
      {
        var n :| n in todo;
        if Isolated(Abs(), n) {
          var ageDays := (now - nodes[n].lastSeen) / SECONDS_PER_DAY;
          if ageDays >= ISOLATED_NODE_PRUNE_DAYS {
            removed := removed + {n};
          }
        }
        todo := todo - {n};
      }
      nodes := map n | n in nodes && n !in removed :: nodes[n];
    }

    /** The subgraph of links that clear the floor, its nodes carrying their own attributes. */
    method KAnonymizedView() returns (view: Graph, attributes: map<Node, NodeInfo>)
      requires WellFormed(Abs())
      ensures IsViewOf(view, ExposedLinks(Abs())) && Undirected(view)
      ensures attributes.Keys == view.Keys && forall n :: n in view ==> n in nodes && attributes[n] == nodes[n]
    {
      view := map[];
      var exposed := ExposedLinks(Abs());
      var todo := exposed;
      while todo != {}
        invariant todo <= exposed && IsViewOf(view, exposed - todo)
      {
        hide IsViewOf, NodesOf;
        var e :| e in todo;
        var a, b := Ends(e);
        AddLinkExtendsView(view, exposed - todo, a, b);
        assert exposed - (todo - {e}) == exposed - todo + {LinkOf(a, b)};
        view := AddLink(view, a, b);
        todo := todo - {e};
      }
      assert exposed - {} == exposed;
      ViewIsUndirected(view, exposed);
      ViewNodesExist(Abs(), view);
      attributes := NodeAttributes(view.Keys);
    }

    /** Copy the attributes of the given nodes. */
    method NodeAttributes(of: set<Node>) returns (attributes: map<Node, NodeInfo>)
      requires of <= nodes.Keys
      ensures attributes.Keys == of && forall n :: n in of ==> attributes[n] == nodes[n]
    {
      attributes := map[];
      var rest := of;
      while rest != {}
        invariant rest <= of && attributes.Keys == of - rest
        invariant forall n :: n in attributes ==> attributes[n] == nodes[n]
      {
        var n :| n in rest;
        attributes := attributes[n := nodes[n]];
        rest := rest - {n};
      }
    }

    /** A researcher's path query: it reads the k-anonymized view only, and finds a path exactly when
        exposable links join the two nodes within the hop limit. */
    method TracePath(a: Node, b: Node, maxDepth: int) returns (r: PathQueryResult, view: Graph)
      requires WellFormed(Abs())
      ensures IsViewOf(view, ExposedLinks(Abs()))
      ensures r.found <==> a in view && b in view && WithinHops(view, a, b, HopLimit(maxDepth))
      ensures r.found ==> r.path.Some? && IsShortest(view, r.path.value, a, b) && HopsExposable(Abs(), r.path.value)
    {
      hide IsViewOf, WithinHops, IsShortest, HopsExposable, WellFormed;
      var attributes;
      view, attributes := KAnonymizedView();
      r := FindKnownBadActorPath(view, a, b, maxDepth);
      if r.found {
        ViewPathExposable(Abs(), view, r.path.value, a, b);
      }
    }
  }

  ghost predicate HopsExposable(st: Campaign, path: seq<Node>) {
    forall i :: 0 <= i < |path| - 1 ==> IsLinkExposable(st, path[i], path[i + 1])
  }

  lemma ViewPathExposable(st: Campaign, view: Graph, path: seq<Node>, a: Node, b: Node)
    requires IsViewOf(view, ExposedLinks(st)) && IsShortest(view, path, a, b)
    ensures HopsExposable(st, path)
  {
    forall i | 0 <= i < |path| - 1
      ensures IsLinkExposable(st, path[i], path[i + 1])
    {
      assert Edge(view, path[i], path[i + 1]);
    }
  }

  method Ends(e: Link) returns (a: Node, b: Node)
    requires IsPair(e)
    ensures e == LinkOf(a, b)
  {
    ghost var p, q :| e == LinkOf(p, q);
    assert p in e;
    a :| a in e;
    if e == {a} {
      b := a;
    } else {
      assert e - {a} != {};
      b :| b in e - {a};
    }
  }

  lemma NoPairs(links: map<Link, real>, incidents: map<Link, set<string>>, keys: seq<Node>, id: string, now: real)
    ensures LinkedBy(links, PairsUpTo(keys, 0, 1), now) == links
    ensures CorroboratedBy(incidents, PairsUpTo(keys, 0, 1), id) == incidents
  {
    assert PairsUpTo(keys, 0, 1) == {};
    forall e | e in incidents
      ensures CorroboratedBy(incidents, {}, id)[e] == incidents[e]
    {
      assert incidents[e] + {} == incidents[e];
    }
  }

  lemma NextPair(links: map<Link, real>, incidents: map<Link, set<string>>, keys: seq<Node>, i: nat, j: nat,
                 id: string, now: real)
    requires i < j < |keys|
    ensures var e, pairs, pairs' := LinkOf(keys[i], keys[j]), PairsUpTo(keys, i, j), PairsUpTo(keys, i, j + 1);
            && LinkedBy(links, pairs', now) == LinkedBy(links, pairs, now)[e := now]
            && CorroboratedBy(incidents, pairs', id) ==
                 CorroboratedBy(incidents, pairs, id)[e := IdsOf(CorroboratedBy(incidents, pairs, id), e) + {id}]
  {
    assert PairsUpTo(keys, i, j + 1) == PairsUpTo(keys, i, j) + {LinkOf(keys[i], keys[j])};
    hide PairsUpTo;
    OneMorePair(links, incidents, PairsUpTo(keys, i, j), LinkOf(keys[i], keys[j]), id, now);
  }

  lemma OneMorePair(links: map<Link, real>, incidents: map<Link, set<string>>, pairs: set<Link>, e: Link, id: string,
                    now: real)
    ensures LinkedBy(links, pairs + {e}, now) == LinkedBy(links, pairs, now)[e := now]
    ensures CorroboratedBy(incidents, pairs + {e}, id) ==
              CorroboratedBy(incidents, pairs, id)[e := IdsOf(CorroboratedBy(incidents, pairs, id), e) + {id}]
  {
    hide CorroboratedBy, IdsOf;
    var after, one := CorroboratedBy(incidents, pairs + {e}, id), CorroboratedBy(incidents, pairs, id);
    var added := one[e := IdsOf(one, e) + {id}];
    forall f
      ensures f in after <==> f in added
      ensures f in after ==> after[f] == added[f]
    {
      IdsAfter(incidents, pairs + {e}, id, f);
      IdsAfter(incidents, pairs, id, f);
    }
    assert after == added;
  }

  lemma NextRow(keys: seq<Node>, i: nat)
    requires i < |keys|
    ensures PairsUpTo(keys, i, |keys|) == PairsUpTo(keys, i + 1, i + 2)
  {
  }

  lemma AllPairs(keys: seq<Node>)
    ensures PairsUpTo(keys, |keys|, |keys| + 1) == PairsOf(keys)
  {
  }
}
