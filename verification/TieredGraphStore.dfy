/** Hot and cold tiers of the campaign graph. */
module TieredGraphStore {

  import opened Graphs

  /** Links of one tier, each with its `confirmed` mark. */
  type Links = map<Link, bool>

  datatype Store = Store(hotNodes: set<Node>, hot: Links, coldNodes: set<Node>, cold: Links, lastSeen: map<Node, real>)

  const EMPTY := Store({}, map[], {}, map[], map[])

  function Touching(links: Links, n: Node): set<Link> {
    set e | e in links && n in e
  }

  function Marked(links: Links, e: Link): bool {
    e in links && links[e]
  }

  /** `add_edge(**data)` for each of `moved`: present links keep a mark they already have. */
  function AddAll(links: Links, moved: set<Link>, from: Links): Links {
    map e | e in links.Keys + moved :: Marked(links, e) || (e in moved && Marked(from, e))
  }

  function Without(links: Links, gone: set<Link>): Links {
    map e | e in links && e !in gone :: links[e]
  }

  // -------------------------------------------------------------- observing

  function Rehydrate(st: Store, n: Node): Store {
    if n !in st.coldNodes then st
    else
      var moved := Touching(st.cold, n);
      st.(hotNodes := st.hotNodes + NodesOf(moved), hot := AddAll(st.hot, moved, st.cold),
          coldNodes := st.coldNodes - {n}, cold := Without(st.cold, moved))
  }

  function See(st: Store, n: Node, now: real): Store {
    var st' := Rehydrate(st, n);
    st'.(lastSeen := st'.lastSeen[n := now])
  }

  function Observed(st: Store, a: Node, b: Node, confirmed: bool, now: real): Store {
    var st' := See(See(st, a, now), b, now);
    st'.(hotNodes := st'.hotNodes + {a, b}, hot := st'.hot[LinkOf(a, b) := Marked(st'.hot, LinkOf(a, b)) || confirmed])
  }

  // --------------------------------------------------------------- demotion

  function Age(st: Store, n: Node, now: real): real {
    if n in st.lastSeen then now - st.lastSeen[n] else 0.0
  }

  predicate Active(st: Store, n: Node, now: real, dormancy: real) {
    Age(st, n, now) < dormancy
  }

  predicate HasActiveNeighbor(st: Store, n: Node, now: real, dormancy: real) {
    exists v :: v in NodesOf(st.hot.Keys) && LinkOf(n, v) in st.hot && Active(st, v, now, dormancy)
  }

  /** The dormant hot nodes with no active neighbour. */
  function Demotable(st: Store, now: real, dormancy: real): set<Node> {
    set n | n in st.hotNodes && !Active(st, n, now, dormancy) && !HasActiveNeighbor(st, n, now, dormancy)
  }

  function TouchingAny(links: Links, ns: set<Node>): set<Link> {
    set e, n | e in links && n in e && n in ns :: e
  }

  /** All of `ns` moved to the cold tier at once, with all their links. */
  function MoveToCold(st: Store, ns: set<Node>): Store {
    var moved := TouchingAny(st.hot, ns);
    st.(hotNodes := st.hotNodes - ns, hot := Without(st.hot, moved),
        coldNodes := st.coldNodes + NodesOf(moved), cold := AddAll(st.cold, moved, st.hot))
  }

  function Demoted(st: Store, now: real, dormancy: real): Store {
    MoveToCold(st, Demotable(st, now, dormancy))
  }

  // ---------------------------------------------------------------- queries

  function DeepLinks(st: Store): Links {
    st.cold + st.hot
  }

  predicate ConfirmedLinkExists(st: Store, a: Node, b: Node) {
    Marked(st.hot, LinkOf(a, b)) || Marked(st.cold, LinkOf(a, b))
  }

  // ------------------------------------------------------------------- runs

  datatype Op = Observe(a: Node, b: Node, confirmed: bool, at: real) | Demote(at: real)

  function Apply(st: Store, op: Op, dormancy: real): Store {
    match op
    case Observe(a, b, confirmed, at) => Observed(st, a, b, confirmed, at)
    case Demote(at) => Demoted(st, at, dormancy)
  }

  function Run(ops: seq<Op>, dormancy: real): Store {
    if ops == [] then EMPTY else Apply(Run(ops[..|ops| - 1], dormancy), ops[|ops| - 1], dormancy)
  }

  /** What was ever observed: each link, with whether some observation confirmed it. */
  ghost predicate WasObserved(ops: seq<Op>, e: Link) {
    exists i :: 0 <= i < |ops| && ops[i].Observe? && LinkOf(ops[i].a, ops[i].b) == e
  }

  ghost predicate WasConfirmed(ops: seq<Op>, e: Link) {
    exists i :: 0 <= i < |ops| && ops[i].Observe? && LinkOf(ops[i].a, ops[i].b) == e && ops[i].confirmed
  }

  /** The tiers partition the links, which join pairs, and every link's endpoints are nodes of its tier that
      have been seen. */
  ghost predicate WellTiered(st: Store) {
    && st.hot.Keys !! st.cold.Keys
    && (forall e :: e in st.hot || e in st.cold ==> IsPair(e))
    && (forall e, v :: e in st.hot && v in e ==> v in st.hotNodes && v in st.lastSeen)
    && (forall e, v :: e in st.cold && v in e ==> v in st.coldNodes && v in st.lastSeen)
  }

  /** Moving between tiers changes neither the links nor their marks. */
  ghost predicate SameLinks(st: Store, st': Store) {
    forall e :: (e in st'.hot || e in st'.cold <==> e in st.hot || e in st.cold)
                && (Marked(st'.hot, e) || Marked(st'.cold, e) <==> Marked(st.hot, e) || Marked(st.cold, e))
  }

  lemma RehydrateKeeps(st: Store, n: Node)
    requires WellTiered(st)
    ensures WellTiered(Rehydrate(st, n)) && SameLinks(st, Rehydrate(st, n))
    ensures forall e :: e in Rehydrate(st, n).cold ==> n !in e && e in st.cold
    ensures Rehydrate(st, n).lastSeen == st.lastSeen
  {
  }

  lemma SeeKeeps(st: Store, n: Node, now: real)
    requires WellTiered(st)
    ensures WellTiered(See(st, n, now)) && SameLinks(st, See(st, n, now))
    ensures forall e :: e in See(st, n, now).cold ==> n !in e && e in st.cold
    ensures See(st, n, now).lastSeen == st.lastSeen[n := now]
  {
    RehydrateKeeps(st, n);
  }

  lemma ObservedKeeps(st: Store, a: Node, b: Node, confirmed: bool, now: real)
    requires WellTiered(st)
    ensures var st' := Observed(st, a, b, confirmed, now);
            && WellTiered(st')
            && st'.lastSeen == st.lastSeen[a := now][b := now]
            && (forall e :: e in st'.cold ==> a !in e && b !in e && e in st.cold)
            && (forall e :: (e in st'.hot || e in st'.cold <==> e in st.hot || e in st.cold || e == LinkOf(a, b))
                         && (Marked(st'.hot, e) || Marked(st'.cold, e) <==>
                               Marked(st.hot, e) || Marked(st.cold, e) || (e == LinkOf(a, b) && confirmed)))
  {
    hide See, IsPair;
    assert IsPair(LinkOf(a, b)) by { PairIsPair(a, b); }
    SeeKeeps(st, a, now);
    SeeKeeps(See(st, a, now), b, now);
  }

  lemma MoveToColdKeeps(st: Store, ns: set<Node>)
    requires WellTiered(st)
    ensures WellTiered(MoveToCold(st, ns)) && SameLinks(st, MoveToCold(st, ns))
    ensures MoveToCold(st, ns).lastSeen == st.lastSeen
    ensures forall e :: e in MoveToCold(st, ns).cold ==> e in st.cold || (e in st.hot && exists n :: n in ns && n in e)
  {
  }

  // --------------------------------------------------- conservation over runs

  ghost predicate Recorded(st: Store, ops: seq<Op>) {
    forall e :: (e in st.hot || e in st.cold <==> WasObserved(ops, e))
                && (Marked(st.hot, e) || Marked(st.cold, e) <==> WasConfirmed(ops, e))
  }

  lemma WasObservedStep(ops: seq<Op>, e: Link)
    requires ops != []
    ensures var front, last := ops[..|ops| - 1], ops[|ops| - 1];
            && (WasObserved(ops, e) <==> WasObserved(front, e) || (last.Observe? && LinkOf(last.a, last.b) == e))
            && (WasConfirmed(ops, e) <==>
                WasConfirmed(front, e) || (last.Observe? && LinkOf(last.a, last.b) == e && last.confirmed))
  {
    assert ops == ops[..|ops| - 1] + [ops[|ops| - 1]];
  }

  /** One operation adds to the recorded links and marks just what it observes. */
  ghost predicate StepRecords(st: Store, op: Op, st': Store) {
    forall e :: (e in st'.hot || e in st'.cold <==>
                 e in st.hot || e in st.cold || (op.Observe? && LinkOf(op.a, op.b) == e))
                && (Marked(st'.hot, e) || Marked(st'.cold, e) <==>
                      Marked(st.hot, e) || Marked(st.cold, e)
                        || (op.Observe? && LinkOf(op.a, op.b) == e && op.confirmed))
  }

  lemma ApplyKeeps(st: Store, op: Op, dormancy: real)
    requires WellTiered(st)
    ensures WellTiered(Apply(st, op, dormancy)) && StepRecords(st, op, Apply(st, op, dormancy))
    ensures Apply(st, op, dormancy).lastSeen ==
            if op.Observe? then st.lastSeen[op.a := op.at][op.b := op.at] else st.lastSeen
  {
    hide WellTiered, Observed, MoveToCold, Demotable;
    match op
    case Observe(a, b, confirmed, at) => ObservedKeeps(st, a, b, confirmed, at);
    case Demote(at) => MoveToColdKeeps(st, Demotable(st, at, dormancy));
  }

  /** Over every run, each link ever observed is in exactly one tier, nothing else is in either, and
      a link carries the confirmed mark exactly when some observation confirmed it. */
  lemma {:induction false} RunConserves(ops: seq<Op>, dormancy: real)
    ensures WellTiered(Run(ops, dormancy)) && Recorded(Run(ops, dormancy), ops)
  {
    if ops != [] {
      var st := Run(ops[..|ops| - 1], dormancy);
      RunConserves(ops[..|ops| - 1], dormancy);
      ApplyKeeps(st, ops[|ops| - 1], dormancy);
      RecordedStep(st, Run(ops, dormancy), ops);
    }
  }

  lemma RecordedStep(st: Store, st': Store, ops: seq<Op>)
    requires ops != [] && Recorded(st, ops[..|ops| - 1]) && StepRecords(st, ops[|ops| - 1], st')
    ensures Recorded(st', ops)
  {
    hide WasObserved, WasConfirmed;
    forall e
      ensures (e in st'.hot || e in st'.cold <==> WasObserved(ops, e))
              && (Marked(st'.hot, e) || Marked(st'.cold, e) <==> WasConfirmed(ops, e))
    {
      WasObservedStep(ops, e);
    }
  }

  /** The deep lookup is the whole history, and a confirmed link is reported from either tier. */
  lemma QueriesSeeHistory(ops: seq<Op>, dormancy: real, a: Node, b: Node)
    ensures var st := Run(ops, dormancy);
            && (forall e :: e in DeepLinks(st) <==> WasObserved(ops, e))
            && (forall e :: e in DeepLinks(st) ==> (DeepLinks(st)[e] <==> WasConfirmed(ops, e)))
            && (ConfirmedLinkExists(st, a, b) <==> WasConfirmed(ops, LinkOf(a, b)))
  {
    hide WasObserved, WasConfirmed, Run;
    RunConserves(ops, dormancy);
  }

  /** Observations survive whatever follows. */
  lemma NeverForgotten(ops: seq<Op>, more: seq<Op>, dormancy: real, a: Node, b: Node)
    requires ConfirmedLinkExists(Run(ops, dormancy), a, b)
    ensures ConfirmedLinkExists(Run(ops + more, dormancy), a, b)
  {
    QueriesSeeHistory(ops, dormancy, a, b);
    QueriesSeeHistory(ops + more, dormancy, a, b);
    var i :| 0 <= i < |ops| && ops[i].Observe? && LinkOf(ops[i].a, ops[i].b) == LinkOf(a, b) && ops[i].confirmed;
    assert (ops + more)[i] == ops[i];
  }

  // --------------------------------------------- activity keeps history hot

  /** The clock never runs backwards. */
  ghost predicate InOrder(ops: seq<Op>) {
    forall i, j :: 0 <= i < j < |ops| ==> ops[i].at <= ops[j].at
  }

  /** Both ends of every cold link are dormant at time `now`. */
  ghost predicate ColdIsDormant(st: Store, now: real, dormancy: real) {
    forall e, v :: e in st.cold && v in e ==> !Active(st, v, now, dormancy)
  }

  lemma ColdStaysDormant(st: Store, now: real, later: real, dormancy: real)
    requires WellTiered(st) && ColdIsDormant(st, now, dormancy) && now <= later
    ensures ColdIsDormant(st, later, dormancy)
  {
  }

  lemma ObservedColdDormant(st: Store, a: Node, b: Node, confirmed: bool, now: real, dormancy: real)
    requires WellTiered(st) && ColdIsDormant(st, now, dormancy)
    ensures ColdIsDormant(Observed(st, a, b, confirmed, now), now, dormancy)
  {
    hide Observed;
    ObservedKeeps(st, a, b, confirmed, now);
  }

  lemma DemotedColdDormant(st: Store, now: real, dormancy: real)
    requires WellTiered(st) && ColdIsDormant(st, now, dormancy)
    ensures ColdIsDormant(Demoted(st, now, dormancy), now, dormancy)
  {
    hide MoveToCold, IsPair;
    var gone := Demotable(st, now, dormancy);
    MoveToColdKeeps(st, gone);
    forall e, v | e in Demoted(st, now, dormancy).cold && v in e
      ensures !Active(st, v, now, dormancy)
    {
      if e !in st.cold {
        var n :| n in gone && n in e;
        LinkEnds(st, e, n, v);
      }
    }
  }

  lemma LinkEnds(st: Store, e: Link, n: Node, v: Node)
    requires WellTiered(st) && e in st.hot && n in e && v in e
    ensures v == n || LinkOf(n, v) == e
    ensures v in NodesOf(st.hot.Keys)
  {
    var a, b :| e == LinkOf(a, b);
  }

  /** With the clock never running backwards, the ends of cold links have not been seen within the
      dormancy period; so a recently seen node has all its links in the hot tier. */
  lemma {:induction false} RecentNodesAreHot(ops: seq<Op>, dormancy: real, now: real)
    requires InOrder(ops) && (ops != [] ==> ops[|ops| - 1].at <= now)
    ensures var st := Run(ops, dormancy);
            && ColdIsDormant(st, now, dormancy)
            && forall v, e :: v in st.lastSeen && now - st.lastSeen[v] < dormancy && WasObserved(ops, e) && v in e ==>
               e in st.hot
  {
    hide Observed, Demoted, WasObserved;
    RunConserves(ops, dormancy);
    if ops != [] {
      var front, op := ops[..|ops| - 1], ops[|ops| - 1];
      var st := Run(front, dormancy);
      RunConserves(front, dormancy);
      RecentNodesAreHot(front, dormancy, op.at);
      match op {
        case Observe(a, b, confirmed, at) => ObservedColdDormant(st, a, b, confirmed, at, dormancy);
        case Demote(at) => DemotedColdDormant(st, at, dormancy);
      }
      ColdStaysDormant(Run(ops, dormancy), op.at, now, dormancy);
    }
  }

  predicate Sees(op: Op, v: Node) {
    op.Observe? && (v == op.a || v == op.b)
  }

  /** The position of the latest observation of `v`, or -1. */
  function LatestSight(ops: seq<Op>, v: Node): (i: int)
    ensures -1 <= i < |ops|
    ensures i >= 0 ==> Sees(ops[i], v)
    ensures forall j :: i < j < |ops| ==> !Sees(ops[j], v)
  {
    if ops == [] then -1
    else if Sees(ops[|ops| - 1], v) then |ops| - 1
    else LatestSight(ops[..|ops| - 1], v)
  }

  /** `lastSeen` holds the time of the latest observation of each node. */
  lemma {:induction false} LastSeenIsLatest(ops: seq<Op>, dormancy: real, v: Node)
    ensures var st, i := Run(ops, dormancy), LatestSight(ops, v);
            (v in st.lastSeen <==> i >= 0) && (i >= 0 ==> v in st.lastSeen && st.lastSeen[v] == ops[i].at)
  {
    if ops != [] {
      hide Apply, WellTiered, StepRecords;
      var front := ops[..|ops| - 1];
      LastSeenIsLatest(front, dormancy, v);
      RunConserves(front, dormancy);
      ApplyKeeps(Run(front, dormancy), ops[|ops| - 1], dormancy);
    }
  }

  // ------------------------------------------------------ what a demotion keeps

  lemma {:induction false} HotNodesSeen(ops: seq<Op>, dormancy: real)
    ensures var st := Run(ops, dormancy); st.hotNodes <= st.lastSeen.Keys
  {
    if ops != [] {
      var front, op := ops[..|ops| - 1], ops[|ops| - 1];
      var st := Run(front, dormancy);
      HotNodesSeen(front, dormancy);
      RunConserves(front, dormancy);
      hide Recorded, Run;
      match op
      case Observe(a, b, confirmed, at) =>
        SeeKeepsSeen(st, a, at);
        SeeKeeps(st, a, at);
        SeeKeepsSeen(See(st, a, at), b, at);
      case Demote(at) => MovedFields(st, Demotable(st, at, dormancy));
    }
  }

  lemma SeeKeepsSeen(st: Store, n: Node, now: real)
    requires WellTiered(st) && st.hotNodes <= st.lastSeen.Keys
    ensures See(st, n, now).hotNodes <= See(st, n, now).lastSeen.Keys && n in See(st, n, now).lastSeen
  {
  }

  /** The latest observation of `v` is less than the dormancy period old at time `at`. */
  predicate SeenLately(ops: seq<Op>, v: Node, at: real, dormancy: real) {
    LatestSight(ops, v) >= 0 && at - ops[LatestSight(ops, v)].at < dormancy
  }

  lemma SeenMeansActive(ops: seq<Op>, v: Node, at: real, dormancy: real)
    ensures var st := Run(ops, dormancy);
            v in st.lastSeen ==> (Active(st, v, at, dormancy) <==> SeenLately(ops, v, at, dormancy))
    ensures SeenLately(ops, v, at, dormancy) ==> v in Run(ops, dormancy).lastSeen
  {
    LastSeenIsLatest(ops, dormancy, v);
  }

  lemma SightIsLink(ops: seq<Op>, v: Node) returns (w: Node)
    requires LatestSight(ops, v) >= 0
    ensures WasObserved(ops, LinkOf(v, w))
  {
    var op := ops[LatestSight(ops, v)];
    w := if v == op.a then op.b else op.a;
    assert LinkOf(op.a, op.b) == LinkOf(v, w);
  }

  /** A node with a link to a node seen lately, possibly itself, is hot. */
  lemma NearRecentIsHot(ops: seq<Op>, dormancy: real, at: real, v: Node, w: Node)
    requires InOrder(ops) && (ops != [] ==> ops[|ops| - 1].at <= at)
    requires WasObserved(ops, LinkOf(v, w)) && (SeenLately(ops, v, at, dormancy) || SeenLately(ops, w, at, dormancy))
    ensures var st := Run(ops, dormancy); LinkOf(v, w) in st.hot && v in st.hotNodes
  {
    RecentNodesAreHot(ops, dormancy, at);
    RunConserves(ops, dormancy);
    LastSeenIsLatest(ops, dormancy, v);
    LastSeenIsLatest(ops, dormancy, w);
    hide WasObserved, Run, InOrder, ColdIsDormant, Recorded, IsPair;
    assert v in LinkOf(v, w) && w in LinkOf(v, w);
  }

  /** Which nodes a demotion leaves in the hot tier: exactly those seen within the dormancy period, and those
      ever linked to a node seen within it. */
  lemma HotAfterDemotion(ops: seq<Op>, at: real, dormancy: real, v: Node)
    requires InOrder(ops) && (ops != [] ==> ops[|ops| - 1].at <= at)
    ensures v in Run(ops + [Demote(at)], dormancy).hotNodes <==>
            || SeenLately(ops, v, at, dormancy)
            || exists w :: WasObserved(ops, LinkOf(v, w)) && SeenLately(ops, w, at, dormancy)
  {
    var st := Run(ops, dormancy);
    assert (ops + [Demote(at)])[..|ops|] == ops;
    MovedFields(st, Demotable(st, at, dormancy));
    HotNodesSeen(ops, dormancy);
    SeenMeansActive(ops, v, at, dormancy);
    hide MoveToCold, SeenLately, InOrder, WasObserved, Active, HasActiveNeighbor;
    if SeenLately(ops, v, at, dormancy) {
      var w := SightIsLink(ops, v) by { SeenHasSight(ops, v, at, dormancy); }
      NearRecentIsHot(ops, dormancy, at, v, w);
    }
    ActiveNeighborMeans(ops, at, dormancy, v);
    if w :| WasObserved(ops, LinkOf(v, w)) && SeenLately(ops, w, at, dormancy) {
      NearRecentIsHot(ops, dormancy, at, v, w);
    }
  }

  lemma SeenHasSight(ops: seq<Op>, v: Node, at: real, dormancy: real)
    requires SeenLately(ops, v, at, dormancy)
    ensures LatestSight(ops, v) >= 0
  {
  }

  lemma ActiveNeighborMeans(ops: seq<Op>, at: real, dormancy: real, v: Node)
    requires InOrder(ops) && (ops != [] ==> ops[|ops| - 1].at <= at)
    ensures HasActiveNeighbor(Run(ops, dormancy), v, at, dormancy) <==>
            exists w :: WasObserved(ops, LinkOf(v, w)) && SeenLately(ops, w, at, dormancy)
  {
    var st := Run(ops, dormancy);
    RunConserves(ops, dormancy);
    hide InOrder, WasObserved, Active, Run, SeenLately, IsPair;
    if w :| w in NodesOf(st.hot.Keys) && LinkOf(v, w) in st.hot && Active(st, w, at, dormancy) {
      assert w in LinkOf(v, w);
      SeenMeansActive(ops, w, at, dormancy);
      assert WasObserved(ops, LinkOf(v, w));
    }
    if w :| WasObserved(ops, LinkOf(v, w)) && SeenLately(ops, w, at, dormancy) {
      NearRecentIsHot(ops, dormancy, at, v, w);
      SeenMeansActive(ops, w, at, dormancy);
      assert w in LinkOf(v, w);
      assert w in NodesOf(st.hot.Keys);
    }
  }

  // ----------------------------------------------------- demotion is idempotent

  /** Demoting again at the same time demotes nothing: every node left is active or still has its
      active neighbour. */
  lemma DemotionSettles(st: Store, now: real, dormancy: real)
    requires WellTiered(st)
    ensures Demotable(Demoted(st, now, dormancy), now, dormancy) == {}
  {
    hide MoveToCold, HasActiveNeighbor;
    var gone, after := Demotable(st, now, dormancy), Demoted(st, now, dormancy);
    assert after.lastSeen == st.lastSeen && after.hotNodes == st.hotNodes - gone by { MovedFields(st, gone); }
    forall n | n in after.hotNodes && !Active(after, n, now, dormancy)
      ensures HasActiveNeighbor(after, n, now, dormancy)
    {
      StillHasNeighbor(st, gone, n, now, dormancy);
    }
  }

  lemma MovedFields(st: Store, gone: set<Node>)
    ensures var after := MoveToCold(st, gone);
            after.lastSeen == st.lastSeen && after.hotNodes == st.hotNodes - gone
  {
  }

  /** An active neighbour is not demoted, so neither is the link to it. */
  lemma StillHasNeighbor(st: Store, gone: set<Node>, n: Node, now: real, dormancy: real)
    requires n !in gone && (forall g :: g in gone ==> !Active(st, g, now, dormancy))
             && HasActiveNeighbor(st, n, now, dormancy)
    ensures HasActiveNeighbor(MoveToCold(st, gone), n, now, dormancy)
  {
    var after := MoveToCold(st, gone);
    var v :| v in NodesOf(st.hot.Keys) && LinkOf(n, v) in st.hot && Active(st, v, now, dormancy);
    assert LinkOf(n, v) in after.hot;
    assert v in NodesOf(after.hot.Keys);
    assert Active(after, v, now, dormancy);
  }

  // -------------------------------------------------------------- the store

  class TieredStore {
    const dormancy: real
    var hotNodes: set<Node>
    var hot: Links
    var coldNodes: set<Node>
    var cold: Links
    var lastSeen: map<Node, real>

    function Abs(): Store
      reads this
    {
      Store(hotNodes, hot, coldNodes, cold, lastSeen)
    }

    constructor (dormancy: real)
      ensures Abs() == EMPTY && this.dormancy == dormancy
    {
      this.dormancy := dormancy;
      hotNodes, hot, coldNodes, cold, lastSeen := {}, map[], {}, map[], map[];
    }

    /** Record one observation at time `now`, bringing back the endpoints' archived links. */
    method Observe(a: Node, b: Node, confirmed: bool, now: real)
      modifies this
      ensures Abs() == Observed(old(Abs()), a, b, confirmed, now)
    {
      if a in coldNodes {
        RehydrateNode(a);
      }
      lastSeen := lastSeen[a := now];
      assert Abs() == See(old(Abs()), a, now);
      if b in coldNodes {
        RehydrateNode(b);
      }
      lastSeen := lastSeen[b := now];
      assert Abs() == See(See(old(Abs()), a, now), b, now);
      hotNodes := hotNodes + {a, b};
      hot := hot[LinkOf(a, b) := Marked(hot, LinkOf(a, b)) || confirmed];
    }

    method RehydrateNode(n: Node)
      requires n in coldNodes
      modifies this
      ensures Abs() == Rehydrate(old(Abs()), n)
    {
      ghost var moved := Touching(cold, n);
      var todo := Touching(cold, n);
      AddNothing(hot, cold);
      while todo != {}
        invariant todo <= moved && coldNodes == old(coldNodes) && cold == old(cold) && lastSeen == old(lastSeen)
        invariant hot == AddAll(old(hot), moved - todo, cold)
        invariant hotNodes == old(hotNodes) + NodesOf(moved - todo)
      {
        hide AddAll, NodesOf, Touching;
        var e :| e in todo;
        AddOne(old(hot), moved - todo, cold, e);
        assert moved - (todo - {e}) == moved - todo + {e};
        hotNodes := hotNodes + e;
        hot := hot[e := Marked(hot, e) || Marked(cold, e)];
        todo := todo - {e};
      }
      assert moved - {} == moved;
      coldNodes := coldNodes - {n};
      cold := Without(cold, Touching(cold, n));
    }

    /** Demote dormant nodes one by one, in any order; the outcome is that of moving at once all
        that were demotable at the start. */
    method DemoteDormant(now: real) returns (demoted: seq<Node>)
      requires WellTiered(Abs())
      modifies this
      ensures Abs() == Demoted(old(Abs()), now, dormancy)
      ensures forall n :: n in demoted <==> n in Demotable(old(Abs()), now, dormancy)
      ensures |demoted| == |Demotable(old(Abs()), now, dormancy)|
      ensures forall n :: n in demoted <==> n in old(hotNodes) && n !in hotNodes
    {
      hide MoveToCold, WellTiered, Demotable, Active, HasActiveNeighbor, NodesOf, AddAll, Without, TouchingAny;
      demoted := [];
      ghost var start := Abs();
      ghost var gone: set<Node> := {};
      var todo := hotNodes;
      MoveNothing(start);
      while todo != {}
        invariant todo <= start.hotNodes && gone !! todo && gone <= start.hotNodes
        invariant Abs() == MoveToCold(start, gone)
        invariant forall n :: n in start.hotNodes && n !in todo ==>
                  (n in gone <==> n in Demotable(start, now, dormancy))
        invariant |demoted| == |gone| && forall n :: n in demoted <==> n in gone
      {
        var node :| node in todo;
        todo := todo - {node};
        DemotionOrderIrrelevant(start, gone, node, now, dormancy);
        if Active(Abs(), node, now, dormancy) {
          continue;
        }
        if HasActiveNeighbor(Abs(), node, now, dormancy) {
          continue;
        }
        MoveOne(start, gone, node);
        DemoteNode(node);
        demoted := demoted + [node];
        gone := gone + {node};
      }
      DemotableAreHot(start, now, dormancy);
      MovedFields(start, gone);
      assert gone == Demotable(start, now, dormancy);
    }

    /** Move a node's links to the cold tier and take it out of the hot one. */
    method DemoteNode(n: Node)
      modifies `hotNodes, `hot, `coldNodes, `cold
      ensures Abs() == DemotedOne(old(Abs()), n)
    {
      ghost var moved := TouchingAny(hot, {n});
      var todo := TouchingAny(hot, {n});
      AddNothing(cold, hot);
      while todo != {}
        invariant todo <= moved && hotNodes == old(hotNodes) && hot == old(hot)
        invariant cold == AddAll(old(cold), moved - todo, hot)
        invariant coldNodes == old(coldNodes) + NodesOf(moved - todo)
      {
        hide AddAll, NodesOf, TouchingAny;
        var e :| e in todo;
        AddOne(old(cold), moved - todo, hot, e);
        assert moved - (todo - {e}) == moved - todo + {e};
        coldNodes := coldNodes + e;
        cold := cold[e := Marked(cold, e) || Marked(hot, e)];
        todo := todo - {e};
      }
      assert moved - {} == moved;
      hot := Without(hot, TouchingAny(hot, {n}));
      hotNodes := hotNodes - {n};
    }
  }

  function DemotedOne(st: Store, n: Node): Store {
    var moved := TouchingAny(st.hot, {n});
    Store(st.hotNodes - {n}, Without(st.hot, moved), st.coldNodes + NodesOf(moved), AddAll(st.cold, moved, st.hot),
          st.lastSeen)
  }

  lemma AddNothing(links: Links, from: Links)
    ensures AddAll(links, {}, from) == links && NodesOf({}) == {}
  {
  }

  lemma AddOne(links: Links, moved: set<Link>, from: Links, e: Link)
    ensures AddAll(links, moved + {e}, from) ==
            AddAll(links, moved, from)[e := Marked(AddAll(links, moved, from), e) || Marked(from, e)]
    ensures NodesOf(moved + {e}) == NodesOf(moved) + e
  {
  }

  lemma DemotableAreHot(st: Store, now: real, dormancy: real)
    ensures Demotable(st, now, dormancy) <= st.hotNodes
  {
  }

  lemma MoveNothing(st: Store)
    ensures MoveToCold(st, {}) == st
  {
    assert TouchingAny(st.hot, {}) == {};
  }

  /** Moving one more node after others is moving them all. */
  lemma MoveOne(st: Store, gone: set<Node>, n: Node)
    ensures MoveToCold(st, gone + {n}) == DemotedOne(MoveToCold(st, gone), n)
  {
    var mid := MoveToCold(st, gone);
    var first, second := TouchingAny(st.hot, gone), TouchingAny(mid.hot, {n});
    assert TouchingAny(st.hot, gone + {n}) == first + second;
    MoveTwice(st.hot, st.cold, first, second);
  }

  lemma MoveTwice(hot: Links, cold: Links, first: set<Link>, second: set<Link>)
    requires first !! second
    ensures Without(hot, first + second) == Without(Without(hot, first), second)
    ensures AddAll(cold, first + second, hot) == AddAll(AddAll(cold, first, hot), second, Without(hot, first))
    ensures NodesOf(first + second) == NodesOf(first) + NodesOf(second)
  {
  }

  /** Demoting some demotable nodes changes the verdict on no other node. */
  lemma DemotionOrderIrrelevant(st: Store, gone: set<Node>, n: Node, now: real, dormancy: real)
    requires WellTiered(st) && n in st.hotNodes && n !in gone
    requires forall g :: g in gone ==> g in Demotable(st, now, dormancy)
    ensures var mid := MoveToCold(st, gone);
            n in Demotable(st, now, dormancy) <==>
              !Active(mid, n, now, dormancy) && !HasActiveNeighbor(mid, n, now, dormancy)
  {
    var mid := MoveToCold(st, gone);
    hide MoveToCold;
    assert forall e :: e in mid.hot ==> e in st.hot by { MoveKeeps(st, gone, n, n); }
    assert mid.lastSeen == st.lastSeen by { MoveKeeps(st, gone, n, n); }
    if v :| v in NodesOf(st.hot.Keys) && LinkOf(n, v) in st.hot && Active(st, v, now, dormancy) {
      assert v !in gone;
      MoveKeeps(st, gone, n, v);
      assert LinkOf(n, v) in mid.hot && v in LinkOf(n, v);
      assert v in NodesOf(mid.hot.Keys);
    }
  }

  /** Moving nodes out keeps the links between two that stay, and the recorded times. */
  lemma MoveKeeps(st: Store, gone: set<Node>, a: Node, b: Node)
    requires a !in gone && b !in gone
    ensures var mid := MoveToCold(st, gone);
            && mid.lastSeen == st.lastSeen && (forall e :: e in mid.hot ==> e in st.hot)
            && (LinkOf(a, b) in st.hot ==> LinkOf(a, b) in mid.hot)
  {
  }
}
