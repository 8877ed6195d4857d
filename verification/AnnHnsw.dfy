/** The distance-based index: layers kept as a list of adjacency maps. */
module AnnHnsw {
  import opened Options
  import opened Scores
  import opened LayerSearch
  import opened LayerGraph
  import opened LayerInsertion
  import BruteForce

  /** Results rank by distance, then lower index; pruning keeps the earlier of equally close links. */
  const BY_DISTANCE := Ranking(WhenWorse, LowFirst, Stable)

  /** Every layer is sound, higher layers hold subsets of lower ones, layer 0 holds every node,
      and the entry point is in the top layer. */
  ghost predicate Structured(neighbors: seq<Layer>, n: nat, entry: Option<nat>, m: nat) {
    && (n == 0 <==> neighbors == []) && (n == 0 <==> entry == None)
    && (forall l :: 0 <= l < |neighbors| ==> LayerOk(neighbors[l], n, Degree(m, l)))
    && (forall l :: 0 <= l < |neighbors| - 1 ==> neighbors[l + 1].Keys <= neighbors[l].Keys)
    && (n > 0 ==> && (forall u: nat :: u < n <==> u in neighbors[0])
                  && entry.value in neighbors[|neighbors| - 1])
  }

  lemma {:induction false} NestedKeys(neighbors: seq<Layer>, n: nat, entry: Option<nat>, m: nat, k: nat, l: nat)
    requires Structured(neighbors, n, entry, m) && k <= l < |neighbors|
    ensures neighbors[l].Keys <= neighbors[k].Keys
  {
    if k < l {
      NestedKeys(neighbors, n, entry, m, k, l - 1);
      assert neighbors[l - 1 + 1].Keys <= neighbors[l - 1].Keys;
    }
  }

  lemma EntryInLayer(neighbors: seq<Layer>, n: nat, entry: Option<nat>, m: nat, l: nat)
    requires Structured(neighbors, n, entry, m) && l < |neighbors|
    ensures entry.Some? && entry.value in neighbors[l] && entry.value < n
  {
    NestedKeys(neighbors, n, entry, m, l, |neighbors| - 1);
    NestedKeys(neighbors, n, entry, m, 0, |neighbors| - 1);
  }

  /** The layers once the new node is registered, unlinked, up to `nodeLayer`. */
  function Registered(neighbors: seq<Layer>, idx: nat, nodeLayer: nat): (r: seq<Layer>)
    ensures |r| == if |neighbors| > nodeLayer then |neighbors| else nodeLayer + 1
    ensures forall l :: 0 <= l < |r| ==> r[l] == RegisteredLayer(neighbors, idx, nodeLayer, l)
  {
    seq(if |neighbors| > nodeLayer then |neighbors| else nodeLayer + 1,
        l requires l >= 0 => RegisteredLayer(neighbors, idx, nodeLayer, l))
  }

  function RegisteredLayer(neighbors: seq<Layer>, idx: nat, nodeLayer: nat, l: nat): Layer {
    var base := if l < |neighbors| then neighbors[l] else map[];
    if l <= nodeLayer then base[idx := []] else base
  }

  lemma RegisteredOk(neighbors: seq<Layer>, idx: nat, entry: Option<nat>, m: nat, nodeLayer: nat, l: nat)
    requires Structured(neighbors, idx, entry, m) && l < |Registered(neighbors, idx, nodeLayer)|
    ensures var layer := Registered(neighbors, idx, nodeLayer)[l];
            && LayerOk(layer, idx + 1, Degree(m, l)) && Avoids(layer, idx)
            && (l <= nodeLayer ==> idx in layer && layer[idx] == [])
            && (l < |neighbors| && Complete(neighbors[l], idx) ==> Complete(layer, idx))
  {
    var base: Layer := if l < |neighbors| then neighbors[l] else map[];
    assert LayerOk(base, idx, Degree(m, l));
    EnterLayer(base, idx, Degree(m, l));
  }

  /** The nodes a layer holds once the new node is in. */
  ghost function FinalKeys(neighbors: seq<Layer>, idx: nat, entry: nat, nodeLayer: nat, l: nat): set<nat> {
    (if l < |neighbors| then neighbors[l].Keys else {entry}) + (if l <= nodeLayer then {idx} else {})
  }

  /** Layers from `l` up are done, those below still as registered. */
  ghost predicate Inserting(before: seq<Layer>, idx: nat, entry: nat, m: nat, nodeLayer: nat, neighbors: seq<Layer>,
                            l: nat) {
    && |neighbors| == |Registered(before, idx, nodeLayer)|
    && (forall k :: 0 <= k < l && k < |neighbors| ==> neighbors[k] == Registered(before, idx, nodeLayer)[k])
    && (forall k :: l <= k < |neighbors| ==>
          LayerOk(neighbors[k], idx + 1, Degree(m, k))
            && neighbors[k].Keys == FinalKeys(before, idx, entry, nodeLayer, k))
  }

  lemma InsertingStart(before: seq<Layer>, idx: nat, entry: Option<nat>, m: nat, nodeLayer: nat)
    requires Structured(before, idx, entry, m) && entry.Some?
    ensures Inserting(before, idx, entry.value, m, nodeLayer, Registered(before, idx, nodeLayer), nodeLayer + 1)
  {
    forall k | nodeLayer + 1 <= k < |Registered(before, idx, nodeLayer)|
      ensures LayerOk(Registered(before, idx, nodeLayer)[k], idx + 1, Degree(m, k))
    {
      RegisteredOk(before, idx, entry, m, nodeLayer, k);
    }
  }

  lemma InsertingDone(before: seq<Layer>, idx: nat, entry: Option<nat>, m: nat, nodeLayer: nat, neighbors: seq<Layer>)
    requires Structured(before, idx, entry, m) && entry.Some?
    requires Inserting(before, idx, entry.value, m, nodeLayer, neighbors, 0)
    ensures Structured(neighbors, idx + 1, Some(if nodeLayer >= |neighbors| - 1 then idx else entry.value), m)
  {
    hide LayerOk;
    forall l | 0 <= l < |neighbors| - 1
      ensures neighbors[l + 1].Keys <= neighbors[l].Keys
    {
      if l < |before| {
        EntryInLayer(before, idx, entry, m, l);
        assert l + 1 < |before| ==> before[l + 1].Keys <= before[l].Keys;
      }
    }
  }

  /** Where the descent may stand before entering layer `l`: on a node of that layer, or, in a
      layer newly opened, on the entry point. */
  ghost predicate InPath(before: seq<Layer>, idx: nat, entry: Option<nat>, curr: nat, l: int) {
    && entry.Some? && curr < idx
    && (0 <= l < |before| ==> curr in before[l])
    && (l >= |before| ==> curr == entry.value)
  }

  lemma PathStart(before: seq<Layer>, idx: nat, entry: Option<nat>, m: nat, top: nat)
    requires Structured(before, idx, entry, m) && entry.Some? && top >= |before| - 1
    ensures InPath(before, idx, entry, entry.value, top)
  {
    EntryInLayer(before, idx, entry, m, |before| - 1);
  }

  lemma LayerHome(before: seq<Layer>, idx: nat, entry: Option<nat>, m: nat, l: nat)
    requires Structured(before, idx, entry, m) && l < |before|
    ensures Closed(before[l], before[l].Keys)
    ensures forall u :: u in before[l] ==> u < idx
  {
    forall u, v | u in before[l].Keys && v in Links(before[l], u)
      ensures v in before[l].Keys
    {
      assert LinksOk(before[l], u, Degree(m, l));
    }
  }

  lemma PathDown(before: seq<Layer>, idx: nat, entry: Option<nat>, m: nat, curr: nat, l: nat)
    requires Structured(before, idx, entry, m) && entry.Some? && l > 0 && curr < idx
    requires l < |before| ==> curr in before[l]
    requires l >= |before| ==> curr == entry.value
    ensures InPath(before, idx, entry, curr, l - 1)
  {
    if l < |before| {
      NestedKeys(before, idx, entry, m, l - 1, l);
    } else if l == |before| {
      EntryInLayer(before, idx, entry, m, l - 1);
    }
  }

  lemma InsertingAt(before: seq<Layer>, idx: nat, entry: Option<nat>, m: nat, nodeLayer: nat, neighbors: seq<Layer>,
                    l: nat, curr: nat)
    requires Structured(before, idx, entry, m) && entry.Some? && l <= nodeLayer
    requires Inserting(before, idx, entry.value, m, nodeLayer, neighbors, l + 1) && InPath(before, idx, entry, curr, l)
    ensures l < |neighbors| && neighbors[l] == Registered(before, idx, nodeLayer)[l] && curr < idx
    ensures var layer := neighbors[l];
            && LayerOk(layer, idx + 1, Degree(m, l)) && Avoids(layer, idx)
            && idx in layer && layer[idx] == []
            && (l < |before| && Complete(before[l], idx) ==> Complete(layer, idx))
  {
    RegisteredOk(before, idx, entry, m, nodeLayer, l);
  }

  lemma InsertedOne(before: seq<Layer>, idx: nat, entry: Option<nat>, m: nat, nodeLayer: nat, neighbors: seq<Layer>,
                    l: nat, curr: nat, linked: Layer, next: nat)
    requires Structured(before, idx, entry, m) && entry.Some? && l <= nodeLayer && l < |neighbors|
    requires Inserting(before, idx, entry.value, m, nodeLayer, neighbors, l + 1) && InPath(before, idx, entry, curr, l)
    requires LayerOk(linked, idx + 1, Degree(m, l)) && linked.Keys == neighbors[l].Keys + {curr}
    requires next < idx && (next == curr || next in neighbors[l])
    ensures Inserting(before, idx, entry.value, m, nodeLayer, neighbors[l := linked], l)
    ensures l > 0 ==> InPath(before, idx, entry, next, l - 1)
  {
    hide LayerOk;
    assert neighbors[l] == Registered(before, idx, nodeLayer)[l];
    if l > 0 {
      PathDown(before, idx, entry, m, next, l);
    }
  }

  /** The layers after an insertion. In an empty index the node is only registered. Otherwise `path` enters
      at a greedy descent's end, the node is linked layer by layer along it, and the layers above stay. */
  ghost predicate Inserted(before: seq<Layer>, entry: Option<nat>, after: seq<Layer>, idx: nat, nodeLayer: nat,
                           dist: nat -> real, gap: (nat, nat) -> real, efBuild: nat, m: nat, path: seq<nat>) {
    if entry.None? then after == Registered([], idx, nodeLayer)
    else
      && LinkedAlong(Registered(before, idx, nodeLayer), after, idx, nodeLayer, dist, gap, efBuild, m, BY_DISTANCE,
                     path)
      && |path| == nodeLayer + 2 && dist(path[nodeLayer + 1]) <= dist(entry.value)
      && (nodeLayer + 1 < |before| ==> LocallyClosest(before[nodeLayer + 1], dist, path[nodeLayer + 1]))
  }

  /** `a` is nearer to `u` than `b` is, or as near and ahead of it in the list. */
  ghost predicate Nearer<V(!new)>(metric: (V, V) -> real, vectors: seq<V>, u: nat, links: seq<nat>, a: nat, b: nat) {
    && u < |vectors| && a < |vectors| && b < |vectors|
    && var near, far := metric(vectors[a], vectors[u]), metric(vectors[b], vectors[u]);
       near < far || (near == far && exists p, q :: 0 <= p < q < |links| && links[p] == a && links[q] == b)
  }

  function LayerAt(neighbors: seq<Layer>, l: nat): Layer {
    if l < |neighbors| then neighbors[l] else map[]
  }

  /** How an insertion changes the lists of the nodes already there, over the stored vectors. */
  ghost predicate KeepsNearest<V(!new)>(metric: (V, V) -> real, vectors: seq<V>, m: nat, before: Layer, after: Layer,
                                        idx: nat, l: nat) {
    Relinked(before, after, idx, if l == 0 then 2 * m else m,
             (u: nat, links: seq<nat>, a: nat, b: nat) => Nearer(metric, vectors, u, links, a, b))
  }

  lemma GapIsMetric<V(!new)>(metric: (V, V) -> real, vectors: seq<V>, u: nat, links: seq<nat>, a: nat, b: nat)
    requires u < |vectors| && a < |vectors| && b < |vectors| && Outranks(Stable, Gaps(metric, vectors), u, links, a, b)
    ensures Nearer(metric, vectors, u, links, a, b)
  {
  }

  lemma InsertedLinks(before: seq<Layer>, entry: Option<nat>, after: seq<Layer>, idx: nat, nodeLayer: nat,
                      dist: nat -> real, gap: (nat, nat) -> real, efBuild: nat, m: nat, path: seq<nat>, l: nat)
    requires entry.Some? && l <= nodeLayer
    requires Inserted(before, entry, after, idx, nodeLayer, dist, gap, efBuild, m, path)
    ensures |path| == nodeLayer + 2 && l < |after| == |Registered(before, idx, nodeLayer)|
    ensures LinkedFrom(Registered(before, idx, nodeLayer)[l], idx, path[l + 1], dist, gap, efBuild, Degree(m, l),
                       BY_DISTANCE, after[l], path[l])
  {
    hide LinkedFrom, Degree, LocallyClosest;
  }

  lemma RegisteredLinks(before: seq<Layer>, idx: nat, nodeLayer: nat, l: nat)
    requires l < |Registered(before, idx, nodeLayer)|
    ensures forall u :: u != idx ==> Links(Registered(before, idx, nodeLayer)[l], u) == Links(LayerAt(before, l), u)
  {
  }

  /** Overfull lists keep the links nearest to their owner. */
  lemma InsertedKeepsNearest<V(!new)>(metric: (V, V) -> real, vectors: seq<V>, vec: V, before: seq<Layer>,
                                      entry: Option<nat>, after: seq<Layer>, idx: nat, nodeLayer: nat,
                                      efBuild: nat, m: nat, path: seq<nat>, l: nat)
    requires Structured(before, idx, entry, m) && entry.Some? && m >= 2 && |vectors| == idx + 1
    requires l <= nodeLayer && l < |after| && LayerOk(after[l], idx + 1, Degree(m, l))
    requires Inserted(before, entry, after, idx, nodeLayer, DistanceTo(metric, vectors, vec), Gaps(metric, vectors),
                      efBuild, m, path)
    ensures KeepsNearest(metric, vectors, m, LayerAt(before, l), after[l], idx, l)
  {
    hide Inserted, LayerAt, Avoids, LinkedFrom, Outranks, Nearer, DistanceTo, Gaps, Structured, CutBack, LinksOk;
    var dist, gap := DistanceTo(metric, vectors, vec), Gaps(metric, vectors);
    InsertedLinks(before, entry, after, idx, nodeLayer, dist, gap, efBuild, m, path, l);
    RegisteredOk(before, idx, entry, m, nodeLayer, l);
    RegisteredLinks(before, idx, nodeLayer, l);
    forall u, links, a: nat, b: nat | u in after[l] && a <= idx && b <= idx && Outranks(Stable, gap, u, links, a, b)
      ensures Nearer(metric, vectors, u, links, a, b)
    {
      GapIsMetric(metric, vectors, u, links, a, b);
    }
    hide LayerOk;
    LinkedIsRelinked(Registered(before, idx, nodeLayer)[l], idx, path[l + 1], dist, gap, efBuild, Degree(m, l),
                     BY_DISTANCE, after[l], path[l],
                     (u: nat, links: seq<nat>, a: nat, b: nat) => Nearer(metric, vectors, u, links, a, b));
  }

  /** What an insertion does to the layers: the node is in those up to its level, lists there are cut back by
      the metric, and the layers above stay. */
  ghost predicate RelinksLayers<V(!new)>(metric: (V, V) -> real, vectors: seq<V>, m: nat, before: seq<Layer>,
                                         after: seq<Layer>, idx: nat, nodeLayer: nat) {
    forall l :: 0 <= l < |after| ==>
      && (idx in after[l] <==> l <= nodeLayer)
      && (l <= nodeLayer ==> KeepsNearest(metric, vectors, m, LayerAt(before, l), after[l], idx, l))
      && (l > nodeLayer ==> after[l] == LayerAt(before, l))
  }

  lemma InsertedRelinksLayers<V(!new)>(metric: (V, V) -> real, vectors: seq<V>, vec: V, before: seq<Layer>,
                                       entry: Option<nat>, entry': Option<nat>, after: seq<Layer>, idx: nat,
                                       nodeLayer: nat, efBuild: nat, m: nat, path: seq<nat>)
    requires Structured(before, idx, entry, m) && entry.Some? && m >= 2 && |vectors| == idx + 1
    requires Structured(after, idx + 1, entry', m)
    requires Inserted(before, entry, after, idx, nodeLayer, DistanceTo(metric, vectors, vec), Gaps(metric, vectors),
                      efBuild, m, path)
    ensures RelinksLayers(metric, vectors, m, before, after, idx, nodeLayer)
  {
    hide KeepsNearest, LinkedFrom, DistanceTo, Gaps, LocallyClosest;
    forall l | 0 <= l < |after|
      ensures idx in after[l] <==> l <= nodeLayer
      ensures l <= nodeLayer ==> KeepsNearest(metric, vectors, m, LayerAt(before, l), after[l], idx, l)
      ensures l > nodeLayer ==> after[l] == LayerAt(before, l)
    {
      if l <= nodeLayer {
        InsertedKeepsNearest(metric, vectors, vec, before, entry, after, idx, nodeLayer, efBuild, m, path, l);
        assert idx in after[l] by { HasNewNode(metric, vectors, m, LayerAt(before, l), after[l], idx, l); }
      } else {
        StructuredSize(before, idx, entry, m);
      }
    }
  }

  lemma HasNewNode<V(!new)>(metric: (V, V) -> real, vectors: seq<V>, m: nat, before: Layer, after: Layer, idx: nat,
                            l: nat)
    requires KeepsNearest(metric, vectors, m, before, after, idx, l)
    ensures idx in after
  {
  }

  datatype Match = Match(id: string, distance: real)

  function Matches(ids: seq<string>, hits: seq<Scored>): (r: seq<Match>)
    requires forall k :: 0 <= k < |hits| ==> hits[k].i < |ids|
    ensures |r| == |hits| && forall k :: 0 <= k < |hits| ==> r[k] == Match(ids[hits[k].i], hits[k].d)
  {
    seq(|hits|, k requires 0 <= k < |hits| => Match(ids[hits[k].i], hits[k].d))
  }

  class HnswIndex<V(!new)> {
    const metric: (V, V) -> real
    const m: nat
    const efBuild: nat
    var efSearch: nat
    var vectors: seq<V>
    var ids: seq<string>
    var neighbors: seq<Layer>
    var entryPoint: Option<nat>
    var maxLayer: int

    ghost predicate Valid()
      reads this
    {
      && m >= 2 && |ids| == |vectors| && maxLayer == |neighbors| - 1
      && Structured(neighbors, |vectors|, entryPoint, m)
    }

    /** Every two nodes are linked in layer 0. */
    ghost predicate BaseComplete()
      reads this
    {
      neighbors == [] || Complete(neighbors[0], |vectors|)
    }

    constructor (metric: (V, V) -> real, m: nat, efBuild: nat, efSearch: nat)
      requires m >= 2
      ensures Valid() && BaseComplete() && vectors == [] && ids == []
      ensures this.metric == metric && this.m == m && this.efBuild == efBuild && this.efSearch == efSearch
    {
      this.metric, this.m, this.efBuild, this.efSearch := metric, m, efBuild, efSearch;
      vectors, ids, neighbors, entryPoint, maxLayer := [], [], [], None, -1;
    }

    function Dist(vec: V): nat -> real
      reads this
    {
      DistanceTo(metric, vectors, vec)
    }

    function Gap(): (nat, nat) -> real
      reads this
    {
      Gaps(metric, vectors)
    }

    /** Open missing layers and enter the new node, unlinked, in layers `0..nodeLayer`. */
    method Register(idx: nat, nodeLayer: nat)
      requires maxLayer == |neighbors| - 1 && forall l :: 0 <= l < |neighbors| ==> idx !in neighbors[l]
      modifies `neighbors, `maxLayer
      ensures neighbors == Registered(old(neighbors), idx, nodeLayer) && maxLayer == |neighbors| - 1
    {
      while maxLayer < nodeLayer
        invariant maxLayer == |neighbors| - 1
        invariant |old(neighbors)| <= |neighbors|
        invariant |neighbors| == |old(neighbors)| || |neighbors| <= nodeLayer + 1
        invariant forall l :: 0 <= l < |neighbors| ==>
                  neighbors[l] == if l < |old(neighbors)| then old(neighbors)[l] else map[]
      {
        neighbors := neighbors + [map[]];
        maxLayer := maxLayer + 1;
      }
      for layer := 0 to nodeLayer + 1
        invariant maxLayer == |neighbors| - 1 && |neighbors| == |Registered(old(neighbors), idx, nodeLayer)|
        invariant forall l :: 0 <= l < layer ==> neighbors[l] == Registered(old(neighbors), idx, nodeLayer)[l]
        invariant forall l :: layer <= l < |neighbors| ==>
                  neighbors[l] == if l < |old(neighbors)| then old(neighbors)[l] else map[]
      {
        if idx !in neighbors[layer] {
          var entered: Layer := neighbors[layer][idx := []];
          neighbors := neighbors[layer := entered];
        }
      }
    }

    /** Greedy descent through the layers above `nodeLayer`. */
    method Descend(ghost before: seq<Layer>, idx: nat, vec: V, nodeLayer: nat) returns (curr: nat)
      requires Structured(before, idx, entryPoint, m) && entryPoint.Some?
      requires neighbors == Registered(before, idx, nodeLayer) && maxLayer == |neighbors| - 1
      ensures InPath(before, idx, entryPoint, curr, nodeLayer)
      ensures Dist(vec)(curr) <= Dist(vec)(entryPoint.value)
      ensures nodeLayer < maxLayer ==> LocallyClosest(neighbors[nodeLayer + 1], Dist(vec), curr)
    {
      hide Structured, DistanceTo;
      curr := entryPoint.value;
      PathStart(before, idx, entryPoint, m, maxLayer);
      for layer := maxLayer + 1 downto nodeLayer + 1
        invariant InPath(before, idx, entryPoint, curr, layer - 1)
        invariant Dist(vec)(curr) <= Dist(vec)(entryPoint.value)
        invariant layer <= maxLayer ==> LocallyClosest(neighbors[layer], Dist(vec), curr)
      {
        LayerHome(before, idx, entryPoint, m, layer);
        curr := GreedyClosest(neighbors[layer], Dist(vec), curr, before[layer].Keys);
        PathDown(before, idx, entryPoint, m, curr, layer);
      }
    }

    /** Link the new node in layers `nodeLayer..0`, each from where the one above ended; `path[l]` is
        where layer `l` ends. */
    method InsertDown(ghost before: seq<Layer>, idx: nat, vec: V, nodeLayer: nat, start: nat)
      returns (ghost path: seq<nat>)
      requires Structured(before, idx, entryPoint, m) && entryPoint.Some? && m >= 2
      requires neighbors == Registered(before, idx, nodeLayer) && maxLayer == |neighbors| - 1
      requires InPath(before, idx, entryPoint, start, nodeLayer)
      modifies `neighbors
      ensures Inserting(before, idx, entryPoint.value, m, nodeLayer, neighbors, 0)
      ensures maxLayer == |neighbors| - 1
      ensures LinkedAlong(Registered(before, idx, nodeLayer), neighbors, idx, nodeLayer, Dist(vec), Gap(), efBuild,
                          m, BY_DISTANCE, path)
      ensures |path| == nodeLayer + 2 && path[nodeLayer + 1] == start
      ensures before != [] && Complete(before[0], idx) && idx <= 2 * m <= efBuild ==>
                neighbors != [] && Complete(neighbors[0], idx + 1)
    {
      hide Structured, Inserting, Complete, InPath, LayerOk, Avoids, LinkedFrom, LinkedBelow, DistanceTo, Gaps;
      var curr := start;
      LinkedStart(Registered(before, idx, nodeLayer), idx, nodeLayer, Dist(vec), Gap(), efBuild, m, BY_DISTANCE, start);
      path := [start];
      InsertingStart(before, idx, entryPoint, m, nodeLayer);
      for layer := (if nodeLayer < maxLayer then nodeLayer else maxLayer) + 1 downto 0
        invariant |neighbors| == maxLayer + 1 && maxLayer >= nodeLayer
        invariant Inserting(before, idx, entryPoint.value, m, nodeLayer, neighbors, layer)
        invariant layer > 0 ==> InPath(before, idx, entryPoint, curr, layer - 1)
        invariant LinkedBelow(Registered(before, idx, nodeLayer), neighbors, idx, layer, nodeLayer, Dist(vec), Gap(),
                              efBuild, m, BY_DISTANCE, path)
        invariant |path| == nodeLayer + 2 - layer && path[0] == curr && path[|path| - 1] == start
        invariant layer == 0 && before != [] && Complete(before[0], idx) && idx <= 2 * m <= efBuild ==>
                    Complete(neighbors[0], idx + 1)
      {
        InsertingAt(before, idx, entryPoint, m, nodeLayer, neighbors, layer, curr);
        var linked, next := LinkInLayer(neighbors[layer], idx, curr, Dist(vec), Gap(), efBuild, Degree(m, layer),
                                        BY_DISTANCE);
        InsertedOne(before, idx, entryPoint, m, nodeLayer, neighbors, layer, curr, linked, next);
        LinkedStep(Registered(before, idx, nodeLayer), neighbors, idx, layer, nodeLayer, Dist(vec), Gap(), efBuild, m,
                   BY_DISTANCE, path, linked, next);
        neighbors := neighbors[layer := linked];
        curr := next;
        path := [next] + path;
      }
    }

    /** Insert a vector whose random level is `nodeLayer`. */
    method Add(id: string, vec: V, nodeLayer: nat) returns (ghost path: seq<nat>)
      requires Valid()
      modifies this
      ensures Valid() && vectors == old(vectors) + [vec] && ids == old(ids) + [id] && efSearch == old(efSearch)
      ensures maxLayer == if nodeLayer > old(maxLayer) then nodeLayer else old(maxLayer)
      ensures entryPoint == if nodeLayer >= old(maxLayer) then Some(|old(vectors)|) else old(entryPoint)
      ensures Inserted(old(neighbors), old(entryPoint), neighbors, |old(vectors)|, nodeLayer, Dist(vec), Gap(),
                       efBuild, m, path)
      ensures old(entryPoint).Some? ==>
                RelinksLayers(metric, vectors, m, old(neighbors), neighbors, |old(vectors)|, nodeLayer)
      ensures old(BaseComplete()) && |old(vectors)| <= 2 * m && efBuild >= 2 * m ==> BaseComplete()
    {
      hide Structured, Inserting, Complete, LinkedAlong, DistanceTo, Gaps, LocallyClosest, Registered, RelinksLayers;
      var idx := |vectors|;
      ghost var before, entry := neighbors, entryPoint;
      StructuredSize(before, idx, entry, m);
      vectors, ids := vectors + [vec], ids + [id];
      Register(idx, nodeLayer);
      if entryPoint == None {
        entryPoint := Some(idx);
        FirstNode(m, nodeLayer);
        path := [];
        return;
      }
      var curr := Descend(before, idx, vec, nodeLayer);
      InsertingStart(before, idx, entry, m, nodeLayer);
      path := InsertDown(before, idx, vec, nodeLayer, curr);
      InsertingDone(before, idx, entry, m, nodeLayer, neighbors);
      if nodeLayer >= maxLayer {
        entryPoint := Some(idx);
      }
      InsertedRelinksLayers(metric, vectors, vec, before, entry, entryPoint, neighbors, idx, nodeLayer, efBuild, m,
                            path);
    }

    ghost function AllDistances(vec: V): seq<real>
      reads this
    {
      AllOf(Dist(vec), |vectors|)
    }

    /** Greedy descent from the entry point to layer 0. */
    method EnterBase(vec: V) returns (curr: nat)
      requires Valid() && entryPoint.Some?
      ensures curr < |vectors| && Closed(neighbors[0], Below(|vectors|))
      ensures Dist(vec)(curr) <= Dist(vec)(entryPoint.value)
      ensures maxLayer > 0 ==> LocallyClosest(neighbors[1], Dist(vec), curr)
    {
      hide Structured, DistanceTo;
      StructuredSize(neighbors, |vectors|, entryPoint, m);
      curr := entryPoint.value;
      EntryInLayer(neighbors, |vectors|, entryPoint, m, maxLayer);
      for layer := maxLayer + 1 downto 1
        invariant curr in neighbors[layer - 1]
        invariant Dist(vec)(curr) <= Dist(vec)(entryPoint.value)
        invariant layer <= maxLayer ==> LocallyClosest(neighbors[layer], Dist(vec), curr)
      {
        LayerHome(neighbors, |vectors|, entryPoint, m, layer);
        curr := GreedyClosest(neighbors[layer], Dist(vec), curr, neighbors[layer].Keys);
        NestedKeys(neighbors, |vectors|, entryPoint, m, layer - 1, layer);
      }
      LayerHome(neighbors, |vectors|, entryPoint, m, 0);
      BaseHoldsAll(neighbors, |vectors|, entryPoint, m);
    }

    /** The `topK` best of a beam search of layer 0 entered by greedy descent. */
    method Query(vec: V, topK: nat) returns (r: seq<Match>, hits: seq<Scored>, ghost entry: nat)
      requires Valid()
      ensures vectors == [] ==> r == []
      ensures vectors != [] ==>
                && IsBestFound(neighbors[0], Dist(vec), entry, if efSearch > topK then efSearch else topK,
                               WhenWorse, LowFirst, |vectors|, topK, hits)
                && Dist(vec)(entry) <= Dist(vec)(entryPoint.value)
                && (maxLayer > 0 ==> LocallyClosest(neighbors[1], Dist(vec), entry))
      ensures vectors != [] ==> CannotImprove(neighbors[0], Dist(vec), entry, topK, hits)
      ensures |r| == |hits| <= topK && SortedScores(LowFirst, hits)
      ensures forall k :: 0 <= k < |hits| ==>
                && hits[k].i < |vectors| && hits[k].d == metric(vectors[hits[k].i], vec)
                && r[k] == Match(ids[hits[k].i], hits[k].d)
      ensures BaseComplete() && (efSearch >= |vectors| || topK >= |vectors|) ==>
                Distances(hits) == BruteForce.NearestDistances(AllDistances(vec), topK)
    {
      hide Structured, Complete, BruteForce.NearestDistances, SortedScores, Closed, AllOf, IsBestFound, LocallyClosest,
           CannotImprove;
      StructuredSize(neighbors, |vectors|, entryPoint, m);
      if entryPoint == None {
        EmptyIndexIsExact(Dist(vec), LowFirst, topK);
        return [], [], 0;
      }
      var dist := Dist(vec);
      var curr := EnterBase(vec);
      entry := curr;
      var ef := if efSearch > topK then efSearch else topK;
      hits := BestOf(neighbors[0], dist, curr, ef, WhenWorse, LowFirst, |vectors|, topK);
      r := Matches(ids, hits);
    }
  }

  lemma BaseHoldsAll(neighbors: seq<Layer>, n: nat, entry: Option<nat>, m: nat)
    requires Structured(neighbors, n, entry, m) && n > 0
    ensures neighbors[0].Keys == Below(n)
  {
  }

  lemma StructuredSize(neighbors: seq<Layer>, n: nat, entry: Option<nat>, m: nat)
    requires Structured(neighbors, n, entry, m)
    ensures (n == 0 <==> neighbors == []) && (n == 0 <==> entry == None)
    ensures forall l :: 0 <= l < |neighbors| ==> n !in neighbors[l]
  {
    forall l | 0 <= l < |neighbors|
      ensures n !in neighbors[l]
    {
      assert LayerOk(neighbors[l], n, Degree(m, l));
    }
  }

  lemma FirstNode(m: nat, nodeLayer: nat)
    ensures Structured(Registered([], 0, nodeLayer), 1, Some(0), m)
    ensures Complete(Registered([], 0, nodeLayer)[0], 1)
  {
  }

  /** Degree `2m` leaves no room for a complete layer 0 of more than `2m + 1` nodes. */
  lemma CompleteOnlyWhenSmall(neighbors: seq<Layer>, n: nat, entry: Option<nat>, m: nat)
    requires Structured(neighbors, n, entry, m) && n > 0 && Complete(neighbors[0], n)
    ensures n <= 2 * m + 1
  {
    CompleteKeys(neighbors[0], n);
    assert LinksOk(neighbors[0], 0, Degree(m, 0));
    CompleteSize(neighbors[0], n, 0);
  }

  /** Build an index from embeddings, in order, each with its random level. However the levels
      fall, with `efBuild >= 2m` layer 0 is complete exactly up to `2m + 1` points. */
  method BuildHnsw<V(!new)>(embeddings: seq<(string, V)>, levels: seq<nat>, metric: (V, V) -> real,
                            m: nat, efBuild: nat, efSearch: nat) returns (index: HnswIndex<V>)
    requires m >= 2 && |levels| == |embeddings|
    ensures fresh(index) && index.Valid() && |index.vectors| == |embeddings|
    ensures forall k :: 0 <= k < |embeddings| ==> index.ids[k] == embeddings[k].0 && index.vectors[k] == embeddings[k].1
    ensures efBuild >= 2 * m ==> (index.BaseComplete() <==> |embeddings| <= 2 * m + 1)
    ensures index.metric == metric && index.m == m && index.efSearch == efSearch
  {
    hide HnswIndex.BaseComplete, HnswIndex.Valid, Inserted;
    index := new HnswIndex(metric, m, efBuild, efSearch);
    ghost var ids: seq<string>, vectors: seq<V> := [], [];
    for k := 0 to |embeddings|
      invariant fresh(index) && index.Valid() && |index.vectors| == k
      invariant index.metric == metric && index.m == m && index.efBuild == efBuild && index.efSearch == efSearch
      invariant index.ids == ids && index.vectors == vectors && |ids| == |vectors| == k
      invariant forall j :: 0 <= j < k ==> ids[j] == embeddings[j].0 && vectors[j] == embeddings[j].1
      invariant |embeddings| <= 2 * m + 1 && efBuild >= 2 * m ==> index.BaseComplete()
    {
      ghost var path := index.Add(embeddings[k].0, embeddings[k].1, levels[k]);
      ids, vectors := ids + [embeddings[k].0], vectors + [embeddings[k].1];
    }
    CompleteIndexIsSmall(index);
  }

  lemma CompleteIndexIsSmall<V(!new)>(index: HnswIndex<V>)
    requires index.Valid()
    ensures index.BaseComplete() ==> |index.vectors| <= 2 * index.m + 1
  {
    if index.BaseComplete() && index.vectors != [] {
      CompleteOnlyWhenSmall(index.neighbors, |index.vectors|, index.entryPoint, index.m);
    }
  }
}
