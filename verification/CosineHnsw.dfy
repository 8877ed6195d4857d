/** The cosine-similarity index: nodes that carry their own per-layer neighbour lists. */
module CosineHnsw {
  import opened Options
  import opened Scores
  import opened LayerSearch
  import opened LayerGraph
  import opened LayerInsertion
  import BruteForce

  /** Results rank by similarity, then higher index, in search results and in pruning alike. */
  const BY_SIMILARITY := Ranking(WhenFullAndWorse, HighFirst, HighIndexFirst)

  datatype IndexNode<V> = IndexNode(id: string, vector: V, level: nat, neighbors: seq<seq<nat>>)

  /** The links of the nodes whose level reaches `l`. */
  function LayerOf<V>(nodes: seq<IndexNode<V>>, l: nat): Layer {
    map i: nat | i < |nodes| && l <= nodes[i].level && l < |nodes[i].neighbors| :: nodes[i].neighbors[l]
  }

  function SetLayer<V>(nodes: seq<IndexNode<V>>, l: nat, layer: Layer): (r: seq<IndexNode<V>>)
    ensures |r| == |nodes|
    ensures forall i {:trigger r[i]} :: 0 <= i < |nodes| ==> r[i] == SetLinks(nodes[i], i, l, layer)
  {
    seq(|nodes|, i requires 0 <= i < |nodes| => SetLinks(nodes[i], i, l, layer))
  }

  function SetLinks<V>(node: IndexNode<V>, i: nat, l: nat, layer: Layer): IndexNode<V> {
    if i in layer && l < |node.neighbors| then node.(neighbors := node.neighbors[l := layer[i]]) else node
  }

  ghost predicate WellShaped<V>(nodes: seq<IndexNode<V>>) {
    forall i :: 0 <= i < |nodes| ==> |nodes[i].neighbors| == nodes[i].level + 1
  }

  lemma LayerOfSetLayer<V>(nodes: seq<IndexNode<V>>, l: nat, layer: Layer, k: nat)
    requires WellShaped(nodes) && layer.Keys == LayerOf(nodes, l).Keys
    ensures WellShaped(SetLayer(nodes, l, layer))
    ensures LayerOf(SetLayer(nodes, l, layer), k) == if k == l then layer else LayerOf(nodes, k)
  {
    var nodes' := SetLayer(nodes, l, layer);
    forall i | 0 <= i < |nodes|
      ensures nodes'[i].level == nodes[i].level && |nodes'[i].neighbors| == nodes[i].level + 1
      ensures i in LayerOf(nodes', k) <==> i in LayerOf(nodes, k)
      ensures i in LayerOf(nodes, k) ==> LayerOf(nodes', k)[i] == if k == l then layer[i] else nodes[i].neighbors[k]
    {
      assert i in layer <==> i in LayerOf(nodes, l);
    }
  }

  /** Every layer is sound and the entry point is a node of the highest level. */
  ghost predicate Structured<V>(nodes: seq<IndexNode<V>>, entry: Option<nat>, maxLevel: int, m: nat) {
    && WellShaped(nodes)
    && (nodes == [] <==> entry == None) && (nodes == [] ==> maxLevel == -1)
    && (forall l: nat :: LayerOk(LayerOf(nodes, l), |nodes|, Degree(m, l)))
    && (forall i :: 0 <= i < |nodes| ==> nodes[i].level <= maxLevel)
    && (entry.Some? ==> entry.value < |nodes| && nodes[entry.value].level == maxLevel)
  }

  lemma LayerHome<V>(nodes: seq<IndexNode<V>>, entry: Option<nat>, maxLevel: int, m: nat, l: nat)
    requires Structured(nodes, entry, maxLevel, m)
    ensures Closed(LayerOf(nodes, l), LayerOf(nodes, l).Keys)
  {
    var layer := LayerOf(nodes, l);
    forall u, v | u in layer.Keys && v in Links(layer, u)
      ensures v in layer.Keys
    {
      assert LinksOk(layer, u, Degree(m, l));
    }
  }

  lemma StructuredEntry<V>(nodes: seq<IndexNode<V>>, entry: Option<nat>, maxLevel: int, m: nat)
    requires Structured(nodes, entry, maxLevel, m)
    ensures WellShaped(nodes) && (nodes == [] <==> entry == None) && (nodes == [] ==> maxLevel == -1)
    ensures entry.Some? ==> entry.value < |nodes| && nodes[entry.value].level == maxLevel && maxLevel >= 0
  {
  }

  lemma BaseHoldsAll<V>(nodes: seq<IndexNode<V>>)
    requires WellShaped(nodes)
    ensures LayerOf(nodes, 0).Keys == Below(|nodes|)
  {
  }

  // ------------------------------------------------------------- insertion

  /** Similarity of the query to a stored vector, as a distance. */
  function Negated<V>(sim: (V, V) -> real): (V, V) -> real {
    (stored: V, query: V) => -sim(query, stored)
  }

  function VectorsOf<V>(nodes: seq<IndexNode<V>>): (r: seq<V>)
    ensures |r| == |nodes| && forall i {:trigger r[i]} :: 0 <= i < |nodes| ==> r[i] == nodes[i].vector
  {
    seq(|nodes|, i requires 0 <= i < |nodes| => nodes[i].vector)
  }

  /** The lowest `h` layers. */
  function Layers<V>(nodes: seq<IndexNode<V>>, h: nat): (r: seq<Layer>)
    ensures |r| == h && forall l :: 0 <= l < h ==> r[l] == LayerOf(nodes, l)
  {
    seq(h, l requires 0 <= l => LayerOf(nodes, l))
  }

  /** The highest layer a new node shares with the index, and the number of layers afterwards. */
  function Top(level: nat, maxLevel: int): int {
    if level <= maxLevel then level else maxLevel
  }

  function Height(level: nat, maxLevel: int): nat {
    if level <= maxLevel then maxLevel + 1 else level + 1
  }

  lemma SetLayers<V>(nodes: seq<IndexNode<V>>, l: nat, linked: Layer, h: nat)
    requires WellShaped(nodes) && linked.Keys == LayerOf(nodes, l).Keys && l < h
    ensures Layers(SetLayer(nodes, l, linked), h) == Layers(nodes, h)[l := linked]
  {
    hide LayerOf;
    forall k: nat | k < h
      ensures LayerOf(SetLayer(nodes, l, linked), k) == if k == l then linked else LayerOf(nodes, k)
    {
      LayerOfSetLayer(nodes, l, linked, k);
    }
  }

  lemma DistanceIsSimilarity<V>(sim: (V, V) -> real, nodes: seq<IndexNode<V>>, v: V, i: nat)
    requires i < |nodes|
    ensures DistanceTo(Negated(sim), VectorsOf(nodes), v)(i) == -sim(v, nodes[i].vector)
  {
  }

  /** Storing one linked layer. */
  lemma LinkedOne<V>(before: seq<IndexNode<V>>, node: IndexNode<V>, m: nat, nodes: seq<IndexNode<V>>, h: nat, l: nat,
                     linked: Layer, next: nat,
                     top: nat, dist: nat -> real, gap: (nat, nat) -> real, ef: nat, path: seq<nat>)
    requires Inserting(before, node, m, nodes, l + 1) && l < h
    requires LayerOk(linked, |nodes|, Degree(m, l)) && linked.Keys == LayerOf(nodes, l).Keys
    requires LinkedBelow(Layers(before + [node], h), Layers(nodes, h), |before|, l + 1, top, dist, gap, ef, m,
                         BY_SIMILARITY, path)
    requires path != [] && LinkedFrom(LayerOf(nodes, l), |before|, path[0], dist, gap, ef, Degree(m, l),
                                      BY_SIMILARITY, linked, next)
    ensures var nodes' := SetLayer(nodes, l, linked);
            && Inserting(before, node, m, nodes', l) && LayerOf(nodes', l) == linked
            && VectorsOf(nodes') == VectorsOf(nodes)
            && LinkedBelow(Layers(before + [node], h), Layers(nodes', h), |before|, l, top, dist, gap, ef, m,
                           BY_SIMILARITY, [next] + path)
  {
    hide Inserting, LayerOk, LayerOf, LinkedFrom, LinkedBelow, SetLayer, WellShaped;
    InsertedOne(before, node, m, nodes, l, linked);
    InsertingShape(before, node, m, nodes, l + 1);
    SetLayers(nodes, l, linked, h);
    SetLayerVectors(nodes, l, linked);
    LinkedStep(Layers(before + [node], h), Layers(nodes, h), |before|, l, top, dist, gap, ef, m, BY_SIMILARITY, path,
               linked, next);
  }

  lemma SetLayerVectors<V>(nodes: seq<IndexNode<V>>, l: nat, linked: Layer)
    ensures VectorsOf(SetLayer(nodes, l, linked)) == VectorsOf(nodes)
  {
    forall i | 0 <= i < |nodes|
      ensures SetLayer(nodes, l, linked)[i].vector == nodes[i].vector
    {
    }
  }

  /** The nodes after an insertion. The first node stands alone. Otherwise `path` enters at a greedy
      descent's end, and the node is linked layer by layer along it. */
  ghost predicate Inserted<V>(before: seq<IndexNode<V>>, entry: Option<nat>, maxLevel: int, node: IndexNode<V>,
                              nodes: seq<IndexNode<V>>,
                              dist: nat -> real, gap: (nat, nat) -> real, ef: nat, m: nat, path: seq<nat>) {
    if entry.None? then nodes == [node]
    else
      var top, h := Top(node.level, maxLevel), Height(node.level, maxLevel);
      && top >= 0 && |path| == top + 2
      && LinkedAlong(Layers(before + [node], h), Layers(nodes, h), |before|, top, dist, gap, ef, m, BY_SIMILARITY, path)
      && dist(path[top + 1]) <= dist(entry.value)
      && (node.level < maxLevel ==> LocallyClosest(LayerOf(before, node.level + 1), dist, path[top + 1]))
  }

  function NewNode<V>(id: string, vector: V, level: nat): IndexNode<V> {
    IndexNode(id, vector, level, seq(level + 1, _ => []))
  }

  lemma NewNodeFields<V>(id: string, vector: V, level: nat)
    ensures var node := NewNode(id, vector, level); node.id == id && node.vector == vector && node.level == level
  {
  }

  lemma NewLayer<V>(before: seq<IndexNode<V>>, entry: Option<nat>, maxLevel: int, m: nat, node: IndexNode<V>, l: nat)
    requires Structured(before, entry, maxLevel, m)
    requires node == NewNode(node.id, node.vector, node.level)
    ensures var layer := LayerOf(before + [node], l);
            && layer == (if l <= node.level then LayerOf(before, l)[|before| := []] else LayerOf(before, l))
            && LayerOk(layer, |before| + 1, Degree(m, l)) && Avoids(layer, |before|)
            && (Complete(LayerOf(before, l), |before|) ==> Complete(layer, |before|))
  {
    assert LayerOf(before + [node], l) ==
           if l <= node.level then LayerOf(before, l)[|before| := []] else LayerOf(before, l);
    hide LayerOf;
    EnterLayer(LayerOf(before, l), |before|, Degree(m, l));
  }

  /** Layers from `l` up are done, those below as they were before linking. */
  ghost predicate Inserting<V>(before: seq<IndexNode<V>>, node: IndexNode<V>, m: nat, nodes: seq<IndexNode<V>>,
                               l: nat) {
    && |nodes| == |before| + 1 && WellShaped(nodes)
    && (forall i :: 0 <= i < |nodes| ==> SameButLinks(nodes[i], (before + [node])[i]))
    && (forall k: nat :: k < l ==> LayerOf(nodes, k) == LayerOf(before + [node], k))
    && (forall k: nat :: k >= l ==> LayerOk(LayerOf(nodes, k), |nodes|, Degree(m, k)))
  }

  predicate SameButLinks<V(==)>(a: IndexNode<V>, b: IndexNode<V>) {
    a.id == b.id && a.vector == b.vector && a.level == b.level
  }

  lemma InsertingStart<V>(before: seq<IndexNode<V>>, entry: Option<nat>, maxLevel: int, m: nat, node: IndexNode<V>)
    requires Structured(before, entry, maxLevel, m) && node == NewNode(node.id, node.vector, node.level)
    ensures Inserting(before, node, m, before + [node], (if node.level <= maxLevel then node.level else maxLevel) + 1)
  {
    forall k: nat
      ensures LayerOk(LayerOf(before + [node], k), |before| + 1, Degree(m, k))
    {
      NewLayer(before, entry, maxLevel, m, node, k);
    }
  }

  lemma InsertedOne<V>(before: seq<IndexNode<V>>, node: IndexNode<V>, m: nat, nodes: seq<IndexNode<V>>, l: nat,
                       linked: Layer)
    requires Inserting(before, node, m, nodes, l + 1)
    requires LayerOk(linked, |nodes|, Degree(m, l)) && linked.Keys == LayerOf(nodes, l).Keys
    ensures Inserting(before, node, m, SetLayer(nodes, l, linked), l)
    ensures LayerOf(SetLayer(nodes, l, linked), l) == linked
  {
    hide LayerOk, LayerOf;
    var nodes' := SetLayer(nodes, l, linked);
    forall k: nat
      ensures LayerOf(nodes', k) == if k == l then linked else LayerOf(nodes, k)
    {
      LayerOfSetLayer(nodes, l, linked, k);
    }
    LayerOfSetLayer(nodes, l, linked, l);
  }

  lemma InsertingDone<V>(before: seq<IndexNode<V>>, entry: Option<nat>, maxLevel: int, m: nat, node: IndexNode<V>,
                         nodes: seq<IndexNode<V>>)
    requires Structured(before, entry, maxLevel, m) && entry.Some?
    requires Inserting(before, node, m, nodes, 0)
    ensures Structured(nodes, if node.level > maxLevel then Some(|before|) else entry,
                       if node.level > maxLevel then node.level else maxLevel, m)
  {
    hide LayerOk, LayerOf;
    assert forall i :: 0 <= i < |nodes| ==> nodes[i].level == (before + [node])[i].level;
  }

  lemma InsertingShape<V>(before: seq<IndexNode<V>>, node: IndexNode<V>, m: nat, nodes: seq<IndexNode<V>>, l: nat)
    requires Inserting(before, node, m, nodes, l)
    ensures WellShaped(nodes)
  {
  }

  /** The registered node's layer just before it is linked, from the standpoint of `curr`. */
  lemma InsertingAt<V>(before: seq<IndexNode<V>>, entry: Option<nat>, maxLevel: int, m: nat, node: IndexNode<V>,
                       nodes: seq<IndexNode<V>>, l: nat, curr: nat)
    requires Structured(before, entry, maxLevel, m) && node == NewNode(node.id, node.vector, node.level)
    requires Inserting(before, node, m, nodes, l + 1) && l <= node.level
    requires curr < |before| && before[curr].level >= l
    ensures var layer := LayerOf(nodes, l);
            && LayerOk(layer, |before| + 1, Degree(m, l)) && Avoids(layer, |before|)
            && |before| in layer && layer[|before|] == [] && curr in layer
            && (Complete(LayerOf(before, l), |before|) ==> Complete(layer, |before|))
  {
    NewLayer(before, entry, maxLevel, m, node, l);
    assert curr in LayerOf(before, l);
  }

  /** A node of a layer other than the new one is an old node of at least that level. */
  lemma NodeOfLayer<V>(before: seq<IndexNode<V>>, node: IndexNode<V>, m: nat, nodes: seq<IndexNode<V>>, l: nat,
                       k: nat, u: nat)
    requires Inserting(before, node, m, nodes, l)
    requires u in LayerOf(nodes, k) && u < |before|
    ensures before[u].level >= k
  {
    assert SameButLinks(nodes[u], (before + [node])[u]);
  }

  /** `a` is more similar to `u` than `b` is, or as similar and of higher index. */
  ghost predicate MoreSimilar<V(!new)>(sim: (V, V) -> real, nodes: seq<IndexNode<V>>, u: nat, a: nat, b: nat) {
    && u < |nodes| && a < |nodes| && b < |nodes|
    && var near, far := sim(nodes[u].vector, nodes[a].vector), sim(nodes[u].vector, nodes[b].vector);
       near > far || (near == far && a > b)
  }

  /** How an insertion changes the lists of the nodes already there, over the stored vectors. */
  ghost predicate KeepsMostSimilar<V(!new)>(sim: (V, V) -> real, nodes: seq<IndexNode<V>>, m: nat, before: Layer,
                                            idx: nat, l: nat) {
    Relinked(before, LayerOf(nodes, l), idx, if l == 0 then 2 * m else m,
             (u: nat, links: seq<nat>, a: nat, b: nat) => MoreSimilar(sim, nodes, u, a, b))
  }

  /** What an insertion does to the layers: the node is in those up to its level; in those it shares with the
      index lists are cut back by similarity; in the others the old lists stay. */
  ghost predicate RelinksLayers<V(!new)>(sim: (V, V) -> real, m: nat, before: seq<IndexNode<V>>, maxLevel: int,
                                         nodes: seq<IndexNode<V>>, level: nat) {
    forall l: nat ::
      && (|before| in LayerOf(nodes, l) <==> l <= level)
      && (l <= level && l <= maxLevel ==> KeepsMostSimilar(sim, nodes, m, LayerOf(before, l), |before|, l))
      && (l > level ==> LayerOf(nodes, l) == LayerOf(before, l))
  }

  lemma GapIsSimilarity<V(!new)>(sim: (V, V) -> real, nodes: seq<IndexNode<V>>, u: nat, links: seq<nat>, a: nat, b: nat)
    requires u < |nodes| && a < |nodes| && b < |nodes|
    requires Outranks(HighIndexFirst, Gaps(Negated(sim), VectorsOf(nodes)), u, links, a, b)
    ensures MoreSimilar(sim, nodes, u, a, b)
  {
  }

  lemma InsertedLinks<V>(before: seq<IndexNode<V>>, entry: Option<nat>, maxLevel: int, node: IndexNode<V>,
                         nodes: seq<IndexNode<V>>, dist: nat -> real, gap: (nat, nat) -> real, ef: nat, m: nat,
                         path: seq<nat>, l: nat)
    requires entry.Some? && Inserted(before, entry, maxLevel, node, nodes, dist, gap, ef, m, path)
    ensures l <= node.level && l <= maxLevel ==>
              && |path| >= l + 2
              && LinkedFrom(LayerOf(before + [node], l), |before|, path[l + 1], dist, gap, ef, Degree(m, l),
                            BY_SIMILARITY, LayerOf(nodes, l), path[l])
    ensures node.level < l <= maxLevel ==> LayerOf(nodes, l) == LayerOf(before + [node], l)
  {
    hide LinkedFrom, Degree, LocallyClosest, LayerOf;
    var top, h := Top(node.level, maxLevel), Height(node.level, maxLevel);
    if l < h {
      assert Layers(before + [node], h)[l] == LayerOf(before + [node], l) && Layers(nodes, h)[l] == LayerOf(nodes, l);
    }
  }

  lemma OldLinks<V>(before: seq<IndexNode<V>>, node: IndexNode<V>, l: nat)
    ensures forall u: nat :: u != |before| ==> Links(LayerOf(before + [node], l), u) == Links(LayerOf(before, l), u)
  {
  }

  /** Overfull lists keep the links most similar to their owner. */
  lemma InsertedKeepsMostSimilar<V(!new)>(sim: (V, V) -> real, v: V, before: seq<IndexNode<V>>, entry: Option<nat>,
                                          maxLevel: int, node: IndexNode<V>, nodes: seq<IndexNode<V>>, ef: nat, m: nat,
                                          path: seq<nat>, l: nat)
    requires Structured(before, entry, maxLevel, m) && entry.Some? && m >= 2 && |nodes| == |before| + 1
    requires node == NewNode(node.id, node.vector, node.level) && l <= node.level && l <= maxLevel
    requires LayerOk(LayerOf(nodes, l), |nodes|, Degree(m, l))
    requires Inserted(before, entry, maxLevel, node, nodes, DistanceTo(Negated(sim), VectorsOf(nodes), v),
                      Gaps(Negated(sim), VectorsOf(nodes)), ef, m, path)
    ensures KeepsMostSimilar(sim, nodes, m, LayerOf(before, l), |before|, l)
  {
    hide Inserted, Avoids, LinkedFrom, Outranks, MoreSimilar, DistanceTo, Gaps, Structured, CutBack, LinksOk, LayerOf,
         VectorsOf, Negated, NewNode;
    var dist, gap := DistanceTo(Negated(sim), VectorsOf(nodes), v), Gaps(Negated(sim), VectorsOf(nodes));
    InsertedLinks(before, entry, maxLevel, node, nodes, dist, gap, ef, m, path, l);
    NewLayer(before, entry, maxLevel, m, node, l);
    OldLinks(before, node, l);
    forall u, links, a: nat, b: nat | u in LayerOf(nodes, l) && a <= |before| && b <= |before|
                                      && Outranks(HighIndexFirst, gap, u, links, a, b)
      ensures MoreSimilar(sim, nodes, u, a, b)
    {
      GapIsSimilarity(sim, nodes, u, links, a, b);
    }
    hide LayerOk;
    LinkedIsRelinked(LayerOf(before + [node], l), |before|, path[l + 1], dist, gap, ef, Degree(m, l),
                     BY_SIMILARITY, LayerOf(nodes, l), path[l],
                     (u: nat, links: seq<nat>, a: nat, b: nat) => MoreSimilar(sim, nodes, u, a, b));
  }

  lemma NewNodeLayers<V>(before: seq<IndexNode<V>>, node: IndexNode<V>, nodes: seq<IndexNode<V>>, l: nat)
    requires WellShaped(nodes) && |nodes| == |before| + 1 && nodes[|before|].level == node.level
    ensures |before| in LayerOf(nodes, l) <==> l <= node.level
  {
  }

  lemma NothingAbove<V>(nodes: seq<IndexNode<V>>, maxLevel: int, l: nat)
    requires l > maxLevel && forall i :: 0 <= i < |nodes| ==> nodes[i].level <= maxLevel
    ensures LayerOf(nodes, l) == map[]
  {
  }

  lemma InsertedRelinksLayers<V(!new)>(sim: (V, V) -> real, v: V, before: seq<IndexNode<V>>, entry: Option<nat>,
                                       maxLevel: int, node: IndexNode<V>, nodes: seq<IndexNode<V>>,
                                       entry': Option<nat>, ef: nat, m: nat, path: seq<nat>)
    requires Structured(before, entry, maxLevel, m) && entry.Some? && m >= 2 && |nodes| == |before| + 1
    requires node == NewNode(node.id, node.vector, node.level) && nodes[|before|].level == node.level
    requires Structured(nodes, entry', if node.level > maxLevel then node.level else maxLevel, m)
    requires Inserted(before, entry, maxLevel, node, nodes, DistanceTo(Negated(sim), VectorsOf(nodes), v),
                      Gaps(Negated(sim), VectorsOf(nodes)), ef, m, path)
    ensures RelinksLayers(sim, m, before, maxLevel, nodes, node.level)
  {
    hide KeepsMostSimilar, Inserted, DistanceTo, Gaps, VectorsOf, Negated, LayerOf, NewNode, Degree;
    forall l: nat
      ensures |before| in LayerOf(nodes, l) <==> l <= node.level
      ensures l <= node.level && l <= maxLevel ==> KeepsMostSimilar(sim, nodes, m, LayerOf(before, l), |before|, l)
      ensures l > node.level ==> LayerOf(nodes, l) == LayerOf(before, l)
    {
      NewNodeLayers(before, node, nodes, l);
      if l <= node.level && l <= maxLevel {
        InsertedKeepsMostSimilar(sim, v, before, entry, maxLevel, node, nodes, ef, m, path, l);
      } else if node.level < l <= maxLevel {
        InsertedLinks(before, entry, maxLevel, node, nodes, DistanceTo(Negated(sim), VectorsOf(nodes), v),
                      Gaps(Negated(sim), VectorsOf(nodes)), ef, m, path, l);
        NewLayersAbove(before, entry, maxLevel, m, node);
      } else if l > node.level {
        NothingAbove(nodes, if node.level > maxLevel then node.level else maxLevel, l);
        NothingAbove(before, maxLevel, l);
      }
    }
  }

  datatype AddError = DuplicateId | ZeroVector

  datatype Match = Match(id: string, similarity: real)

  function Matches<V>(nodes: seq<IndexNode<V>>, hits: seq<Scored>): (r: seq<Match>)
    requires forall k :: 0 <= k < |hits| ==> hits[k].i < |nodes|
    ensures |r| == |hits| && forall k :: 0 <= k < |hits| ==> r[k] == Match(nodes[hits[k].i].id, -hits[k].d)
  {
    seq(|hits|, k requires 0 <= k < |hits| => Match(nodes[hits[k].i].id, -hits[k].d))
  }

  /** `idToInternal` is the inverse of the ids, which are therefore distinct. */
  ghost predicate Indexed<V>(nodes: seq<IndexNode<V>>, idToInternal: map<string, nat>) {
    && (forall i :: 0 <= i < |nodes| ==> nodes[i].id in idToInternal && idToInternal[nodes[i].id] == i)
    && (forall id :: id in idToInternal ==> idToInternal[id] < |nodes| && nodes[idToInternal[id]].id == id)
  }

  lemma IndexedNew<V>(nodes: seq<IndexNode<V>>, idToInternal: map<string, nat>, node: IndexNode<V>,
                      nodes': seq<IndexNode<V>>)
    requires Indexed(nodes, idToInternal) && node.id !in idToInternal && |nodes'| == |nodes| + 1
    requires forall i :: 0 <= i < |nodes'| ==> SameButLinks(nodes'[i], (nodes + [node])[i])
    ensures Indexed(nodes', idToInternal[node.id := |nodes|])
  {
  }

  lemma IndexedIds<V>(nodes: seq<IndexNode<V>>, idToInternal: map<string, nat>, id: string)
    requires Indexed(nodes, idToInternal)
    ensures id in idToInternal <==> exists i :: 0 <= i < |nodes| && nodes[i].id == id
  {
  }

  class HnswIndex<V(!new,==)> {
    const sim: (V, V) -> real
    const normalize: V -> Option<V>
    const m: nat
    const efConstruction: nat
    const efSearch: nat
    var nodes: seq<IndexNode<V>>
    var idToInternal: map<string, nat>
    var entryPoint: Option<nat>
    var maxLevel: int

    ghost predicate Valid()
      reads this
    {
      && m >= 2
      && Structured(nodes, entryPoint, maxLevel, m)
      && Indexed(nodes, idToInternal)
    }

    /** Every two nodes are linked in layer 0. */
    ghost predicate BaseComplete()
      reads this
    {
      Complete(LayerOf(nodes, 0), |nodes|)
    }

    constructor (sim: (V, V) -> real, normalize: V -> Option<V>, m: nat, efConstruction: nat, efSearch: nat)
      requires m >= 2
      ensures Valid() && BaseComplete() && nodes == []
      ensures this.sim == sim && this.normalize == normalize && this.m == m
      ensures this.efConstruction == efConstruction && this.efSearch == efSearch
    {
      this.sim, this.normalize, this.m := sim, normalize, m;
      this.efConstruction, this.efSearch := efConstruction, efSearch;
      nodes, idToInternal, entryPoint, maxLevel := [], map[], None, -1;
    }

    /** Distance to a normalised query: the negated similarity. */
    function Dist(v: V): nat -> real
      reads this
    {
      DistanceTo(Negated(sim), VectorsOf(nodes), v)
    }

    function Gap(): (nat, nat) -> real
      reads this
    {
      Gaps(Negated(sim), VectorsOf(nodes))
    }

    /** Greedy descent through the layers above `level`. */
    method Descend(ghost before: seq<IndexNode<V>>, v: V, level: int) returns (curr: nat)
      requires Structured(before, entryPoint, maxLevel, m) && entryPoint.Some?
      requires forall l: nat :: l > level ==> LayerOf(nodes, l) == LayerOf(before, l)
      requires level >= -1
      ensures curr < |before| && before[curr].level >= (if level < maxLevel then level else maxLevel)
      ensures Dist(v)(curr) <= Dist(v)(entryPoint.value)
      ensures level < maxLevel ==> LocallyClosest(LayerOf(before, level + 1), Dist(v), curr)
    {
      hide Structured, LayerOf, DistanceTo;
      StructuredEntry(before, entryPoint, maxLevel, m);
      curr := entryPoint.value;
      for layer := maxLevel + 1 downto (if level < maxLevel then level else maxLevel) + 1
        invariant curr < |before| && before[curr].level >= layer - 1
        invariant Dist(v)(curr) <= Dist(v)(entryPoint.value)
        invariant layer <= maxLevel ==> LocallyClosest(LayerOf(before, layer), Dist(v), curr)
      {
        LayerHome(before, entryPoint, maxLevel, m, layer);
        LayerKeys(before, layer);
        curr := GreedyClosest(LayerOf(nodes, layer), Dist(v), curr, LayerOf(before, layer).Keys);
      }
    }

    /** Link the new node in the layers it shares with the index, top down. */
    method InsertDown(ghost before: seq<IndexNode<V>>, node: IndexNode<V>, start: nat) returns (ghost path: seq<nat>)
      requires Structured(before, entryPoint, maxLevel, m) && entryPoint.Some? && m >= 2
      requires node == NewNode(node.id, node.vector, node.level) && nodes == before + [node]
      requires start < |before| && before[start].level >= (if node.level < maxLevel then node.level else maxLevel)
      modifies `nodes
      ensures Inserting(before, node, m, nodes, 0) && VectorsOf(nodes) == VectorsOf(before + [node])
      ensures var top, h := Top(node.level, maxLevel), Height(node.level, maxLevel);
              && top >= 0 && |path| == top + 2 && path[top + 1] == start
              && LinkedAlong(Layers(before + [node], h), Layers(nodes, h), |before|, top, Dist(node.vector), Gap(),
                             efConstruction, m, BY_SIMILARITY, path)
      ensures Complete(LayerOf(before, 0), |before|) && |before| <= 2 * m <= efConstruction ==>
                Complete(LayerOf(nodes, 0), |nodes|)
    {
      hide Structured, Inserting, Complete, LayerOf, LayerOk, Avoids, LinkedFrom, LinkedBelow,
           DistanceTo, Gaps, VectorsOf, Layers, NewNode, SetLayer, WellShaped, Negated, SameButLinks;
      StructuredEntry(before, entryPoint, maxLevel, m);
      InsertingStart(before, entryPoint, maxLevel, m, node);
      var curr: nat, idx: nat := start, |nodes| - 1;
      ghost var top, h := Top(node.level, maxLevel), Height(node.level, maxLevel);
      ghost var dist, gap := Dist(node.vector), Gap();
      path := [start];
      LinkedStart(Layers(before + [node], h), idx, top, dist, gap, efConstruction, m, BY_SIMILARITY, start);
      ghost var wide := Complete(LayerOf(before, 0), |before|) && |before| <= 2 * m <= efConstruction;
      for layer := (if node.level < maxLevel then node.level else maxLevel) + 1 downto 0
        invariant |nodes| == |before| + 1 && Inserting(before, node, m, nodes, layer)
        invariant curr < |before| && before[curr].level >= layer - 1
        invariant VectorsOf(nodes) == VectorsOf(before + [node])
        invariant |path| == top + 2 - layer && path[0] == curr && path[|path| - 1] == start
        invariant LinkedBelow(Layers(before + [node], h), Layers(nodes, h), idx, layer, top, dist, gap,
                              efConstruction, m, BY_SIMILARITY, path)
        invariant layer == 0 && wide ==> Complete(LayerOf(nodes, 0), |nodes|)
      {
        InsertingAt(before, entryPoint, maxLevel, m, node, nodes, layer, curr);
        var linked, next := LinkInLayer(LayerOf(nodes, layer), idx, curr, Dist(node.vector), Gap(), efConstruction,
                                        Degree(m, layer), BY_SIMILARITY);
        NodeOfLayer(before, node, m, nodes, layer + 1, layer, if next in LayerOf(nodes, layer) then next else curr);
        assert linked.Keys == LayerOf(nodes, layer).Keys;
        LinkedOne(before, node, m, nodes, h, layer, linked, next, top, dist, gap, efConstruction, path);
        nodes := SetLayer(nodes, layer, linked);
        path := [next] + path;
        curr := next;
      }
    }

    /** Insert a vector whose random level is `level`; a repeated id or a zero vector is refused. */
    method Add(id: string, raw: V, level: nat) returns (error: Option<AddError>, ghost path: seq<nat>)
      requires Valid()
      modifies this
      ensures Valid()
      ensures error == if exists i :: 0 <= i < |old(nodes)| && old(nodes)[i].id == id then Some(DuplicateId)
                       else if normalize(raw) == None then Some(ZeroVector) else None
      ensures error.Some? ==> nodes == old(nodes) && entryPoint == old(entryPoint) && maxLevel == old(maxLevel)
      ensures error.None? ==> && |nodes| == |old(nodes)| + 1
                              && (forall i :: 0 <= i < |old(nodes)| ==> SameButLinks(nodes[i], old(nodes)[i]))
                              && SameButLinks(nodes[|old(nodes)|], NewNode(id, normalize(raw).value, level))
      ensures error.None? ==> && maxLevel == (if level > old(maxLevel) then level else old(maxLevel))
                              && entryPoint == (if level > old(maxLevel) then Some(|old(nodes)|) else old(entryPoint))
      ensures error.None? ==> Inserted(old(nodes), old(entryPoint), old(maxLevel),
                                       NewNode(id, normalize(raw).value, level), nodes,
                                       Dist(normalize(raw).value), Gap(), efConstruction, m, path)
      ensures error.None? && old(entryPoint).Some? ==>
                RelinksLayers(sim, m, old(nodes), old(maxLevel), nodes, level)
      ensures old(BaseComplete()) && (error.Some? || |old(nodes)| <= 2 * m <= efConstruction) ==> BaseComplete()
    {
      hide Structured, Complete, LayerOf, Inserting, WellShaped, Indexed, LinkedAlong, DistanceTo, Gaps,
           LocallyClosest, VectorsOf, Layers, NewNode, RelinksLayers;
      path := [];
      IndexedIds(nodes, idToInternal, id);
      if id in idToInternal {
        return Some(DuplicateId), path;
      }
      if normalize(raw) == None {
        return Some(ZeroVector), path;
      }
      var v := normalize(raw).value;
      var node, internal := NewNode(id, v, level), |nodes|;
      NewNodeFields(id, v, level);
      ghost var before := nodes;
      StructuredEntry(nodes, entryPoint, maxLevel, m);
      nodes := nodes + [node];
      idToInternal := idToInternal[id := internal];
      if entryPoint == None {
        entryPoint := Some(internal);
        maxLevel := level;
        assert nodes == [node];
        IndexedNew(before, old(idToInternal), node, nodes);
        FirstNode(node, m);
        return None, path;
      }
      NewLayersAbove(before, entryPoint, maxLevel, m, node);
      var curr := Descend(before, v, level);
      path := InsertDown(before, node, curr);
      InsertingDone(before, entryPoint, maxLevel, m, node, nodes);
      InsertedNodes(before, node, m, nodes);
      IndexedNew(before, old(idToInternal), node, nodes);
      if level > maxLevel {
        maxLevel := level;
        entryPoint := Some(internal);
      }
      InsertedRelinksLayers(sim, v, before, old(entryPoint), old(maxLevel), node, nodes, entryPoint, efConstruction, m,
                            path);
      error := None;
    }

    ghost function AllDistances(v: V): seq<real>
      reads this
    {
      AllOf(Dist(v), |nodes|)
    }

    /** The `topK` most similar found by a beam search of layer 0 entered by greedy descent. */
    method Query(raw: V, topK: nat) returns (r: seq<Match>, hits: seq<Scored>, ghost entry: nat)
      requires Valid()
      ensures |r| == |hits| <= topK && SortedScores(HighFirst, hits)
      ensures normalize(raw) == None || nodes == [] ==> r == []
      ensures normalize(raw).Some? && nodes != [] ==>
                && IsBestFound(LayerOf(nodes, 0), Dist(normalize(raw).value), entry,
                               if efSearch > topK then efSearch else topK,
                               WhenFullAndWorse, HighFirst, |nodes|, topK, hits)
                && Dist(normalize(raw).value)(entry) <= Dist(normalize(raw).value)(entryPoint.value)
                && (maxLevel > 0 ==> LocallyClosest(LayerOf(nodes, 1), Dist(normalize(raw).value), entry))
      ensures normalize(raw).Some? && nodes != [] ==>
                CannotImprove(LayerOf(nodes, 0), Dist(normalize(raw).value), entry, topK, hits)
      ensures normalize(raw).Some? ==> forall k :: 0 <= k < |hits| ==>
                && hits[k].i < |nodes| && -hits[k].d == sim(normalize(raw).value, nodes[hits[k].i].vector)
                && r[k] == Match(nodes[hits[k].i].id, -hits[k].d)
      ensures normalize(raw).Some? && BaseComplete() && (efSearch >= |nodes| || topK >= |nodes|) ==>
                Distances(hits) == BruteForce.NearestDistances(AllDistances(normalize(raw).value), topK)
    {
      hide Structured, Complete, LayerOf, BruteForce.NearestDistances, SortedScores, Closed, AllOf,
           IsBestFound, LocallyClosest, DistanceTo, VectorsOf, Negated, CannotImprove;
      StructuredEntry(nodes, entryPoint, maxLevel, m);
      EmptyIndexIsExact((i: nat) => 0.0, HighFirst, topK);
      entry := 0;
      if normalize(raw) == None {
        return [], [], entry;
      }
      var v := normalize(raw).value;
      if entryPoint == None {
        EmptyIndexIsExact(Dist(v), HighFirst, topK);
        return [], [], entry;
      }
      var curr := Descend(nodes, v, 0);
      entry := curr;
      LayerHome(nodes, entryPoint, maxLevel, m, 0);
      BaseHoldsAll(nodes);
      var ef := if efSearch > topK then efSearch else topK;
      hits := BestOf(LayerOf(nodes, 0), Dist(v), curr, ef, WhenFullAndWorse, HighFirst, |nodes|, topK);
      forall k | 0 <= k < |hits|
        ensures -hits[k].d == sim(v, nodes[hits[k].i].vector)
      {
        DistanceIsSimilarity(sim, nodes, v, hits[k].i);
      }
      r := Matches(nodes, hits);
    }
  }

  /** Degree `2m` leaves no room for a complete layer 0 of more than `2m + 1` nodes. */
  lemma CompleteOnlyWhenSmall<V>(nodes: seq<IndexNode<V>>, entry: Option<nat>, maxLevel: int, m: nat)
    requires Structured(nodes, entry, maxLevel, m) && nodes != [] && Complete(LayerOf(nodes, 0), |nodes|)
    ensures |nodes| <= 2 * m + 1
  {
    CompleteKeys(LayerOf(nodes, 0), |nodes|);
    assert LinksOk(LayerOf(nodes, 0), 0, Degree(m, 0));
    CompleteSize(LayerOf(nodes, 0), |nodes|, 0);
  }

  lemma CompleteIndexIsSmall<V(!new)>(index: HnswIndex<V>)
    requires index.Valid()
    ensures index.BaseComplete() ==> |index.nodes| <= 2 * index.m + 1
  {
    if index.BaseComplete() && index.nodes != [] {
      CompleteOnlyWhenSmall(index.nodes, index.entryPoint, index.maxLevel, index.m);
    }
  }

  ghost predicate DistinctIds<V>(items: seq<(string, V)>) {
    forall j, k :: 0 <= j < k < |items| ==> items[j].0 != items[k].0
  }

  /** Any run of insertions into a new index, each with its random level. However the levels fall and
      whatever is refused, with `efConstruction >= 2m` layer 0 is complete exactly up to `2m + 1` nodes;
      distinct ids with non-zero vectors all become nodes. */
  method AddAll<V(!new,==)>(items: seq<(string, V)>, levels: seq<nat>, sim: (V, V) -> real, normalize: V -> Option<V>,
                            m: nat, efConstruction: nat, efSearch: nat) returns (index: HnswIndex<V>)
    requires m >= 2 && |levels| == |items|
    ensures fresh(index) && index.Valid() && index.sim == sim && index.normalize == normalize && index.m == m
    ensures efConstruction >= 2 * m ==> (index.BaseComplete() <==> |index.nodes| <= 2 * m + 1)
    ensures DistinctIds(items) && (forall k :: 0 <= k < |items| ==> normalize(items[k].1).Some?) ==>
              |index.nodes| == |items| && forall k :: 0 <= k < |items| ==> index.nodes[k].id == items[k].0
  {
    hide HnswIndex.Valid, HnswIndex.BaseComplete, Inserted;
    index := new HnswIndex(sim, normalize, m, efConstruction, efSearch);
    ghost var accepted := DistinctIds(items) && forall k :: 0 <= k < |items| ==> normalize(items[k].1).Some?;
    ghost var ids: seq<string> := [];
    for k := 0 to |items|
      invariant fresh(index) && index.Valid() && index.sim == sim && index.normalize == normalize && index.m == m
      invariant index.efConstruction == efConstruction
      invariant efConstruction >= 2 * m && |index.nodes| <= 2 * m + 1 ==> index.BaseComplete()
      invariant accepted ==> |index.nodes| == |ids| == k && forall j :: 0 <= j < k ==> ids[j] == items[j].0
      invariant accepted ==> forall j :: 0 <= j < |index.nodes| ==> index.nodes[j].id == ids[j]
    {
      ghost var error, path := index.Add(items[k].0, items[k].1, levels[k]);
      ids := ids + [items[k].0];
    }
    CompleteIndexIsSmall(index);
  }

  lemma LayerKeys<V>(nodes: seq<IndexNode<V>>, l: nat)
    requires WellShaped(nodes)
    ensures forall i: nat :: i in LayerOf(nodes, l) <==> i < |nodes| && nodes[i].level >= l
  {
  }

  lemma FirstNode<V>(node: IndexNode<V>, m: nat)
    requires node == NewNode(node.id, node.vector, node.level)
    ensures Structured([node], Some(0), node.level, m)
    ensures Complete(LayerOf([node], 0), 1)
  {
  }

  lemma NewLayersAbove<V>(before: seq<IndexNode<V>>, entry: Option<nat>, maxLevel: int, m: nat, node: IndexNode<V>)
    requires Structured(before, entry, maxLevel, m) && node == NewNode(node.id, node.vector, node.level)
    ensures forall l: nat :: l > node.level ==> LayerOf(before + [node], l) == LayerOf(before, l)
  {
    forall l: nat | l > node.level
      ensures LayerOf(before + [node], l) == LayerOf(before, l)
    {
      NewLayer(before, entry, maxLevel, m, node, l);
    }
  }

  lemma InsertedNodes<V>(before: seq<IndexNode<V>>, node: IndexNode<V>, m: nat, nodes: seq<IndexNode<V>>)
    requires Inserting(before, node, m, nodes, 0)
    ensures |nodes| == |before| + 1
    ensures forall i :: 0 <= i < |nodes| ==> SameButLinks(nodes[i], (before + [node])[i])
  {
  }
}
