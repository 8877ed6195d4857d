/** What both indexes keep true of one layer, and how a new node is linked into it. */
module LayerGraph {
  import opened Scores
  import opened LayerSearch
  import RealSorting
  import BruteForce

  predicate NoDuplicates(s: seq<nat>) {
    forall i, j :: 0 <= i < j < |s| ==> s[i] != s[j]
  }

  ghost predicate LinksOk(layer: Layer, u: nat, deg: nat) {
    && |Links(layer, u)| <= deg
    && NoDuplicates(Links(layer, u))
    && forall v :: v in Links(layer, u) ==> v != u && v in layer
  }

  /** Links stay in the layer, without self-links or duplicates, at most `deg` per node. */
  ghost predicate LayerOk(layer: Layer, n: nat, deg: nat) {
    forall u :: u in layer ==> u < n && LinksOk(layer, u, deg)
  }

  /** No node links to `idx`. */
  ghost predicate Avoids(layer: Layer, idx: nat) {
    forall u :: u in layer ==> idx !in Links(layer, u)
  }

  /** How an overfull list is cut back: a sublist of at most `deg`, untouched when it fits. */
  ghost predicate ProperPrune(prune: (nat, seq<nat>) -> seq<nat>, deg: nat) {
    forall u, links :: NoDuplicates(links) ==>
      && NoDuplicates(prune(u, links)) && |prune(u, links)| <= deg
      && (|links| <= deg ==> prune(u, links) == links)
      && forall v :: v in prune(u, links) ==> v in links
  }

  /** Each of `others` linked back to `idx`, pruned. */
  function LinkBack(layer: Layer, idx: nat, others: seq<nat>, prune: (nat, seq<nat>) -> seq<nat>): Layer {
    if others == [] then layer
    else
      var last := others[|others| - 1];
      var rest := LinkBack(layer, idx, others[..|others| - 1], prune);
      rest[last := prune(last, Links(rest, last) + [idx])]
  }

  /** `idx` linked to `selected`, and each of those back to `idx`. */
  function Connected(layer: Layer, idx: nat, selected: seq<nat>, prune: (nat, seq<nat>) -> seq<nat>): Layer {
    LinkBack(layer[idx := selected], idx, selected, prune)
  }

  method Connect(layer: Layer, idx: nat, selected: seq<nat>, prune: (nat, seq<nat>) -> seq<nat>) returns (layer': Layer)
    ensures layer' == Connected(layer, idx, selected, prune)
  {
    layer' := layer[idx := selected];
    for k := 0 to |selected|
      invariant layer' == LinkBack(layer[idx := selected], idx, selected[..k], prune)
    {
      var other := selected[k];
      assert selected[..k + 1][..k] == selected[..k];
      layer' := layer'[other := prune(other, Links(layer', other) + [idx])];
    }
    assert selected[..|selected|] == selected;
  }

  ghost predicate LinkedBack(before: Layer, after: Layer, idx: nat, others: seq<nat>,
                             prune: (nat, seq<nat>) -> seq<nat>) {
    && (forall u :: u in after <==> u in before || u in others)
    && (forall u :: u in after && u in others ==> after[u] == prune(u, Links(before, u) + [idx]))
    && (forall u :: u in after && u !in others ==> after[u] == before[u])
  }

  lemma {:induction false} LinkBackFacts(layer: Layer, idx: nat, others: seq<nat>, prune: (nat, seq<nat>) -> seq<nat>)
    requires NoDuplicates(others)
    ensures LinkedBack(layer, LinkBack(layer, idx, others, prune), idx, others, prune)
  {
    if others != [] {
      var n := |others| - 1;
      LinkBackFacts(layer, idx, others[..n], prune);
      assert forall u :: u in others <==> u in others[..n] || u == others[n] by {
        assert others == others[..n] + [others[n]];
      }
      assert others[n] !in others[..n];
      var rest := LinkBack(layer, idx, others[..n], prune);
      assert Links(rest, others[n]) == Links(layer, others[n]);
    }
  }

  lemma ConnectedOk(layer: Layer, idx: nat, selected: seq<nat>, prune: (nat, seq<nat>) -> seq<nat>, deg: nat)
    requires LayerOk(layer, idx + 1, deg) && Avoids(layer, idx) && idx in layer && layer[idx] == []
    requires NoDuplicates(selected) && |selected| <= deg && ProperPrune(prune, deg)
    requires forall s :: s in selected ==> s < idx
    ensures LayerOk(Connected(layer, idx, selected, prune), idx + 1, deg)
    ensures Connected(layer, idx, selected, prune).Keys == layer.Keys + (set s | s in selected)
  {
    hide Connected, NoDuplicates;
    var layer' := Connected(layer, idx, selected, prune);
    ConnectedFacts(layer, idx, selected, prune);
    assert layer'.Keys == layer.Keys + (set s | s in selected);
    forall u | u in layer'
      ensures u < idx + 1 && LinksOk(layer', u, deg)
    {
      if u in selected {
        var links := Links(layer, u) + [idx];
        assert NoDuplicates(links) by { AppendFresh(Links(layer, u), idx); }
        forall v | v in links
          ensures v != u && v in layer'
        {
          assert v in Links(layer, u) || v == idx;
        }
      } else if u != idx {
        assert Links(layer', u) == Links(layer, u);
      }
    }
  }

  lemma AppendFresh(s: seq<nat>, v: nat)
    requires NoDuplicates(s) && v !in s
    ensures NoDuplicates(s + [v])
  {
  }

  lemma ConnectedFacts(layer: Layer, idx: nat, selected: seq<nat>, prune: (nat, seq<nat>) -> seq<nat>)
    requires NoDuplicates(selected) && idx in layer && idx !in selected
    ensures var after := Connected(layer, idx, selected, prune);
            && (forall u :: u in after <==> u in layer || u in selected)
            && (forall u :: u in after && u in selected ==> after[u] == prune(u, Links(layer, u) + [idx]))
            && (forall u :: u in after && u !in selected && u != idx ==> after[u] == layer[u])
            && after[idx] == selected
  {
    LinkBackFacts(layer[idx := selected], idx, selected, prune);
  }

  /** The first `n` nodes all link to each other. */
  ghost predicate Complete(layer: Layer, n: nat) {
    forall u: nat, v: nat :: u < n ==> u in layer && (v in Links(layer, u) <==> v < n && v != u)
  }

  ghost function Members(s: seq<nat>): set<nat> {
    set v | v in s
  }

  lemma {:induction false} NoDuplicatesSize(s: seq<nat>)
    requires NoDuplicates(s)
    ensures |Members(s)| == |s|
  {
    if s == [] {
      assert Members(s) == {};
    } else {
      var n := |s| - 1;
      NoDuplicatesSize(s[..n]);
      assert s == s[..n] + [s[n]];
      assert Members(s) == Members(s[..n]) + {s[n]};
      assert s[n] !in Members(s[..n]);
    }
  }

  ghost function Below(n: nat): (s: set<nat>)
    ensures |s| == n && forall v: nat :: v in s <==> v < n
  {
    if n == 0 then {} else Below(n - 1) + {n - 1}
  }

  lemma CompleteSize(layer: Layer, n: nat, u: nat)
    requires Complete(layer, n) && u < n && NoDuplicates(Links(layer, u))
    ensures |Links(layer, u)| == n - 1
  {
    NoDuplicatesSize(Links(layer, u));
    assert Members(Links(layer, u)) == Below(n) - {u};
  }

  /** Linking a new node to all of a complete layer keeps it complete, as no list overflows. */
  lemma ConnectedComplete(layer: Layer, idx: nat, selected: seq<nat>, prune: (nat, seq<nat>) -> seq<nat>, deg: nat)
    requires LayerOk(layer, idx + 1, deg) && Complete(layer, idx) && idx in layer
    requires NoDuplicates(selected) && ProperPrune(prune, deg) && idx <= deg
    requires forall s: nat :: s in selected <==> s < idx
    ensures Complete(Connected(layer, idx, selected, prune), idx + 1)
  {
    hide Connected, NoDuplicates;
    var layer' := Connected(layer, idx, selected, prune);
    ConnectedFacts(layer, idx, selected, prune);
    forall u: nat, v: nat | u < idx + 1
      ensures u in layer' && (v in Links(layer', u) <==> v < idx + 1 && v != u)
    {
      if u < idx {
        var links := Links(layer, u);
        assert v in links <==> v < idx && v != u;
        assert LinksOk(layer, u, deg);
        CompleteSize(layer, idx, u);
        AppendFresh(links, idx);
        assert layer'[u] == links + [idx];
        assert v in links + [idx] <==> v in links || v == idx;
      }
    }
  }

  function Indices(l: seq<Scored>): (r: seq<nat>)
    ensures |r| == |l| && forall k :: 0 <= k < |l| ==> r[k] == l[k].i
  {
    seq(|l|, k requires 0 <= k < |l| => l[k].i)
  }

  /** The indices of a sorted list of scores are distinct, and are the indices of its members. */
  lemma SortedIndices(tie: Tie, dist: nat -> real, vs: set<nat>, results: set<Scored>, l: seq<Scored>)
    requires results <= ScoresOf(dist, vs)
    requires SortedScores(tie, l) && forall x :: x in l <==> x in results
    ensures NoDuplicates(Indices(l))
    ensures forall k :: 0 <= k < |l| ==> l[k] == Scored(dist(l[k].i), l[k].i) && l[k].i in vs
    ensures forall v :: v in Indices(l) <==> v in vs && Scored(dist(v), v) in results
  {
    forall k | 0 <= k < |l|
      ensures l[k] == Scored(dist(l[k].i), l[k].i) && l[k].i in vs
    {
      assert l[k] in results;
    }
    forall v | v in vs && Scored(dist(v), v) in results
      ensures v in Indices(l)
    {
      var k :| 0 <= k < |l| && l[k] == Scored(dist(v), v);
      assert Indices(l)[k] == v;
    }
  }

  /** A search from a node without links finds only that node. */
  lemma IsolatedEntry(layer: Layer, dist: nat -> real, ef: nat, home: set<nat>, entry: nat, rule: StopRule)
    requires entry in home && Closed(layer, home) && Links(layer, entry) == []
    ensures BeamOk(Start(dist, entry), dist, ef, home)
    ensures Search(layer, dist, ef, home, Start(dist, entry), rule).results == {Scored(dist(entry), entry)}
  {
    hide Search;
    var st := Start(dist, entry);
    StartOk(dist, ef, home, entry);
    SearchUnfolds(layer, dist, ef, home, st, rule);
    assert First(LowFirst, st.candidates) == Scored(dist(entry), entry);
    assert Expand(layer, st, dist, ef) == Beam({entry}, {}, {Scored(dist(entry), entry)});
    SearchUnfolds(layer, dist, ef, home, Expand(layer, st, dist, ef), rule);
  }

  /** In a complete layer every other node is one step from the entry. */
  lemma CompleteReaches(layer: Layer, n: nat, entry: nat, v: nat)
    requires Complete(layer, n) && entry < n && v < n
    ensures Reachable(layer, entry, v)
  {
    ReachableStart(layer, entry);
    if v != entry {
      assert v in Links(layer, entry);
      ReachableStep(layer, entry, entry, v);
    }
  }

  /** A wide enough search of a complete layer finds all its nodes. */
  lemma CompleteSearch(layer: Layer, dist: nat -> real, ef: nat, n: nat, entry: nat, rule: StopRule)
    requires Complete(layer, n) && entry < n <= ef
    ensures Closed(layer, Below(n)) && BeamOk(Start(dist, entry), dist, ef, Below(n))
    ensures Search(layer, dist, ef, Below(n), Start(dist, entry), rule).results == ScoresOf(dist, Below(n))
  {
    hide Search, BeamOk;
    assert Closed(layer, Below(n));
    WideSearchReturnsReachable(layer, dist, ef, Below(n), entry, rule);
    var end := Search(layer, dist, ef, Below(n), Start(dist, entry), rule);
    SearchOk(layer, dist, ef, Below(n), Start(dist, entry), rule);
    BeamHasResults(end, dist, ef, Below(n));
    forall v | v in Below(n)
      ensures v in end.visited
    {
      CompleteReaches(layer, n, entry, v);
    }
    assert end.visited == Below(n);
  }

  /** What a sorted list of search results says about the nodes found. */
  lemma FoundFacts(layer: Layer, dist: nat -> real, ef: nat, home: set<nat>, entry: nat, rule: StopRule,
                   tie: Tie, found: set<Scored>, sorted: seq<Scored>)
    requires entry in home && Closed(layer, home) && BeamOk(Start(dist, entry), dist, ef, home)
    requires found == Search(layer, dist, ef, home, Start(dist, entry), rule).results
    requires SortedScores(tie, sorted) && forall x :: x in sorted <==> x in found
    ensures forall k :: 0 <= k < |sorted| ==> sorted[k].i in home && sorted[k].d == dist(sorted[k].i)
    ensures NoDuplicates(Indices(sorted))
  {
    hide Search, BeamOk;
    var end := Search(layer, dist, ef, home, Start(dist, entry), rule);
    SearchOk(layer, dist, ef, home, Start(dist, entry), rule);
    SearchReturnsNearestVisited(layer, dist, ef, home, entry, rule);
    BeamHasResults(end, dist, ef, home);
    SortedIndices(tie, dist, end.visited, found, sorted);
  }

  function Distances(l: seq<Scored>): (r: seq<real>)
    ensures |r| == |l| && forall k :: 0 <= k < |l| ==> r[k] == l[k].d
  {
    seq(|l|, k requires 0 <= k < |l| => l[k].d)
  }

  /** The distances of nodes `0..n`. */
  function AllOf(dist: nat -> real, n: nat): (ds: seq<real>)
    ensures |ds| == n && forall i :: 0 <= i < n ==> ds[i] == dist(i)
  {
    seq(n, i requires i >= 0 => dist(i))
  }

  lemma SortedIsPermutation(dist: nat -> real, n: nat, found: set<Scored>, sorted: seq<Scored>, tie: Tie)
    requires found == ScoresOf(dist, Below(n))
    requires SortedScores(tie, sorted) && |sorted| == |found| && forall x :: x in sorted <==> x in found
    ensures BruteForce.IsPermutation(Indices(sorted), n)
    ensures BruteForce.At(AllOf(dist, n), Indices(sorted)) == Distances(sorted)
    ensures RealSorting.Ascending(Distances(sorted))
  {
    SortedIndices(tie, dist, Below(n), found, sorted);
    ScoresOfSize(dist, Below(n));
    assert |sorted| == n;
    assert RealSorting.Ascending(Distances(sorted)) by { SortedAscend(tie, sorted); }
    hide SortedScores, ScoresOf, RealSorting.Ascending, NoDuplicates, BruteForce.IsPermutation;
    var order := Indices(sorted);
    AllIndexed(dist, n, found, order);
    MakePermutation(order, n);
    DistancesInOrder(dist, n, sorted);
  }

  lemma DistancesInOrder(dist: nat -> real, n: nat, sorted: seq<Scored>)
    requires forall k :: 0 <= k < |sorted| ==> sorted[k].i < n && sorted[k].d == dist(sorted[k].i)
    ensures BruteForce.At(AllOf(dist, n), Indices(sorted)) == Distances(sorted)
  {
  }

  lemma MakePermutation(order: seq<nat>, n: nat)
    requires |order| == n && NoDuplicates(order)
    requires forall k :: 0 <= k < n ==> order[k] < n
    requires forall v: nat :: v < n ==> v in order
    ensures BruteForce.IsPermutation(order, n)
  {
  }

  lemma AllIndexed(dist: nat -> real, n: nat, found: set<Scored>, order: seq<nat>)
    requires found == ScoresOf(dist, Below(n))
    requires forall v :: v in order <==> v in Below(n) && Scored(dist(v), v) in found
    ensures forall v: nat :: v < n ==> v in order
  {
  }

  lemma SortedAscend(tie: Tie, sorted: seq<Scored>)
    requires SortedScores(tie, sorted)
    ensures RealSorting.Ascending(Distances(sorted))
  {
  }

  /** Sorting the scores of all `n` nodes and taking `k` reports the brute-force distances. */
  lemma ExactDistances(dist: nat -> real, n: nat, found: set<Scored>, sorted: seq<Scored>, tie: Tie, k: nat)
    requires found == ScoresOf(dist, Below(n))
    requires SortedScores(tie, sorted) && |sorted| == |found| && forall x :: x in sorted <==> x in found
    ensures Distances(BruteForce.Take(sorted, k)) == BruteForce.NearestDistances(AllOf(dist, n), k)
  {
    hide ScoresOf, SortedScores, BruteForce.IsPermutation, RealSorting.Ascending, BruteForce.NearestDistances;
    var order := Indices(sorted);
    SortedIsPermutation(dist, n, found, sorted, tie);
    BruteForce.PermutationBounds(order, n);
    BruteForce.ArgsortDistances(AllOf(dist, n), order, k);
    assert BruteForce.At(AllOf(dist, n), BruteForce.Take(order, k)) == Distances(BruteForce.Take(sorted, k)) by {
      TakenDistances(AllOf(dist, n), sorted, k);
    }
  }

  lemma TakenDistances(ds: seq<real>, sorted: seq<Scored>, k: nat)
    requires forall j :: 0 <= j < |sorted| ==> sorted[j].i < |ds|
    requires BruteForce.At(ds, Indices(sorted)) == Distances(sorted)
    ensures BruteForce.At(ds, BruteForce.Take(Indices(sorted), k)) == Distances(BruteForce.Take(sorted, k))
  {
    var a, b := BruteForce.At(ds, BruteForce.Take(Indices(sorted), k)), Distances(BruteForce.Take(sorted, k));
    forall j | 0 <= j < |a|
      ensures a[j] == b[j]
    {
      assert BruteForce.At(ds, Indices(sorted))[j] == Distances(sorted)[j];
    }
  }

  lemma EmptyIndexIsExact(dist: nat -> real, tie: Tie, k: nat)
    ensures SortedScores(tie, []) && Distances([]) == BruteForce.NearestDistances(AllOf(dist, 0), k)
  {
  }

  /** `hits` is the `topK` best a beam search from `entry` finds, best first. */
  ghost predicate IsBestFound(layer: Layer, dist: nat -> real, entry: nat, ef: nat, rule: StopRule, tie: Tie,
                              n: nat, topK: nat, hits: seq<Scored>) {
    && entry < n && Closed(layer, Below(n)) && BeamOk(Start(dist, entry), dist, ef, Below(n))
    && hits == BruteForce.Take(Ranked(tie, Search(layer, dist, ef, Below(n), Start(dist, entry), rule).results), topK)
  }

  /** The distances from stored vectors to a query, by index. */
  function DistanceTo<V>(metric: (V, V) -> real, vectors: seq<V>, query: V): nat -> real {
    (i: nat) => if i < |vectors| then metric(vectors[i], query) else 0.0
  }

  /** The distances from an owner to another stored vector. */
  function Gaps<V>(metric: (V, V) -> real, vectors: seq<V>): (nat, nat) -> real {
    (owner: nat, j: nat) => if owner < |vectors| && j < |vectors| then metric(vectors[j], vectors[owner]) else 0.0
  }

  /** The hits are reachable from the entry and cannot be improved from within: no neighbour of a hit that is
      left out is closer than a hit, and with fewer than `enough` hits nothing reachable is left out. */
  ghost predicate CannotImprove(layer: Layer, dist: nat -> real, entry: nat, enough: nat, hits: seq<Scored>) {
    && (forall k :: 0 <= k < |hits| ==> Reachable(layer, entry, hits[k].i))
    && (forall k, j, w :: 0 <= k < |hits| && 0 <= j < |hits| && w in Links(layer, hits[k].i) ==>
          w in Indices(hits) || hits[j].d <= dist(w))
    && (|hits| < enough ==> forall v :: Reachable(layer, entry, v) ==> v in Indices(hits))
  }

  lemma DroppedAt(sorted: seq<Scored>, deg: nat, x: Scored) returns (j: nat)
    requires x in sorted && x.i !in Indices(BruteForce.Take(sorted, deg))
    ensures deg <= j < |sorted| && sorted[j] == x
  {
    var kept := BruteForce.Take(sorted, deg);
    forall y | y in kept
      ensures y.i in Indices(kept)
    {
      var k :| 0 <= k < |kept| && kept[k] == y;
      assert Indices(kept)[k] == y.i;
    }
    assert sorted == kept + sorted[|kept|..];
    j :| |kept| <= j < |sorted| && sorted[j] == x;
  }

  lemma TopHitsCannotImprove(layer: Layer, dist: nat -> real, entry: nat, ef: nat, tie: Tie, found: set<Scored>,
                             sorted: seq<Scored>, topK: nat)
    requires LocallyBest(layer, dist, entry, ef, found) && |sorted| == |found|
    requires SortedScores(tie, sorted) && forall x :: x in sorted <==> x in found
    ensures CannotImprove(layer, dist, entry, if topK <= Cap(ef) then topK else Cap(ef), BruteForce.Take(sorted, topK))
  {
    hide Reachable, Cap, SortedScores, NeighborsBehind;
    var hits := BruteForce.Take(sorted, topK);
    assert forall k :: 0 <= k < |hits| ==> hits[k] == sorted[k] && hits[k] in found;
    forall k, j, w | 0 <= k < |hits| && 0 <= j < |hits| && w in Links(layer, hits[k].i)
      ensures w in Indices(hits) || hits[j].d <= dist(w)
    {
      NeighborBehind(layer, dist, tie, found, sorted, topK, k, j, w);
    }
    if |hits| < topK && |hits| < Cap(ef) {
      assert hits == sorted;
      forall v | Reachable(layer, entry, v)
        ensures v in Indices(hits)
      {
        FoundIsIndexed(sorted, Scored(dist(v), v));
      }
    }
  }

  lemma FoundIsIndexed(sorted: seq<Scored>, x: Scored)
    requires x in sorted
    ensures x.i in Indices(sorted)
  {
    var l :| 0 <= l < |sorted| && sorted[l] == x;
    assert Indices(sorted)[l] == x.i;
  }

  lemma NeighborBehind(layer: Layer, dist: nat -> real, tie: Tie, found: set<Scored>, sorted: seq<Scored>,
                       topK: nat, k: nat, j: nat, w: nat)
    requires NeighborsBehind(layer, dist, found)
    requires SortedScores(tie, sorted) && forall x :: x in sorted <==> x in found
    requires k < |BruteForce.Take(sorted, topK)| && j < |BruteForce.Take(sorted, topK)|
    requires w in Links(layer, sorted[k].i)
    ensures w in Indices(BruteForce.Take(sorted, topK)) || sorted[j].d <= dist(w)
  {
    assert sorted[k] in found && sorted[j] in found;
    if Scored(dist(w), w) in found && w !in Indices(BruteForce.Take(sorted, topK)) {
      var l := DroppedAt(sorted, topK, Scored(dist(w), w));
      assert Before(tie, sorted[j], sorted[l]);
    }
  }

  /** Search a layer over nodes `0..n` and keep the `topK` best, best first: genuine distances, and,
      when the layer is complete and the beam wide enough, the brute-force ones. */
  method BestOf(layer: Layer, dist: nat -> real, entry: nat, ef: nat, rule: StopRule, tie: Tie, n: nat, topK: nat)
    returns (hits: seq<Scored>)
    requires entry < n && Closed(layer, Below(n))
    ensures IsBestFound(layer, dist, entry, ef, rule, tie, n, topK, hits)
    ensures |hits| <= topK && SortedScores(tie, hits)
    ensures forall k :: 0 <= k < |hits| ==> hits[k].i < n && hits[k].d == dist(hits[k].i)
    ensures CannotImprove(layer, dist, entry, if topK <= Cap(ef) then topK else Cap(ef), hits)
    ensures Complete(layer, n) && ef >= n ==>
              Distances(hits) == BruteForce.NearestDistances(AllOf(dist, n), topK)
  {
    hide Complete, Search, BeamOk, ScoresOf, BruteForce.NearestDistances, NoDuplicates, Closed, AllOf, Ranked,
         LocallyBest, CannotImprove, Cap;
    var found := SearchLayer(layer, dist, entry, ef, rule, Below(n));
    var sorted := Sort(tie, found);
    RankedSorts(tie, found);
    TopHitsCannotImprove(layer, dist, entry, ef, tie, found, sorted, topK);
    FoundFacts(layer, dist, ef, Below(n), entry, rule, tie, found, sorted);
    hits := BruteForce.Take(sorted, topK);
    if Complete(layer, n) && ef >= n {
      CompleteSearch(layer, dist, ef, n, entry, rule);
      ExactDistances(dist, n, found, sorted, tie, topK);
    }
  }
}
