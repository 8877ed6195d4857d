/** Inserting a node into one layer, shared by both indexes up to how they rank and break ties. */
module LayerInsertion {
  import opened Scores
  import opened LayerSearch
  import opened LayerGraph
  import BruteForce

  /** How a pruning sort orders equally close links: as met, or higher index first. */
  datatype Breaking = Stable | HighIndexFirst

  /** What distinguishes the two indexes: the stop test, the order of results, the pruning order. */
  datatype Ranking = Ranking(rule: StopRule, tie: Tie, breaking: Breaking)

  function Degree(m: nat, layer: nat): nat {
    if layer == 0 then 2 * m else m
  }

  // ---------------------------------------------------------------- pruning

  /** Whether a sort by `key` that meets `x` before `y` puts it first. */
  predicate Precedes(breaking: Breaking, key: nat -> real, x: nat, y: nat) {
    key(x) < key(y) || (key(x) == key(y) && (breaking.Stable? || y < x))
  }

  /** Insertion into a sorted list, before the first element that `x` precedes. */
  function InsertBy(breaking: Breaking, key: nat -> real, x: nat, s: seq<nat>): (r: seq<nat>)
    ensures |r| == |s| + 1
  {
    if s == [] || Precedes(breaking, key, x, s[0]) then [x] + s else [s[0]] + InsertBy(breaking, key, x, s[1..])
  }

  /** The links by `key`, ties broken as stated. */
  function SortBy(breaking: Breaking, key: nat -> real, s: seq<nat>): (r: seq<nat>)
    ensures |r| == |s|
  {
    if s == [] then [] else InsertBy(breaking, key, s[0], SortBy(breaking, key, s[1..]))
  }

  ghost predicate SortedBy(key: nat -> real, s: seq<nat>) {
    forall i, j :: 0 <= i < j < |s| ==> key(s[i]) <= key(s[j])
  }

  lemma {:induction false} InsertByKeeps(breaking: Breaking, key: nat -> real, x: nat, s: seq<nat>)
    requires NoDuplicates(s) && x !in s && SortedBy(key, s)
    ensures NoDuplicates(InsertBy(breaking, key, x, s)) && SortedBy(key, InsertBy(breaking, key, x, s))
    ensures forall v :: v in InsertBy(breaking, key, x, s) <==> v in s || v == x
  {
    if s != [] && !Precedes(breaking, key, x, s[0]) {
      InsertByKeeps(breaking, key, x, s[1..]);
      assert s == [s[0]] + s[1..];
      var rest := InsertBy(breaking, key, x, s[1..]);
      forall j | 0 <= j < |rest|
        ensures s[0] != rest[j] && key(s[0]) <= key(rest[j])
      {
        assert rest[j] in rest;
      }
    }
  }

  lemma {:induction false} SortByKeeps(breaking: Breaking, key: nat -> real, s: seq<nat>)
    requires NoDuplicates(s)
    ensures NoDuplicates(SortBy(breaking, key, s)) && SortedBy(key, SortBy(breaking, key, s))
    ensures forall v :: v in SortBy(breaking, key, s) <==> v in s
  {
    if s != [] {
      SortByKeeps(breaking, key, s[1..]);
      assert s == [s[0]] + s[1..];
      InsertByKeeps(breaking, key, s[0], SortBy(breaking, key, s[1..]));
    }
  }

  /** The order a pruning sort leaves equally close links in: as listed, or higher index first. */
  ghost predicate TieOrder(breaking: Breaking, links: seq<nat>, x: nat, y: nat) {
    if breaking.Stable? then exists p, q :: 0 <= p < q < |links| && links[p] == x && links[q] == y else x > y
  }

  ghost predicate TiesOrdered(breaking: Breaking, key: nat -> real, links: seq<nat>, s: seq<nat>) {
    forall i, j :: 0 <= i < j < |s| && key(s[i]) == key(s[j]) ==> TieOrder(breaking, links, s[i], s[j])
  }

  lemma {:induction false} InsertByTies(breaking: Breaking, key: nat -> real, x: nat, s: seq<nat>, links: seq<nat>)
    requires NoDuplicates(s) && x !in s && SortedBy(key, s) && TiesOrdered(breaking, key, links, s)
    requires breaking.Stable? ==> forall y :: y in s ==> TieOrder(Stable, links, x, y)
    ensures TiesOrdered(breaking, key, links, InsertBy(breaking, key, x, s))
  {
    if s == [] || Precedes(breaking, key, x, s[0]) {
      forall j | 0 <= j < |s| && key(x) == key(s[j])
        ensures TieOrder(breaking, links, x, s[j])
      {
        if breaking.HighIndexFirst? && j > 0 {
          assert TieOrder(breaking, links, s[0], s[j]);
        }
      }
    } else {
      var tail, rest := s[1..], InsertBy(breaking, key, x, s[1..]);
      assert s == [s[0]] + tail;
      InsertByTies(breaking, key, x, tail, links);
      InsertByKeeps(breaking, key, x, tail);
      forall j | 0 <= j < |rest| && key(s[0]) == key(rest[j])
        ensures TieOrder(breaking, links, s[0], rest[j])
      {
        assert rest[j] in rest;
        if rest[j] != x {
          var k :| 0 <= k < |tail| && tail[k] == rest[j];
          assert s[k + 1] == rest[j];
        }
      }
    }
  }

  lemma {:induction false} SortByTies(breaking: Breaking, key: nat -> real, s: seq<nat>)
    requires NoDuplicates(s)
    ensures TiesOrdered(breaking, key, s, SortBy(breaking, key, s))
  {
    if s != [] {
      var tail := s[1..];
      SortByTies(breaking, key, tail);
      SortByKeeps(breaking, key, tail);
      hide SortedBy, NoDuplicates;
      forall x, y | TieOrder(breaking, tail, x, y)
        ensures TieOrder(breaking, s, x, y)
      {
        if breaking.Stable? {
          var p, q :| 0 <= p < q < |tail| && tail[p] == x && tail[q] == y;
          assert s[p + 1] == x && s[q + 1] == y;
        }
      }
      forall y | y in tail
        ensures TieOrder(Stable, s, s[0], y)
      {
        var q :| 0 <= q < |tail| && tail[q] == y;
        assert s[q + 1] == y;
      }
      InsertByTies(breaking, key, s[0], SortBy(breaking, key, tail), s) by { HeadIsFresh(s); }
    }
  }

  lemma HeadIsFresh(s: seq<nat>)
    requires s != [] && NoDuplicates(s)
    ensures s[0] !in s[1..]
  {
  }

  /** `a` goes before `b` in a pruning of `links`: it is closer to the owner, or as close and ahead on ties. */
  ghost predicate Outranks(breaking: Breaking, gap: (nat, nat) -> real, owner: nat, links: seq<nat>, a: nat, b: nat) {
    gap(owner, a) < gap(owner, b) || (gap(owner, a) == gap(owner, b) && TieOrder(breaking, links, a, b))
  }

  /** Keep the `deg` links closest to their owner. */
  function KeepClosest(breaking: Breaking, gap: (nat, nat) -> real, deg: nat): (nat, seq<nat>) -> seq<nat> {
    (owner: nat, links: seq<nat>) =>
      if |links| > deg then SortBy(breaking, (j: nat) => gap(owner, j), links)[..deg] else links
  }

  lemma KeepClosestIsProper(breaking: Breaking, gap: (nat, nat) -> real, deg: nat)
    ensures ProperPrune(KeepClosest(breaking, gap, deg), deg)
  {
    forall u: nat, links | NoDuplicates(links)
      ensures && NoDuplicates(KeepClosest(breaking, gap, deg)(u, links))
              && |KeepClosest(breaking, gap, deg)(u, links)| <= deg
              && (|links| <= deg ==> KeepClosest(breaking, gap, deg)(u, links) == links)
              && forall v :: v in KeepClosest(breaking, gap, deg)(u, links) ==> v in links
    {
      SortByKeeps(breaking, (j: nat) => gap(u, j), links);
    }
  }

  /** Everything kept outranks everything dropped; in particular nothing dropped is closer. */
  lemma KeepClosestKeepsClosest(breaking: Breaking, gap: (nat, nat) -> real, deg: nat, owner: nat, links: seq<nat>,
                                a: nat, b: nat)
    requires NoDuplicates(links) && a in KeepClosest(breaking, gap, deg)(owner, links)
    requires b in links && b !in KeepClosest(breaking, gap, deg)(owner, links)
    ensures Outranks(breaking, gap, owner, links, a, b)
  {
    var key := (j: nat) => gap(owner, j);
    SortByKeeps(breaking, key, links);
    SortByTies(breaking, key, links);
    var sorted := SortBy(breaking, key, links);
    hide SortBy, NoDuplicates, TieOrder;
    SortedSplit(breaking, key, links, sorted, deg, a, b);
  }

  lemma SortedSplit(breaking: Breaking, key: nat -> real, links: seq<nat>, sorted: seq<nat>, deg: nat, a: nat, b: nat)
    requires SortedBy(key, sorted) && TiesOrdered(breaking, key, links, sorted)
    requires deg <= |sorted| && a in sorted[..deg] && b in sorted && b !in sorted[..deg]
    ensures key(a) < key(b) || (key(a) == key(b) && TieOrder(breaking, links, a, b))
  {
    hide TieOrder;
    assert sorted == sorted[..deg] + sorted[deg..];
    var i :| 0 <= i < deg && sorted[i] == a;
    var j :| deg <= j < |sorted| && sorted[j] == b;
  }

  // ------------------------------------------------------------ one layer

  /** Linking `idx` in a layer from `curr`: a beam search, links to the `deg` best found, each linking
      back pruned to its `deg` closest; `next` is the best found. */
  ghost predicate LinkedFrom(layer: Layer, idx: nat, curr: nat, dist: nat -> real, gap: (nat, nat) -> real,
                             efBuild: nat, deg: nat, ranking: Ranking, layer': Layer, next: nat) {
    var home := layer.Keys + {curr} - {idx};
    && curr in home && Closed(layer, home) && BeamOk(Start(dist, curr), dist, efBuild, home)
    && var found := Search(layer, dist, efBuild, home, Start(dist, curr), ranking.rule).results;
    && found != {} && next == First(ranking.tie, found).i
    && layer' == Connected(layer, idx, Indices(BruteForce.Take(Ranked(ranking.tie, found), deg)),
                           KeepClosest(ranking.breaking, gap, deg))
  }

  /** Link the new node into one layer: search from `curr`, connect to the closest found, prune,
      and continue below from the closest. */
  method LinkInLayer(layer: Layer, idx: nat, curr: nat, dist: nat -> real, gap: (nat, nat) -> real,
                     efBuild: nat, deg: nat, ranking: Ranking) returns (layer': Layer, next: nat)
    requires deg > 0 && curr < idx && idx in layer && layer[idx] == []
    requires LayerOk(layer, idx + 1, deg) && Avoids(layer, idx)
    ensures LinkedFrom(layer, idx, curr, dist, gap, efBuild, deg, ranking, layer', next)
    ensures LayerOk(layer', idx + 1, deg) && layer'.Keys == layer.Keys + {curr}
    ensures next < idx && (next == curr || next in layer)
    ensures Complete(layer, idx) && idx <= deg && idx <= efBuild ==> Complete(layer', idx + 1)
  {
    hide *;
    ghost var home := layer.Keys + {curr} - {idx};
    LayerIsClosed(layer, idx, curr, deg);
    var candidates := SearchLayer(layer, dist, curr, efBuild, ranking.rule, home);
    var sorted := Sort(ranking.tie, candidates);
    var selected := Indices(BruteForce.Take(sorted, deg));
    layer' := Connect(layer, idx, selected, KeepClosest(ranking.breaking, gap, deg));
    next := if sorted != [] then sorted[0].i else curr;
    LinkedFromSearch(layer, idx, curr, dist, gap, efBuild, deg, ranking, candidates, layer', next);
    LinkedKeeps(layer, idx, curr, dist, gap, efBuild, deg, ranking, layer', next);
  }

  lemma LinkedFromSearch(layer: Layer, idx: nat, curr: nat, dist: nat -> real, gap: (nat, nat) -> real,
                         efBuild: nat, deg: nat, ranking: Ranking, candidates: set<Scored>, layer': Layer, next: nat)
    requires curr < idx && LayerOk(layer, idx + 1, deg) && Avoids(layer, idx)
    requires Closed(layer, layer.Keys + {curr} - {idx})
    requires BeamOk(Start(dist, curr), dist, efBuild, layer.Keys + {curr} - {idx})
    requires candidates == Search(layer, dist, efBuild, layer.Keys + {curr} - {idx}, Start(dist, curr),
                                  ranking.rule).results
    requires layer' == Connected(layer, idx, Indices(BruteForce.Take(Ranked(ranking.tie, candidates), deg)),
                                 KeepClosest(ranking.breaking, gap, deg))
    requires next == if Ranked(ranking.tie, candidates) != [] then Ranked(ranking.tie, candidates)[0].i else curr
    ensures LinkedFrom(layer, idx, curr, dist, gap, efBuild, deg, ranking, layer', next)
  {
    hide BeamOk, Search, Connected, Ranked, Closed, LayerOk, Avoids;
    var home := layer.Keys + {curr} - {idx};
    RankedStarts(ranking.tie, candidates);
    SearchOk(layer, dist, efBuild, home, Start(dist, curr), ranking.rule);
    BeamHasResults(Search(layer, dist, efBuild, home, Start(dist, curr), ranking.rule), dist, efBuild, home);
  }

  /** What linking keeps: the layer stays sound, gains at most the standpoint, and stays complete
      while it fits both the degree and the beam. */
  lemma LinkedKeeps(layer: Layer, idx: nat, curr: nat, dist: nat -> real, gap: (nat, nat) -> real,
                    efBuild: nat, deg: nat, ranking: Ranking, layer': Layer, next: nat)
    requires deg > 0 && curr < idx && idx in layer && layer[idx] == []
    requires LayerOk(layer, idx + 1, deg) && Avoids(layer, idx)
    requires LinkedFrom(layer, idx, curr, dist, gap, efBuild, deg, ranking, layer', next)
    ensures LayerOk(layer', idx + 1, deg) && layer'.Keys == layer.Keys + {curr}
    ensures next < idx && (next == curr || next in layer)
    ensures Complete(layer, idx) && idx <= deg && idx <= efBuild ==> Complete(layer', idx + 1)
  {
    hide LayerOk, BeamOk, Search, SortedScores, ScoresOf, NoDuplicates, ProperPrune, Complete, Connected, Ranked,
         Closed, LinkedFrom;
    var home := layer.Keys + {curr} - {idx};
    LayerIsClosed(layer, idx, curr, deg);
    LinkedFacts(layer, idx, curr, dist, gap, efBuild, deg, ranking, layer', next);
    var found := Search(layer, dist, efBuild, home, Start(dist, curr), ranking.rule).results;
    var sorted := Ranked(ranking.tie, found);
    RankedSorts(ranking.tie, found);
    RankedStarts(ranking.tie, found);
    var selected, prune := Indices(BruteForce.Take(sorted, deg)), KeepClosest(ranking.breaking, gap, deg);
    SelectedOk(layer, dist, efBuild, home, curr, found, sorted, deg, ranking);
    assert forall s :: s in selected ==> s in Members(selected);
    KeepClosestIsProper(ranking.breaking, gap, deg);
    ConnectedOk(layer, idx, selected, prune, deg);
    assert Members(selected) <= home;
    assert layer'.Keys == layer.Keys + {curr};
    if Complete(layer, idx) && idx <= deg && idx <= efBuild {
      SelectedAll(layer, dist, efBuild, idx, curr, home, found, sorted, deg, ranking);
      ConnectedComplete(layer, idx, selected, prune, deg);
    }
  }

  lemma RankedStarts(tie: Tie, s: set<Scored>)
    ensures s != {} ==> Ranked(tie, s) != [] && Ranked(tie, s)[0] == First(tie, s)
    ensures s == {} ==> Ranked(tie, s) == []
  {
  }

  /** The new node's links are the best of what the search visited: nothing visited and left out is closer. */
  lemma LinksAreNearest(layer: Layer, idx: nat, curr: nat, dist: nat -> real, gap: (nat, nat) -> real,
                        efBuild: nat, deg: nat, ranking: Ranking, layer': Layer, next: nat)
    requires deg > 0 && curr < idx && idx in layer && layer[idx] == []
    requires LayerOk(layer, idx + 1, deg) && Avoids(layer, idx)
    requires LinkedFrom(layer, idx, curr, dist, gap, efBuild, deg, ranking, layer', next)
    ensures var home := layer.Keys + {curr} - {idx};
            var end := Search(layer, dist, efBuild, home, Start(dist, curr), ranking.rule);
            && idx in layer'
            && |layer'[idx]| == Least(deg, Least(Cap(efBuild), |end.visited|))
            && (forall v :: v in layer'[idx] ==> v in end.visited && dist(next) <= dist(v))
            && forall v, w :: v in layer'[idx] && w in end.visited ==> w in layer'[idx] || dist(v) <= dist(w)
  {
    hide LayerOk, BeamOk, Search, Connected, Ranked, Avoids, Closed, LinkedFrom;
    var home := layer.Keys + {curr} - {idx};
    LayerIsClosed(layer, idx, curr, deg);
    LinkedFacts(layer, idx, curr, dist, gap, efBuild, deg, ranking, layer', next);
    var end := Search(layer, dist, efBuild, home, Start(dist, curr), ranking.rule);
    var found := end.results;
    var sorted := Ranked(ranking.tie, found);
    RankedSorts(ranking.tie, found);
    RankedStarts(ranking.tie, found);
    SearchReturnsNearestVisited(layer, dist, efBuild, home, curr, ranking.rule);
    SortedIndices(ranking.tie, dist, end.visited, found, sorted);
    SelectedOk(layer, dist, efBuild, home, curr, found, sorted, deg, ranking);
    ConnectedFacts(layer, idx, Indices(BruteForce.Take(sorted, deg)), KeepClosest(ranking.breaking, gap, deg));
    SelectionIsNearest(ranking.tie, dist, end.visited, found, sorted, deg);
  }

  /** The new node's links cannot be improved from within the layer it enters: no neighbour of one that is left
      out is closer than one, and with fewer than degree and beam allow nothing reachable is left out. */
  lemma LinksCannotImprove(layer: Layer, idx: nat, curr: nat, dist: nat -> real, gap: (nat, nat) -> real,
                           efBuild: nat, deg: nat, ranking: Ranking, layer': Layer, next: nat)
    returns (hits: seq<Scored>)
    requires deg > 0 && curr < idx && idx in layer && layer[idx] == []
    requires LayerOk(layer, idx + 1, deg) && Avoids(layer, idx)
    requires LinkedFrom(layer, idx, curr, dist, gap, efBuild, deg, ranking, layer', next)
    ensures idx in layer' && layer'[idx] == Indices(hits) && |hits| <= deg
    ensures CannotImprove(layer, dist, curr, Least(deg, Cap(efBuild)), hits)
  {
    hide LayerOk, BeamOk, Search, Connected, Ranked, Avoids, Closed, LinkedFrom, LocallyBest, CannotImprove, Cap;
    var home := layer.Keys + {curr} - {idx};
    LinkedFacts(layer, idx, curr, dist, gap, efBuild, deg, ranking, layer', next);
    var found := Search(layer, dist, efBuild, home, Start(dist, curr), ranking.rule).results;
    var sorted := Ranked(ranking.tie, found);
    RankedSorts(ranking.tie, found);
    SearchIsLocallyBest(layer, dist, efBuild, home, curr, ranking.rule);
    TopHitsCannotImprove(layer, dist, curr, efBuild, ranking.tie, found, sorted, deg);
    hits := BruteForce.Take(sorted, deg);
    SelectedOk(layer, dist, efBuild, home, curr, found, sorted, deg, ranking);
    assert idx !in Members(Indices(hits));
    ConnectedFacts(layer, idx, Indices(hits), KeepClosest(ranking.breaking, gap, deg));
  }

  /** What linking `idx` leaves of the old nodes' lists: a list is untouched unless `idx` links to its owner;
      else `idx` joins it, and if it overflows, `deg` of its members stay that outrank all the others. */
  ghost predicate Relinked(before: Layer, after: Layer, idx: nat, deg: nat,
                           outranks: (nat, seq<nat>, nat, nat) -> bool) {
    && idx in after
    && forall u :: u in after && u != idx ==>
         if u in after[idx] then CutBack(Links(before, u) + [idx], after[u], deg, u, outranks)
         else after[u] == Links(before, u)
  }

  ghost predicate CutBack(links: seq<nat>, kept: seq<nat>, deg: nat, owner: nat,
                          outranks: (nat, seq<nat>, nat, nat) -> bool) {
    if |links| <= deg then kept == links
    else
      && |kept| == deg && (forall a :: a in kept ==> a in links)
      && forall a, b :: a in kept && b in links && b !in kept ==> outranks(owner, links, a, b)
  }

  lemma PrunedIsCutBack(breaking: Breaking, gap: (nat, nat) -> real, deg: nat, owner: nat, links: seq<nat>,
                        outranks: (nat, seq<nat>, nat, nat) -> bool)
    requires NoDuplicates(links)
    requires forall a, b :: a in links && b in links && Outranks(breaking, gap, owner, links, a, b) ==>
               outranks(owner, links, a, b)
    ensures CutBack(links, KeepClosest(breaking, gap, deg)(owner, links), deg, owner, outranks)
  {
    var kept := KeepClosest(breaking, gap, deg)(owner, links);
    KeepClosestIsProper(breaking, gap, deg);
    hide NoDuplicates, Outranks, SortBy;
    forall a, b | a in kept && b in links && b !in kept
      ensures outranks(owner, links, a, b)
    {
      KeepClosestKeepsClosest(breaking, gap, deg, owner, links, a, b);
    }
  }

  lemma LinkedSelection(layer: Layer, idx: nat, curr: nat, dist: nat -> real, gap: (nat, nat) -> real,
                        efBuild: nat, deg: nat, ranking: Ranking, layer': Layer, next: nat) returns (selected: seq<nat>)
    requires deg > 0 && LinkedFrom(layer, idx, curr, dist, gap, efBuild, deg, ranking, layer', next)
    ensures NoDuplicates(selected) && idx !in selected
    ensures layer' == Connected(layer, idx, selected, KeepClosest(ranking.breaking, gap, deg))
  {
    hide BeamOk, Search, Connected, Ranked, Closed, LinkedFrom, KeepClosest, NoDuplicates;
    var home := layer.Keys + {curr} - {idx};
    LinkedFacts(layer, idx, curr, dist, gap, efBuild, deg, ranking, layer', next);
    var found := Search(layer, dist, efBuild, home, Start(dist, curr), ranking.rule).results;
    RankedSorts(ranking.tie, found);
    SelectedOk(layer, dist, efBuild, home, curr, found, Ranked(ranking.tie, found), deg, ranking);
    selected := Indices(BruteForce.Take(Ranked(ranking.tie, found), deg));
    assert idx !in Members(selected);
  }

  /** Linking cuts every overfull list back by its owner's gaps. */
  lemma LinkedIsRelinked(layer: Layer, idx: nat, curr: nat, dist: nat -> real, gap: (nat, nat) -> real,
                         efBuild: nat, deg: nat, ranking: Ranking, layer': Layer, next: nat,
                         outranks: (nat, seq<nat>, nat, nat) -> bool)
    requires deg > 0 && idx in layer && layer[idx] == []
    requires LayerOk(layer, idx + 1, deg) && Avoids(layer, idx)
    requires LinkedFrom(layer, idx, curr, dist, gap, efBuild, deg, ranking, layer', next)
    requires forall u, links, a: nat, b: nat :: u in layer' && a <= idx && b <= idx ==>
               Outranks(ranking.breaking, gap, u, links, a, b) ==> outranks(u, links, a, b)
    ensures Relinked(layer, layer', idx, deg, outranks)
  {
    hide Connected, LinkedFrom, Outranks, KeepClosest, CutBack, NoDuplicates;
    var selected := LinkedSelection(layer, idx, curr, dist, gap, efBuild, deg, ranking, layer', next);
    ConnectedFacts(layer, idx, selected, KeepClosest(ranking.breaking, gap, deg));
    forall u | u in layer' && u != idx && u in selected
      ensures CutBack(Links(layer, u) + [idx], layer'[u], deg, u, outranks)
    {
      AppendFresh(Links(layer, u), idx);
      assert forall v :: v in Links(layer, u) ==> v <= idx;
      PrunedIsCutBack(ranking.breaking, gap, deg, u, Links(layer, u) + [idx], outranks);
    }
  }

  function Least(a: nat, b: nat): nat {
    if a <= b then a else b
  }

  lemma LinkedFacts(layer: Layer, idx: nat, curr: nat, dist: nat -> real, gap: (nat, nat) -> real,
                    efBuild: nat, deg: nat, ranking: Ranking, layer': Layer, next: nat)
    requires LinkedFrom(layer, idx, curr, dist, gap, efBuild, deg, ranking, layer', next)
    ensures var home := layer.Keys + {curr} - {idx};
            && curr in home && Closed(layer, home) && BeamOk(Start(dist, curr), dist, efBuild, home)
            && var found := Search(layer, dist, efBuild, home, Start(dist, curr), ranking.rule).results;
            && found != {} && next == First(ranking.tie, found).i
            && layer' == Connected(layer, idx, Indices(BruteForce.Take(Ranked(ranking.tie, found), deg)),
                                   KeepClosest(ranking.breaking, gap, deg))
  {
  }

  lemma SelectionIsNearest(tie: Tie, dist: nat -> real, visited: set<nat>, found: set<Scored>, sorted: seq<Scored>,
                           deg: nat)
    requires found <= ScoresOf(dist, visited) && found != {} && sorted != [] && sorted[0] == First(tie, found)
    requires forall r, v :: r in found && v in ScoresOf(dist, visited) ==> v in found || r.d <= v.d
    requires SortedScores(tie, sorted) && forall x :: x in sorted <==> x in found
    ensures var selected := Indices(BruteForce.Take(sorted, deg));
            && (forall v :: v in selected ==> v in visited && dist(sorted[0].i) <= dist(v))
            && forall v, w :: v in selected && w in visited ==> w in selected || dist(v) <= dist(w)
  {
    var selected := Indices(BruteForce.Take(sorted, deg));
    SortedIndices(tie, dist, visited, found, sorted);
    forall v | v in selected
      ensures v in visited && dist(sorted[0].i) <= dist(v)
      ensures forall w :: w in visited ==> w in selected || dist(v) <= dist(w)
    {
      var k :| 0 <= k < |selected| && selected[k] == v;
      assert sorted[k] == Scored(dist(v), v) && sorted[k] in found;
      assert k > 0 ==> Before(tie, sorted[0], sorted[k]);
      forall w | w in visited && w !in selected
        ensures dist(v) <= dist(w)
      {
        if Scored(dist(w), w) in found {
          var j := DroppedAt(sorted, deg, Scored(dist(w), w));
          assert Before(tie, sorted[k], sorted[j]);
        } else {
          assert Scored(dist(w), w) in ScoresOf(dist, visited);
        }
      }
    }
  }

  lemma LayerIsClosed(layer: Layer, idx: nat, curr: nat, deg: nat)
    requires LayerOk(layer, idx + 1, deg) && Avoids(layer, idx) && curr < idx
    ensures Closed(layer, layer.Keys + {curr} - {idx})
    ensures forall u :: u in layer.Keys + {curr} - {idx} ==> u < idx
    ensures Complete(layer, idx) ==> layer.Keys + {curr} - {idx} == Below(idx)
  {
    forall u, v | u in layer.Keys + {curr} - {idx} && v in Links(layer, u)
      ensures v in layer.Keys + {curr} - {idx}
    {
      assert u in layer;
    }
    if Complete(layer, idx) {
      CompleteKeys(layer, idx);
    }
  }

  /** A layer stays sound, and as complete as it was, when an unlinked node enters it. */
  lemma EnterLayer(layer: Layer, idx: nat, deg: nat)
    requires LayerOk(layer, idx, deg)
    ensures LayerOk(layer, idx + 1, deg) && Avoids(layer, idx)
    ensures LayerOk(layer[idx := []], idx + 1, deg) && Avoids(layer[idx := []], idx)
    ensures Complete(layer, idx) ==> Complete(layer[idx := []], idx)
  {
    var entered: Layer := layer[idx := []];
    forall u | u in layer
      ensures u < idx && LinksOk(layer, u, deg) && idx !in Links(layer, u)
      ensures Links(entered, u) == Links(layer, u)
    {
    }
    assert forall u :: u in entered && u != idx ==> LinksOk(entered, u, deg);
    if Complete(layer, idx) {
      CompleteKeys(layer, idx);
      forall u: nat, v: nat | u < idx
        ensures u in entered && (v in Links(entered, u) <==> v < idx && v != u)
      {
        assert v in Links(layer, u) <==> v < idx && v != u;
      }
    }
  }

  lemma CompleteKeys(layer: Layer, n: nat)
    requires Complete(layer, n)
    ensures forall u: nat :: u < n ==> u in layer
  {
    forall u: nat | u < n
      ensures u in layer
    {
      assert u in Links(layer, u) <==> u < n && u != u;
    }
  }

  lemma SelectedOk(layer: Layer, dist: nat -> real, ef: nat, home: set<nat>, curr: nat,
                   candidates: set<Scored>, sorted: seq<Scored>, deg: nat, ranking: Ranking)
    requires curr in home && Closed(layer, home) && deg > 0
    requires BeamOk(Start(dist, curr), dist, ef, home)
    requires candidates == Search(layer, dist, ef, home, Start(dist, curr), ranking.rule).results
    requires SortedScores(ranking.tie, sorted) && |sorted| == |candidates|
    requires forall x :: x in sorted <==> x in candidates
    ensures var selected := Indices(BruteForce.Take(sorted, deg));
            && NoDuplicates(selected) && |selected| <= deg && Members(selected) <= home
            && (curr !in layer ==> curr in selected)
            && |sorted| > 0 && sorted[0].i in selected
  {
    hide Search, BeamOk;
    var end := Search(layer, dist, ef, home, Start(dist, curr), ranking.rule);
    SearchOk(layer, dist, ef, home, Start(dist, curr), ranking.rule);
    SearchReturnsNearestVisited(layer, dist, ef, home, curr, ranking.rule);
    BeamHasResults(end, dist, ef, home);
    SortedIndices(ranking.tie, dist, end.visited, candidates, sorted);
    if curr !in layer {
      IsolatedEntry(layer, dist, ef, home, curr, ranking.rule);
      assert Scored(dist(curr), curr) in sorted;
    }
    assert sorted != [] by { var x :| x in candidates; assert x in sorted; }
    assert Indices(sorted)[0] in Indices(sorted);
    var selected := Indices(BruteForce.Take(sorted, deg));
    assert selected[0] == sorted[0].i;
    assert forall k :: 0 <= k < |selected| ==> selected[k] == Indices(sorted)[k];
  }

  lemma SelectedAll(layer: Layer, dist: nat -> real, ef: nat, n: nat, curr: nat, home: set<nat>,
                    candidates: set<Scored>, sorted: seq<Scored>, deg: nat, ranking: Ranking)
    requires Complete(layer, n) && curr < n <= ef && n <= deg
    requires home == Below(n) && Closed(layer, home) && BeamOk(Start(dist, curr), dist, ef, home)
    requires candidates == Search(layer, dist, ef, home, Start(dist, curr), ranking.rule).results
    requires SortedScores(ranking.tie, sorted) && |sorted| == |candidates|
    requires forall x :: x in sorted <==> x in candidates
    ensures forall s: nat :: s in Indices(BruteForce.Take(sorted, deg)) <==> s < n
  {
    hide Search, BeamOk;
    CompleteSearch(layer, dist, ef, n, curr, ranking.rule);
    ScoresOfSize(dist, Below(n));
    SortedIndices(ranking.tie, dist, Below(n), candidates, sorted);
    assert BruteForce.Take(sorted, deg) == sorted;
  }

  /** Each layer from `l` to `top` linked from where the layer above ended, the others untouched;
      `path` lists where they end, lowest first, and last where `top` started. */
  ghost predicate LinkedBelow(before: seq<Layer>, after: seq<Layer>, idx: nat, l: nat, top: nat,
                              dist: nat -> real, gap: (nat, nat) -> real, efBuild: nat, m: nat, ranking: Ranking,
                              path: seq<nat>) {
    && l <= top + 1 && |path| == top + 2 - l && |after| == |before| > top
    && (forall k :: 0 <= k < |before| && !(l <= k <= top) ==> after[k] == before[k])
    && forall k :: l <= k <= top ==>
         LinkedFrom(before[k], idx, path[k + 1 - l], dist, gap, efBuild, Degree(m, k), ranking, after[k], path[k - l])
  }

  lemma LinkedStep(before: seq<Layer>, after: seq<Layer>, idx: nat, l: nat, top: nat, dist: nat -> real,
                   gap: (nat, nat) -> real, efBuild: nat, m: nat, ranking: Ranking, path: seq<nat>, linked: Layer,
                   next: nat)
    requires l < |after| && LinkedBelow(before, after, idx, l + 1, top, dist, gap, efBuild, m, ranking, path)
    requires LinkedFrom(after[l], idx, path[0], dist, gap, efBuild, Degree(m, l), ranking, linked, next)
    ensures LinkedBelow(before, after[l := linked], idx, l, top, dist, gap, efBuild, m, ranking, [next] + path)
  {
    hide LinkedFrom;
  }

  lemma LinkedStart(before: seq<Layer>, idx: nat, top: nat, dist: nat -> real, gap: (nat, nat) -> real,
                    efBuild: nat, m: nat, ranking: Ranking, start: nat)
    requires top < |before|
    ensures LinkedBelow(before, before, idx, top + 1, top, dist, gap, efBuild, m, ranking, [start])
  {
  }

  ghost predicate LinkedAlong(before: seq<Layer>, after: seq<Layer>, idx: nat, top: nat,
                              dist: nat -> real, gap: (nat, nat) -> real, efBuild: nat, m: nat, ranking: Ranking,
                              path: seq<nat>) {
    LinkedBelow(before, after, idx, 0, top, dist, gap, efBuild, m, ranking, path)
  }
}
