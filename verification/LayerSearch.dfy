/** Scored node indices, their orders, and sorting. */
module Scores {

  /** A node with its distance to the query. */
  datatype Scored = Scored(d: real, i: nat)

  /** Which of two equally distant nodes comes first. */
  datatype Tie = LowFirst | HighFirst

  predicate Before(tie: Tie, a: Scored, b: Scored) {
    a.d < b.d || (a.d == b.d && if tie.LowFirst? then a.i < b.i else b.i < a.i)
  }

  ghost predicate IsFirst(tie: Tie, s: set<Scored>, x: Scored) {
    x in s && forall y :: y in s ==> y == x || Before(tie, x, y)
  }

  /** The heap top of a max-heap keyed by (-distance, index). */
  ghost predicate IsWorst(s: set<Scored>, x: Scored) {
    x in s && forall y :: y in s ==> y.d <= x.d && (y.d == x.d ==> x.i <= y.i)
  }

  lemma {:induction false} FirstExists(tie: Tie, s: set<Scored>)
    requires s != {}
    ensures exists x :: IsFirst(tie, s, x)
  {
    var x :| x in s;
    if s - {x} == {} {
      assert s == {x};
      assert IsFirst(tie, s, x);
    } else {
      FirstExists(tie, s - {x});
      var y :| IsFirst(tie, s - {x}, y);
      var best := if Before(tie, x, y) then x else y;
      forall z | z in s
        ensures z == best || Before(tie, best, z)
      {
        if z != x {
          assert z == y || Before(tie, y, z);
        }
      }
      assert IsFirst(tie, s, best);
    }
  }

  lemma {:induction false} WorstExists(s: set<Scored>)
    requires s != {}
    ensures exists x :: IsWorst(s, x)
  {
    var x :| x in s;
    if s - {x} == {} {
      assert s == {x};
      assert IsWorst(s, x);
    } else {
      WorstExists(s - {x});
      var y :| IsWorst(s - {x}, y);
      assert IsWorst(s, if x.d < y.d || (x.d == y.d && y.i <= x.i) then y else x);
    }
  }

  lemma FirstUnique(tie: Tie, s: set<Scored>, x: Scored, y: Scored)
    requires IsFirst(tie, s, x) && IsFirst(tie, s, y)
    ensures x == y
  {
  }

  lemma WorstUnique(s: set<Scored>, x: Scored, y: Scored)
    requires IsWorst(s, x) && IsWorst(s, y)
    ensures x == y
  {
  }

  ghost function First(tie: Tie, s: set<Scored>): (x: Scored)
    requires s != {}
    ensures IsFirst(tie, s, x)
  {
    FirstExists(tie, s);
    var x :| IsFirst(tie, s, x);
    x
  }

  ghost function Worst(s: set<Scored>): (x: Scored)
    requires s != {}
    ensures IsWorst(s, x)
  {
    WorstExists(s);
    var x :| IsWorst(s, x);
    x
  }

  /** `heapq.heappop` on a heap of (distance, index). */
  method PopFirst(s: set<Scored>) returns (x: Scored)
    requires s != {}
    ensures x == First(LowFirst, s)
  {
    FirstExists(LowFirst, s);
    x :| x in s && forall y | y in s :: y == x || Before(LowFirst, x, y);
    FirstUnique(LowFirst, s, x, First(LowFirst, s));
  }

  /** The top of a heap of (-distance, index). */
  method PeekWorst(s: set<Scored>) returns (x: Scored)
    requires s != {}
    ensures x == Worst(s)
  {
    WorstExists(s);
    x :| x in s && forall y | y in s :: y.d <= x.d && (y.d == x.d ==> x.i <= y.i);
    WorstUnique(s, x, Worst(s));
  }

  ghost predicate SortedScores(tie: Tie, l: seq<Scored>) {
    forall i, j :: 0 <= i < j < |l| ==> Before(tie, l[i], l[j])
  }

  /** All of `s`, best first. */
  ghost function Ranked(tie: Tie, s: set<Scored>): seq<Scored> {
    if s == {} then [] else [First(tie, s)] + Ranked(tie, s - {First(tie, s)})
  }

  /** The ranking lists every element once, in strict order. */
  lemma {:induction false} RankedSorts(tie: Tie, s: set<Scored>)
    ensures SortedScores(tie, Ranked(tie, s)) && |Ranked(tie, s)| == |s|
    ensures forall x :: x in Ranked(tie, s) <==> x in s
  {
    if s != {} {
      var x := First(tie, s);
      RankedSorts(tie, s - {x});
      var rest := Ranked(tie, s - {x});
      forall j | 0 <= j < |rest|
        ensures Before(tie, x, rest[j])
      {
        assert rest[j] in rest;
      }
    }
  }

  method Sort(tie: Tie, s: set<Scored>) returns (l: seq<Scored>)
    ensures l == Ranked(tie, s)
  {
    l := [];
    var rest := s;
    while rest != {}
      invariant l + Ranked(tie, rest) == Ranked(tie, s)
    {
      FirstExists(tie, rest);
      var x :| x in rest && forall y | y in rest :: y == x || Before(tie, x, y);
      FirstUnique(tie, rest, x, First(tie, rest));
      l := l + [x];
      rest := rest - {x};
    }
  }
}

/** The two searches both indexes run inside one layer of the graph: greedy descent
    and best-first beam search. */
module LayerSearch {
  import opened Scores
  import opened Sets

  /** Adjacency lists of the nodes present in a layer. */
  type Layer = map<nat, seq<nat>>

  function Links(layer: Layer, u: nat): seq<nat> {
    if u in layer then layer[u] else []
  }

  ghost predicate Closed(layer: Layer, home: set<nat>) {
    forall u, v :: u in home && v in Links(layer, u) ==> v in home
  }

  ghost predicate IsPath(layer: Layer, p: seq<nat>) {
    p != [] && forall k :: 0 <= k < |p| - 1 ==> p[k + 1] in Links(layer, p[k])
  }

  ghost predicate Reachable(layer: Layer, s: nat, v: nat) {
    exists p :: IsPath(layer, p) && p[0] == s && p[|p| - 1] == v
  }

  lemma ReachableStart(layer: Layer, s: nat)
    ensures Reachable(layer, s, s)
  {
    assert IsPath(layer, [s]) && [s][0] == s;
  }

  lemma ReachableStep(layer: Layer, s: nat, u: nat, v: nat)
    requires Reachable(layer, s, u) && v in Links(layer, u)
    ensures Reachable(layer, s, v)
  {
    var p :| IsPath(layer, p) && p[0] == s && p[|p| - 1] == u;
    assert IsPath(layer, p + [v]);
  }

  lemma {:induction false} ClosedHoldsPath(layer: Layer, home: set<nat>, p: seq<nat>)
    requires IsPath(layer, p) && p[0] in home && Closed(layer, home)
    ensures p[|p| - 1] in home
  {
    if |p| > 1 {
      ClosedHoldsPath(layer, home, p[..|p| - 1]);
      assert p[|p| - 2 + 1] in Links(layer, p[|p| - 2]);
    }
  }

  // -------------------------------------------------------- greedy descent

  ghost function CloserThan(home: set<nat>, dist: nat -> real, x: real): set<nat> {
    set v | v in home && dist(v) < x
  }

  /** No neighbour of `u` is closer. */
  ghost predicate LocallyClosest(layer: Layer, dist: nat -> real, u: nat) {
    forall nb :: nb in Links(layer, u) ==> dist(nb) >= dist(u)
  }

  /** Move to a closer neighbour until none is closer. */
  method GreedyClosest(layer: Layer, dist: nat -> real, start: nat, ghost home: set<nat>) returns (curr: nat)
    requires start in home && Closed(layer, home)
    ensures curr in home && dist(curr) <= dist(start)
    ensures LocallyClosest(layer, dist, curr)
  {
    curr := start;
    var currD := dist(start);
    var improved := true;
    while improved
      invariant curr in home && currD == dist(curr) <= dist(start)
      invariant !improved ==> forall nb :: nb in Links(layer, curr) ==> dist(nb) >= dist(curr)
      decreases CloserThan(home, dist, currD), improved
    {
      improved := false;
      var links := Links(layer, curr);
      ghost var from := curr;
      for k := 0 to |links|
        invariant curr in home && currD == dist(curr) <= dist(from)
        invariant if improved then dist(curr) < dist(from) else curr == from
        invariant !improved ==> forall j :: 0 <= j < k ==> dist(links[j]) >= dist(curr)
      {
        var d := dist(links[k]);
        if d < currD {
          curr, currD, improved := links[k], d, true;
        }
      }
      if improved {
        assert curr in CloserThan(home, dist, dist(from)) && curr !in CloserThan(home, dist, currD);
      }
    }
  }

  // ----------------------------------------------------------- beam search

  /** The state of a beam search: visited nodes, the candidate heap, the result heap. */
  datatype Beam = Beam(visited: set<nat>, candidates: set<Scored>, results: set<Scored>)

  /** The two sources stop on different tests: one whenever the best candidate is worse than
      the worst result, the other only once the results are full as well. */
  datatype StopRule = WhenWorse | WhenFullAndWorse

  ghost function ScoresOf(dist: nat -> real, vs: set<nat>): set<Scored> {
    set v | v in vs :: Scored(dist(v), v)
  }

  function Cap(ef: nat): nat {
    if ef == 0 then 1 else ef
  }

  ghost function Start(dist: nat -> real, entry: nat): Beam {
    Beam({entry}, {Scored(dist(entry), entry)}, {Scored(dist(entry), entry)})
  }

  ghost function Trim(results: set<Scored>, ef: nat): set<Scored>
    requires results != {}
  {
    if |results| > ef then results - {Worst(results)} else results
  }

  /** Look at one neighbour. */
  ghost function Relax(st: Beam, dist: nat -> real, ef: nat, nb: nat): Beam {
    var s := Scored(dist(nb), nb);
    if nb in st.visited then st
    else if |st.results| < ef || (st.results != {} && s.d < Worst(st.results).d) then
      Beam(st.visited + {nb}, st.candidates + {s}, Trim(st.results + {s}, ef))
    else
      Beam(st.visited + {nb}, st.candidates, st.results)
  }

  ghost function RelaxAll(st: Beam, dist: nat -> real, ef: nat, nbs: seq<nat>): Beam {
    if nbs == [] then st else Relax(RelaxAll(st, dist, ef, nbs[..|nbs| - 1]), dist, ef, nbs[|nbs| - 1])
  }

  /** The search invariant: at most `Cap(ef)` results, all visited; until they are full they are
      all that was visited; nothing visited and left out is closer than a result. */
  ghost predicate BeamOk(st: Beam, dist: nat -> real, ef: nat, home: set<nat>) {
    && st.visited <= home
    && st.results != {}
    && st.candidates <= ScoresOf(dist, st.visited)
    && Nearest(ScoresOf(dist, st.visited), st.results, Cap(ef))
  }

  lemma ScoresOfNew(dist: nat -> real, vs: set<nat>, nb: nat)
    requires nb !in vs
    ensures ScoresOf(dist, vs + {nb}) == ScoresOf(dist, vs) + {Scored(dist(nb), nb)}
    ensures Scored(dist(nb), nb) !in ScoresOf(dist, vs)
  {
  }

  /** A result set of at most `cap` of the scores `all`, none of the others being closer. */
  ghost predicate Nearest(all: set<Scored>, results: set<Scored>, cap: nat) {
    && results <= all && |results| <= cap
    && (|results| < cap ==> results == all)
    && (forall r, v :: r in results && v in all ==> v in results || r.d <= v.d)
  }

  lemma PushKeepsNearest(all: set<Scored>, results: set<Scored>, ef: nat, s: Scored)
    requires results != {} && Nearest(all, results, Cap(ef)) && s !in all
    requires |results| < ef || s.d < Worst(results).d
    ensures Nearest(all + {s}, Trim(results + {s}, ef), Cap(ef)) && Trim(results + {s}, ef) != {}
  {
    var grown := results + {s};
    assert |grown| == |results| + 1;
    if |grown| > ef {
      var w := Worst(grown);
      assert |grown - {w}| == |grown| - 1;
      assert w != s by {
        assert Worst(results) in grown;
      }
    }
  }

  lemma RejectKeepsNearest(all: set<Scored>, results: set<Scored>, cap: nat, s: Scored)
    requires results != {} && Nearest(all, results, cap) && |results| >= cap && s.d >= Worst(results).d
    ensures Nearest(all + {s}, results, cap)
  {
  }

  lemma RelaxOk(st: Beam, dist: nat -> real, ef: nat, home: set<nat>, nb: nat)
    requires BeamOk(st, dist, ef, home) && nb in home
    ensures BeamOk(Relax(st, dist, ef, nb), dist, ef, home)
  {
    hide ScoresOf, Nearest, Trim;
    if nb !in st.visited {
      var s := Scored(dist(nb), nb);
      ScoresOfNew(dist, st.visited, nb);
      if |st.results| < ef || s.d < Worst(st.results).d {
        PushKeepsNearest(ScoresOf(dist, st.visited), st.results, ef, s);
      } else {
        assert |st.results| >= Cap(ef) by { NonEmptyResults(st.results); }
        RejectKeepsNearest(ScoresOf(dist, st.visited), st.results, Cap(ef), s);
      }
    }
  }

  /** A node met for the first time becomes a candidate exactly when it becomes a result, and it does exactly when
      there is room or it is closer than some result. */
  lemma RelaxAdmits(st: Beam, dist: nat -> real, ef: nat, home: set<nat>, nb: nat)
    requires BeamOk(st, dist, ef, home) && nb in home && nb !in st.visited
    ensures var st', s := Relax(st, dist, ef, nb), Scored(dist(nb), nb);
            && (s in st'.results <==> |st.results| < Cap(ef) || exists r :: r in st.results && s.d < r.d)
            && st'.candidates == st.candidates + (if s in st'.results then {s} else {})
            && st'.visited == st.visited + {nb}
  {
    hide Nearest;
    var s := Scored(dist(nb), nb);
    NonEmptyResults(st.results);
    assert s !in st.results by { NotFoundYet(st, dist, ef, nb); }
    if |st.results| < ef || s.d < Worst(st.results).d {
      assert Worst(st.results) in st.results + {s};
      assert Worst(st.results + {s}) != s || |st.results + {s}| <= ef;
    }
  }

  lemma NotFoundYet(st: Beam, dist: nat -> real, ef: nat, nb: nat)
    requires Nearest(ScoresOf(dist, st.visited), st.results, Cap(ef)) && nb !in st.visited
    ensures Scored(dist(nb), nb) !in st.results
  {
  }

  lemma NonEmptyResults(s: set<Scored>)
    requires s != {}
    ensures |s| >= 1
  {
    var x :| x in s;
    assert s == {x} + (s - {x});
  }

  lemma {:induction false} RelaxAllOk(st: Beam, dist: nat -> real, ef: nat, home: set<nat>, nbs: seq<nat>)
    requires BeamOk(st, dist, ef, home) && forall nb :: nb in nbs ==> nb in home
    ensures BeamOk(RelaxAll(st, dist, ef, nbs), dist, ef, home)
    ensures st.visited <= RelaxAll(st, dist, ef, nbs).visited
    ensures RelaxAll(st, dist, ef, nbs).visited == st.visited + (set nb | nb in nbs)
    ensures RelaxAll(st, dist, ef, nbs).visited == st.visited ==>
            RelaxAll(st, dist, ef, nbs).candidates == st.candidates
  {
    hide BeamOk;
    if nbs != [] {
      var n := |nbs| - 1;
      RelaxAllOk(st, dist, ef, home, nbs[..n]);
      RelaxOk(RelaxAll(st, dist, ef, nbs[..n]), dist, ef, home, nbs[n]);
      assert nbs == nbs[..n] + [nbs[n]];
    }
  }

  lemma StartOk(dist: nat -> real, ef: nat, home: set<nat>, entry: nat)
    requires entry in home
    ensures BeamOk(Start(dist, entry), dist, ef, home)
  {
    assert ScoresOf(dist, {entry}) == {Scored(dist(entry), entry)};
  }

  ghost predicate Stops(rule: StopRule, st: Beam, ef: nat, best: Scored)
    requires st.results != {}
  {
    match rule
    case WhenWorse => best.d > Worst(st.results).d
    case WhenFullAndWorse => |st.results| >= ef && best.d > Worst(st.results).d
  }

  /** While the results are not full, every candidate is a result, so the two tests agree. */
  lemma StopRulesAgree(st: Beam, dist: nat -> real, ef: nat, home: set<nat>, best: Scored)
    requires BeamOk(st, dist, ef, home) && best in st.candidates
    ensures Stops(WhenWorse, st, ef, best) <==> Stops(WhenFullAndWorse, st, ef, best)
  {
  }

  /** Under either test the search stops exactly when the best candidate is farther than every result. */
  lemma StopsMeans(st: Beam, dist: nat -> real, ef: nat, home: set<nat>, rule: StopRule, best: Scored)
    requires BeamOk(st, dist, ef, home) && best in st.candidates
    ensures Stops(rule, st, ef, best) <==> forall r :: r in st.results ==> r.d < best.d
  {
    StopRulesAgree(st, dist, ef, home, best);
    assert Worst(st.results) in st.results;
  }

  /** Take the best candidate and look at its neighbours. */
  ghost function Expand(layer: Layer, st: Beam, dist: nat -> real, ef: nat): Beam
    requires st.candidates != {}
  {
    var best := First(LowFirst, st.candidates);
    RelaxAll(st.(candidates := st.candidates - {best}), dist, ef, Links(layer, best.i))
  }

  lemma ExpandOk(layer: Layer, st: Beam, dist: nat -> real, ef: nat, home: set<nat>)
    requires BeamOk(st, dist, ef, home) && Closed(layer, home) && st.candidates != {}
    ensures BeamOk(Expand(layer, st, dist, ef), dist, ef, home)
    ensures var st' := Expand(layer, st, dist, ef);
            st.visited <= st'.visited && (st'.visited == st.visited ==> st'.candidates < st.candidates)
    ensures First(LowFirst, st.candidates).i in st.visited
    ensures Expand(layer, st, dist, ef).visited ==
            st.visited + (set nb | nb in Links(layer, First(LowFirst, st.candidates).i))
  {
    var best := First(LowFirst, st.candidates);
    assert best in ScoresOf(dist, st.visited);
    RelaxAllOk(st.(candidates := st.candidates - {best}), dist, ef, home, Links(layer, best.i));
  }

  /** The whole search from state `st`; `home` bounds the nodes that can be met. */
  ghost function Search(layer: Layer, dist: nat -> real, ef: nat, home: set<nat>, st: Beam, rule: StopRule): Beam
    requires BeamOk(st, dist, ef, home) && Closed(layer, home)
    decreases home - st.visited, st.candidates
  {
    if st.candidates == {} || Stops(rule, st, ef, First(LowFirst, st.candidates)) then st
    else
      ExpandOk(layer, st, dist, ef, home);
      Search(layer, dist, ef, home, Expand(layer, st, dist, ef), rule)
  }

  lemma {:induction false} SearchOk(layer: Layer, dist: nat -> real, ef: nat, home: set<nat>, st: Beam, rule: StopRule)
    requires BeamOk(st, dist, ef, home) && Closed(layer, home)
    ensures BeamOk(Search(layer, dist, ef, home, st, rule), dist, ef, home)
    ensures st.visited <= Search(layer, dist, ef, home, st, rule).visited
    decreases home - st.visited, st.candidates
  {
    hide BeamOk, Expand;
    if st.candidates != {} {
      ExpandOk(layer, st, dist, ef, home);
      assert st.results != {} by { BeamHasResults(st, dist, ef, home); }
      if !Stops(rule, st, ef, First(LowFirst, st.candidates)) {
        SearchOk(layer, dist, ef, home, Expand(layer, st, dist, ef), rule);
      }
    }
  }

  lemma BeamHasResults(st: Beam, dist: nat -> real, ef: nat, home: set<nat>)
    requires BeamOk(st, dist, ef, home)
    ensures st.results != {} && st.visited <= home
  {
  }

  /** Both sources' searches end in the same state. */
  lemma {:induction false} StopRuleIrrelevant(layer: Layer, dist: nat -> real, ef: nat, home: set<nat>, st: Beam)
    requires BeamOk(st, dist, ef, home) && Closed(layer, home)
    ensures Search(layer, dist, ef, home, st, WhenWorse) == Search(layer, dist, ef, home, st, WhenFullAndWorse)
    decreases home - st.visited, st.candidates
  {
    hide BeamOk, Expand, Stops;
    if st.candidates != {} {
      BeamHasResults(st, dist, ef, home);
      StopRulesAgree(st, dist, ef, home, First(LowFirst, st.candidates));
      ExpandOk(layer, st, dist, ef, home);
      if !Stops(WhenWorse, st, ef, First(LowFirst, st.candidates)) {
        StopRuleIrrelevant(layer, dist, ef, home, Expand(layer, st, dist, ef));
      }
    }
  }

  lemma {:induction false} ScoresOfSize(dist: nat -> real, vs: set<nat>)
    ensures |ScoresOf(dist, vs)| == |vs|
  {
    if vs == {} {
      assert ScoresOf(dist, vs) == {};
    } else {
      var v :| v in vs;
      var rest := vs - {v};
      ScoresOfSize(dist, rest);
      ScoresOfNew(dist, rest, v);
      assert rest + {v} == vs && |vs| == |rest| + 1;
      assert |ScoresOf(dist, rest) + {Scored(dist(v), v)}| == |ScoresOf(dist, rest)| + 1;
    }
  }

  /** The search returns the `min(ef, visited)` closest of the nodes it visited. */
  lemma SearchReturnsNearestVisited(layer: Layer, dist: nat -> real, ef: nat, home: set<nat>, entry: nat,
                                    rule: StopRule)
    requires entry in home && Closed(layer, home)
    ensures BeamOk(Start(dist, entry), dist, ef, home)
    ensures var end := Search(layer, dist, ef, home, Start(dist, entry), rule);
            && end.results <= ScoresOf(dist, end.visited)
            && |end.results| == (if Cap(ef) <= |end.visited| then Cap(ef) else |end.visited|)
            && forall r, v :: r in end.results && v in ScoresOf(dist, end.visited) ==> v in end.results || r.d <= v.d
  {
    StartOk(dist, ef, home, entry);
    SearchOk(layer, dist, ef, home, Start(dist, entry), rule);
    var end := Search(layer, dist, ef, home, Start(dist, entry), rule);
    ScoresOfSize(dist, end.visited);
    SubsetSize(end.results, ScoresOf(dist, end.visited));
  }

  // ------------------------------------------------------ why it may stop

  /** Every result is still to be expanded or has only visited neighbours. */
  ghost predicate Settling(layer: Layer, st: Beam) {
    forall r, w :: r in st.results && w in Links(layer, r.i) ==> r in st.candidates || w in st.visited
  }

  lemma {:induction false} RelaxAllGrows(st: Beam, dist: nat -> real, ef: nat, nbs: seq<nat>)
    ensures var st' := RelaxAll(st, dist, ef, nbs);
            && st.candidates <= st'.candidates && st.visited <= st'.visited
            && (forall r :: r in st'.results ==> r in st.results || r in st'.candidates)
            && forall nb :: nb in nbs ==> nb in st'.visited
  {
    if nbs != [] {
      var n := |nbs| - 1;
      RelaxAllGrows(st, dist, ef, nbs[..n]);
      assert nbs == nbs[..n] + [nbs[n]];
      RelaxGrows(RelaxAll(st, dist, ef, nbs[..n]), dist, ef, nbs[n]);
      hide Relax;
    }
  }

  lemma RelaxGrows(st: Beam, dist: nat -> real, ef: nat, nb: nat)
    ensures var st' := Relax(st, dist, ef, nb);
            && st.candidates <= st'.candidates && st'.visited == st.visited + {nb}
            && forall r :: r in st'.results ==> r in st.results || r in st'.candidates
  {
  }

  lemma ExpandSettles(layer: Layer, st: Beam, dist: nat -> real, ef: nat)
    requires st.candidates != {} && Settling(layer, st)
    ensures Settling(layer, Expand(layer, st, dist, ef))
  {
    hide RelaxAll;
    var best := First(LowFirst, st.candidates);
    RelaxAllGrows(st.(candidates := st.candidates - {best}), dist, ef, Links(layer, best.i));
  }

  /** When the search stops, nothing left to expand is a result. */
  lemma StopsSettled(st: Beam, ef: nat, rule: StopRule)
    requires st.results != {} && (st.candidates == {} || Stops(rule, st, ef, First(LowFirst, st.candidates)))
    ensures st.results !! st.candidates
  {
    if r :| r in st.results && r in st.candidates {
      assert false;
    }
  }

  lemma {:induction false} SearchSettles(layer: Layer, dist: nat -> real, ef: nat, home: set<nat>, st: Beam,
                                         rule: StopRule)
    requires BeamOk(st, dist, ef, home) && Closed(layer, home) && Settling(layer, st)
    ensures var end := Search(layer, dist, ef, home, st, rule);
            forall r, w :: r in end.results && w in Links(layer, r.i) ==> w in end.visited
    decreases home - st.visited, st.candidates
  {
    hide BeamOk, Expand, Stops, Search, Closed;
    SearchUnfolds(layer, dist, ef, home, st, rule);
    if st.candidates == {} || Stops(rule, st, ef, First(LowFirst, st.candidates)) {
      StopsSettled(st, ef, rule);
    } else {
      BeamHasResults(st, dist, ef, home);
      ExpandOk(layer, st, dist, ef, home);
      ExpandSettles(layer, st, dist, ef);
      hide Settling;
      SearchSettles(layer, dist, ef, home, Expand(layer, st, dist, ef), rule);
    }
  }

  /** Whatever `ef` is, every result was expanded: the search has visited all its neighbours. */
  lemma ResultsAreExpanded(layer: Layer, dist: nat -> real, ef: nat, home: set<nat>, entry: nat, rule: StopRule)
    requires entry in home && Closed(layer, home)
    ensures BeamOk(Start(dist, entry), dist, ef, home)
    ensures var end := Search(layer, dist, ef, home, Start(dist, entry), rule);
            forall r, w :: r in end.results && w in Links(layer, r.i) ==> w in end.visited
  {
    StartOk(dist, ef, home, entry);
    SearchSettles(layer, dist, ef, home, Start(dist, entry), rule);
  }

  /** A neighbour of a result is a result itself or no closer than any result. */
  ghost predicate NeighborsBehind(layer: Layer, dist: nat -> real, results: set<Scored>) {
    forall r, w, q :: r in results && w in Links(layer, r.i) && q in results ==>
      Scored(dist(w), w) in results || q.d <= dist(w)
  }

  lemma {:induction false} SearchReaches(layer: Layer, dist: nat -> real, ef: nat, home: set<nat>, st: Beam,
                                         rule: StopRule, entry: nat)
    requires BeamOk(st, dist, ef, home) && Closed(layer, home)
    requires forall v :: v in st.visited ==> Reachable(layer, entry, v)
    ensures forall v :: v in Search(layer, dist, ef, home, st, rule).visited ==> Reachable(layer, entry, v)
    decreases home - st.visited, st.candidates
  {
    hide BeamOk, Expand, Stops, Search, Closed, Reachable;
    SearchUnfolds(layer, dist, ef, home, st, rule);
    if st.candidates != {} && !Stops(rule, st, ef, First(LowFirst, st.candidates)) {
      BeamHasResults(st, dist, ef, home);
      ExpandOk(layer, st, dist, ef, home);
      var best := First(LowFirst, st.candidates);
      forall v | v in Links(layer, best.i)
        ensures Reachable(layer, entry, v)
      {
        ReachableStep(layer, entry, best.i, v);
      }
      SearchReaches(layer, dist, ef, home, Expand(layer, st, dist, ef), rule, entry);
    }
  }

  /** The results are reachable and cannot be improved from within: no neighbour left out is closer than a
      result, and with fewer than `ef` results nothing reachable is left out. */
  ghost predicate LocallyBest(layer: Layer, dist: nat -> real, entry: nat, ef: nat, results: set<Scored>) {
    && (forall r :: r in results ==> Reachable(layer, entry, r.i))
    && NeighborsBehind(layer, dist, results)
    && (|results| < Cap(ef) ==> forall v :: Reachable(layer, entry, v) ==> Scored(dist(v), v) in results)
  }

  lemma SearchIsLocallyBest(layer: Layer, dist: nat -> real, ef: nat, home: set<nat>, entry: nat, rule: StopRule)
    requires entry in home && Closed(layer, home)
    ensures BeamOk(Start(dist, entry), dist, ef, home)
    ensures LocallyBest(layer, dist, entry, ef, Search(layer, dist, ef, home, Start(dist, entry), rule).results)
  {
    hide Search, BeamOk, Cap;
    SearchReturnsNearestVisited(layer, dist, ef, home, entry, rule);
    ResultsAreExpanded(layer, dist, ef, home, entry, rule);
    SearchOk(layer, dist, ef, home, Start(dist, entry), rule);
    ReachableStart(layer, entry);
    SearchReaches(layer, dist, ef, home, Start(dist, entry), rule, entry);
    var end := Search(layer, dist, ef, home, Start(dist, entry), rule);
    assert forall v :: v in end.visited ==> Scored(dist(v), v) in ScoresOf(dist, end.visited);
    if |end.results| < Cap(ef) {
      assert end.results == ScoresOf(dist, end.visited) by { BeamNotFull(end, dist, ef, home); }
      assert Closed(layer, end.visited) by {
        assert forall v :: v in end.visited ==> Scored(dist(v), v) in end.results;
      }
      forall v | Reachable(layer, entry, v)
        ensures Scored(dist(v), v) in end.results
      {
        var p :| IsPath(layer, p) && p[0] == entry && p[|p| - 1] == v;
        ClosedHoldsPath(layer, end.visited, p);
      }
    }
  }

  lemma BeamNotFull(st: Beam, dist: nat -> real, ef: nat, home: set<nat>)
    requires BeamOk(st, dist, ef, home) && |st.results| < Cap(ef)
    ensures st.results == ScoresOf(dist, st.visited)
  {
  }

  // ------------------------------------------------------------ a wide beam

  /** A search that has never dropped a node: visited nodes are reachable, and are still to be
      expanded or have only visited neighbours. */
  ghost predicate Sweeping(layer: Layer, dist: nat -> real, entry: nat, st: Beam) {
    && entry in st.visited
    && (forall v :: v in st.visited ==> Reachable(layer, entry, v))
    && (forall v, w :: v in st.visited && w in Links(layer, v) ==>
        w in st.visited || Scored(dist(v), v) in st.candidates)
  }

  ghost function NewAmong(nbs: seq<nat>, visited: set<nat>): set<nat> {
    (set nb | nb in nbs) - visited
  }

  lemma NewAmongLast(nbs: seq<nat>, visited: set<nat>)
    requires nbs != []
    ensures var n := |nbs| - 1;
            NewAmong(nbs, visited) ==
              if nbs[n] in visited || nbs[n] in nbs[..n] then NewAmong(nbs[..n], visited)
              else NewAmong(nbs[..n], visited) + {nbs[n]}
  {
    assert nbs == nbs[..|nbs| - 1] + [nbs[|nbs| - 1]];
  }

  lemma {:induction false} RelaxAllKeepsCandidates(st: Beam, dist: nat -> real, ef: nat, home: set<nat>, nbs: seq<nat>)
    requires BeamOk(st, dist, ef, home) && |home| <= ef && forall nb :: nb in nbs ==> nb in home
    ensures RelaxAll(st, dist, ef, nbs).candidates == st.candidates + ScoresOf(dist, NewAmong(nbs, st.visited))
  {
    hide BeamOk, NewAmong, ScoresOf;
    if nbs == [] {
      assert ScoresOf(dist, NewAmong(nbs, st.visited)) == {} by { NothingNew(dist, st.visited); }
    } else {
      var n := |nbs| - 1;
      var mid, nb := RelaxAll(st, dist, ef, nbs[..n]), nbs[n];
      RelaxAllKeepsCandidates(st, dist, ef, home, nbs[..n]);
      RelaxAllOk(st, dist, ef, home, nbs[..n]);
      NewAmongLast(nbs, st.visited);
      if nb !in mid.visited {
        RoomForAll(mid, dist, ef, home, nb);
        NewAmongSubset(nbs[..n], st.visited, nb);
        ScoresOfNew(dist, NewAmong(nbs[..n], st.visited), nb);
      }
    }
  }

  lemma NothingNew(dist: nat -> real, visited: set<nat>)
    ensures ScoresOf(dist, NewAmong([], visited)) == {}
  {
  }

  lemma NewAmongSubset(nbs: seq<nat>, visited: set<nat>, nb: nat)
    ensures nb in NewAmong(nbs, visited) ==> nb in nbs
  {
  }

  /** With room for every node, a node not yet visited is never rejected. */
  lemma RoomForAll(st: Beam, dist: nat -> real, ef: nat, home: set<nat>, nb: nat)
    requires BeamOk(st, dist, ef, home) && |home| <= ef && nb in home && nb !in st.visited
    ensures |st.results| < ef
  {
    ScoresOfSize(dist, st.visited);
    SubsetSize(st.visited + {nb}, home);
    SubsetSize(st.results, ScoresOf(dist, st.visited));
  }

  lemma ExpandSweeps(layer: Layer, st: Beam, dist: nat -> real, ef: nat, home: set<nat>, entry: nat)
    requires BeamOk(st, dist, ef, home) && Closed(layer, home) && st.candidates != {} && |home| <= ef
    requires Sweeping(layer, dist, entry, st)
    ensures Sweeping(layer, dist, entry, Expand(layer, st, dist, ef))
  {
    hide Nearest, Reachable;
    var best := First(LowFirst, st.candidates);
    var st' := Expand(layer, st, dist, ef);
    ExpandOk(layer, st, dist, ef, home);
    RelaxAllKeepsCandidates(st.(candidates := st.candidates - {best}), dist, ef, home, Links(layer, best.i));
    forall v | v in st'.visited
      ensures Reachable(layer, entry, v)
    {
      if v !in st.visited {
        ReachableStep(layer, entry, best.i, v);
      }
    }
  }

  lemma SweepNeverStops(st: Beam, dist: nat -> real, ef: nat, home: set<nat>, rule: StopRule, best: Scored)
    requires BeamOk(st, dist, ef, home) && |home| <= ef && best in st.candidates
    ensures !Stops(rule, st, ef, best)
    ensures st.results == ScoresOf(dist, st.visited)
  {
    ResultsAreAll(st, dist, ef, home);
  }

  lemma ResultsAreAll(st: Beam, dist: nat -> real, ef: nat, home: set<nat>)
    requires BeamOk(st, dist, ef, home) && |home| <= ef
    ensures st.results == ScoresOf(dist, st.visited)
  {
    if |st.results| == Cap(ef) {
      var all := ScoresOf(dist, st.visited);
      ScoresOfSize(dist, st.visited);
      SubsetSize(st.visited, home);
      NonEmptyResults(st.results);
      if x :| x in all && x !in st.results {
        SubsetSize(st.results + {x}, all);
      }
    }
  }

  lemma {:induction false} SweepEnds(layer: Layer, dist: nat -> real, ef: nat, home: set<nat>, st: Beam,
                                     rule: StopRule, entry: nat)
    requires BeamOk(st, dist, ef, home) && Closed(layer, home) && |home| <= ef && Sweeping(layer, dist, entry, st)
    ensures Sweeping(layer, dist, entry, Search(layer, dist, ef, home, st, rule))
    ensures Search(layer, dist, ef, home, st, rule).candidates == {}
    decreases home - st.visited, st.candidates
  {
    hide BeamOk, Expand, Stops, Sweeping;
    if st.candidates != {} {
      BeamHasResults(st, dist, ef, home);
      SweepNeverStops(st, dist, ef, home, rule, First(LowFirst, st.candidates));
      ExpandOk(layer, st, dist, ef, home);
      ExpandSweeps(layer, st, dist, ef, home, entry);
      SweepEnds(layer, dist, ef, home, Expand(layer, st, dist, ef), rule, entry);
    }
  }

  /** With `ef` at least the number of nodes that can be met, the result is exactly the scores of
      the nodes reachable from the entry. */
  lemma WideSearchReturnsReachable(layer: Layer, dist: nat -> real, ef: nat, home: set<nat>, entry: nat, rule: StopRule)
    requires entry in home && Closed(layer, home) && |home| <= ef
    ensures BeamOk(Start(dist, entry), dist, ef, home)
    ensures var end := Search(layer, dist, ef, home, Start(dist, entry), rule);
            && end.results == ScoresOf(dist, end.visited)
            && forall v :: v in end.visited <==> Reachable(layer, entry, v)
  {
    hide Search, BeamOk;
    var start := Start(dist, entry);
    StartOk(dist, ef, home, entry);
    ReachableStart(layer, entry);
    assert Sweeping(layer, dist, entry, start);
    SweepEnds(layer, dist, ef, home, start, rule, entry);
    SearchOk(layer, dist, ef, home, start, rule);
    var end := Search(layer, dist, ef, home, start, rule);
    ResultsAreAll(end, dist, ef, home);
    assert Closed(layer, end.visited);
    forall v | Reachable(layer, entry, v)
      ensures v in end.visited
    {
      var p :| IsPath(layer, p) && p[0] == entry && p[|p| - 1] == v;
      ClosedHoldsPath(layer, end.visited, p);
    }
  }

  /** The beam search of both sources, with their stop test as a parameter. */
  method SearchLayer(layer: Layer, dist: nat -> real, entry: nat, ef: nat, rule: StopRule, ghost home: set<nat>)
    returns (results: set<Scored>)
    requires entry in home && Closed(layer, home)
    ensures BeamOk(Start(dist, entry), dist, ef, home)
    ensures results == Search(layer, dist, ef, home, Start(dist, entry), rule).results
    ensures LocallyBest(layer, dist, entry, ef, results)
  {
    hide BeamOk, Search, Closed, RelaxAll, Relax, LocallyBest;
    SearchIsLocallyBest(layer, dist, ef, home, entry, rule);
    StartOk(dist, ef, home, entry);
    var visited, candidates := {entry}, {Scored(dist(entry), entry)};
    results := {Scored(dist(entry), entry)};
    ghost var st := Start(dist, entry);
    while candidates != {}
      invariant st == Beam(visited, candidates, results) && BeamOk(st, dist, ef, home)
      invariant Search(layer, dist, ef, home, Start(dist, entry), rule) == Search(layer, dist, ef, home, st, rule)
      decreases home - visited, candidates
    {
      BeamHasResults(st, dist, ef, home);
      ExpandOk(layer, st, dist, ef, home);
      SearchUnfolds(layer, dist, ef, home, st, rule);
      var best := PopFirst(candidates);
      var worst := PeekWorst(results);
      if best.d > worst.d && (rule == WhenWorse || |results| >= ef) {
        return;
      }
      candidates := candidates - {best};
      var links := Links(layer, best.i);
      ghost var popped := Beam(visited, candidates, results);
      assert RelaxAll(popped, dist, ef, links[..0]) == popped by { RelaxNone(popped, dist, ef); }
      assert links[..|links|] == links;
      for k := 0 to |links|
        invariant Beam(visited, candidates, results) == RelaxAll(popped, dist, ef, links[..k])
      {
        RelaxNext(popped, dist, ef, links, k);
        var nb := links[k];
        if nb in visited {
          continue;
        }
        visited := visited + {nb};
        var dn := dist(nb);
        var s := Scored(dn, nb);
        var keep := |results| < ef;
        if !keep && results != {} {
          worst := PeekWorst(results);
          keep := dn < worst.d;
        }
        if keep {
          candidates := candidates + {s};
          results := results + {s};
          if |results| > ef {
            worst := PeekWorst(results);
            results := results - {worst};
          }
        }
      }
      st := Expand(layer, st, dist, ef);
    }
    SearchUnfolds(layer, dist, ef, home, st, rule);
  }

  lemma RelaxNone(st: Beam, dist: nat -> real, ef: nat)
    ensures RelaxAll(st, dist, ef, []) == st
  {
  }

  lemma RelaxNext(st: Beam, dist: nat -> real, ef: nat, nbs: seq<nat>, k: nat)
    requires k < |nbs|
    ensures RelaxAll(st, dist, ef, nbs[..k + 1]) == Relax(RelaxAll(st, dist, ef, nbs[..k]), dist, ef, nbs[k])
    ensures var mid, s := RelaxAll(st, dist, ef, nbs[..k]), Scored(dist(nbs[k]), nbs[k]);
            Relax(mid, dist, ef, nbs[k]) ==
              if nbs[k] in mid.visited then mid
              else if |mid.results| < ef || (mid.results != {} && s.d < Worst(mid.results).d) then
                Beam(mid.visited + {nbs[k]}, mid.candidates + {s}, Trim(mid.results + {s}, ef))
              else Beam(mid.visited + {nbs[k]}, mid.candidates, mid.results)
  {
    assert nbs[..k + 1][..k] == nbs[..k];
  }

  lemma SearchUnfolds(layer: Layer, dist: nat -> real, ef: nat, home: set<nat>, st: Beam, rule: StopRule)
    requires BeamOk(st, dist, ef, home) && Closed(layer, home)
    ensures st.results != {}
    ensures st.candidates == {} || Stops(rule, st, ef, First(LowFirst, st.candidates)) ==>
              Search(layer, dist, ef, home, st, rule) == st
    ensures st.candidates != {} && !Stops(rule, st, ef, First(LowFirst, st.candidates)) ==>
              && BeamOk(Expand(layer, st, dist, ef), dist, ef, home)
              && Search(layer, dist, ef, home, st, rule) ==
                Search(layer, dist, ef, home, Expand(layer, st, dist, ef), rule)
  {
    if st.candidates != {} {
      ExpandOk(layer, st, dist, ef, home);
    }
  }
}
