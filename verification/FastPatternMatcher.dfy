/** The three cue scans over a tactic taxonomy: the automaton scan, the union
    prescreen and the naive per-cue substring scan they must agree with. */
module FastPatternMatcher {
  import opened Substrings
  import opened AhoCorasickAutomaton
  import opened Selection

  /** One taxonomy entry; a taxonomy is a dictionary in declaration order. */
  datatype Tactic = Tactic(id: string, cues: seq<string>)

  datatype TacticCue = TacticCue(tacticId: string, cue: string)

  type CueScan = map<string, seq<string>>

  predicate DistinctIds(taxonomy: seq<Tactic>) {
    forall i, j :: 0 <= i < j < |taxonomy| ==> taxonomy[i].id != taxonomy[j].id
  }

  predicate DuplicateFree(s: seq<string>) {
    forall i, j :: 0 <= i < j < |s| ==> s[i] != s[j]
  }

  predicate NoEmptyCue(taxonomy: seq<Tactic>) {
    forall t :: t in taxonomy ==> "" !in t.cues
  }

  // ------------------------------------------------------------ naive scan

  /** The cues that occur, in declaration order. */
  function Matched(cues: seq<string>, text: string): seq<string> {
    if cues == [] then []
    else (if Occurs(cues[0], text) then [cues[0]] else []) + Matched(cues[1..], text)
  }

  /** `at` lists, in order, exactly the positions of `cues` whose cue occurs, and `matched` the cues there. */
  ghost predicate ReadAt(cues: seq<string>, text: string, matched: seq<string>, at: seq<nat>) {
    && |at| == |matched| && Increasing(at)
    && (forall k :: 0 <= k < |at| ==> at[k] < |cues| && matched[k] == cues[at[k]])
    && forall i :: 0 <= i < |cues| ==> (i in at <==> Occurs(cues[i], text))
  }

  /** `matched` lists the declared cues that occur: each once for each time it is declared, in that order. */
  ghost predicate ListsOccurring(cues: seq<string>, text: string, matched: seq<string>) {
    exists at :: ReadAt(cues, text, matched, at)
  }

  lemma MatchedLists(cues: seq<string>, text: string)
    ensures ListsOccurring(cues, text, Matched(cues, text))
    ensures Matched(cues, text) != [] <==> exists c :: c in cues && Occurs(c, text)
  {
    var at := OccurringPositions(cues, text);
    hide Occurs, Matched;
    if at != [] {
      assert at[0] in at && cues[at[0]] in cues;
    }
    if c :| c in cues && Occurs(c, text) {
      var i :| 0 <= i < |cues| && cues[i] == c;
      assert i in at;
    }
  }

  lemma {:induction false} OccurringPositions(cues: seq<string>, text: string) returns (at: seq<nat>)
    ensures ReadAt(cues, text, Matched(cues, text), at)
  {
    at := [];
    if cues != [] {
      var (front, last) := (cues[..|cues| - 1], cues[|cues| - 1]);
      at := OccurringPositions(front, text);
      MatchedLast(cues, text);
      hide Occurs, Matched;
      if Occurs(last, text) {
        OneMorePosition(at, |front|);
        at := at + [|front|];
      }
    }
  }

  lemma {:induction false} MatchedLast(cues: seq<string>, text: string)
    requires cues != []
    ensures var (front, last) := (cues[..|cues| - 1], cues[|cues| - 1]);
            Matched(cues, text) == Matched(front, text) + if Occurs(last, text) then [last] else []
  {
    hide Occurs;
    var (front, tail) := (cues[..|cues| - 1], cues[1..]);
    if |cues| == 1 {
      assert front == [] && tail == [];
    } else {
      MatchedLast(tail, text);
      assert tail[..|tail| - 1] == front[1..] && tail[|tail| - 1] == cues[|cues| - 1] && front[0] == cues[0];
    }
  }

  /** The description leaves no choice: it has one solution. */
  lemma ListedOneWay(cues: seq<string>, text: string, a: seq<string>, b: seq<string>)
    requires ListsOccurring(cues, text, a) && ListsOccurring(cues, text, b)
    ensures a == b
  {
    hide Occurs;
    var p :| ReadAt(cues, text, a, p);
    var q :| ReadAt(cues, text, b, q);
    forall i: nat
      ensures i in p <==> i in q
    {
      assert i in p ==> i < |cues|;
      assert i in q ==> i < |cues|;
    }
    IncreasingUnique(p, q);
  }

  /** A cue is reported as often as it is declared. */
  lemma {:induction false} ReportedAsDeclared(cues: seq<string>, text: string, c: string)
    ensures multiset(Matched(cues, text))[c] == if Occurs(c, text) then multiset(cues)[c] else 0
  {
    hide Occurs;
    if cues != [] {
      ReportedAsDeclared(cues[1..], text, c);
      assert cues == [cues[0]] + cues[1..];
    }
  }

  /** What a scan of `text` reports: each tactic with an occurring cue, with its occurring cues. */
  ghost predicate ReportsScan(taxonomy: seq<Tactic>, text: string, byTactic: CueScan) {
    && (forall id :: id in byTactic ==> exists i :: 0 <= i < |taxonomy| && taxonomy[i].id == id)
    && forall i :: 0 <= i < |taxonomy| ==>
         var t := taxonomy[i];
         && (t.id in byTactic <==> exists c :: c in t.cues && Occurs(c, text))
         && (t.id in byTactic ==> ListsOccurring(t.cues, text, byTactic[t.id]))
  }

  lemma NaiveScanReports(taxonomy: seq<Tactic>, text: string)
    requires DistinctIds(taxonomy)
    ensures ReportsScan(taxonomy, text, NaiveScan(taxonomy, text))
  {
    ScanMapAt(taxonomy, cues => Matched(cues, text));
    hide ScanMap, Matched, Occurs, ListsOccurring;
    forall i | 0 <= i < |taxonomy|
      ensures ListsOccurring(taxonomy[i].cues, text, Matched(taxonomy[i].cues, text))
      ensures Matched(taxonomy[i].cues, text) != [] <==> exists c :: c in taxonomy[i].cues && Occurs(c, text)
    {
      MatchedLists(taxonomy[i].cues, text);
    }
  }

  /** The scan of a cue list from position `j` on. */
  lemma MatchedNext(cues: seq<string>, j: nat, text: string)
    requires j < |cues|
    ensures Matched(cues[j..], text) == (if Occurs(cues[j], text) then [cues[j]] else []) + Matched(cues[j + 1..], text)
  {
    hide Occurs;
    assert cues[j..][1..] == cues[j + 1..];
  }

  lemma MatchedWhole(cues: seq<string>, text: string)
    ensures Matched(cues[0..], text) == Matched(cues, text) && Matched(cues[|cues|..], text) == []
  {
    hide Occurs;
    assert cues[0..] == cues;
  }

  /** A scan result from one selection of cues per tactic: only tactics with a selected cue appear. */
  function ScanMap(taxonomy: seq<Tactic>, select: seq<string> -> seq<string>): CueScan {
    if taxonomy == [] then map[]
    else
      var t := taxonomy[|taxonomy| - 1];
      var rest := ScanMap(taxonomy[..|taxonomy| - 1], select);
      if select(t.cues) == [] then rest else rest[t.id := select(t.cues)]
  }

  /** The naive scan: each tactic with a match, with its matched cues. */
  function NaiveScan(taxonomy: seq<Tactic>, text: string): CueScan {
    ScanMap(taxonomy, cues => Matched(cues, text))
  }

  method NaiveCueScan(taxonomy: seq<Tactic>, text: string) returns (byTactic: CueScan)
    ensures byTactic == NaiveScan(taxonomy, text)
    ensures DistinctIds(taxonomy) ==> ReportsScan(taxonomy, text, byTactic)
  {
    hide ReportsScan;
    var select := cues => Matched(cues, text);
    byTactic := map[];
    for i := 0 to |taxonomy|
      invariant byTactic == ScanMap(taxonomy[..i], select)
    {
      var cues := taxonomy[i].cues;
      var matched := [];
      for j := 0 to |cues|
        invariant matched + Matched(cues[j..], text) == Matched(cues, text)
      {
        if Occurs(cues[j], text) {
          matched := matched + [cues[j]];
        }
      }
      assert matched == select(cues);
      assert taxonomy[..i + 1][..i] == taxonomy[..i];
      if matched != [] {
        byTactic := byTactic[taxonomy[i].id := matched];
      }
    }
    assert taxonomy[..|taxonomy|] == taxonomy;
    if DistinctIds(taxonomy) {
      NaiveScanReports(taxonomy, text);
    }
  }

  /** With distinct ids, a scan map holds at each tactic what was selected there, and nothing else. */
  lemma {:induction false} ScanMapAt(taxonomy: seq<Tactic>, select: seq<string> -> seq<string>)
    requires DistinctIds(taxonomy)
    ensures forall i :: 0 <= i < |taxonomy| ==>
              var t := taxonomy[i];
              (t.id in ScanMap(taxonomy, select) <==> select(t.cues) != [])
              && (t.id in ScanMap(taxonomy, select) ==> ScanMap(taxonomy, select)[t.id] == select(t.cues))
    ensures forall id :: id in ScanMap(taxonomy, select) ==> exists i :: 0 <= i < |taxonomy| && taxonomy[i].id == id
  {
    if taxonomy != [] {
      var n := |taxonomy| - 1;
      ScanMapAt(taxonomy[..n], select);
      assert forall i :: 0 <= i < n ==> taxonomy[..n][i] == taxonomy[i];
      assert taxonomy[n].id !in ScanMap(taxonomy[..n], select);
    }
  }

  // -------------------------------------------------------- automaton scan

  /** All (cue, (tactic, cue)) pairs of one tactic, then of the taxonomy. */
  function CuePairs(id: string, cues: seq<string>): seq<Entry<TacticCue>> {
    if cues == [] then []
    else CuePairs(id, cues[..|cues| - 1]) + [Entry(cues[|cues| - 1], TacticCue(id, cues[|cues| - 1]))]
  }

  function Pairs(taxonomy: seq<Tactic>): seq<Entry<TacticCue>> {
    if taxonomy == [] then []
    else Pairs(taxonomy[..|taxonomy| - 1]) + CuePairs(taxonomy[|taxonomy| - 1].id, taxonomy[|taxonomy| - 1].cues)
  }

  method BuildTaxonomyAutomaton(taxonomy: seq<Tactic>) returns (automaton: AhoCorasick<TacticCue>)
    ensures automaton.Built() && automaton.entries == Pairs(taxonomy)
  {
    var pairs := [];
    for i := 0 to |taxonomy|
      invariant pairs == Pairs(taxonomy[..i])
    {
      var id, cues := taxonomy[i].id, taxonomy[i].cues;
      for j := 0 to |cues|
        invariant pairs == Pairs(taxonomy[..i]) + CuePairs(id, cues[..j])
      {
        assert cues[..j + 1][..j] == cues[..j];
        pairs := pairs + [Entry(cues[j], TacticCue(id, cues[j]))];
      }
      assert cues[..|cues|] == cues;
      assert taxonomy[..i + 1][..i] == taxonomy[..i];
    }
    assert taxonomy[..|taxonomy|] == taxonomy;
    automaton := new AhoCorasick<TacticCue>(pairs);
  }

  lemma {:induction false} CuePairsMembers(id: string, cues: seq<string>, e: Entry<TacticCue>)
    ensures e in CuePairs(id, cues) <==> e.pattern in cues && e.payload == TacticCue(id, e.pattern)
  {
    if cues != [] {
      CuePairsMembers(id, cues[..|cues| - 1], e);
      assert cues == cues[..|cues| - 1] + [cues[|cues| - 1]];
    }
  }

  lemma {:induction false} PairsMembers(taxonomy: seq<Tactic>, e: Entry<TacticCue>)
    ensures e in Pairs(taxonomy) <==>
            exists i :: 0 <= i < |taxonomy| && e.pattern in taxonomy[i].cues
              && e.payload == TacticCue(taxonomy[i].id, e.pattern)
  {
    if taxonomy != [] {
      var n := |taxonomy| - 1;
      PairsMembers(taxonomy[..n], e);
      CuePairsMembers(taxonomy[n].id, taxonomy[n].cues, e);
      assert forall i :: 0 <= i < n ==> taxonomy[..n][i] == taxonomy[i];
    }
  }

  /** The index dictionary `{cue: i}`: a repeated cue keeps its last position. */
  function LastIndex(cues: seq<string>, cue: string): (i: int)
    ensures -1 <= i < |cues|
    ensures i >= 0 ==> cues[i] == cue
    ensures i < 0 <==> cue !in cues
  {
    if cues == [] then -1
    else if cues[|cues| - 1] == cue then |cues| - 1
    else LastIndex(cues[..|cues| - 1], cue)
  }

  predicate SortedByIndex(cues: seq<string>, s: seq<string>) {
    forall i, j :: 0 <= i < j < |s| ==> LastIndex(cues, s[i]) < LastIndex(cues, s[j])
  }

  /** The cues that occur, each once, at its last declared position. */
  function LastMatches(cues: seq<string>, text: string): seq<string> {
    if cues == [] then []
    else (if Occurs(cues[0], text) && cues[0] !in cues[1..] then [cues[0]] else []) + LastMatches(cues[1..], text)
  }

  lemma {:induction false} LastIndexInTail(cues: seq<string>, cue: string)
    requires cue in cues
    ensures cue in cues[1..] ==> LastIndex(cues, cue) == LastIndex(cues[1..], cue) + 1
    ensures cue !in cues[1..] ==> LastIndex(cues, cue) == 0
  {
    var front, last := cues[..|cues| - 1], cues[|cues| - 1];
    if |cues| > 1 {
      assert cues[1..][..|cues| - 2] == front[1..];
      assert cues[1..] == front[1..] + [last];
      if last != cue {
        assert cues == front + [last];
        LastIndexInTail(front, cue);
      }
    }
  }

  lemma {:induction false} LastMatchesSorted(cues: seq<string>, text: string)
    ensures SortedByIndex(cues, LastMatches(cues, text))
    ensures forall c :: c in LastMatches(cues, text) <==> c in cues && Occurs(c, text)
  {
    if cues != [] {
      var rest := LastMatches(cues[1..], text);
      LastMatchesSorted(cues[1..], text);
      assert cues == [cues[0]] + cues[1..];
      forall c | c in cues
        ensures c in cues[1..] ==> LastIndex(cues, c) == LastIndex(cues[1..], c) + 1
        ensures c !in cues[1..] ==> LastIndex(cues, c) == 0
      {
        LastIndexInTail(cues, c);
      }
      assert SortedByIndex(cues, rest);
    }
  }

  /** A strictly sorted list is determined by its members. */
  lemma {:induction false} SortedUnique(cues: seq<string>, s: seq<string>, t: seq<string>)
    requires SortedByIndex(cues, s) && SortedByIndex(cues, t)
    requires forall c :: c in s <==> c in t
    ensures s == t
  {
    assert t != [] ==> t[0] in t;
    if s != [] {
      assert s[0] in t && t != [] && t[0] in s;
      assert s[0] == t[0];
      assert s == [s[0]] + s[1..] && t == [t[0]] + t[1..];
      assert s[0] !in s[1..] && t[0] !in t[1..];
      assert forall c :: c in s <==> c == s[0] || c in s[1..];
      assert forall c :: c in t <==> c == t[0] || c in t[1..];
      SortedUnique(cues, s[1..], t[1..]);
    }
  }

  /** The automaton scan as a value: each tactic with a match, with its matched cues once each. */
  function AutomatonScan(taxonomy: seq<Tactic>, text: string): CueScan {
    ScanMap(taxonomy, cues => LastMatches(cues, text))
  }

  /** `cues.sort(key=...)` by declared position. */
  function Sort(cues: seq<string>, s: seq<string>): seq<string> {
    if s == [] then [] else Insert(cues, s[0], Sort(cues, s[1..]))
  }

  function Insert(cues: seq<string>, c: string, s: seq<string>): seq<string> {
    if s == [] || LastIndex(cues, c) < LastIndex(cues, s[0]) then [c] + s
    else [s[0]] + Insert(cues, c, s[1..])
  }

  lemma {:induction false} InsertSorted(cues: seq<string>, c: string, s: seq<string>)
    requires SortedByIndex(cues, s) && c in cues && c !in s && forall d :: d in s ==> d in cues
    ensures SortedByIndex(cues, Insert(cues, c, s))
    ensures forall d :: d in Insert(cues, c, s) <==> d in s || d == c
  {
    hide LastIndex;
    if s != [] && LastIndex(cues, c) >= LastIndex(cues, s[0]) {
      assert s == [s[0]] + s[1..];
      assert s[0] in cues;
      InsertSorted(cues, c, s[1..]);
      forall d | d in Insert(cues, c, s[1..])
        ensures LastIndex(cues, s[0]) < LastIndex(cues, d)
      {
        if d != c {
          var k :| 0 <= k < |s[1..]| && s[1..][k] == d;
          assert s[k + 1] == d;
        }
      }
    }
  }

  lemma {:induction false} SortSorted(cues: seq<string>, s: seq<string>)
    requires DuplicateFree(s) && forall d :: d in s ==> d in cues
    ensures SortedByIndex(cues, Sort(cues, s)) && forall d :: d in Sort(cues, s) <==> d in s
  {
    hide LastIndex, Insert;
    if s != [] {
      assert s == [s[0]] + s[1..];
      SortSorted(cues, s[1..]);
      InsertSorted(cues, s[0], Sort(cues, s[1..]));
    }
  }

  /** The per-tactic lists collected from the hits in `done`. */
  ghost predicate Grouped(done: set<TacticCue>, m: CueScan) {
    && (forall t :: t in m ==> m[t] != [] && DuplicateFree(m[t]))
    && (forall t, c :: TacticCue(t, c) in done <==> t in m && c in m[t])
  }

  lemma GroupOne(done: set<TacticCue>, m: CueScan, hit: TacticCue)
    requires Grouped(done, m) && hit !in done
    ensures Grouped(done + {hit}, m[hit.tacticId := (if hit.tacticId in m then m[hit.tacticId] else []) + [hit.cue]])
  {
    var list := if hit.tacticId in m then m[hit.tacticId] else [];
    assert hit == TacticCue(hit.tacticId, hit.cue);
    assert hit.cue !in list;
    forall c
      ensures c in list + [hit.cue] <==> c in list || c == hit.cue
    {
    }
  }

  /** The declared cues of the tactic called `id`. */
  function CuesOf(taxonomy: seq<Tactic>, id: string): seq<string> {
    if taxonomy == [] then []
    else if taxonomy[0].id == id then taxonomy[0].cues
    else CuesOf(taxonomy[1..], id)
  }

  lemma {:induction false} CuesOfAt(taxonomy: seq<Tactic>, i: nat)
    requires DistinctIds(taxonomy) && i < |taxonomy|
    ensures CuesOf(taxonomy, taxonomy[i].id) == taxonomy[i].cues
  {
    if i > 0 {
      assert taxonomy[0].id != taxonomy[i].id;
      CuesOfAt(taxonomy[1..], i - 1);
    }
  }

  /** A hit is exactly an occurring cue of some tactic. */
  lemma HitsOfPairs(taxonomy: seq<Tactic>, text: string, t: string, c: string)
    ensures TacticCue(t, c) in Hits(Pairs(taxonomy), text) <==>
            exists i :: 0 <= i < |taxonomy| && taxonomy[i].id == t && c in taxonomy[i].cues && Occurs(c, text)
  {
    var pairs, e := Pairs(taxonomy), Entry(c, TacticCue(t, c));
    PairsMembers(taxonomy, e);
    if TacticCue(t, c) in Hits(pairs, text) {
      var k :| 0 <= k < |pairs| && Occurs(pairs[k].pattern, text) && pairs[k].payload == TacticCue(t, c);
      PairsMembers(taxonomy, pairs[k]);
      assert pairs[k] == e;
    }
    if i :| 0 <= i < |taxonomy| && taxonomy[i].id == t && c in taxonomy[i].cues && Occurs(c, text) {
      assert e in pairs;
    }
  }

  lemma NoEmptyPair(taxonomy: seq<Tactic>)
    requires NoEmptyCue(taxonomy)
    ensures NoEmptyPattern(Pairs(taxonomy))
  {
    forall k | 0 <= k < |Pairs(taxonomy)|
      ensures Pairs(taxonomy)[k].pattern != ""
    {
      PairsMembers(taxonomy, Pairs(taxonomy)[k]);
    }
  }

  /** Grouping exactly the hits and sorting each group gives the automaton scan. */
  lemma GroupedHitsSorted(taxonomy: seq<Tactic>, text: string, grouped: CueScan, sorted: CueScan)
    requires DistinctIds(taxonomy) && Grouped(Hits(Pairs(taxonomy), text), grouped)
    requires sorted.Keys == grouped.Keys
    requires forall t :: t in grouped ==> sorted[t] == Sort(CuesOf(taxonomy, t), grouped[t])
    ensures sorted == AutomatonScan(taxonomy, text)
  {
    var select := cues => LastMatches(cues, text);
    ScanMapAt(taxonomy, select);
    forall i | 0 <= i < |taxonomy|
      ensures var t := taxonomy[i];
              (t.id in sorted <==> select(t.cues) != []) && (t.id in sorted ==> sorted[t.id] == select(t.cues))
    {
      GroupSorted(taxonomy, text, grouped, i);
    }
    forall t | t in grouped
      ensures exists i :: 0 <= i < |taxonomy| && taxonomy[i].id == t
    {
      HitsOfPairs(taxonomy, text, t, grouped[t][0]);
      assert grouped[t][0] in grouped[t];
    }
  }

  lemma GroupSorted(taxonomy: seq<Tactic>, text: string, grouped: CueScan, i: nat)
    requires DistinctIds(taxonomy) && Grouped(Hits(Pairs(taxonomy), text), grouped)
    requires i < |taxonomy|
    ensures var t := taxonomy[i];
            (t.id in grouped <==> LastMatches(t.cues, text) != [])
            && (t.id in grouped ==> Sort(CuesOf(taxonomy, t.id), grouped[t.id]) == LastMatches(t.cues, text))
  {
    hide Hits, Occurs, Sort, Pairs, LastMatches;
    var id, cues := taxonomy[i].id, taxonomy[i].cues;
    CuesOfAt(taxonomy, i);
    LastMatchesSorted(cues, text);
    var last := LastMatches(cues, text);
    assert last != [] ==> last[0] in last;
    forall c
      ensures TacticCue(id, c) in Hits(Pairs(taxonomy), text) <==> c in last
    {
      HitsOfPairs(taxonomy, text, id, c);
    }
    if id in grouped {
      assert grouped[id][0] in grouped[id];
      SortSorted(cues, grouped[id]);
      SortedUnique(cues, Sort(cues, grouped[id]), last);
    }
  }

  // ------------------------------------------------------------ equivalence

  lemma {:induction false} MatchedOfDuplicateFree(cues: seq<string>, text: string)
    requires DuplicateFree(cues)
    ensures Matched(cues, text) == LastMatches(cues, text)
  {
    if cues != [] {
      MatchedOfDuplicateFree(cues[1..], text);
    }
  }

  lemma {:induction false} MatchedKeepsOccurring(cues: seq<string>, text: string, c: string)
    requires c in cues && Occurs(c, text)
    ensures c in Matched(cues, text)
  {
    if cues[0] != c {
      assert cues == [cues[0]] + cues[1..];
      MatchedKeepsOccurring(cues[1..], text, c);
    }
  }

  /** The naive scan reports a cue at least as often as it is declared. */
  lemma {:induction false} MatchedKeepsDuplicates(cues: seq<string>, text: string, i: nat, j: nat)
    requires i < j < |cues| && cues[i] == cues[j] && Occurs(cues[i], text)
    ensures Repeats(Matched(cues, text), cues[i])
  {
    hide Occurs;
    var rest, cue := Matched(cues[1..], text), cues[i];
    var d := |Matched(cues, text)| - |rest|;
    assert forall k :: 0 <= k < |rest| ==> Matched(cues, text)[d + k] == rest[k];
    if i == 0 {
      assert cues[1..][j - 1] == cue;
      MatchedKeepsOccurring(cues[1..], text, cue);
      var k :| 0 <= k < |rest| && rest[k] == cue;
      assert Matched(cues, text)[0] == Matched(cues, text)[d + k] == cue;
    } else {
      MatchedKeepsDuplicates(cues[1..], text, i - 1, j - 1);
      var a, b :| 0 <= a < b < |rest| && rest[a] == rest[b] == cue;
      assert Matched(cues, text)[d + a] == Matched(cues, text)[d + b] == cue;
    }
  }

  /** `cue` stands in `s` twice. */
  ghost predicate Repeats(s: seq<string>, cue: string) {
    exists a, b :: 0 <= a < b < |s| && s[a] == s[b] == cue
  }

  lemma OccursInItself(c: string)
    ensures Occurs(c, c)
  {
    assert OccursAt(c, c, 0);
  }

  /** The equivalence guarantee: the automaton scan and the naive scan agree on every text
      exactly when no tactic declares the same cue twice. */
  lemma AutomatonScanIsNaiveScan(taxonomy: seq<Tactic>)
    requires DistinctIds(taxonomy)
    ensures (forall text :: AutomatonScan(taxonomy, text) == NaiveScan(taxonomy, text))
            <==> (forall t :: t in taxonomy ==> DuplicateFree(t.cues))
  {
    if forall t :: t in taxonomy ==> DuplicateFree(t.cues) {
      forall text
        ensures AutomatonScan(taxonomy, text) == NaiveScan(taxonomy, text)
      {
        ScansAgree(taxonomy, text);
      }
    } else {
      var n :| 0 <= n < |taxonomy| && !DuplicateFree(taxonomy[n].cues);
      ScansDisagree(taxonomy, n);
    }
  }

  lemma ScansAgree(taxonomy: seq<Tactic>, text: string)
    requires DistinctIds(taxonomy) && forall t :: t in taxonomy ==> DuplicateFree(t.cues)
    ensures AutomatonScan(taxonomy, text) == NaiveScan(taxonomy, text)
  {
    var last, matched := cues => LastMatches(cues, text), cues => Matched(cues, text);
    ScanMapAt(taxonomy, last);
    ScanMapAt(taxonomy, matched);
    forall i | 0 <= i < |taxonomy|
      ensures last(taxonomy[i].cues) == matched(taxonomy[i].cues)
    {
      MatchedOfDuplicateFree(taxonomy[i].cues, text);
    }
  }

  lemma ScansDisagree(taxonomy: seq<Tactic>, n: nat)
    requires DistinctIds(taxonomy) && n < |taxonomy| && !DuplicateFree(taxonomy[n].cues)
    ensures exists text :: AutomatonScan(taxonomy, text) != NaiveScan(taxonomy, text)
  {
    var cues := taxonomy[n].cues;
    var i, j :| 0 <= i < j < |cues| && cues[i] == cues[j];
    var text := cues[i];
    OccursInItself(text);
    MatchedKeepsDuplicates(cues, text, i, j);
    LastMatchesSorted(cues, text);
    var last, matched := cs => LastMatches(cs, text), cs => Matched(cs, text);
    ScanMapAt(taxonomy, last);
    ScanMapAt(taxonomy, matched);
    assert taxonomy[n].id in NaiveScan(taxonomy, text);
    assert last(cues) != matched(cues);
    assert AutomatonScan(taxonomy, text) != NaiveScan(taxonomy, text);
  }

  /** An empty cue also breaks the agreement: the naive scan finds it in the empty text,
      where the automaton takes no step. */
  lemma EmptyCueFoundNaively(taxonomy: seq<Tactic>)
    requires DistinctIds(taxonomy) && !NoEmptyCue(taxonomy)
    ensures NaiveScan(taxonomy, "") != map[]
  {
    var i :| 0 <= i < |taxonomy| && "" in taxonomy[i].cues;
    OccursInItself("");
    MatchedKeepsOccurring(taxonomy[i].cues, "", "");
    ScanMapAt(taxonomy, cues => Matched(cues, ""));
    assert taxonomy[i].id in NaiveScan(taxonomy, "");
  }

  /** A cue declared twice is reported twice by the naive scan of a text it occurs in, and once by the automaton. */
  lemma RepeatedCueReportedTwice(cues: seq<string>, i: nat, j: nat, text: string)
    requires i < j < |cues| && cues[i] == cues[j] && Occurs(cues[i], text)
    ensures Repeats(Matched(cues, text), cues[i])
    ensures cues[i] in LastMatches(cues, text) && !Repeats(LastMatches(cues, text), cues[i])
  {
    MatchedKeepsDuplicates(cues, text, i, j);
    LastMatchesSorted(cues, text);
    hide Occurs, LastMatches;
  }

  /** The declared cues of payment_channel_funneling. */
  const PAYMENT_CUES := [
    "gift card", "wire transfer", "wire money", "wire the money", "crypto", "bitcoin", "only accept",
    "buy a gift card", "send the code", "usdt", "wire the money", "western union", "money order", "only way to pay",
    "upi", "upi pin", "enter your upi pin", "upi id", "google pay", "phonepe", "paytm", "gpay",
    "collect request", "scan the qr", "scan this qr", "scan to pay", "qr code",
    "registration fee", "processing fee", "advance fee", "security deposit"]

  /** As shipped, the two scans differ on every text that says "wire the money". */
  lemma ShippedTaxonomyDisagrees(taxonomy: seq<Tactic>, id: string, text: string)
    requires DistinctIds(taxonomy) && Tactic(id, PAYMENT_CUES) in taxonomy && Occurs("wire the money", text)
    ensures AutomatonScan(taxonomy, text) != NaiveScan(taxonomy, text)
  {
    var n :| 0 <= n < |taxonomy| && taxonomy[n] == Tactic(id, PAYMENT_CUES);
    RepeatedCueReportedTwice(PAYMENT_CUES, 3, 10, text);
    ScanMapAt(taxonomy, cs => LastMatches(cs, text));
    ScanMapAt(taxonomy, cs => Matched(cs, text));
    hide Occurs, LastMatches, Matched;
    assert taxonomy[n].id in NaiveScan(taxonomy, text);
  }

  /** The single-pass scan: with no empty cue it equals `AutomatonScan`, and with no repeated
      cue either it equals the naive scan; an empty cue makes it miss the empty text. */
  method ScanCuesAhoCorasick(taxonomy: seq<Tactic>, automaton: AhoCorasick<TacticCue>, text: string)
    returns (byTactic: CueScan)
    requires DistinctIds(taxonomy)
    requires automaton.Built() && automaton.entries == Pairs(taxonomy)
    ensures NoEmptyCue(taxonomy) ==> byTactic == AutomatonScan(taxonomy, text)
    ensures NoEmptyCue(taxonomy) && (forall t :: t in taxonomy ==> DuplicateFree(t.cues)) ==>
              byTactic == NaiveScan(taxonomy, text)
    ensures !NoEmptyCue(taxonomy) && text == "" ==> byTactic != NaiveScan(taxonomy, text)
  {
    hide AhoCorasick.Built, Pairs, Hits, NonEmptyHits, LastIndex, AutomatonScan, NaiveScan;
    var hits := automaton.FindAll(text);
    byTactic := map[];
    var todo := hits;
    while todo != {}
      invariant todo <= hits && Grouped(hits - todo, byTactic)
      invariant hits == {} ==> byTactic == map[]
    {
      var hit :| hit in todo;
      GroupOne(hits - todo, byTactic, hit);
      byTactic := byTactic[hit.tacticId :=
                           (if hit.tacticId in byTactic then byTactic[hit.tacticId] else []) + [hit.cue]];
      assert hits - (todo - {hit}) == hits - todo + {hit};
      todo := todo - {hit};
    }
    assert hits - {} == hits;
    ghost var grouped := byTactic;
    var ids := byTactic.Keys;
    while ids != {}
      invariant ids <= byTactic.Keys == grouped.Keys
      invariant hits == {} ==> byTactic == map[]
      invariant forall t :: t in grouped ==>
                  byTactic[t] == if t in ids then grouped[t] else Sort(CuesOf(taxonomy, t), grouped[t])
    {
      var id :| id in ids;
      byTactic := byTactic[id := Sort(CuesOf(taxonomy, id), byTactic[id])];
      ids := ids - {id};
    }
    if NoEmptyCue(taxonomy) {
      NoEmptyPair(taxonomy);
      HitsMeet(Pairs(taxonomy));
      GroupedHitsSorted(taxonomy, text, grouped, byTactic);
      if forall t :: t in taxonomy ==> DuplicateFree(t.cues) {
        ScansAgree(taxonomy, text);
      }
    } else {
      EmptyCueFoundNaively(taxonomy);
    }
  }

  // -------------------------------------------------------------- prescreen

  /** The union expression `cue1|cue2|...` finds a match; with no cues it is the empty
      expression, which matches everywhere. */
  predicate UnionFound(taxonomy: seq<Tactic>, text: string) {
    || (forall t :: t in taxonomy ==> t.cues == [])
    || (exists t :: t in taxonomy && exists c :: c in t.cues && Occurs(c, text))
  }

  lemma {:induction false} MatchedAreOccurring(cues: seq<string>, text: string)
    ensures forall c :: c in Matched(cues, text) ==> c in cues && Occurs(c, text)
  {
    if cues != [] {
      MatchedAreOccurring(cues[1..], text);
    }
  }

  lemma {:induction false} NothingFound(taxonomy: seq<Tactic>, text: string)
    requires forall t, c :: t in taxonomy && c in t.cues ==> !Occurs(c, text)
    ensures NaiveScan(taxonomy, text) == map[]
  {
    if taxonomy != [] {
      var t := taxonomy[|taxonomy| - 1];
      assert Matched(t.cues, text) == [] || Matched(t.cues, text)[0] in Matched(t.cues, text);
      MatchedAreOccurring(t.cues, text);
      NothingFound(taxonomy[..|taxonomy| - 1], text);
    }
  }

  /** Skipping the scan when the union finds nothing loses no match. */
  method ScanCuesRegexPrescreen(taxonomy: seq<Tactic>, text: string) returns (byTactic: CueScan)
    ensures byTactic == NaiveScan(taxonomy, text)
    ensures DistinctIds(taxonomy) ==> ReportsScan(taxonomy, text, byTactic)
  {
    hide ReportsScan;
    if DistinctIds(taxonomy) {
      NaiveScanReports(taxonomy, text);
    }
    if !UnionFound(taxonomy, text) {
      NothingFound(taxonomy, text);
      byTactic := map[];
    } else {
      byTactic := NaiveCueScan(taxonomy, text);
    }
  }
}
