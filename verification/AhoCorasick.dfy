/** Substrings and suffixes of a text, as the cue matcher uses them. */
module Substrings {

  predicate OccursAt(pattern: string, text: string, k: int) {
    0 <= k <= |text| - |pattern| && text[k..k + |pattern|] == pattern
  }

  /** Python's `pattern in text`. */
  predicate Occurs(pattern: string, text: string) {
    exists k | 0 <= k <= |text| :: OccursAt(pattern, text, k)
  }

  predicate IsSuffix(s: string, t: string) {
    |s| <= |t| && t[|t| - |s|..] == s
  }

  function Snoc(s: string, c: char): string {
    s + [c]
  }

  lemma SnocInjective(s: string, c: char, t: string, d: char)
    requires Snoc(s, c) == Snoc(t, d)
    ensures s == t && c == d
  {
    assert Snoc(s, c)[|s|] == c && Snoc(t, d)[|t|] == d;
    assert Snoc(s, c)[..|s|] == s && Snoc(t, d)[..|t|] == t;
  }

  /** All prefixes of `t`, the empty one and `t` included. */
  ghost function Prefixes(t: string): (ps: set<string>)
    ensures t in ps
  {
    if t == "" then {""} else Prefixes(t[..|t| - 1]) + {t}
  }

  lemma EmptyPrefix()
    ensures Prefixes("") == {""}
  {
  }

  lemma PrefixesOfSnoc(s: string, c: char)
    ensures Prefixes(Snoc(s, c)) == Prefixes(s) + {Snoc(s, c)}
  {
    assert Snoc(s, c)[..|s|] == s;
  }

  lemma SuffixOfSuffix(s: string, t: string, w: string)
    requires IsSuffix(s, w) && IsSuffix(t, w) && |s| <= |t|
    ensures IsSuffix(s, t)
  {
    assert t[|t| - |s|..] == w[|w| - |t|..][|t| - |s|..];
  }

  lemma SuffixTrans(s: string, t: string, w: string)
    requires IsSuffix(s, t) && IsSuffix(t, w)
    ensures IsSuffix(s, w)
  {
    assert w[|w| - |s|..] == w[|w| - |t|..][|t| - |s|..];
  }

  /** Appending the same character preserves and reflects the suffix relation. */
  lemma SuffixSnoc(s: string, t: string, c: char)
    ensures IsSuffix(Snoc(s, c), Snoc(t, c)) <==> IsSuffix(s, t)
  {
    if |s| <= |t| {
      assert Snoc(t, c)[|t| - |s|..] == Snoc(t[|t| - |s|..], c);
      assert Snoc(t[|t| - |s|..], c)[..|s|] == t[|t| - |s|..];
      assert Snoc(s, c)[..|s|] == s;
    }
  }

  /** A non-empty suffix of `t + [c]` is some suffix of `t` followed by `c`. */
  lemma SuffixUnsnoc(s: string, t: string, c: char)
    requires s != "" && IsSuffix(s, Snoc(t, c))
    ensures s == Snoc(s[..|s| - 1], c) && IsSuffix(s[..|s| - 1], t)
  {
    assert s[|s| - 1] == Snoc(t, c)[|t| + 1 - |s|..][|s| - 1] == c;
    assert s == Snoc(s[..|s| - 1], c);
    SuffixSnoc(s[..|s| - 1], t, c);
  }

  lemma OccursSnocForth(pattern: string, t: string, c: char)
    requires Occurs(pattern, Snoc(t, c))
    ensures Occurs(pattern, t) || IsSuffix(pattern, Snoc(t, c))
  {
    var k :| 0 <= k <= |t| + 1 && OccursAt(pattern, Snoc(t, c), k);
    if k + |pattern| <= |t| {
      assert t[k..k + |pattern|] == Snoc(t, c)[k..k + |pattern|];
      assert OccursAt(pattern, t, k);
    } else {
      assert Snoc(t, c)[k..] == Snoc(t, c)[k..k + |pattern|];
    }
  }

  lemma OccursSnocBack(pattern: string, t: string, c: char)
    requires Occurs(pattern, t) || IsSuffix(pattern, Snoc(t, c))
    ensures Occurs(pattern, Snoc(t, c))
  {
    if k :| 0 <= k <= |t| && OccursAt(pattern, t, k) {
      assert t[k..k + |pattern|] == Snoc(t, c)[k..k + |pattern|];
      assert OccursAt(pattern, Snoc(t, c), k);
    } else {
      var k := |t| + 1 - |pattern|;
      assert Snoc(t, c)[k..] == Snoc(t, c)[k..k + |pattern|];
      assert OccursAt(pattern, Snoc(t, c), k);
    }
  }

  /** Reading one more character adds exactly the occurrences that end there. */
  lemma OccursSnoc(pattern: string, t: string, c: char)
    ensures Occurs(pattern, Snoc(t, c)) <==> Occurs(pattern, t) || IsSuffix(pattern, Snoc(t, c))
  {
    hide *;
    if Occurs(pattern, Snoc(t, c)) {
      OccursSnocForth(pattern, t, c);
    }
    if Occurs(pattern, t) || IsSuffix(pattern, Snoc(t, c)) {
      OccursSnocBack(pattern, t, c);
    }
  }
}

/** The Aho-Corasick automaton: trie insertion, breadth-first failure links with
    output merging, and the single-pass scan. */
module AhoCorasickAutomaton {
  import opened Substrings

  datatype Entry<P> = Entry(pattern: string, payload: P)

  /** What a per-pattern substring loop over all entries would report. */
  ghost function Hits<P>(entries: seq<Entry<P>>, text: string): set<P> {
    set i | 0 <= i < |entries| && Occurs(entries[i].pattern, text) :: entries[i].payload
  }

  ghost function NonEmptyHits<P>(entries: seq<Entry<P>>, text: string): set<P> {
    set i | 0 <= i < |entries| && entries[i].pattern != "" && Occurs(entries[i].pattern, text) :: entries[i].payload
  }

  ghost predicate NoEmptyPattern<P>(entries: seq<Entry<P>>) {
    forall i :: 0 <= i < |entries| ==> entries[i].pattern != ""
  }

  /** The two bounds of the scan meet exactly when no pattern is empty: with an empty
      pattern the scan of the empty text already misses a hit. */
  lemma HitsMeet<P(!new)>(entries: seq<Entry<P>>)
    ensures NoEmptyPattern(entries) ==> forall text :: NonEmptyHits(entries, text) == Hits(entries, text)
    ensures !NoEmptyPattern(entries) ==> Hits(entries, "") != {}
  {
    if i :| 0 <= i < |entries| && entries[i].pattern == "" {
      assert OccursAt("", "", 0);
      assert entries[i].payload in Hits(entries, "");
    }
  }

  // ------------------------------------------------------------------ trie

  /** `words[v]` is the string state `v` spells; `index` is the inverse. Edges are
      exactly the one-character extensions, and the set of words is prefix-closed. */
  ghost predicate IsTrie(goto: seq<map<char, nat>>, words: seq<string>, index: map<string, nat>) {
    && |goto| == |words| > 0
    && words[0] == ""
    && (forall v :: 0 <= v < |words| ==> words[v] in index && index[words[v]] == v)
    && (forall s :: s in index ==> index[s] < |words| && words[index[s]] == s)
    && (forall u, c :: 0 <= u < |goto| ==> (c in goto[u] <==> Snoc(words[u], c) in index))
    && (forall u, c :: 0 <= u < |goto| && c in goto[u] ==> goto[u][c] == index[Snoc(words[u], c)])
    && (forall s, c :: Snoc(s, c) in index ==> s in index)
  }

  lemma TrieEdge(goto: seq<map<char, nat>>, words: seq<string>, index: map<string, nat>, u: nat, c: char)
    requires IsTrie(goto, words, index) && u < |words|
    ensures |goto| == |words|
    ensures c in goto[u] <==> Snoc(words[u], c) in index
    ensures c in goto[u] ==> goto[u][c] < |words| && words[goto[u][c]] == Snoc(words[u], c)
  {
  }

  lemma RootIsEmpty(goto: seq<map<char, nat>>, words: seq<string>, index: map<string, nat>)
    requires IsTrie(goto, words, index)
    ensures |goto| == |words| > 0 && words[0] == ""
  {
  }

  lemma EmptyTrie<P>()
    ensures IsTrie([map[]], [""], map["" := 0])
    ensures (map["" := 0]).Keys == TrieWords<P>([])
    ensures OwnOutputs<P>([], [""], [[]])
  {
  }

  /** Hanging a fresh state off `node` under `ch` keeps the trie a trie. */
  lemma ExtendTrie(goto: seq<map<char, nat>>, words: seq<string>, index: map<string, nat>, node: nat, ch: char)
    requires IsTrie(goto, words, index) && node < |words| && ch !in goto[node]
    ensures IsTrie((goto + [map[]])[node := goto[node][ch := |goto|]],
                   words + [Snoc(words[node], ch)], index[Snoc(words[node], ch) := |goto|])
  {
    var w, n := Snoc(words[node], ch), |goto|;
    forall s, c, t, d | Snoc(s, c) == Snoc(t, d)
      ensures s == t && c == d
    {
      SnocInjective(s, c, t, d);
    }
  }

  /** The words of the trie holding these entries: all prefixes of their patterns. */
  ghost function TrieWords<P>(entries: seq<Entry<P>>): (ws: set<string>)
    ensures "" in ws
    ensures forall i :: 0 <= i < |entries| ==> entries[i].pattern in ws
  {
    if entries == [] then {""}
    else TrieWords(entries[..|entries| - 1]) + Prefixes(entries[|entries| - 1].pattern)
  }

  lemma {:induction false} PrefixesAreTakes(t: string, s: string)
    ensures s in Prefixes(t) <==> s <= t
  {
    if t != "" {
      PrefixesAreTakes(t[..|t| - 1], s);
      if s <= t && s != t {
        assert t[..|t| - 1][..|s|] == t[..|s|];
      }
    }
  }

  /** The words of the trie are the prefixes of its patterns. */
  lemma {:induction false} TrieWordsArePrefixes<P>(entries: seq<Entry<P>>, s: string)
    ensures s in TrieWords(entries) <==> s == "" || exists i :: 0 <= i < |entries| && s <= entries[i].pattern
  {
    if entries != [] {
      var n := |entries| - 1;
      TrieWordsArePrefixes(entries[..n], s);
      PrefixesAreTakes(entries[n].pattern, s);
      assert forall i :: 0 <= i < n ==> entries[..n][i] == entries[i];
    }
  }

  lemma TrieWordsSnoc<P>(entries: seq<Entry<P>>, e: Entry<P>)
    ensures TrieWords(entries + [e]) == TrieWords(entries) + Prefixes(e.pattern)
  {
    assert (entries + [e])[..|entries|] == entries;
  }

  ghost function StatesBelow(n: nat): (vs: set<nat>)
    ensures forall v: nat :: v in vs <==> v < n
  {
    if n == 0 then {} else StatesBelow(n - 1) + {n - 1}
  }

  /** The payloads attached to one word, in insertion order. */
  ghost function Payloads<P>(entries: seq<Entry<P>>, word: string): seq<P> {
    if entries == [] then []
    else
      var last := entries[|entries| - 1];
      Payloads(entries[..|entries| - 1], word) + (if last.pattern == word then [last.payload] else [])
  }

  lemma {:induction false} PayloadsMembers<P>(entries: seq<Entry<P>>, word: string, p: P)
    ensures p in Payloads(entries, word) <==>
            exists i :: 0 <= i < |entries| && entries[i].pattern == word && entries[i].payload == p
  {
    if entries != [] {
      var n := |entries| - 1;
      PayloadsMembers(entries[..n], word, p);
      assert forall i :: 0 <= i < n ==> entries[..n][i] == entries[i];
    }
  }

  lemma {:induction false} NoPayloadOutside<P>(entries: seq<Entry<P>>, w: string)
    requires w !in TrieWords(entries)
    ensures Payloads(entries, w) == []
  {
    if entries != [] {
      NoPayloadOutside(entries[..|entries| - 1], w);
    }
  }

  /** Before linking, each state outputs the payloads of its own word. */
  ghost predicate OwnOutputs<P>(entries: seq<Entry<P>>, words: seq<string>, out: seq<seq<P>>) {
    |out| == |words| && forall v :: 0 <= v < |words| ==> out[v] == Payloads(entries, words[v])
  }

  lemma OwnOutputsFreshState<P>(entries: seq<Entry<P>>, words: seq<string>, out: seq<seq<P>>, w: string)
    requires OwnOutputs(entries, words, out) && w !in TrieWords(entries)
    ensures OwnOutputs(entries, words + [w], out + [[]])
  {
    NoPayloadOutside(entries, w);
  }

  lemma OwnOutputsNewEntry<P>(entries: seq<Entry<P>>, words: seq<string>, index: map<string, nat>,
                              goto: seq<map<char, nat>>, out: seq<seq<P>>, node: nat, payload: P)
    requires IsTrie(goto, words, index) && OwnOutputs(entries, words, out) && node < |words|
    ensures |out| == |words|
    ensures OwnOutputs(entries + [Entry(words[node], payload)], words, out[node := out[node] + [payload]])
  {
    assert (entries + [Entry(words[node], payload)])[..|entries|] == entries;
  }

  // ------------------------------------------------------- suffixes in the trie

  /** `s` is the longest suffix of `w` among the words, of length at most `max`. */
  ghost predicate IsLongestSuffix(index: map<string, nat>, w: string, max: int, s: string) {
    && s in index && |s| <= max && IsSuffix(s, w)
    && forall t :: t in index && |t| <= max && IsSuffix(t, w) ==> |t| <= |s|
  }

  /** The invariant of a failure walk looking for an extension by `ch`: no extensible
      suffix longer than `t` has been skipped. */
  ghost predicate Walking(index: map<string, nat>, w: string, max: int, ch: char, t: string) {
    && t in index && |t| <= max && IsSuffix(t, w)
    && forall s :: Snoc(s, ch) in index && |s| <= max && IsSuffix(s, w) ==> |s| <= |t|
  }

  lemma WalkStart(goto: seq<map<char, nat>>, words: seq<string>, index: map<string, nat>,
                  w: string, max: int, ch: char, t: string)
    requires IsTrie(goto, words, index) && IsLongestSuffix(index, w, max, t)
    ensures Walking(index, w, max, ch, t)
  {
  }

  lemma WalkStep(goto: seq<map<char, nat>>, words: seq<string>, index: map<string, nat>,
                 w: string, max: int, ch: char, t: string, t': string)
    requires IsTrie(goto, words, index) && Walking(index, w, max, ch, t) && Snoc(t, ch) !in index
    requires IsLongestSuffix(index, t, |t| - 1, t')
    ensures Walking(index, w, max, ch, t')
  {
    SuffixTrans(t', t, w);
    forall s | Snoc(s, ch) in index && |s| <= max && IsSuffix(s, w)
      ensures |s| <= |t'|
    {
      SuffixOfSuffix(s, t, w);
      assert |s| == |t| ==> s == t;
    }
  }

  /** The walk ends in the longest suffix of `w + [ch]`: either the extension of where it
      stopped, or the root. */
  lemma WalkEnd(index: map<string, nat>, w: string, max: int, ch: char, t: string)
    requires "" in index && Walking(index, w, max, ch, t) && max >= 0
    ensures Snoc(t, ch) in index ==> IsLongestSuffix(index, Snoc(w, ch), max + 1, Snoc(t, ch))
    ensures t == "" && Snoc(t, ch) !in index ==> IsLongestSuffix(index, Snoc(w, ch), max + 1, "")
  {
    SuffixSnoc(t, w, ch);
    forall s | s in index && s != "" && |s| <= max + 1 && IsSuffix(s, Snoc(w, ch))
      ensures Snoc(s[..|s| - 1], ch) in index && |s| <= |t| + 1
    {
      SuffixUnsnoc(s, w, ch);
    }
  }

  /** Every output at `w` comes from a suffix of `w`, and every non-empty suffix of `w`
      that is a pattern is output. */
  ghost predicate OutputsSuffixes<P(!new)>(entries: seq<Entry<P>>, w: string, outputs: seq<P>) {
    && (forall p :: p in outputs ==>
          exists i :: 0 <= i < |entries| && entries[i].payload == p && IsSuffix(entries[i].pattern, w))
    && (forall i :: 0 <= i < |entries| && entries[i].pattern != "" && IsSuffix(entries[i].pattern, w) ==>
          entries[i].payload in outputs)
  }

  /** Own payloads plus those of the longest proper suffix state are the payloads of all suffixes. */
  lemma MergeOutputs<P(!new)>(entries: seq<Entry<P>>, index: map<string, nat>, w: string, s: string, outputs: seq<P>)
    requires index.Keys == TrieWords(entries)
    requires IsLongestSuffix(index, w, |w| - 1, s) && OutputsSuffixes(entries, s, outputs)
    ensures OutputsSuffixes(entries, w, Payloads(entries, w) + outputs)
  {
    var merged := Payloads(entries, w) + outputs;
    forall p | p in merged
      ensures exists i :: 0 <= i < |entries| && entries[i].payload == p && IsSuffix(entries[i].pattern, w)
    {
      if p in outputs {
        var i :| 0 <= i < |entries| && entries[i].payload == p && IsSuffix(entries[i].pattern, s);
        SuffixTrans(entries[i].pattern, s, w);
      } else {
        PayloadsMembers(entries, w, p);
        var i :| 0 <= i < |entries| && entries[i].pattern == w && entries[i].payload == p;
        assert IsSuffix(entries[i].pattern, w);
      }
    }
    forall i | 0 <= i < |entries| && entries[i].pattern != "" && IsSuffix(entries[i].pattern, w)
      ensures entries[i].payload in merged
    {
      if entries[i].pattern == w {
        PayloadsMembers(entries, w, entries[i].payload);
      } else {
        SuffixOfSuffix(entries[i].pattern, s, w);
      }
    }
  }

  /** States one edge below the root keep their own payloads. */
  lemma OwnOutputsSuffice<P(!new)>(entries: seq<Entry<P>>, w: string)
    requires |w| <= 1
    ensures OutputsSuffixes(entries, w, Payloads(entries, w))
  {
    forall p | p in Payloads(entries, w)
      ensures exists i :: 0 <= i < |entries| && entries[i].payload == p && IsSuffix(entries[i].pattern, w)
    {
      PayloadsMembers(entries, w, p);
      var i :| 0 <= i < |entries| && entries[i].pattern == w && entries[i].payload == p;
      assert IsSuffix(entries[i].pattern, w);
    }
    forall i | 0 <= i < |entries| && entries[i].pattern != "" && IsSuffix(entries[i].pattern, w)
      ensures entries[i].payload in Payloads(entries, w)
    {
      PayloadsMembers(entries, w, entries[i].payload);
    }
  }

  /** One scanning step: collecting the outputs of the longest suffix state keeps the
      collected set between the two bounds. */
  lemma ScanStep<P(!new)>(entries: seq<Entry<P>>, index: map<string, nat>, t: string, c: char, w: string,
                          outputs: seq<P>, found: set<P>)
    requires index.Keys == TrieWords(entries)
    requires IsLongestSuffix(index, Snoc(t, c), |t| + 1, w) && OutputsSuffixes(entries, w, outputs)
    requires NonEmptyHits(entries, t) <= found <= Hits(entries, t)
    ensures NonEmptyHits(entries, Snoc(t, c)) <= found + (set p | p in outputs) <= Hits(entries, Snoc(t, c))
  {
    var found' := found + (set p | p in outputs);
    forall p | p in found'
      ensures p in Hits(entries, Snoc(t, c))
    {
      if p in found {
        var i :| 0 <= i < |entries| && Occurs(entries[i].pattern, t) && entries[i].payload == p;
        OccursSnoc(entries[i].pattern, t, c);
      } else {
        var i :| 0 <= i < |entries| && entries[i].payload == p && IsSuffix(entries[i].pattern, w);
        SuffixTrans(entries[i].pattern, w, Snoc(t, c));
        OccursSnoc(entries[i].pattern, t, c);
      }
    }
    forall p | p in NonEmptyHits(entries, Snoc(t, c))
      ensures p in found'
    {
      var i :| 0 <= i < |entries| && entries[i].pattern != "" && Occurs(entries[i].pattern, Snoc(t, c))
               && entries[i].payload == p;
      OccursSnoc(entries[i].pattern, t, c);
      if IsSuffix(entries[i].pattern, Snoc(t, c)) {
        SuffixOfSuffix(entries[i].pattern, w, Snoc(t, c));
      } else {
        assert p in NonEmptyHits(entries, t);
      }
    }
  }

  // --------------------------------------------------- breadth-first linking

  /** The queue discipline of the linking pass. `done` are the states whose link is set;
      `popped` are those taken off the queue, all fully expanded but `node`, whose edges
      in `todo` are still to be followed. */
  ghost predicate Bfs(goto: seq<map<char, nat>>, words: seq<string>, queue: seq<nat>, done: set<nat>,
                      popped: set<nat>, node: nat, todo: set<char>)
    requires |goto| == |words|
  {
    QueueOk(words, queue, done, popped, node) && ExpandedEdges(goto, done, popped, node, todo)
  }

  /** The queue holds the discovered states not yet expanded, by depth, within one level of `node`. */
  ghost predicate QueueOk(words: seq<string>, queue: seq<nat>, done: set<nat>, popped: set<nat>, node: nat) {
    && 0 in popped && node in popped && node < |words|
    && (forall v :: v in done <==> v in popped || v in queue)
    && (forall v :: v in done ==> v < |words|)
    && (forall i :: 0 <= i < |queue| ==> queue[i] !in popped)
    && (forall i, j :: 0 <= i < j < |queue| ==> queue[i] != queue[j])
    && (forall i :: 0 <= i < |queue| ==> |words[node]| <= |words[queue[i]]| <= |words[node]| + 1)
    && (forall i, j :: 0 <= i < j < |queue| ==> |words[queue[i]]| <= |words[queue[j]]|)
  }

  /** A child is discovered exactly when its parent was expanded, except the edges of `node` still to do. */
  ghost predicate ExpandedEdges(goto: seq<map<char, nat>>, done: set<nat>, popped: set<nat>, node: nat,
                                todo: set<char>) {
    forall u, c {:trigger goto[u][c]} :: 0 <= u < |goto| && c in goto[u] ==>
      (goto[u][c] in done <==> u in popped && !(u == node && c in todo))
  }

  /** Every state other than the root hangs off the state of its word without the last character. */
  lemma TrieParent(goto: seq<map<char, nat>>, words: seq<string>, index: map<string, nat>, v: nat)
    returns (u: nat, c: char)
    requires IsTrie(goto, words, index) && 0 < v < |words|
    ensures u < |words| && |words[u]| + 1 == |words[v]| && c in goto[u] && goto[u][c] == v
  {
    var w := words[v];
    assert w != "";
    c := w[|w| - 1];
    assert Snoc(w[..|w| - 1], c) == w;
    u := index[w[..|w| - 1]];
  }

  /** When `node` is expanded, all states at most as deep are already linked. */
  lemma {:induction false} ShallowStatesDone(goto: seq<map<char, nat>>, words: seq<string>, index: map<string, nat>,
                                             queue: seq<nat>, done: set<nat>, popped: set<nat>,
                                             node: nat, todo: set<char>, v: nat)
    requires IsTrie(goto, words, index) && Bfs(goto, words, queue, done, popped, node, todo)
    requires v < |words| && |words[v]| <= |words[node]|
    ensures v in done
    decreases |words[v]|
  {
    if v != 0 {
      var u, c := TrieParent(goto, words, index, v);
      ShallowStatesDone(goto, words, index, queue, done, popped, node, todo, u);
      assert u in popped && u != node;
      assert goto[u][c] in done;
    }
  }

  /** An empty queue with nothing left to follow means every state is linked. */
  lemma {:induction false} EmptyQueueMeansDone(goto: seq<map<char, nat>>, words: seq<string>, index: map<string, nat>,
                                               done: set<nat>, popped: set<nat>, node: nat, v: nat)
    requires IsTrie(goto, words, index) && Bfs(goto, words, [], done, popped, node, {})
    requires v < |words|
    ensures v in done
    decreases |words[v]|
  {
    if v != 0 {
      var u, c := TrieParent(goto, words, index, v);
      EmptyQueueMeansDone(goto, words, index, done, popped, node, u);
      assert goto[u][c] in done;
    }
  }

  lemma BfsStart(goto: seq<map<char, nat>>, words: seq<string>, index: map<string, nat>)
    requires IsTrie(goto, words, index)
    ensures Bfs(goto, words, [], {0}, {0}, 0, goto[0].Keys)
  {
  }

  lemma BfsPop(goto: seq<map<char, nat>>, words: seq<string>, index: map<string, nat>,
               queue: seq<nat>, done: set<nat>, popped: set<nat>, node: nat)
    requires IsTrie(goto, words, index) && Bfs(goto, words, queue, done, popped, node, {}) && queue != []
    ensures queue[0] in done && queue[0] !in popped && queue[0] < |words|
    ensures Bfs(goto, words, queue[1..], done, popped + {queue[0]}, queue[0], goto[queue[0]].Keys)
  {
    hide QueueOk, ExpandedEdges, IsTrie;
    assert |goto| == |words| by { RootIsEmpty(goto, words, index); }
    QueuePop(words, queue, done, popped, node);
    EdgesPop(goto, done, popped, node, queue[0]);
  }

  lemma QueuePop(words: seq<string>, queue: seq<nat>, done: set<nat>, popped: set<nat>, node: nat)
    requires QueueOk(words, queue, done, popped, node) && queue != []
    ensures queue[0] in done && queue[0] !in popped && queue[0] < |words|
    ensures QueueOk(words, queue[1..], done, popped + {queue[0]}, queue[0])
  {
    assert queue == [queue[0]] + queue[1..];
    assert forall v :: v in queue <==> v == queue[0] || v in queue[1..];
  }

  lemma EdgesPop(goto: seq<map<char, nat>>, done: set<nat>, popped: set<nat>, node: nat, next: nat)
    requires ExpandedEdges(goto, done, popped, node, {}) && next !in popped && next < |goto|
    ensures ExpandedEdges(goto, done, popped + {next}, next, goto[next].Keys)
  {
    forall u, c | 0 <= u < |goto| && c in goto[u]
      ensures goto[u][c] in done <==> u in popped + {next} && !(u == next && c in goto[next].Keys)
    {
      assert goto[u][c] in done <==> u in popped;
    }
  }

  lemma BfsPush(goto: seq<map<char, nat>>, words: seq<string>, index: map<string, nat>,
                queue: seq<nat>, done: set<nat>, popped: set<nat>, node: nat, todo: set<char>, ch: char)
    requires IsTrie(goto, words, index) && Bfs(goto, words, queue, done, popped, node, todo)
    requires node < |goto| && ch in todo && ch in goto[node]
    ensures goto[node][ch] !in done && goto[node][ch] < |words|
    ensures Bfs(goto, words, queue + [goto[node][ch]], done + {goto[node][ch]}, popped, node, todo - {ch})
  {
    var child := goto[node][ch];
    var done', todo' := done + {child}, todo - {ch};
    assert forall v :: v in queue + [child] <==> v in queue || v == child;
    assert child !in done;
    forall u, c {:trigger goto[u][c]} | 0 <= u < |goto| && c in goto[u]
      ensures goto[u][c] in done' <==> u in popped && !(u == node && c in todo')
    {
      assert goto[u][c] in done <==> u in popped && !(u == node && c in todo);
      if goto[u][c] == child {
        SnocInjective(words[u], c, words[node], ch);
      }
    }
  }

  /** The links and outputs of state `v` are final. */
  ghost predicate Linked<P(!new)>(entries: seq<Entry<P>>, words: seq<string>, index: map<string, nat>,
                                  fail: seq<nat>, out: seq<seq<P>>, v: nat)
    requires |fail| == |out| == |words| && v < |words|
  {
    && fail[v] < |words|
    && (v == 0 ==> fail[v] == 0)
    && (v != 0 ==> IsLongestSuffix(index, words[v], |words[v]| - 1, words[fail[v]]))
    && OutputsSuffixes(entries, words[v], out[v])
  }

  /** Links are final on `done`; elsewhere states still hold their own outputs. */
  ghost predicate LinkedOn<P(!new)>(entries: seq<Entry<P>>, words: seq<string>, index: map<string, nat>,
                                    fail: seq<nat>, out: seq<seq<P>>, done: set<nat>) {
    && |fail| == |out| == |words|
    && (forall v :: v in done && v < |words| ==> Linked(entries, words, index, fail, out, v))
    && (forall v :: 0 <= v < |words| && v !in done ==> out[v] == Payloads(entries, words[v]))
  }

  lemma LinkOne<P(!new)>(entries: seq<Entry<P>>, words: seq<string>, index: map<string, nat>,
                         fail: seq<nat>, out: seq<seq<P>>, done: set<nat>, v: nat, f: nat, outputs: seq<P>)
    requires LinkedOn(entries, words, index, fail, out, done)
    requires 0 < v < |words| && f < |words|
    requires IsLongestSuffix(index, words[v], |words[v]| - 1, words[f])
    requires OutputsSuffixes(entries, words[v], outputs)
    ensures LinkedOn(entries, words, index, fail[v := f], out[v := outputs], done + {v})
  {
    hide OutputsSuffixes, IsLongestSuffix, Payloads;
  }

  lemma LinkRoot<P(!new)>(entries: seq<Entry<P>>, goto: seq<map<char, nat>>, words: seq<string>,
                          index: map<string, nat>,
                          fail: seq<nat>, out: seq<seq<P>>)
    requires IsTrie(goto, words, index) && |fail| == |words| && fail[0] == 0 && OwnOutputs(entries, words, out)
    ensures LinkedOn(entries, words, index, fail, out, {0})
  {
    OwnOutputsSuffice(entries, "");
  }

  lemma LinkRootChild<P(!new)>(entries: seq<Entry<P>>, goto: seq<map<char, nat>>, words: seq<string>,
                               index: map<string, nat>,
                               fail: seq<nat>, out: seq<seq<P>>, done: set<nat>, ch: char)
    requires IsTrie(goto, words, index) && LinkedOn(entries, words, index, fail, out, done)
    requires ch in goto[0] && goto[0][ch] !in done
    ensures goto[0][ch] < |fail|
    ensures LinkedOn(entries, words, index, fail[goto[0][ch] := 0], out, done + {goto[0][ch]})
  {
    var child := goto[0][ch];
    OwnOutputsSuffice(entries, words[child]);
    assert IsLongestSuffix(index, words[child], 0, "");
    LinkOne(entries, words, index, fail, out, done, child, 0, out[child]);
    assert out[child := out[child]] == out;
  }

  lemma LinkedAt<P(!new)>(entries: seq<Entry<P>>, goto: seq<map<char, nat>>, words: seq<string>,
                          index: map<string, nat>,
                          fail: seq<nat>, out: seq<seq<P>>, done: set<nat>, v: nat)
    requires IsTrie(goto, words, index) && LinkedOn(entries, words, index, fail, out, done) && v in done && v < |words|
    ensures |goto| == |words| == |fail| == |out| && fail[v] < |words|
    ensures v != 0 ==> IsLongestSuffix(index, words[v], |words[v]| - 1, words[fail[v]]) && |words[fail[v]]| < |words[v]|
  {
  }

  /** Where the failure walk for the edge `node --ch-->` stops gives the link of the child. */
  lemma LinkChild<P(!new)>(entries: seq<Entry<P>>, goto: seq<map<char, nat>>, words: seq<string>,
                           index: map<string, nat>,
                           fail: seq<nat>, out: seq<seq<P>>, queue: seq<nat>, done: set<nat>, popped: set<nat>,
                           node: nat, todo: set<char>, ch: char, f: nat)
    requires IsTrie(goto, words, index) && index.Keys == TrieWords(entries)
    requires Bfs(goto, words, queue, done, popped, node, todo) && LinkedOn(entries, words, index, fail, out, done)
    requires 0 < node < |words| && ch in goto[node] && goto[node][ch] !in done
    requires f < |words| && Walking(index, words[node], |words[node]| - 1, ch, words[f]) && (f == 0 || ch in goto[f])
    ensures |goto| == |words| == |fail| == |out| && goto[node][ch] < |words|
    ensures ch in goto[f] ==> goto[f][ch] < |words| && goto[f][ch] != goto[node][ch]
    ensures var child, g := goto[node][ch], if ch in goto[f] then goto[f][ch] else 0;
            LinkedOn(entries, words, index, fail[child := g], out[child := out[child] + out[g]], done + {child})
  {
    hide LinkedOn, Bfs, Walking, TrieWords, OutputsSuffixes, IsLongestSuffix;
    var child, g := goto[node][ch], if ch in goto[f] then goto[f][ch] else 0;
    var w := words[child];
    assert w == Snoc(words[node], ch);
    assert words[node] != "" by { assert index[words[node]] == node; }
    WalkEnd(index, words[node], |words[node]| - 1, ch, words[f]);
    assert IsLongestSuffix(index, w, |w| - 1, words[g]);
    assert |words[g]| <= |words[node]| by { LongestSuffixIsShort(index, w, |w| - 1, words[g]); }
    ShallowStatesDone(goto, words, index, queue, done, popped, node, todo, g);
    LinkedOutputs(entries, words, index, fail, out, done, child, g);
    MergeOutputs(entries, index, w, words[g], out[g]);
    LinkOne(entries, words, index, fail, out, done, child, g, out[child] + out[g]);
  }

  lemma LongestSuffixIsShort(index: map<string, nat>, w: string, max: int, s: string)
    requires IsLongestSuffix(index, w, max, s)
    ensures |s| <= max
  {
  }

  lemma LinkedOutputs<P(!new)>(entries: seq<Entry<P>>, words: seq<string>, index: map<string, nat>,
                               fail: seq<nat>, out: seq<seq<P>>, done: set<nat>, child: nat, g: nat)
    requires LinkedOn(entries, words, index, fail, out, done)
    requires child < |words| && child !in done && g in done && g < |words|
    ensures |fail| == |out| == |words| && fail[g] < |words|
    ensures out[child] == Payloads(entries, words[child]) && OutputsSuffixes(entries, words[g], out[g])
  {
  }

  lemma LinkedEverywhere<P(!new)>(entries: seq<Entry<P>>, goto: seq<map<char, nat>>, words: seq<string>,
                                  index: map<string, nat>,
                                  fail: seq<nat>, out: seq<seq<P>>, done: set<nat>, popped: set<nat>, node: nat)
    requires IsTrie(goto, words, index) && LinkedOn(entries, words, index, fail, out, done)
    requires Bfs(goto, words, [], done, popped, node, {})
    ensures |fail| == |out| == |words|
    ensures forall v :: 0 <= v < |words| ==> Linked(entries, words, index, fail, out, v)
  {
    forall v | 0 <= v < |words|
      ensures Linked(entries, words, index, fail, out, v)
    {
      EmptyQueueMeansDone(goto, words, index, done, popped, node, v);
    }
  }

  lemma LinkedState<P(!new)>(entries: seq<Entry<P>>, words: seq<string>, index: map<string, nat>,
                             fail: seq<nat>, out: seq<seq<P>>, v: nat)
    requires |fail| == |out| == |words| && v < |words| && Linked(entries, words, index, fail, out, v)
    ensures fail[v] < |words| && OutputsSuffixes(entries, words[v], out[v])
    ensures v != 0 ==> IsLongestSuffix(index, words[v], |words[v]| - 1, words[fail[v]]) && |words[fail[v]]| < |words[v]|
  {
  }

  lemma LongestSuffixOfEmpty(goto: seq<map<char, nat>>, words: seq<string>, index: map<string, nat>)
    requires IsTrie(goto, words, index)
    ensures "" in index && IsLongestSuffix(index, "", 0, "")
  {
    assert words[0] in index;
  }

  lemma NoHitsInEmptyText<P(!new)>(entries: seq<Entry<P>>)
    ensures NonEmptyHits(entries, "") == {}
  {
  }

  class AhoCorasick<P(==,!new)> {
    var goto: seq<map<char, nat>>
    var fail: seq<nat>
    var out: seq<seq<P>>
    ghost var entries: seq<Entry<P>>
    ghost var words: seq<string>
    ghost var index: map<string, nat>

    /** The state between insertions. */
    ghost predicate Growing()
      reads this
    {
      && IsTrie(goto, words, index)
      && index.Keys == TrieWords(entries)
      && |fail| == |words| > 0 && fail[0] == 0
      && OwnOutputs(entries, words, out)
    }

    /** The finished automaton: each failure link is the longest proper suffix that is a
        trie word, and each output list is the payloads of the suffix patterns. */
    ghost predicate Built()
      reads this
    {
      && IsTrie(goto, words, index)
      && index.Keys == TrieWords(entries)
      && |fail| == |out| == |words|
      && forall v :: 0 <= v < |words| ==> Linked(entries, words, index, fail, out, v)
    }

    constructor (patterns: seq<Entry<P>>)
      ensures Built() && entries == patterns
    {
      goto, fail, out := [map[]], [0], [[]];
      entries, words, index := [], [""], map["" := 0];
      new;
      EmptyTrie<P>();
      for i := 0 to |patterns|
        invariant Growing() && entries == patterns[..i]
      {
        hide IsTrie, OwnOutputs, TrieWords;
        assert patterns[..i + 1] == patterns[..i] + [Entry(patterns[i].pattern, patterns[i].payload)];
        Insert(patterns[i].pattern, patterns[i].payload);
      }
      assert patterns[..|patterns|] == patterns;
      BuildFailureLinks();
    }

    method Insert(pattern: string, payload: P)
      requires Growing()
      modifies this
      ensures Growing() && entries == old(entries) + [Entry(pattern, payload)]
    {
      hide IsTrie, OwnOutputs, TrieWords, Prefixes;
      var node: nat := 0;
      assert words[0] == "" && |words| > 0 by { RootIsEmpty(goto, words, index); }
      assert Prefixes("") == {""} by { EmptyPrefix(); }
      for i := 0 to |pattern|
        invariant IsTrie(goto, words, index) && OwnOutputs(entries, words, out)
        invariant |fail| == |words| > 0 && fail[0] == 0
        invariant entries == old(entries)
        invariant index.Keys == TrieWords(entries) + Prefixes(pattern[..i])
        invariant node < |words| && words[node] == pattern[..i]
      {
        var ch := pattern[i];
        ghost var w := Snoc(words[node], ch);
        assert w == pattern[..i + 1];
        PrefixesOfSnoc(pattern[..i], ch);
        TrieEdge(goto, words, index, node, ch);
        if ch in goto[node] {
          node := goto[node][ch];
        } else {
          OwnOutputsFreshState(entries, words, out, w);
          ExtendTrie(goto, words, index, node, ch);
          var nxt := |goto|;
          goto := goto + [map[]];
          fail := fail + [0];
          out := out + [[]];
          goto := goto[node := goto[node][ch := nxt]];
          words, index := words + [w], index[w := nxt];
          node := nxt;
        }
      }
      assert pattern[..|pattern|] == pattern;
      TrieWordsSnoc(entries, Entry(pattern, payload));
      OwnOutputsNewEntry(entries, words, index, goto, out, node, payload);
      out := out[node := out[node] + [payload]];
      entries := entries + [Entry(pattern, payload)];
    }

    method BuildFailureLinks()
      requires Growing()
      modifies `fail, `out
      ensures Built()
    {
      hide IsTrie, TrieWords, OwnOutputs, Bfs, LinkedOn, Linked, Walking, IsLongestSuffix, Payloads;
      RootIsEmpty(goto, words, index);
      LinkRoot(entries, goto, words, index, fail, out);
      BfsStart(goto, words, index);
      var queue: seq<nat> := [];
      var todo := goto[0].Keys;
      ghost var done, popped := {0}, {0};
      while todo != {}
        invariant Bfs(goto, words, queue, done, popped, 0, todo) && todo <= goto[0].Keys
        invariant LinkedOn(entries, words, index, fail, out, done)
      {
        var ch :| ch in todo;
        var child := goto[0][ch];
        BfsPush(goto, words, index, queue, done, popped, 0, todo, ch);
        LinkRootChild(entries, goto, words, index, fail, out, done, ch);
        fail := fail[child := 0];
        queue := queue + [child];
        done, todo := done + {child}, todo - {ch};
      }
      ghost var last: nat := 0;
      while queue != []
        invariant Bfs(goto, words, queue, done, popped, last, {}) && 0 in popped
        invariant LinkedOn(entries, words, index, fail, out, done)
        decreases StatesBelow(|words|) - popped
      {
        BfsPop(goto, words, index, queue, done, popped, last);
        var node := queue[0];
        queue := queue[1..];
        popped, last := popped + {node}, node;
        queue, done := ExpandNode(node, queue, done, popped);
      }
      LinkedEverywhere(entries, goto, words, index, fail, out, done, popped, last);
    }

    /** The body of the linking loop for one dequeued state: link and enqueue its children. */
    method ExpandNode(node: nat, queue: seq<nat>, ghost done: set<nat>, ghost popped: set<nat>)
      returns (queue': seq<nat>, ghost done': set<nat>)
      requires IsTrie(goto, words, index) && index.Keys == TrieWords(entries) && 0 < node < |words|
      requires Bfs(goto, words, queue, done, popped, node, goto[node].Keys)
      requires LinkedOn(entries, words, index, fail, out, done)
      modifies `fail, `out
      ensures Bfs(goto, words, queue', done', popped, node, {})
      ensures LinkedOn(entries, words, index, fail, out, done')
    {
      hide IsTrie, TrieWords, Bfs, LinkedOn, Walking, IsLongestSuffix, Payloads;
      RootIsEmpty(goto, words, index);
      queue', done' := queue, done;
      var todo := goto[node].Keys;
      while todo != {}
        invariant Bfs(goto, words, queue', done', popped, node, todo) && todo <= goto[node].Keys
        invariant LinkedOn(entries, words, index, fail, out, done')
      {
        var ch :| ch in todo;
        var child := goto[node][ch];
        BfsPush(goto, words, index, queue', done', popped, node, todo, ch);
        var f := FailureWalk(node, ch, queue', done', popped, todo);
        LinkChild(entries, goto, words, index, fail, out, queue', done', popped, node, todo, ch, f);
        var g := if ch in goto[f] then goto[f][ch] else 0;
        queue' := queue' + [child];
        fail := fail[child := if g == child then 0 else g];
        out := out[child := out[child] + out[fail[child]]];
        done', todo := done' + {child}, todo - {ch};
      }
    }

    /** Follow failure links from `fail[node]` to the first state with an edge on `ch`, or the root. */
    method FailureWalk(node: nat, ch: char, ghost queue: seq<nat>, ghost done: set<nat>, ghost popped: set<nat>,
                       ghost todo: set<char>) returns (f: nat)
      requires IsTrie(goto, words, index) && 0 < node < |words| == |goto|
      requires Bfs(goto, words, queue, done, popped, node, todo)
      requires LinkedOn(entries, words, index, fail, out, done)
      ensures f < |words| && Walking(index, words[node], |words[node]| - 1, ch, words[f])
      ensures f == 0 || ch in goto[f]
    {
      hide IsTrie, Bfs, LinkedOn, Walking, IsLongestSuffix, Payloads;
      ShallowStatesDone(goto, words, index, queue, done, popped, node, todo, node);
      LinkedAt(entries, goto, words, index, fail, out, done, node);
      f := fail[node];
      WalkStart(goto, words, index, words[node], |words[node]| - 1, ch, words[f]);
      while f != 0 && ch !in goto[f]
        invariant f < |words| && |words[f]| < |words[node]|
        invariant Walking(index, words[node], |words[node]| - 1, ch, words[f])
        decreases |words[f]|
      {
        ShallowStatesDone(goto, words, index, queue, done, popped, node, todo, f);
        LinkedAt(entries, goto, words, index, fail, out, done, f);
        TrieEdge(goto, words, index, f, ch);
        WalkStep(goto, words, index, words[node], |words[node]| - 1, ch, words[f], words[fail[f]]);
        f := fail[f];
      }
    }

    /** One pass over the text. The result lies between the hits of the non-empty patterns
        and the hits of all patterns, so it is exact when no pattern is empty. */
    method FindAll(text: string) returns (found: set<P>)
      requires Built()
      ensures NonEmptyHits(entries, text) <= found <= Hits(entries, text)
      ensures text == "" ==> found == {}
    {
      hide IsTrie, TrieWords, Linked, Walking, IsLongestSuffix, NonEmptyHits, Hits, OutputsSuffixes;
      RootIsEmpty(goto, words, index);
      NoHitsInEmptyText(entries);
      found := {};
      var node: nat := 0;
      assert IsLongestSuffix(index, "", 0, "") by { LongestSuffixOfEmpty(goto, words, index); }
      for i := 0 to |text|
        invariant node < |words| && IsLongestSuffix(index, text[..i], i, words[node])
        invariant NonEmptyHits(entries, text[..i]) <= found <= Hits(entries, text[..i])
        invariant i == 0 ==> found == {}
      {
        var ch := text[i];
        assert text[..i + 1] == Snoc(text[..i], ch);
        WalkStart(goto, words, index, text[..i], i, ch, words[node]);
        while node != 0 && ch !in goto[node]
          invariant node < |words| && Walking(index, text[..i], i, ch, words[node])
          decreases |words[node]|
        {
          LinkedState(entries, words, index, fail, out, node);
          TrieEdge(goto, words, index, node, ch);
          WalkStep(goto, words, index, text[..i], i, ch, words[node], words[fail[node]]);
          node := fail[node];
        }
        TrieEdge(goto, words, index, node, ch);
        WalkEnd(index, text[..i], i, ch, words[node]);
        node := if ch in goto[node] then goto[node][ch] else 0;
        LinkedState(entries, words, index, fail, out, node);
        ScanStep(entries, index, text[..i], ch, words[node], out[node], found);
        if |out[node]| > 0 {
          found := found + (set p | p in out[node]);
        } else {
          assert found + (set p | p in out[node]) == found;
        }
      }
      assert text[..|text|] == text;
    }
  }
}
