# TrustTrace verification model

A Dafny model of the algorithms at the core of TrustTrace, with proofs of what the repository's
documentation says they are for. Each module follows one source file, in that file's own form: classes
whose methods update their fields, loops with invariants, pure functions where the source is pure. Every
state-changing method is tied to a function or a relation on values, and the results about whole runs are
lemmas about those. `SearchScope`, `RaisedConfidence` and `PortAgreement` hold results about modelled files, `Selection` and `Sets` what several need.

| area | modules | main results |
|---|---|---|
| cue matcher | `Substrings`, `AhoCorasickAutomaton`, `FastPatternMatcher` | trie, failure links and merged outputs are exactly the longest-suffix automaton; its scan equals the naive scan on every text if and only if no tactic repeats a cue (and no cue is empty); the naive scan lists exactly the declarations whose cue occurs |
| nearest neighbours | `RealSorting`, `BruteForce`, `Scores`, `LayerSearch`, `LayerGraph`, `LayerInsertion`, `AnnHnsw`, `CosineHnsw` | both indexes keep their structure over every insertion; the beam search returns the closest of what it visits and cannot be improved from within, for every beam width; overfull lists keep the links nearest to their owner; layer 0 is complete exactly up to `2m + 1` points, and a complete index answers exactly like brute force |
| campaign graph | `Graphs`, `DashboardPathQuery`, `SearchScope`, `TieredGraphStore`, `CampaignGraph` | shortest paths and the exact hop limit of the bidirectional search; conservation across tiers, and exactly which nodes stay hot; k-anonymity of every run and of every hop of a reported path |
| model text | `JsonText`, `JsonExtraction`, `NativeLlamaScorer` | extraction undoes embedding a JSON array or object (sections 4, 5 and 7 of RFC 8259) in prose exactly when the prose before it has no bracket, and such prose changes no assessment |
| federated learning | `SecureAggregation`, `ModelDistribution` | masks cancel; the trimmed mean is the mean of the middle and stays within honest bounds; exact cohort sizes, and which strata get a share beyond their minimum |
| detection | `Rounding`, `ModelCascade`, `TextRules`, `EntailmentGate`, `ConversationMemory`, `OnDeviceCascade`, `RaisedConfidence`, `PortAgreement` | exactly which messages escalate and what clears the gate; a longer history never loses a survivor; no model output adds a tactic; raising model confidence keeps every flag, and exactly when it is shown lower; the port's grounding checks agree with the server's wherever the two languages agree on white space |
| streams | `SmsGateway`, `ThermalGovernor`, `WakeGate`, `TranscriptNormalizer`, `StalkerwareSignatures` (and `Options`, `Sets`, `Selection` throughout) | the exact acceptance rule of every sender, the cost of re-entering a thermal rung and which fallback schedules keep it, persistence of a wake alarm, unique maximal reassembly that keeps every word, an exact answer behind a Bloom filter |

Where the code and its documentation disagree, the model follows the code:

- The matcher promises equality with the naive scan (`detection/conversation/fast_pattern_matcher.py:41-45`).
  A repeated cue breaks it: the shipped taxonomy repeats "wire the money"
  (`detection/conversation/tactic_taxonomy.py:134-135`), so the scans differ on every text that says it. An
  empty cue breaks it on the empty text.
- The Tier 0 score is documented to count distinct cues, not hits (`detection/conversation/model_cascade.py:84-87`).
  It counts declarations: the repeated "wire the money", said once, escalates a message on its own.
- The path search documents `max_depth` hops in all (`threat-intel/dashboard_path_query.py:48-58`). The real
  limit is `2 * max(1, max_depth // 2)`, which is `max_depth` only for even depths of at least 2.
- `extractJson` is described as returning the first balanced array or object. It counts only the first
  bracket it meets, so it returns the first span that balances that bracket, and a bracket in the prose
  before the JSON derails it.
- The thermal governor's hysteresis always holds for the two rungs below the top. For the top rung it holds
  exactly for the CPU-fallback schedules that, after the first reading, never turn the fallback on once it
  was off: every other schedule has a run, 0.95 and then 0.90, that re-enters the top rung without any rise.
- On the device, raising a model confidence never removes a flag but can lower the confidence shown for it,
  because corroboration is added only below the ceiling (`mobile/src/ml/onDeviceCascade.ts:518-521`): with
  two tactics found, raising one confidence from 0.4 to 0.5 lowers what is shown from 0.474 to 0.369.
- The port's negation check splits words like the server's (`mobile/src/ml/onDeviceCascade.ts:314-319`)
  except at the six characters only one of the languages takes for white space: U+001C to U+001F and U+0085
  for Python, U+FEFF for JavaScript.
- The canary cohort documents filling the rest of its one percent proportionally
  (`federated/model_distribution.py:41-47`). The code fills it in list order: enough devices of one stratum
  at the head of the list take all of it, and every other stratum keeps its bare minimum.

## Model

| member | source | states |
|---|---|---|
| AhoCorasickAutomaton.AhoCorasick.constructor | detection/conversation/fast_pattern_matcher.py:69-77 | for any pattern list the finished automaton is `Built`: a trie of the patterns' prefixes, each failure link the longest proper suffix that is a trie word, each output list the payloads of the suffix patterns |
| AhoCorasickAutomaton.AhoCorasick.Insert | detection/conversation/fast_pattern_matcher.py:79-90 | inserting keeps the trie invariant and adds exactly this pattern's prefixes and payload |
| AhoCorasickAutomaton.AhoCorasick.BuildFailureLinks | detection/conversation/fast_pattern_matcher.py:92-111 | breadth-first linking ends with every state linked and its outputs merged, whatever the order of a state's children |
| AhoCorasickAutomaton.AhoCorasick.ExpandNode | detection/conversation/fast_pattern_matcher.py:99-111 | expanding a dequeued state links and enqueues exactly its children |
| AhoCorasickAutomaton.AhoCorasick.FailureWalk | detection/conversation/fast_pattern_matcher.py:104-106 | the walk terminates at a state with an edge on the character or at the root, having skipped no longer extensible suffix |
| AhoCorasickAutomaton.AhoCorasick.FindAll | detection/conversation/fast_pattern_matcher.py:113-125 | the result lies between the payloads of the occurring non-empty patterns and of all occurring patterns |
| AhoCorasickAutomaton.ExtendTrie | detection/conversation/fast_pattern_matcher.py:82-89 | a fresh state below a node keeps words and edges in one-to-one correspondence |
| AhoCorasickAutomaton.TrieWordsArePrefixes | detection/conversation/fast_pattern_matcher.py:79-90 | the states spell exactly the prefixes of the patterns |
| AhoCorasickAutomaton.WalkEnd | detection/conversation/fast_pattern_matcher.py:104-107 | where a failure walk stops gives the longest suffix of the extended string |
| AhoCorasickAutomaton.MergeOutputs | detection/conversation/fast_pattern_matcher.py:110-111 | a state's own payloads plus those of its longest proper suffix are the payloads of all its suffix patterns |
| AhoCorasickAutomaton.ShallowStatesDone | detection/conversation/fast_pattern_matcher.py:92-111 | when a state is expanded, every state no deeper is already linked, so the failure walk reads only final links |
| AhoCorasickAutomaton.EmptyQueueMeansDone | detection/conversation/fast_pattern_matcher.py:97-98 | once the queue is empty every state has been linked |
| AhoCorasickAutomaton.HitsMeet | detection/conversation/fast_pattern_matcher.py:113-125 | the two bounds of the scan coincide on all texts exactly when no pattern is empty |
| FastPatternMatcher.BuildTaxonomyAutomaton | detection/conversation/fast_pattern_matcher.py:128-133 | the automaton holds exactly the taxonomy's (cue, tactic) pairs |
| FastPatternMatcher.NaiveCueScan | detection/conversation/fast_pattern_matcher.py:195-203 | with distinct tactics, each tactic with an occurring cue is reported with the cues at exactly the declared positions whose cue occurs, in order, repeats included, and no other tactic is |
| FastPatternMatcher.MatchedLists | detection/conversation/fast_pattern_matcher.py:195-203 | for any cue list, repeats included, there are increasing positions, exactly those whose cue occurs, at which the reported cues stand |
| FastPatternMatcher.ListedOneWay | detection/conversation/fast_pattern_matcher.py:195-203 | only one list of cues meets that description |
| FastPatternMatcher.ReportedAsDeclared | detection/conversation/fast_pattern_matcher.py:195-203 | an occurring cue is reported exactly as often as it is declared, and no other cue is |
| FastPatternMatcher.ScanCuesAhoCorasick | detection/conversation/fast_pattern_matcher.py:181-192 | without empty cues it equals the automaton scan, without repeated cues also the naive scan; with an empty cue it differs from the naive scan on the empty text |
| FastPatternMatcher.ScanCuesRegexPrescreen | detection/conversation/fast_pattern_matcher.py:171-178 | the prescreened scan equals the naive scan on every text and taxonomy, and so reports exactly the declarations whose cue occurs |
| FastPatternMatcher.ScanMapAt | detection/conversation/fast_pattern_matcher.py:195-203 | a scan map holds at each tactic its selected cues and has no other key |
| FastPatternMatcher.HitsOfPairs | detection/conversation/fast_pattern_matcher.py:128-133 | a payload is hit exactly when its cue is declared for its tactic and occurs |
| FastPatternMatcher.GroupedHitsSorted | detection/conversation/fast_pattern_matcher.py:186-192 | grouping the hits by tactic and sorting each group by declared position gives the automaton scan, whatever order the hit set is walked in |
| FastPatternMatcher.AutomatonScanIsNaiveScan | detection/conversation/fast_pattern_matcher.py:41-45 | the two scans agree on every text if and only if no tactic declares a cue twice |
| FastPatternMatcher.EmptyCueFoundNaively | detection/conversation/fast_pattern_matcher.py:195-203 | an empty cue is found in the empty text by the naive scan, where the automaton takes no step |
| FastPatternMatcher.RepeatedCueReportedTwice | detection/conversation/fast_pattern_matcher.py:186-203 | a cue any list declares twice is reported twice by the naive scan of every text it occurs in, and once by the automaton |
| FastPatternMatcher.ShippedTaxonomyDisagrees | detection/conversation/tactic_taxonomy.py:133-144 | with the shipped payment cues in the taxonomy, the two scans differ on every text that says "wire the money" |
| RealSorting.AscendingUnique | threat-intel/campaign_predictor.py:119-120 | an ascending arrangement of given values is unique |
| BruteForce.PermutedMultiset | threat-intel/campaign_predictor.py:119-121 | reading values along a permutation loses and invents none |
| BruteForce.ArgsortDistances | threat-intel/campaign_predictor.py:116-121 | however argsort breaks ties, the distances it returns are the `top_k` smallest in order |
| LayerSearch.GreedyClosest | threat-intel/ann_hnsw.py:125-134 | greedy descent terminates at a node at least as close as its start, none of whose neighbours is closer |
| LayerSearch.SearchLayer | threat-intel/ann_hnsw.py:136-157 | for either variant's stop test and every `ef` the results are reachable, no neighbour of a result that is left out is closer than any result, with fewer than `ef` results nothing reachable is left out, and they are those of the search on values |
| LayerSearch.StopsMeans | threat-intel/ann_hnsw.py:143-146 | under either test the search stops exactly when the best candidate is farther than every result |
| LayerSearch.RelaxAdmits | threat-intel/ann_hnsw.py:147-156 | a node met for the first time becomes a candidate exactly when it becomes a result, and it does exactly when there is room or some result is farther |
| LayerSearch.ResultsAreExpanded | threat-intel/ann_hnsw.py:136-157 | for every `ef`, all neighbours of every result have been visited |
| LayerSearch.SearchIsLocallyBest | threat-intel/ann_hnsw.py:136-157 | the results of any search cannot be improved by a neighbour of one of them |
| LayerSearch.StopRulesAgree | threat-intel/hnsw_index.py:178-180 | at every reachable search state the two variants' break tests have the same verdict |
| LayerSearch.StopRuleIrrelevant | threat-intel/hnsw_index.py:165-191 | both variants' searches end in the same state |
| LayerSearch.SearchReturnsNearestVisited | threat-intel/ann_hnsw.py:136-157 | the search returns `min(ef, visited)` nodes, none of the other visited nodes being closer |
| LayerSearch.WideSearchReturnsReachable | threat-intel/ann_hnsw.py:136-157 | with `ef` at least the number of nodes that can be met, the result is exactly the reachable set |
| LayerGraph.ConnectedOk | threat-intel/ann_hnsw.py:103-113 | linking a node both ways, with pruning, keeps links in the layer, without self-links or duplicates, within the degree |
| LayerGraph.ConnectedComplete | threat-intel/ann_hnsw.py:103-113 | linking a node to everyone in a complete layer that fits the degree gives a complete layer |
| LayerGraph.CompleteSearch | threat-intel/ann_hnsw.py:136-157 | in a complete layer a search wide enough finds every node |
| LayerGraph.ExactDistances | threat-intel/ann_hnsw.py:167-169 | the sorted finds of an all-node search carry the brute-force distances |
| LayerInsertion.KeepClosestIsProper | threat-intel/ann_hnsw.py:109-113 | pruning keeps a duplicate-free sublist within the degree and leaves a list that fits alone |
| LayerInsertion.KeepClosestKeepsClosest | threat-intel/ann_hnsw.py:110-113 | every kept link is closer to its owner than every dropped one, or as close and ahead of it by the variant's tie order |
| LayerInsertion.LinkInLayer | threat-intel/ann_hnsw.py:99-115 | one layer of an insertion: search, link to the best found, prune back, continue from the best; the layer stays sound and, while it fits, complete |
| LayerInsertion.LinksAreNearest | threat-intel/ann_hnsw.py:99-103 | the new node's links are the best of what the search visited, as many as degree and beam allow, and the next layer starts at the closest |
| LayerInsertion.LinksCannotImprove | threat-intel/ann_hnsw.py:99-103 | no neighbour of a new link that is left out is closer than a new link, and with fewer than degree and beam allow nothing reachable is left out |
| LayerInsertion.LinkedIsRelinked | threat-intel/ann_hnsw.py:103-113 | an old list changes only when the new node links to its owner: then the new node joins it, and an overfull one keeps `deg` members that outrank all the others |
| AnnHnsw.HnswIndex.constructor | threat-intel/ann_hnsw.py:57-72 | an empty index satisfies the invariants |
| AnnHnsw.HnswIndex.Register | threat-intel/ann_hnsw.py:84-88 | missing layers are opened and the node enters layers up to its level, unlinked |
| AnnHnsw.HnswIndex.Descend | threat-intel/ann_hnsw.py:94-97 | the descent ends no farther than the entry point, on a node of the layer to be linked, locally closest in the layer above |
| AnnHnsw.HnswIndex.InsertDown | threat-intel/ann_hnsw.py:99-115 | each layer is linked from where the layer above ended, and no other layer changes |
| AnnHnsw.HnswIndex.Add | threat-intel/ann_hnsw.py:76-118 | for any random level: every layer sound, layers nested, entry point in the top layer; the node is in exactly the layers up to its level; there a list that overflows `m`, or `2m` in layer 0, keeps the links whose stored vectors are nearest to its owner's by the metric, earlier ones on ties; the layers above stay; layer 0 stays complete through the `2m + 1`st point |
| AnnHnsw.InsertedRelinksLayers | threat-intel/ann_hnsw.py:103-113 | over the stored vectors, every kept link `a` and dropped link `b` of `u` have `metric(a, u) <= metric(b, u)`, `a` listed first on ties |
| AnnHnsw.HnswIndex.Query | threat-intel/ann_hnsw.py:159-169 | hits carry the metric's distances, are reachable from the descent's end, and no neighbour of a hit that is left out is closer than a hit; with fewer than `top_k` nothing reachable is left out; on a complete index with `max(ef_search, top_k)` at least the size, the distances are those of brute force |
| AnnHnsw.CompleteOnlyWhenSmall | threat-intel/ann_hnsw.py:61 | no structured index of more than `2m + 1` points has a complete layer 0 |
| AnnHnsw.BuildHnsw | threat-intel/ann_hnsw.py:172-181 | for any embeddings and any random levels, with `ef_build >= 2m`, layer 0 is complete if and only if there are at most `2m + 1` points |
| CosineHnsw.LayerOfSetLayer | threat-intel/hnsw_index.py:105-114 | rewriting one layer's lists inside the nodes changes that layer and no other |
| CosineHnsw.HnswIndex.constructor | threat-intel/hnsw_index.py:56-71 | an empty index satisfies the invariants |
| CosineHnsw.HnswIndex.Descend | threat-intel/hnsw_index.py:96-99 | the descent ends no less similar than the entry point, on a node of high enough level, with no more similar neighbour in the layer above |
| CosineHnsw.HnswIndex.InsertDown | threat-intel/hnsw_index.py:101-117 | each shared layer is linked from where the layer above ended, and no other layer changes |
| CosineHnsw.HnswIndex.Add | threat-intel/hnsw_index.py:75-121 | a repeated id is refused, then a zero vector, both without change; otherwise the node is in exactly the layers up to its level, in those it shares with the index an overfull list keeps the links most similar to its owner, higher index on ties, the layers above stay, and all invariants hold |
| CosineHnsw.InsertedRelinksLayers | threat-intel/hnsw_index.py:109-115 | over the stored vectors, every kept link `a` and dropped link `b` of `u` have `sim(u, a) >= sim(u, b)`, `a` of higher index on ties |
| CosineHnsw.HnswIndex.Query | threat-intel/hnsw_index.py:125-141 | empty for a zero vector; otherwise hits carry the similarities, are reachable from the descent's end, and no neighbour of a hit that is left out is more similar than a hit; exact on a complete index searched widely enough |
| CosineHnsw.CompleteOnlyWhenSmall | threat-intel/hnsw_index.py:105-114 | no structured index of more than `2m + 1` nodes has a complete layer 0 |
| CosineHnsw.AddAll | threat-intel/hnsw_index.py:75-121 | for any vectors, ids, refusals and random levels, with `ef_construction >= 2m`, layer 0 is complete if and only if there are at most `2m + 1` nodes; distinct ids with non-zero vectors all become nodes, in order |
| Graphs.DisjointBallsSeparate | threat-intel/dashboard_path_query.py:90-115 | while the two explored balls are disjoint, every walk between the endpoints is longer than the two radii together |
| Graphs.ShortestIsSimple | threat-intel/dashboard_path_query.py:74-88 | a shortest path repeats no node |
| DashboardPathQuery.ExpandLevel | threat-intel/dashboard_path_query.py:99-109 | one level of expansion reaches exactly the next ball, or reports a node of the other side one hop further out |
| DashboardPathQuery.WalkBack | threat-intel/dashboard_path_query.py:76-80 | following parents terminates and yields a walk to the root as long as the node's level |
| DashboardPathQuery.Reconstruct | threat-intel/dashboard_path_query.py:74-88 | the two walks through a meeting node join into a walk from source to target |
| DashboardPathQuery.MeetingIsShortest | threat-intel/dashboard_path_query.py:104-106 | a meeting one level beyond two disjoint balls lies on a shortest path |
| DashboardPathQuery.ExhaustedMeansTooFar | threat-intel/dashboard_path_query.py:90-128 | when a frontier empties or the depth is spent, no path within the hop limit exists |
| DashboardPathQuery.BidirectionalBfs | threat-intel/dashboard_path_query.py:48-128 | on any undirected graph the result is a shortest path of real edges; it is absent exactly when an endpoint is missing or no path has at most `2 * max(1, max_depth // 2)` hops |
| DashboardPathQuery.FindKnownBadActorPath | threat-intel/dashboard_path_query.py:131-166 | found exactly when both nodes are in the view and within the hop limit; path and hop count are those of a shortest path |
| SearchScope.ChainEndsApart | threat-intel/dashboard_path_query.py:48-58 | for every `n` there is a graph whose two ends are exactly `n` hops apart |
| SearchScope.DocumentedScopeHolds | threat-intel/dashboard_path_query.py:48-64 | for any integer `max_depth`, negative ones included, the search covers exactly the documented `max_depth` hops on all graphs if and only if `max_depth` is even and at least 2 |
| TieredGraphStore.TieredStore.constructor | threat-intel/tiered_graph_store.py:51-55 | a new store is empty |
| TieredGraphStore.TieredStore.Observe | threat-intel/tiered_graph_store.py:59-73 | the state after an observation: cold endpoints rehydrated, both seen now, the link hot and confirmed if it was or is |
| TieredGraphStore.TieredStore.RehydrateNode | threat-intel/tiered_graph_store.py:75-79 | all of a node's cold links become hot with their marks |
| TieredGraphStore.TieredStore.DemoteDormant | threat-intel/tiered_graph_store.py:83-104 | whatever order nodes are visited in, the reported nodes are those that leave the hot tier: the dormant ones without an active neighbour at the start, moved with all their links |
| TieredGraphStore.HotAfterDemotion | threat-intel/tiered_graph_store.py:83-104 | over every run with a clock that never runs backwards, a demotion leaves hot exactly the nodes observed within the dormancy period and those ever linked to such a node |
| TieredGraphStore.DemotionOrderIrrelevant | threat-intel/tiered_graph_store.py:91-103 | demoting some eligible nodes changes the verdict on no other node |
| TieredGraphStore.RunConserves | threat-intel/tiered_graph_store.py:59-104 | over every run each link ever observed is in exactly one tier, no other link is, and marks are conserved |
| TieredGraphStore.QueriesSeeHistory | threat-intel/tiered_graph_store.py:108-120 | deep lookup has exactly the observed links, and a link is reported confirmed if and only if some observation confirmed it |
| TieredGraphStore.NeverForgotten | threat-intel/tiered_graph_store.py:114-120 | no later operation makes a confirmed link unconfirmed |
| TieredGraphStore.RecentNodesAreHot | threat-intel/tiered_graph_store.py:62-66 | with a non-decreasing clock a recently seen node has its whole observed history in the hot tier |
| TieredGraphStore.LastSeenIsLatest | threat-intel/tiered_graph_store.py:67-70 | the recorded time of a node is that of the last observation naming it |
| TieredGraphStore.DemotionSettles | threat-intel/tiered_graph_store.py:83-104 | repeating a demotion at the same time demotes nothing |
| CampaignGraph.CampaignStore.constructor | threat-intel/campaign_graph.py:42-44 | a new graph is empty |
| CampaignGraph.CampaignStore.RecordIncident | threat-intel/campaign_graph.py:46-78 | each reported key is touched, each pair linked now, and each pair corroborated by this incident's id |
| CampaignGraph.CampaignStore.PruneIsolatedNodes | threat-intel/campaign_graph.py:132-146 | exactly the isolated nodes past the cutoff disappear, and nothing else changes |
| CampaignGraph.NodesAfterRun | threat-intel/campaign_graph.py:132-146 | over every run, a reported node is still there exactly when it was ever reported together with a node, or no prune since its latest report came ninety days or more after it |
| CampaignGraph.NodeDatesFrom | threat-intel/campaign_graph.py:57-66 | a node's first-seen time is that of the incident that last created it, and its incident ids are those of the incidents naming it since |
| CampaignGraph.CampaignStore.KAnonymizedView | threat-intel/campaign_graph.py:116-130 | the view's edges are exactly the links with at least five incidents, both ways, and each of its nodes carries the attributes the graph stores for it |
| CampaignGraph.CampaignStore.TracePath | threat-intel/dashboard_path_query.py:131-166 | a path reported from the view is shortest in it, and every hop of it is exposable |
| CampaignGraph.RunCounts | threat-intel/campaign_graph.py:46-82 | over every run a pair's incident set is the set of distinct ids that reported both together, and exactly the co-reported pairs are linked |
| CampaignGraph.ViewIsKAnonymous | threat-intel/campaign_graph.py:84-88 | over every run a link is exposed if and only if at least five distinct incidents reported it |
| CampaignGraph.ExposureIsPermanent | threat-intel/campaign_graph.py:132-146 | no later record or prune hides an exposed link |
| CampaignGraph.PathHopsAreCorroborated | threat-intel/dashboard_path_query.py:24-28 | every hop of a walk in a run's view was reported by at least five distinct incidents |
| JsonExtraction.ExtractJson | mobile/src/ml/nativeLlamaScorer.ts:234-268 | the loop returns exactly the span the scanner on values finds, or nothing |
| JsonExtraction.PassesValue | mobile/src/ml/nativeLlamaScorer.ts:248-267 | every printed JSON value, with its nesting, escapes and brackets inside strings, leaves the scanner's depth and string state as it found them |
| JsonExtraction.ScanWhole | mobile/src/ml/nativeLlamaScorer.ts:248-267 | scanning a printed array or object followed by any text stops exactly at its end |
| JsonExtraction.ExtractionUndoesEmbedding | mobile/src/ml/nativeLlamaScorer.ts:233-268 | for every prefix, array or object, and suffix, extraction returns exactly the printed value if and only if the prefix has no opening bracket |
| JsonExtraction.ExtractsFirstBalanced | mobile/src/ml/nativeLlamaScorer.ts:233-268 | on any text the result starts at the first bracket and is the shortest span balancing it; there is none exactly when no span balances it |
| NativeLlamaScorer.ReadRows | mobile/src/ml/nativeLlamaScorer.ts:191-213 | whatever the types of the parsed fields, each requested tactic gets its last usable row, clamped and with its trimmed rationale, no other tactic appears, and nothing is read exactly when coercing the confidence of a row that names a requested tactic throws |
| NativeLlamaScorer.EachRowIsRead | mobile/src/ml/nativeLlamaScorer.ts:191-213 | when no two usable rows name one tactic, every usable row is read |
| NativeLlamaScorer.FormattedRowIsRead | mobile/src/ml/nativeLlamaScorer.ts:191-213 | a row in the requested format is read with its confidence unchanged within [0, 1], as 0 below and 1 above, and with its trimmed rationale |
| NativeLlamaScorer.ParseTacticAssessments | mobile/src/ml/nativeLlamaScorer.ts:150-215 | assessments are of requested tactics with confidence in [0, 1], read from the rows of the extracted and parsed text in any of its three shapes, and empty when it cannot be extracted or parsed |
| NativeLlamaScorer.ProseIsIgnored | mobile/src/ml/nativeLlamaScorer.ts:141-149 | prose around an array or object changes nothing of what is read, as long as it opens no bracket before it |
| NativeLlamaScorer.ReplyIsRead | mobile/src/ml/nativeLlamaScorer.ts:150-189 | a printed reply in prose that opens no bracket before it is read row by row in each of the three shapes |
| NativeLlamaScorer.ScoreTranscript | mobile/src/ml/nativeLlamaScorer.ts:279-345 | an engine that is not ready, fails, or yields nothing usable leaves the heuristic result; otherwise the blended one; every flag stays a Tier 0 finding with confidence in [0.35, 1] |
| SecureAggregation.ApplyPairwiseMasks | federated/secure_aggregation.py:49-67 | a masked update is the update plus its client's signed masks towards every other client, for any list of clients it shares seeds with |
| SecureAggregation.PairKeyShared | federated/secure_aggregation.py:60-65 | two clients share one key, and exactly one of them is its first half |
| SecureAggregation.MasksOppose | federated/secure_aggregation.py:40-46 | the mask of one client towards another is the negation of the reverse |
| SecureAggregation.MaskOfPair | federated/secure_aggregation.py:60-66 | of two clients the one that sorts first adds the expansion of their shared seed and the other subtracts it |
| SecureAggregation.LexByFirstDifference | federated/secure_aggregation.py:60 | ids sort by their first difference, a prefix first |
| SecureAggregation.FullCohortCancels | federated/secure_aggregation.py:40-67 | for any clients, seeds and updates the masked updates of the full cohort sum to the true sum |
| SecureAggregation.PartialCohortResidue | federated/secure_aggregation.py:49-67 | when clients drop out, what remains is exactly the masks between the staying and the dropped |
| SecureAggregation.OrderIrrelevant | federated/secure_aggregation.py:70-82 | the trimmed mean depends only on the multiset of values |
| SecureAggregation.TrimCountMeans | federated/secure_aggregation.py:76 | the number trimmed at each end is the largest whole number not above `n * fraction` |
| SecureAggregation.TrimmedMeanIsOfTheMiddle | federated/secure_aggregation.py:70-82 | for every ascending arrangement of the values, the mean times the number kept is the total without the first and the last `t` values, and there is no mean exactly when nothing is kept |
| SecureAggregation.TrimmedMeanIsRobust | federated/secure_aggregation.py:70-82 | with at most `floor(n * fraction)` arbitrary values and a fraction below one half the mean lies within the honest bounds |
| SecureAggregation.RoundIsRobust | federated/secure_aggregation.py:93-111 | a round runs exactly from fifty attested clients, ignores the others, and tolerates a tenth of arbitrary updates in every coordinate |
| SecureAggregation.RoundIsTrimmedMean | federated/secure_aggregation.py:93-111 | in each coordinate a round that runs reports the mean of the attested values between their lowest and highest tenth |
| SecureAggregation.RoundOrderIrrelevant | federated/secure_aggregation.py:93-111 | a round's result does not depend on the order of contributions |
| ModelDistribution.StratifiedCanaryCohort | federated/model_distribution.py:40-66 | the cohort is what the strata, in order of first appearance, are owed, followed by the first devices not taken, up to one in a hundred |
| ModelDistribution.CohortIsStratified | federated/model_distribution.py:40-47 | for distinct devices nobody is drawn twice, every stratum keeps its minimum, and the size is exactly the larger of what is owed and one in a hundred |
| ModelDistribution.FirstOfStratumIsOwed | federated/model_distribution.py:52-55 | a device is drawn for its stratum's minimum exactly when fewer than the minimum of its stratum are listed before it |
| ModelDistribution.RestIsFirstCome | federated/model_distribution.py:57-66 | a device beyond the minimum of its stratum is drawn exactly when fewer devices than the rest of the budget stand free before it |
| ModelDistribution.ShareOfTheRest | federated/model_distribution.py:57-66 | a stratum gets more than its minimum exactly when one of its free devices comes that early |
| ModelDistribution.HeadOfListTakesTheRest | federated/model_distribution.py:41-66 | enough devices of one stratum at the head of the list take all of the rest, and every other stratum gets its bare minimum, however large it is |
| Rounding.RoundMonotone | grounding/nli_entailment_gate.py:224-226 | rounding to four places preserves order, under both languages' tie rules |
| Rounding.RoundIdempotent | grounding/nli_entailment_gate.py:226 | rounding a rounded value changes nothing |
| Rounding.RoundIsNear | grounding/nli_entailment_gate.py:224-226 | rounding moves a number by 0.00005 at most |
| Rounding.RoundOfTie | grounding/nli_entailment_gate.py:224-226 | half way between two four-decimal numbers Python takes the even one and JavaScript the larger |
| ModelCascade.Tier0ScoreMessage | detection/conversation/model_cascade.py:60-88 | one finding for each tactic with an occurring cue, in taxonomy order, citing exactly the declarations that occur for 0.22 each up to 1 |
| ModelCascade.TwoCuesEscalate | detection/conversation/model_cascade.py:84-88 | a message reaches the escalation threshold exactly when two declarations of cues, of one tactic or of two, occur in it |
| ModelCascade.ShippedCueEscalatesAlone | detection/conversation/model_cascade.py:84-88 | with the shipped payment cues "wire the money" alone escalates a message |
| ModelCascade.Tier1Refine | detection/conversation/model_cascade.py:91-166 | every candidate is boosted by history and compounding, then blended with each model present |
| ModelCascade.ModelsWeighEvenly | detection/conversation/model_cascade.py:122-166 | each model present counts as much as everything before it |
| ModelCascade.ApplyMutualExclusivity | detection/conversation/model_cascade.py:169-186 | with distinct findings, exactly the candidates survive, in order, no excluded tactic of which was found with at least 0.7 of their score, an absent one counting as 0 |
| ModelCascade.RouteMessage | detection/conversation/model_cascade.py:189-223 | the branching over calls equals routing on values |
| ModelCascade.NothingRouted | detection/conversation/model_cascade.py:198-206 | on the message itself: nothing is routed exactly when no two declarations of cues occur or no scoreable tactic has an occurring cue |
| ModelCascade.RouteKeepsUnrivalled | detection/conversation/model_cascade.py:208-215 | what is routed are the refined scoreable findings that no tactic they exclude rivals, in order |
| ModelCascade.Tier2WithoutModels | detection/conversation/model_cascade.py:91-120 | without models a routed candidate reaches 0.55 exactly by its number of cues, the prior flags and compounding |
| ModelCascade.RouteMonotone | detection/conversation/model_cascade.py:91-223 | for any message and models, more prior flags never lower a candidate's score, drop a candidate or lower the tier reached |
| ModelCascade.RouteIsGrounded | detection/conversation/model_cascade.py:189-223 | whatever the history and the models say, a routed candidate is a scoreable tactic citing exactly its occurring cues, not dominated by an excluded tactic, with a score in [0, 1] |
| ModelCascade.TierReachedMeans | detection/conversation/model_cascade.py:198-223 | tier 2 is reached exactly when some routed candidate scores at least 0.55, tier 0 exactly below the threshold or without a scoreable tactic |
| TextRules.PiecesAreWords | mobile/src/ml/onDeviceCascade.ts:319 | the two languages split trimmed text into the same words if and only if it has none of the characters only one of them takes for white space |
| TextRules.DisputedCharacters | mobile/src/ml/onDeviceCascade.ts:319 | the languages disagree about exactly U+001C to U+001F, U+0085 and U+FEFF |
| EntailmentGate.HasNegation | grounding/nli_entailment_gate.py:170-196 | true exactly when a negation cue stands among the six words before a word that starts like a matched cue, or anywhere without matched cues |
| EntailmentGate.EvaluateEntailment | grounding/nli_entailment_gate.py:204-245 | the template loop computes the rounded mean; unknown tactics never survive |
| EntailmentGate.ConfidenceIsTemplateScore | grounding/nli_entailment_gate.py:221-226 | averaging over templates changes nothing: the confidence is the one template score |
| EntailmentGate.GateCandidates | grounding/nli_entailment_gate.py:248-288 | survivors are exactly the candidates at or above the ceiling after corroboration, in order, with one result each |
| EntailmentGate.SurvivesExactly | grounding/nli_entailment_gate.py:204-288 | a candidate clears the gate exactly when its tactic is known and its score times its grounding, rounded, reaches 0.35, or does with 0.15 for every further tactic, 0.30 at most |
| EntailmentGate.SurvivorsInOrder | grounding/nli_entailment_gate.py:270-288 | the survivors are the surviving candidates in their order |
| EntailmentGate.SpecificityIsGreatest | grounding/nli_entailment_gate.py:156-167 | the specificity is the weight of the heaviest cue |
| EntailmentGate.GateMonotone | grounding/nli_entailment_gate.py:248-288 | a dominating candidate list keeps every survivor |
| EntailmentGate.MorePriorFlagsKeepSurvivors | grounding/nli_entailment_gate.py:248-288 | through cascade and gate, more prior flags drop no survivor |
| EntailmentGate.DualUseAloneAbstains | grounding/nli_entailment_gate.py:62-69 | a candidate whose only cues are dual-use never survives without another tactic |
| ConversationMemory.ConversationStore.AddTurn | detection/conversation/memory_compaction.py:74-90 | the state after a turn: counted, appended, its findings flagged, the oldest turn dropped beyond twelve |
| ConversationMemory.WindowIsRecentTurns | detection/conversation/memory_compaction.py:74-97 | over every history the window is exactly the last `min(12, n)` turns |
| ConversationMemory.FlagsArePermanent | detection/conversation/memory_compaction.py:92-97 | flags are only ever appended |
| ConversationMemory.FindingsAreRemembered | detection/conversation/memory_compaction.py:99-103 | a tactic is a prior flag if and only if some turn ever found it |
| ConversationMemory.FlagsRecordFindings | detection/conversation/memory_compaction.py:79-87 | over every history the flags are exactly the records of the findings of all turns, each with its turn number, score, time and evidence |
| ConversationMemory.LongerHistoryKeepsSurvivors | detection/conversation/memory_compaction.py:99-103 | for one message, a longer conversation drops no survivor of cascade and gate |
| OnDeviceCascade.FilterCues | mobile/src/ml/onDeviceCascade.ts:271-274 | the inner loop reports the cues at exactly the declared positions whose cue occurs, in order |
| OnDeviceCascade.Tier0Scan | mobile/src/ml/onDeviceCascade.ts:267-283 | one finding for each tactic with an occurring cue, in order, citing exactly the declarations that occur for 0.22 each up to 1 |
| OnDeviceCascade.TwoCuesWakeTheModel | mobile/src/ml/onDeviceCascade.ts:301-311 | the model is worth asking exactly when two declarations of scoreable tactics' cues occur |
| OnDeviceCascade.HasNegation | mobile/src/ml/onDeviceCascade.ts:314-332 | true exactly when a negation cue stands among the six words before a word that starts like a matched span |
| OnDeviceCascade.RunOnDeviceCascade | mobile/src/ml/onDeviceCascade.ts:463-537 | the flag loop equals the cascade on values |
| OnDeviceCascade.RefinedAreTier0 | mobile/src/ml/onDeviceCascade.ts:433-453 | boost and exclusion neither add a tactic nor change its spans |
| OnDeviceCascade.RefinedAreUnrivalled | mobile/src/ml/onDeviceCascade.ts:443-453 | what reaches the gate are the boosted scoreable findings that no tactic they exclude rivals, in order |
| OnDeviceCascade.RefinedScore | mobile/src/ml/onDeviceCascade.ts:433-441 | a refined candidate scores 0.22 for each span and 0.1, or 0.2 for the payment tactic, when two scoreable tactics are found |
| OnDeviceCascade.FlagsAreGrounded | mobile/src/ml/onDeviceCascade.ts:463-537 | whatever a model says, every flag is a Tier 0 candidate with its non-empty spans and confidence in [0.35, 1] |
| OnDeviceCascade.FlagMembers | mobile/src/ml/onDeviceCascade.ts:515-534 | a flag is shown exactly for the candidates whose confidence, lifted by corroboration, clears the ceiling |
| OnDeviceCascade.FlagsInOrder | mobile/src/ml/onDeviceCascade.ts:515-534 | the flags are those of the candidates that surface, in order |
| OnDeviceCascade.SurfacesExactly | mobile/src/ml/onDeviceCascade.ts:511-534 | a candidate surfaces exactly when its score times its grounding reaches 0.35, or does with 0.15 for every further tactic, 0.3 at most, and that value is shown rounded |
| OnDeviceCascade.RaisingConfidenceKeepsFlags | mobile/src/ml/onDeviceCascade.ts:497-534 | with the scored tactics fixed, raising model confidences removes no flag |
| OnDeviceCascade.LiftIsNotMonotone | mobile/src/ml/onDeviceCascade.ts:518-527 | of two gate confidences the higher is shown lower, after rounding, exactly when it crosses the ceiling to a value that rounds to less than the other with the corroboration |
| OnDeviceCascade.ShownConfidenceDrops | mobile/src/ml/onDeviceCascade.ts:497-534 | for one refined candidate and raised model confidences both runs show its flag, and the raised run shows it lower exactly in that case |
| RaisedConfidence.HigherConfidenceShownLower | mobile/src/ml/onDeviceCascade.ts:463-537 | on one device and message a model confidence of 0.4 is shown as 0.474 and one of 0.5 as 0.369 |
| PortAgreement.GroundingAgrees | mobile/src/ml/onDeviceCascade.ts:314-429 | on normalised text and spans without a disputed white-space character the port's grounding checks leave exactly what the server's leave |
| PortAgreement.SeparatorDecidesAgreement | mobile/src/ml/onDeviceCascade.ts:314-332 | with one character between a negation and a cue, port and server agree exactly when both languages or neither take it for white space |
| SmsGateway.TokenBucket.Refill | offline/sms_gateway.py:42-45 | the bucket after a refill at a given time |
| SmsGateway.TokenBucket.TryConsume | offline/sms_gateway.py:47-53 | the bucket and the verdict after a call at a given time |
| SmsGateway.Gateway.Admit | offline/sms_gateway.py:80-86 | a call creates or uses its own sender's bucket and leaves every other bucket as it was |
| SmsGateway.AvailableIsLeastAllowance | offline/sms_gateway.py:42-53 | the tokens a call finds are the least allowance over all windows ending at it |
| SmsGateway.AcceptedIffNoWindowExhausted | offline/sms_gateway.py:47-53 | a call is accepted if and only if no window ending at it has used its allowance up |
| SmsGateway.WindowBound | offline/sms_gateway.py:42-53 | for any clock readings, the accepted calls of a window ending at an accepted call number at most capacity plus rate times its length |
| SmsGateway.SendersAreIsolated | offline/sms_gateway.py:80-86 | a sender's bucket is what that sender's own calls alone would have left |
| SmsGateway.SenderWindowBound | offline/sms_gateway.py:42-86 | in any interleaving of calls, the accepted calls of one sender from one of its calls to an accepted later one number at most five and one for each minute between them |
| SmsGateway.AdmittedExactly | offline/sms_gateway.py:42-86 | in any interleaving and for any clock readings, a call is accepted if and only if that keeps its sender within five and one a minute since each of its calls and since its bucket was created |
| ThermalGovernor.Governor.Update | detection/telemetry/thermal_governor.py:112-127 | the next rung and its policy; never below the target, down at most one rung, up only to the target, with a notice exactly on the top rung |
| ThermalGovernor.RunRespectsTarget | detection/telemetry/thermal_governor.py:112-147 | over every run the rung is never below the last target and falls at most one rung an update |
| ThermalGovernor.ThresholdsOfTheLadder | detection/telemetry/thermal_governor.py:112-147 | over every run, the temperatures at which each rung is entered at once, kept and left |
| ThermalGovernor.ReentryCostsClimb | detection/telemetry/thermal_governor.py:140-147 | on every run, with or without the CPU fallback, `k` re-entries of the elevated or the severe rung need a total rise of at least `0.05 * k` |
| ThermalGovernor.TopRungHysteresis | detection/telemetry/thermal_governor.py:129-147 | every run under a schedule of the fallback pays the same for re-entering the top rung if and only if, after the first reading, the schedule never turns the fallback on once it was off |
| ThermalGovernor.FallbackDefeatsHysteresis | detection/telemetry/thermal_governor.py:129-147 | every schedule that turns the fallback on again has a run that only cools and enters the top rung at least twice |
| ThermalGovernor.Recovery | detection/telemetry/thermal_governor.py:112-147 | cool readings bring the rung down by exactly one each, to nominal |
| WakeGate.ChangepointDetector.Update | detection/telemetry/wake_gate.py:46-74 | the detector's next state and verdict, the baseline moving only without an alarm |
| WakeGate.SteadySignalIsLearned | detection/telemetry/wake_gate.py:55-74 | as long as nothing alarms, `n` samples of a steady signal leave `(1 - alpha)^n` of the distance of each mean from it |
| WakeGate.AlarmPersists | detection/telemetry/wake_gate.py:68-72 | once the fast mean is beyond the threshold on one side, samples beyond it on that side alarm each time and freeze the baseline |
| WakeGate.SustainedAnomalyIsNotAbsorbed | detection/telemetry/wake_gate.py:65-72 | after any alarm, a run of samples beyond the threshold on its side is never absorbed into the baseline |
| TranscriptNormalizer.ReassembleTurns | detection/conversation/transcript_normalizer.py:79-113 | the output flushes the bursts of the messages, one turn each |
| TranscriptNormalizer.BurstsAreReassembly | detection/conversation/transcript_normalizer.py:73-113 | the bursts are a lossless division of the messages, each message joining the one before inside a burst and none across two bursts |
| TranscriptNormalizer.WhatMakesABurst | detection/conversation/transcript_normalizer.py:100-113 | inside a burst each message is by the same sender within 4000 ms of one of four words at most; at a boundary one of these fails |
| TranscriptNormalizer.ReassemblyKeepsWords | detection/conversation/transcript_normalizer.py:93-98 | the words of the turns are those of the normalised messages, in order |
| TranscriptNormalizer.ReassemblyUnique | detection/conversation/transcript_normalizer.py:73-113 | there is only one lossless division into maximal bursts |
| StalkerwareSignatures.MaskSetsOneBit | detection/device/stalkerware_signatures.py:39-44 | or-ing a mask into a byte sets its bit and no other |
| StalkerwareSignatures.BloomFilter.Add | detection/device/stalkerware_signatures.py:39-41 | adding an item sets exactly the bits it selects, in place |
| StalkerwareSignatures.BloomFilter.MightContain | detection/device/stalkerware_signatures.py:43-44 | true exactly when every bit the item selects is set |
| StalkerwareSignatures.StalkerwareSignatureIndex.constructor | detection/device/stalkerware_signatures.py:58-62 | the filter's set bits are exactly those some known signature selects |
| StalkerwareSignatures.StalkerwareSignatureIndex.Check | detection/device/stalkerware_signatures.py:64-68 | a match is reported exactly when every selected bit is covered, and it is confirmed if and only if the candidate is a known signature |

## Left out

- Floating point: scores, distances, times and updates are reals; integer division and truncation of reals are written out.
- Vectors: an abstract metric, similarity and normalisation on an abstract vector type; the random level of a node is an input.
- Heaps, sets and dictionaries: `heapq` is modelled by its contract on sets of distinct (distance, index) pairs; iteration over a set or dictionary is an arbitrary choice, so results hold for every order.
- Library sorts: `list.sort` and `np.sort` are insertion sorts on values with the same order and tie rules.
- Clocks, fresh identifiers, hashes, the mask generator, lower-casing, text normalisation, `JSON.parse` and the language models: inputs or abstract functions.
- Characters outside the Basic Multilingual Plane, which JavaScript strings hold as two units, are one character each.
- Recovery of the masks of clients that drop out: the repository has none, so only the residue they leave is stated.
- NativeLlamaScorer.ParseTacticAssessments: `JSON.parse`, and `Number` of a string, array or object, are abstract functions; `Number` of the other values is written out.
- ModelDistribution.StratifiedCanaryCohort: a device record is its identity and stratum, the minimum per stratum is not negative; CohortIsStratified assumes no record is listed twice.
- StalkerwareSignatures.BloomFilter.Add: needs a filter of at least one bit, as the source's modulus does.
- CampaignGraph.CampaignStore.RecordIncident: a report is its key; the kind and the value the key is built from are not kept apart.
- TieredGraphStore.TieredStore.Observe: edge attributes other than `confirmed` are not modelled, and deep lookup is stated for links, not for isolated nodes.
- ConversationMemory.ConversationStore.AddTurn: entities, their salience and the structured summary are not modelled.
- WakeGate.ChangepointDetector.Update: the square root is avoided by comparing squares; the three wake signals combined around the detector are one disjunction and left out.
- AnnHnsw.HnswIndex.Query: that the nearest points are found is not stated beyond `2m + 1` points, where the search is approximate by design; its hits then cannot be improved from within.
- The confidence gate behind the entailment gate: more evidence can hide a flag there, so monotonicity stops at the survivors.
- Agreement of the whole device cascade with the server's: they compound from different numbers of tactics.
- Reply texts, drop reasons, escalation messages, labels and other strings shown to people.
- Canary evaluation, circuit breaker, risk expiry of phone numbers, centrality, PageRank, embeddings and noise: short thresholds or library code.
- The native model lifecycle, provisioning, storage, encryption, servers, screens and build files.
