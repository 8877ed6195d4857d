/** The Python cascade: Tier 0 scoring, Tier 1 refinement, mutual exclusion, routing. */
module ModelCascade {
  import opened FastPatternMatcher
  import opened Selection
  import opened Sets
  import opened Substrings

  const TIER0_ESCALATION_THRESHOLD := 0.28
  const TIER1_ESCALATION_THRESHOLD := 0.55
  const PAYMENT := "payment_channel_funneling"
  const CALMING := "calming_reassurance"

  /** The taxonomy with the exclusions each tactic declares. */
  datatype Tactics = Tactics(taxonomy: seq<Tactic>, exclusive: map<string, seq<string>>)

  /** A message after normalisation, and its lower-case form. */
  datatype Message = Message(normalized: string, lowered: string)

  datatype Candidate = Candidate(tacticId: string, spans: seq<string>, score: real, context: string)

  datatype CascadeResult = CascadeResult(tierReached: nat, candidates: seq<Candidate>, tier0Score: real)

  function Min(a: real, b: real): real {
    if a <= b then a else b
  }

  function Ids(cs: seq<Candidate>): set<string> {
    set c | c in cs :: c.tacticId
  }

  // ------------------------------------------------------------------ Tier 0

  function Tier0Candidates(taxonomy: seq<Tactic>, msg: Message): seq<Candidate> {
    if taxonomy == [] then []
    else
      var t := taxonomy[|taxonomy| - 1];
      var matched := Matched(t.cues, msg.lowered);
      Tier0Candidates(taxonomy[..|taxonomy| - 1], msg)
      + (if matched == [] then [] else [Candidate(t.id, matched, Min(1.0, 0.22 * |matched| as real), msg.normalized)])
  }

  ghost predicate SomeCueOccurs(cues: seq<string>, text: string) {
    exists c :: c in cues && Occurs(c, text)
  }

  /** What a scan makes of a tactic: its cues that occur, as often as declared, for 0.22 each up to 1. */
  ghost predicate IsFinding(id: string, cues: seq<string>, lowered: string, context: string, c: Candidate) {
    && c.tacticId == id && c.context == context
    && c.spans != [] && ListsOccurring(cues, lowered, c.spans)
    && c.score == Min(1.0, 0.22 * |c.spans| as real)
  }

  /** One finding for each tactic with an occurring cue, in declaration order. */
  ghost predicate FindsAll(taxonomy: seq<Tactic>, msg: Message, cs: seq<Candidate>) {
    Selected(taxonomy, (t: Tactic) => SomeCueOccurs(t.cues, msg.lowered),
             (t: Tactic, c: Candidate) => IsFinding(t.id, t.cues, msg.lowered, msg.normalized, c), cs)
  }

  lemma {:induction false} Tier0FindsAll(taxonomy: seq<Tactic>, msg: Message)
    ensures FindsAll(taxonomy, msg, Tier0Candidates(taxonomy, msg))
  {
    hide Matched, ListsOccurring, Occurs, Selected;
    var keep := (t: Tactic) => SomeCueOccurs(t.cues, msg.lowered);
    var makes := (t: Tactic, c: Candidate) => IsFinding(t.id, t.cues, msg.lowered, msg.normalized, c);
    if taxonomy == [] {
      NothingSelected(keep, makes);
    } else {
      var (front, last) := (taxonomy[..|taxonomy| - 1], taxonomy[|taxonomy| - 1]);
      Tier0FindsAll(front, msg);
      MatchedLists(last.cues, msg.lowered);
      SelectNext(taxonomy, keep, makes, Tier0Candidates(front, msg), Tier0Candidates(taxonomy, msg));
    }
  }

  function Hits(cs: seq<Candidate>): nat {
    if cs == [] then 0 else Hits(cs[..|cs| - 1]) + |cs[|cs| - 1].spans|
  }

  function Tier0Score(cs: seq<Candidate>): real {
    Min(1.0, 0.18 * |Ids(cs)| as real + 0.05 * Hits(cs) as real)
  }

  lemma {:induction false} HitsAppend(a: seq<Candidate>, b: seq<Candidate>)
    ensures Hits(a + b) == Hits(a) + Hits(b)
  {
    if b == [] {
      assert a + b == a;
    } else {
      assert (a + b)[..|a + b| - 1] == a + b[..|b| - 1];
      HitsAppend(a, b[..|b| - 1]);
    }
  }

  /** A message with findings for one tactic scores 0.18 and 0.05 for each cue, up to 1. */
  lemma ScoreOfOne(c: Candidate)
    ensures Hits([c]) == |c.spans| && Tier0Score([c]) == Min(1.0, 0.18 + 0.05 * |c.spans| as real)
  {
    assert [c][..0] == [];
    assert Ids([c]) == {c.tacticId};
  }

  lemma NoCandidates(msg: Message)
    ensures Tier0Candidates([], msg) == [] && Hits([]) == 0
  {
  }

  /** What tactic `i` adds to the candidates, read off the scan. */
  lemma NextCandidate(taxonomy: seq<Tactic>, msg: Message, i: nat)
    requires DistinctIds(taxonomy) && i < |taxonomy|
    ensures var byTactic, id := NaiveScan(taxonomy, msg.lowered), taxonomy[i].id;
            var before, after := Tier0Candidates(taxonomy[..i], msg), Tier0Candidates(taxonomy[..i + 1], msg);
            if id in byTactic then
              && after == before + [Candidate(id, byTactic[id], Min(1.0, 0.22 * |byTactic[id]| as real),
                                              msg.normalized)]
              && Hits(after) == Hits(before) + |byTactic[id]|
            else after == before
  {
    hide ScanMap, Matched, DistinctIds;
    ScanMapAt(taxonomy, cues => Matched(cues, msg.lowered));
    assert taxonomy[..i + 1][..i] == taxonomy[..i];
    var before, after := Tier0Candidates(taxonomy[..i], msg), Tier0Candidates(taxonomy[..i + 1], msg);
    assert |after| == |before| + 1 ==> after[..|before|] == before;
  }

  method Tier0ScoreMessage(taxonomy: seq<Tactic>, msg: Message) returns (score: real, candidates: seq<Candidate>)
    requires DistinctIds(taxonomy)
    ensures candidates == Tier0Candidates(taxonomy, msg) && score == Tier0Score(candidates)
    ensures FindsAll(taxonomy, msg, candidates)
  {
    hide NaiveScan, DistinctIds, Ids, FindsAll, ReportsScan, Tier0Candidates, Hits;
    candidates := [];
    var hits := 0;
    var matchedByTactic := NaiveCueScan(taxonomy, msg.lowered);
    NoCandidates(msg);
    assert taxonomy[..0] == [];
    for i := 0 to |taxonomy|
      invariant candidates == Tier0Candidates(taxonomy[..i], msg) && hits == Hits(candidates)
    {
      NextCandidate(taxonomy, msg, i);
      var id := taxonomy[i].id;
      if id in matchedByTactic {
        var matched := matchedByTactic[id];
        var c := Candidate(id, matched, Min(1.0, 0.22 * |matched| as real), msg.normalized);
        hits := hits + |matched|;
        candidates := candidates + [c];
      }
    }
    assert taxonomy[..|taxonomy|] == taxonomy;
    Tier0FindsAll(taxonomy, msg);
    score := Min(1.0, 0.18 * |Ids(candidates)| as real + 0.05 * hits as real);
  }

  // ------------------------------------------------- what escalates past Tier 0

  predicate CueOccursAt(lists: seq<seq<string>>, text: string, i: nat, j: nat) {
    i < |lists| && j < |lists[i]| && Occurs(lists[i][j], text)
  }

  /** Two declarations of cues, of one tactic or of two, occur; a cue declared twice counts twice. */
  ghost predicate TwoCuesOccur(lists: seq<seq<string>>, text: string) {
    exists i: nat, j: nat, k: nat, l: nat ::
      CueOccursAt(lists, text, i, j) && CueOccursAt(lists, text, k, l) && (i < k || (i == k && j < l))
  }

  function CueLists(taxonomy: seq<Tactic>): (r: seq<seq<string>>)
    ensures |r| == |taxonomy| && forall i :: 0 <= i < |taxonomy| ==> r[i] == taxonomy[i].cues
  {
    seq(|taxonomy|, i requires 0 <= i < |taxonomy| => taxonomy[i].cues)
  }

  /** One finding with one cue scores 0.23; anything more reaches 0.28. */
  lemma ScoreByCount(cs: seq<Candidate>)
    requires forall i, j :: 0 <= i < j < |cs| ==> cs[i].tacticId != cs[j].tacticId
    requires forall c :: c in cs ==> c.spans != []
    ensures Tier0Score(cs) >= 0.28 <==> |cs| >= 2 || (|cs| == 1 && |cs[0].spans| >= 2)
  {
    if |cs| == 0 {
      assert Ids(cs) == {};
    } else if |cs| == 1 {
      assert Ids(cs) == {cs[0].tacticId};
      assert cs[..0] == [] && Hits(cs) == |cs[0].spans|;
    } else {
      var two := {cs[0].tacticId, cs[1].tacticId};
      assert cs[0] in cs && cs[1] in cs;
      SubsetSize(two, Ids(cs));
    }
  }

  lemma TwoSpans(cues: seq<string>, text: string, spans: seq<string>)
    requires ListsOccurring(cues, text, spans)
    ensures |spans| >= 2 <==>
            exists j, l :: 0 <= j < l < |cues| && Occurs(cues[j], text) && Occurs(cues[l], text)
  {
    hide Occurs;
    var at :| ReadAt(cues, text, spans, at);
    if |spans| >= 2 {
      assert at[0] in at && at[1] in at;
      assert at[0] < at[1];
    }
    if j, l :| 0 <= j < l < |cues| && Occurs(cues[j], text) && Occurs(cues[l], text) {
      assert j in at && l in at;
    }
  }

  /** A message escalates exactly when two declarations of cues occur in it. */
  lemma TwoCuesEscalate(taxonomy: seq<Tactic>, msg: Message)
    requires DistinctIds(taxonomy)
    ensures Tier0Score(Tier0Candidates(taxonomy, msg)) >= 0.28 <==> TwoCuesOccur(CueLists(taxonomy), msg.lowered)
  {
    Tier0FindsAll(taxonomy, msg);
    FindingsEscalate(taxonomy, msg, Tier0Candidates(taxonomy, msg));
  }

  /** As shipped, "wire the money" said once escalates a message on its own: it is declared twice. */
  lemma ShippedCueEscalatesAlone(taxonomy: seq<Tactic>, msg: Message)
    requires DistinctIds(taxonomy) && Tactic(PAYMENT, PAYMENT_CUES) in taxonomy
    requires Occurs("wire the money", msg.lowered)
    ensures Tier0Score(Tier0Candidates(taxonomy, msg)) >= 0.28
  {
    hide Occurs, Tier0Score, Tier0Candidates;
    TwoCuesEscalate(taxonomy, msg);
    var i :| 0 <= i < |taxonomy| && taxonomy[i] == Tactic(PAYMENT, PAYMENT_CUES);
    assert CueOccursAt(CueLists(taxonomy), msg.lowered, i, 3) && CueOccursAt(CueLists(taxonomy), msg.lowered, i, 10);
  }

  lemma FindingsEscalate(taxonomy: seq<Tactic>, msg: Message, cs: seq<Candidate>)
    requires DistinctIds(taxonomy) && FindsAll(taxonomy, msg, cs)
    ensures Tier0Score(cs) >= 0.28 <==> TwoCuesOccur(CueLists(taxonomy), msg.lowered)
  {
    hide Occurs, ListsOccurring, Tier0Score;
    var lists, text := CueLists(taxonomy), msg.lowered;
    var at :| SelectedAt(taxonomy, (t: Tactic) => SomeCueOccurs(t.cues, msg.lowered),
                         (t: Tactic, c: Candidate) => IsFinding(t.id, t.cues, msg.lowered, msg.normalized, c), cs, at);
    ScoreByCount(cs);
    TwoFound(lists, text, cs, at);
  }

  lemma TwoFound(lists: seq<seq<string>>, text: string, cs: seq<Candidate>, at: seq<nat>)
    requires |at| == |cs| && Increasing(at)
    requires forall k :: 0 <= k < |at| ==> at[k] < |lists| && ListsOccurring(lists[at[k]], text, cs[k].spans)
    requires forall i :: 0 <= i < |lists| ==> (i in at <==> SomeCueOccurs(lists[i], text))
    ensures |cs| >= 2 || (|cs| == 1 && |cs[0].spans| >= 2) <==> TwoCuesOccur(lists, text)
  {
    hide Occurs, ListsOccurring;
    if |cs| >= 2 {
      var (i, k) := (at[0], at[1]);
      assert i in at && k in at && i < k;
      var c :| c in lists[i] && Occurs(c, text);
      var d :| d in lists[k] && Occurs(d, text);
      var j :| 0 <= j < |lists[i]| && lists[i][j] == c;
      var l :| 0 <= l < |lists[k]| && lists[k][l] == d;
      assert CueOccursAt(lists, text, i, j) && CueOccursAt(lists, text, k, l);
    } else if |cs| == 1 && |cs[0].spans| >= 2 {
      TwoSpans(lists[at[0]], text, cs[0].spans);
      var j, l :| 0 <= j < l < |lists[at[0]]| && Occurs(lists[at[0]][j], text) && Occurs(lists[at[0]][l], text);
      assert CueOccursAt(lists, text, at[0], j) && CueOccursAt(lists, text, at[0], l);
    }
    if TwoCuesOccur(lists, text) {
      var i: nat, j: nat, k: nat, l: nat :|
        CueOccursAt(lists, text, i, j) && CueOccursAt(lists, text, k, l) && (i < k || (i == k && j < l));
      assert i in at by { assert lists[i][j] in lists[i]; }
      assert k in at by { assert lists[k][l] in lists[k]; }
      if |cs| < 2 {
        assert at == [i] && i == k;
        TwoSpans(lists[i], text, cs[0].spans);
      }
    }
  }

  predicate IsScoreable(tactics: Tactics, id: string) {
    id != CALMING && exists t :: t in tactics.taxonomy && t.id == id
  }

  function Scoreable(tactics: Tactics, cs: seq<Candidate>): seq<Candidate> {
    if cs == [] then []
    else (if IsScoreable(tactics, cs[0].tacticId) then [cs[0]] else []) + Scoreable(tactics, cs[1..])
  }

  // ------------------------------------------------------------------ Tier 1

  /** The confidences of the optional models, by tactic; empty when a model is absent. */
  datatype Models = Models(onnx: map<string, real>, llm: map<string, real>)

  function Boost(id: string, prior: set<string>, compounding: bool): real {
    (if id in prior then 0.15 else 0.0)
    + (if id == PAYMENT then (if prior != {} then 0.20 else 0.0) + (if compounding then 0.20 else 0.0)
       else if compounding then 0.10 else 0.0)
  }

  function Blend(c: Candidate, confidences: map<string, real>): Candidate {
    if c.tacticId in confidences then c.(score := Min(1.0, 0.5 * c.score + 0.5 * confidences[c.tacticId])) else c
  }

  function RefineOne(c: Candidate, prior: set<string>, compounding: bool, models: Models): Candidate {
    Blend(Blend(c.(score := Min(1.0, c.score + Boost(c.tacticId, prior, compounding))), models.onnx), models.llm)
  }

  function RefineAll(cs: seq<Candidate>, prior: set<string>, compounding: bool, models: Models): (r: seq<Candidate>)
    ensures |r| == |cs| && forall i :: 0 <= i < |cs| ==> r[i] == RefineOne(cs[i], prior, compounding, models)
  {
    seq(|cs|, i requires 0 <= i < |cs| => RefineOne(cs[i], prior, compounding, models))
  }

  function BlendAll(cs: seq<Candidate>, confidences: map<string, real>): (r: seq<Candidate>)
    ensures |r| == |cs| && forall i :: 0 <= i < |cs| ==> r[i] == Blend(cs[i], confidences)
  {
    seq(|cs|, i requires 0 <= i < |cs| => Blend(cs[i], confidences))
  }

  method Tier1Refine(candidates: seq<Candidate>, prior: set<string>, models: Models) returns (refined: seq<Candidate>)
    ensures refined == RefineAll(candidates, prior, |Ids(candidates)| >= 3, models)
  {
    var compounding := |Ids(candidates)| >= 3;
    refined := [];
    for i := 0 to |candidates|
      invariant |refined| == i
      invariant forall k :: 0 <= k < i ==>
                  refined[k] ==
                    candidates[k].(score := Min(1.0, candidates[k].score
                                                     + Boost(candidates[k].tacticId, prior, compounding)))
    {
      var c := candidates[i];
      var boost := 0.0;
      if c.tacticId in prior {
        boost := boost + 0.15;
      }
      if c.tacticId == PAYMENT {
        if prior != {} {
          boost := boost + 0.20;
        }
        if compounding {
          boost := boost + 0.20;
        }
      } else if compounding {
        boost := boost + 0.10;
      }
      refined := refined + [c.(score := Min(1.0, c.score + boost))];
    }
    if models.onnx != map[] {
      refined := BlendAll(refined, models.onnx);
    }
    if models.llm != map[] {
      refined := BlendAll(refined, models.llm);
    }
  }

  // -------------------------------------------------------- mutual exclusion

  const NO_MODELS := Models(map[], map[])

  /** How strong a finding must be to score 0.55 without a model. */
  predicate ReachesTier2(id: string, cues: nat, prior: set<string>, compounding: bool) {
    || cues >= 3
    || (cues == 2 && if id == PAYMENT then prior != {} || compounding else id in prior)
    || (cues == 1 && id == PAYMENT && prior != {} && (compounding || id in prior))
  }

  lemma RefinedReachesTier2(c: Candidate, prior: set<string>, compounding: bool)
    requires c.spans != [] && c.score == Min(1.0, 0.22 * |c.spans| as real)
    ensures RefineOne(c, prior, compounding, NO_MODELS).score >= 0.55 <==>
            ReachesTier2(c.tacticId, |c.spans|, prior, compounding)
  {
  }

  /** A model's confidence counts as much as everything before it. */
  lemma ModelsWeighEvenly(c: Candidate, prior: set<string>, compounding: bool, models: Models)
    requires 0.0 <= c.score && Calibrated(models.onnx) && Calibrated(models.llm)
    ensures var (id, s) := (c.tacticId, RefineOne(c, prior, compounding, NO_MODELS).score);
            var t := RefineOne(c, prior, compounding, models).score;
            if id in models.onnx && id in models.llm then 4.0 * t == s + models.onnx[id] + 2.0 * models.llm[id]
            else if id in models.onnx then 2.0 * t == s + models.onnx[id]
            else if id in models.llm then 2.0 * t == s + models.llm[id]
            else t == s
  {
  }

  /** `{c.tactic_id: c.base_score}`: a later candidate of the same tactic wins. */
  function ScoreOf(all: seq<Candidate>, id: string): real {
    if all == [] then 0.0
    else if all[|all| - 1].tacticId == id then all[|all| - 1].score
    else ScoreOf(all[..|all| - 1], id)
  }

  function Exclusions(tactics: Tactics, id: string): seq<string> {
    if id in tactics.exclusive then tactics.exclusive[id] else []
  }

  predicate Conflicted(tactics: Tactics, c: Candidate, all: seq<Candidate>) {
    exists other :: other in Exclusions(tactics, c.tacticId) && ScoreOf(all, other) >= c.score * 0.7
  }

  ghost predicate DistinctFindings(cs: seq<Candidate>) {
    forall i, j :: 0 <= i < j < |cs| ==> cs[i].tacticId != cs[j].tacticId
  }

  /** A tactic was found with at least 0.7 of a score; one that was not found counts as 0. */
  ghost predicate Rivals(all: seq<Candidate>, id: string, score: real) {
    || (exists d :: d in all && d.tacticId == id && d.score >= score * 0.7)
    || ((forall d :: d in all ==> d.tacticId != id) && score <= 0.0)
  }

  /** Some tactic that `c` excludes rivals it. */
  ghost predicate Rivalled(tactics: Tactics, c: Candidate, all: seq<Candidate>) {
    && c.tacticId in tactics.exclusive
    && exists other :: other in tactics.exclusive[c.tacticId] && Rivals(all, other, c.score)
  }

  lemma {:induction false} ScoreOfFound(all: seq<Candidate>, id: string, score: real)
    requires DistinctFindings(all)
    ensures ScoreOf(all, id) >= score * 0.7 <==> Rivals(all, id, score)
  {
    if all != [] {
      var (front, last) := (all[..|all| - 1], all[|all| - 1]);
      ScoreOfFound(front, id, score);
      assert forall d :: d in all <==> d in front || d == last by { assert all == front + [last]; }
      assert last.tacticId == id ==> forall d :: d in front ==> d.tacticId != id;
    }
  }

  lemma ConflictedMeansRivalled(tactics: Tactics, c: Candidate, all: seq<Candidate>)
    requires DistinctFindings(all)
    ensures Conflicted(tactics, c, all) <==> Rivalled(tactics, c, all)
  {
    hide ScoreOf, Rivals, DistinctFindings;
    forall other
      ensures ScoreOf(all, other) >= c.score * 0.7 <==> Rivals(all, other, c.score)
    {
      ScoreOfFound(all, other, c.score);
    }
  }

  /** Exactly the candidates no excluded tactic rivals, in order. */
  ghost predicate KeepsUnrivalled(tactics: Tactics, cs: seq<Candidate>, all: seq<Candidate>, kept: seq<Candidate>) {
    Selected(cs, (c: Candidate) => !Rivalled(tactics, c, all), (c: Candidate, d: Candidate) => c == d, kept)
  }

  lemma {:induction false} SurvivorsAreUnrivalled(tactics: Tactics, cs: seq<Candidate>, all: seq<Candidate>)
    requires DistinctFindings(all)
    ensures KeepsUnrivalled(tactics, cs, all, Survivors(tactics, cs, all))
  {
    hide Selected, Conflicted, Rivalled, DistinctFindings;
    var keep := (c: Candidate) => !Rivalled(tactics, c, all);
    var same := (c: Candidate, d: Candidate) => c == d;
    if cs == [] {
      NothingSelected(keep, same);
    } else {
      var (front, last) := (cs[..|cs| - 1], cs[|cs| - 1]);
      SurvivorsAreUnrivalled(tactics, front, all);
      ConflictedMeansRivalled(tactics, last, all);
      SelectNext(cs, keep, same, Survivors(tactics, front, all), Survivors(tactics, cs, all));
    }
  }

  function Survivors(tactics: Tactics, cs: seq<Candidate>, all: seq<Candidate>): seq<Candidate> {
    if cs == [] then []
    else
      Survivors(tactics, cs[..|cs| - 1], all)
      + (if Conflicted(tactics, cs[|cs| - 1], all) then [] else [cs[|cs| - 1]])
  }

  method ApplyMutualExclusivity(tactics: Tactics, candidates: seq<Candidate>, all: seq<Candidate>)
    returns (survivors: seq<Candidate>)
    ensures survivors == Survivors(tactics, candidates, all)
    ensures DistinctFindings(all) ==> KeepsUnrivalled(tactics, candidates, all, survivors)
  {
    hide KeepsUnrivalled;
    if DistinctFindings(all) {
      SurvivorsAreUnrivalled(tactics, candidates, all);
    }
    survivors := [];
    for i := 0 to |candidates|
      invariant survivors == Survivors(tactics, candidates[..i], all)
    {
      assert candidates[..i + 1][..i] == candidates[..i];
      var c := candidates[i];
      var others := Exclusions(tactics, c.tacticId);
      var conflict := false;
      var k := 0;
      while k < |others| && !conflict
        invariant k <= |others|
        invariant conflict <==> exists j :: 0 <= j < k && ScoreOf(all, others[j]) >= c.score * 0.7
      {
        conflict := ScoreOf(all, others[k]) >= c.score * 0.7;
        k := k + 1;
      }
      if !conflict {
        survivors := survivors + [c];
      }
    }
    assert candidates[..|candidates|] == candidates;
  }

  // ----------------------------------------------------------------- routing

  function MaxScore(cs: seq<Candidate>): real {
    if cs == [] then 0.0
    else if |cs| == 1 || cs[|cs| - 1].score >= MaxScore(cs[..|cs| - 1]) then cs[|cs| - 1].score
    else MaxScore(cs[..|cs| - 1])
  }

  function Refined(tactics: Tactics, msg: Message, prior: set<string>, models: Models): seq<Candidate> {
    var all := Tier0Candidates(tactics.taxonomy, msg);
    var cs := Scoreable(tactics, all);
    Survivors(tactics, RefineAll(cs, prior, |Ids(cs)| >= 3, models), all)
  }

  function Route(tactics: Tactics, msg: Message, prior: set<string>, models: Models): CascadeResult {
    var all := Tier0Candidates(tactics.taxonomy, msg);
    var score := Tier0Score(all);
    if score < TIER0_ESCALATION_THRESHOLD || Scoreable(tactics, all) == [] then CascadeResult(0, [], score)
    else
      var refined := Refined(tactics, msg, prior, models);
      CascadeResult(if MaxScore(refined) < TIER1_ESCALATION_THRESHOLD then 1 else 2, refined, score)
  }

  /** The entry point; the Tier 0 pass is repeated for the exclusion check. */
  method RouteMessage(tactics: Tactics, msg: Message, prior: set<string>, models: Models) returns (r: CascadeResult)
    requires DistinctIds(tactics.taxonomy)
    ensures r == Route(tactics, msg, prior, models)
  {
    hide Survivors, Tier0Candidates, RefineAll, MaxScore;
    var tier0Score, all := Tier0ScoreMessage(tactics.taxonomy, msg);
    var candidates := Scoreable(tactics, all);
    if tier0Score < TIER0_ESCALATION_THRESHOLD || candidates == [] {
      return CascadeResult(0, [], tier0Score);
    }
    var _, allInclBenign := Tier0ScoreMessage(tactics.taxonomy, msg);
    var refined := Tier1Refine(candidates, prior, models);
    refined := ApplyMutualExclusivity(tactics, refined, allInclBenign);
    var tier1Max := MaxScore(refined);
    if tier1Max < TIER1_ESCALATION_THRESHOLD {
      return CascadeResult(1, refined, tier0Score);
    }
    r := CascadeResult(2, refined, tier0Score);
  }

  // ------------------------------------- more history never weakens a verdict

  /** `b` is the same finding as `a`, scored at least as high. */
  predicate AtLeast(b: Candidate, a: Candidate) {
    b.tacticId == a.tacticId && b.spans == a.spans && b.context == a.context && b.score >= a.score
  }

  /** Every candidate of `cs` is matched in `ds` by one scored at least as high. */
  ghost predicate Dominates(ds: seq<Candidate>, cs: seq<Candidate>) {
    forall c :: c in cs ==> exists d :: d in ds && AtLeast(d, c)
  }

  lemma RefineMonotone(c: Candidate, p: set<string>, q: set<string>, compounding: bool, models: Models)
    requires p <= q
    ensures AtLeast(RefineOne(c, q, compounding, models), RefineOne(c, p, compounding, models))
  {
    assert p != {} ==> q != {} by { if x :| x in p { assert x in q; } }
    assert Boost(c.tacticId, q, compounding) >= Boost(c.tacticId, p, compounding);
  }

  lemma ConflictMonotone(tactics: Tactics, c: Candidate, d: Candidate, all: seq<Candidate>)
    requires AtLeast(d, c) && !Conflicted(tactics, c, all)
    ensures !Conflicted(tactics, d, all)
  {
  }

  lemma {:induction false} SurvivorsDominate(tactics: Tactics, cs: seq<Candidate>, ds: seq<Candidate>,
                                             all: seq<Candidate>)
    requires |cs| == |ds| && forall i :: 0 <= i < |cs| ==> AtLeast(ds[i], cs[i])
    ensures Dominates(Survivors(tactics, ds, all), Survivors(tactics, cs, all))
  {
    if cs != [] {
      var n := |cs| - 1;
      SurvivorsDominate(tactics, cs[..n], ds[..n], all);
      if !Conflicted(tactics, cs[n], all) {
        ConflictMonotone(tactics, cs[n], ds[n], all);
        assert ds[n] in Survivors(tactics, ds, all);
      }
      forall c | c in Survivors(tactics, cs[..n], all)
        ensures exists d :: d in Survivors(tactics, ds, all) && AtLeast(d, c)
      {
        var d :| d in Survivors(tactics, ds[..n], all) && AtLeast(d, c);
        assert d in Survivors(tactics, ds, all);
      }
    }
  }

  lemma {:induction false} MaxScoreIsMax(cs: seq<Candidate>)
    ensures forall c :: c in cs ==> c.score <= MaxScore(cs)
    ensures cs != [] ==> exists c :: c in cs && c.score == MaxScore(cs)
  {
    if cs != [] {
      var n := |cs| - 1;
      MaxScoreIsMax(cs[..n]);
      assert forall c :: c in cs <==> c in cs[..n] || c == cs[n] by { assert cs == cs[..n] + [cs[n]]; }
      if n > 0 && cs[n].score < MaxScore(cs[..n]) {
        var c :| c in cs[..n] && c.score == MaxScore(cs[..n]);
        assert c in cs;
      }
    }
  }

  /** More prior session flags never lower a score, drop a candidate, or lower the tier reached. */
  lemma RouteMonotone(tactics: Tactics, msg: Message, models: Models, p: set<string>, q: set<string>)
    requires p <= q
    ensures var a, b := Route(tactics, msg, p, models), Route(tactics, msg, q, models);
            Dominates(b.candidates, a.candidates) && a.tierReached <= b.tierReached && a.tier0Score == b.tier0Score
  {
    hide Survivors, Conflicted;
    var all := Tier0Candidates(tactics.taxonomy, msg);
    var cs := Scoreable(tactics, all);
    var rp, rq := RefineAll(cs, p, |Ids(cs)| >= 3, models), RefineAll(cs, q, |Ids(cs)| >= 3, models);
    forall i | 0 <= i < |cs|
      ensures AtLeast(rq[i], rp[i])
    {
      RefineMonotone(cs[i], p, q, |Ids(cs)| >= 3, models);
    }
    SurvivorsDominate(tactics, rp, rq, all);
    MaxScoreIsMax(Survivors(tactics, rp, all));
    MaxScoreIsMax(Survivors(tactics, rq, all));
  }

  // ------------------------------------------------ what a routed candidate is

  /** `c` cites exactly the cues of a declared tactic that occur in the message, and there are some. */
  ghost predicate CitesMatches(taxonomy: seq<Tactic>, msg: Message, c: Candidate) {
    c.spans != [] && exists t :: t in taxonomy && t.id == c.tacticId && c.spans == Matched(t.cues, msg.lowered)
  }

  lemma {:induction false} Tier0Cites(taxonomy: seq<Tactic>, msg: Message)
    ensures forall c :: c in Tier0Candidates(taxonomy, msg) ==> CitesMatches(taxonomy, msg, c) && 0.0 <= c.score <= 1.0
  {
    if taxonomy != [] {
      var n := |taxonomy| - 1;
      Tier0Cites(taxonomy[..n], msg);
      assert taxonomy == taxonomy[..n] + [taxonomy[n]];
    }
  }

  lemma {:induction false} ScoreableMembers(tactics: Tactics, cs: seq<Candidate>)
    ensures forall c :: c in Scoreable(tactics, cs) <==> c in cs && IsScoreable(tactics, c.tacticId)
  {
    if cs != [] {
      ScoreableMembers(tactics, cs[1..]);
      assert cs == [cs[0]] + cs[1..];
    }
  }

  lemma {:induction false} ScoreableLast(tactics: Tactics, cs: seq<Candidate>)
    requires cs != []
    ensures var (front, last) := (cs[..|cs| - 1], cs[|cs| - 1]);
            Scoreable(tactics, cs) ==
            Scoreable(tactics, front) + if IsScoreable(tactics, last.tacticId) then [last] else []
  {
    hide IsScoreable;
    var (front, tail) := (cs[..|cs| - 1], cs[1..]);
    if |cs| == 1 {
      assert front == [] && tail == [];
    } else {
      ScoreableLast(tactics, tail);
      assert tail[..|tail| - 1] == front[1..] && tail[|tail| - 1] == cs[|cs| - 1] && front[0] == cs[0];
    }
  }

  /** The scoreable candidates keep their order. */
  lemma {:induction false} ScoreableInOrder(tactics: Tactics, cs: seq<Candidate>)
    ensures Selected(cs, (c: Candidate) => IsScoreable(tactics, c.tacticId), (c: Candidate, d: Candidate) => c == d,
                     Scoreable(tactics, cs))
  {
    hide IsScoreable, Selected;
    var keep := (c: Candidate) => IsScoreable(tactics, c.tacticId);
    var same := (c: Candidate, d: Candidate) => c == d;
    if cs == [] {
      NothingSelected(keep, same);
    } else {
      var front := cs[..|cs| - 1];
      ScoreableInOrder(tactics, front);
      ScoreableLast(tactics, cs);
      hide Scoreable;
      SelectNext(cs, keep, same, Scoreable(tactics, front), Scoreable(tactics, cs));
    }
  }

  lemma {:induction false} SurvivorsAreUnconflicted(tactics: Tactics, cs: seq<Candidate>, all: seq<Candidate>)
    ensures forall c :: c in Survivors(tactics, cs, all) <==> c in cs && !Conflicted(tactics, c, all)
  {
    if cs != [] {
      hide Conflicted;
      var n := |cs| - 1;
      SurvivorsAreUnconflicted(tactics, cs[..n], all);
      assert cs == cs[..n] + [cs[n]];
    }
  }

  ghost predicate Calibrated(confidences: map<string, real>) {
    forall id :: id in confidences ==> 0.0 <= confidences[id] <= 1.0
  }

  lemma RefineKeepsFinding(c: Candidate, prior: set<string>, compounding: bool, models: Models)
    ensures var r := RefineOne(c, prior, compounding, models);
            && r.tacticId == c.tacticId && r.spans == c.spans
            && (0.0 <= c.score && Calibrated(models.onnx) && Calibrated(models.llm) ==> 0.0 <= r.score <= 1.0)
  {
  }

  /** Whatever the history and the models say, a routed candidate is a scoreable tactic citing exactly its
      cues that occur in the message, is not dominated by an excluded tactic, and scores within [0, 1]. */
  lemma RouteIsGrounded(tactics: Tactics, msg: Message, prior: set<string>, models: Models, c: Candidate)
    requires c in Route(tactics, msg, prior, models).candidates
    ensures IsScoreable(tactics, c.tacticId) && CitesMatches(tactics.taxonomy, msg, c)
    ensures !Conflicted(tactics, c, Tier0Candidates(tactics.taxonomy, msg))
    ensures Calibrated(models.onnx) && Calibrated(models.llm) ==> 0.0 <= c.score <= 1.0
  {
    hide Conflicted, Tier0Candidates, Scoreable, Survivors, RefineOne, CitesMatches, Calibrated, IsScoreable;
    var all := Tier0Candidates(tactics.taxonomy, msg);
    var cs := Scoreable(tactics, all);
    var refined := RefineAll(cs, prior, |Ids(cs)| >= 3, models);
    SurvivorsAreUnconflicted(tactics, refined, all);
    var i :| 0 <= i < |refined| && refined[i] == c;
    RefineKeepsFinding(cs[i], prior, |Ids(cs)| >= 3, models);
    ScoreableMembers(tactics, all);
    assert cs[i] in cs;
    Tier0Cites(tactics.taxonomy, msg);
    SameCitation(tactics.taxonomy, msg, cs[i], c);
  }

  lemma SameCitation(taxonomy: seq<Tactic>, msg: Message, a: Candidate, b: Candidate)
    requires CitesMatches(taxonomy, msg, a) && a.tacticId == b.tacticId && a.spans == b.spans
    ensures CitesMatches(taxonomy, msg, b)
  {
  }

  /** Tier 2 is reached exactly when some routed candidate scores at least 0.55, tier 0 exactly when the
      message is below the threshold or names no scoreable tactic. */
  lemma TierReachedMeans(tactics: Tactics, msg: Message, prior: set<string>, models: Models)
    ensures var r, all := Route(tactics, msg, prior, models), Tier0Candidates(tactics.taxonomy, msg);
            && (r.tierReached == 0 <==>
                Tier0Score(all) < 0.28 || forall c :: c in all ==> !IsScoreable(tactics, c.tacticId))
            && (r.tierReached == 2 <==> exists c :: c in r.candidates && c.score >= 0.55)
            && (r.tierReached == 0 ==> r.candidates == [])
  {
    hide Survivors, Tier0Candidates, RefineAll, Scoreable, IsScoreable, Tier0Score, MaxScore;
    var all := Tier0Candidates(tactics.taxonomy, msg);
    ScoreableMembers(tactics, all);
    var cs := Scoreable(tactics, all);
    assert cs != [] ==> cs[0] in cs;
    var refined := Refined(tactics, msg, prior, models);
    MaxScoreIsMax(refined);
    MaxScoreOfNone();
  }

  lemma FindingsDiffer(taxonomy: seq<Tactic>, msg: Message, cs: seq<Candidate>)
    requires DistinctIds(taxonomy) && FindsAll(taxonomy, msg, cs)
    ensures DistinctFindings(cs)
    ensures forall c :: c in cs ==> exists t :: t in taxonomy && IsFinding(t.id, t.cues, msg.lowered, msg.normalized, c)
    ensures forall t :: t in taxonomy && SomeCueOccurs(t.cues, msg.lowered) ==>
              exists c :: c in cs && c.tacticId == t.id
  {
    hide ListsOccurring, SomeCueOccurs;
    var keep := (t: Tactic) => SomeCueOccurs(t.cues, msg.lowered);
    var makes := (t: Tactic, c: Candidate) => IsFinding(t.id, t.cues, msg.lowered, msg.normalized, c);
    var at :| SelectedAt(taxonomy, keep, makes, cs, at);
    forall t | t in taxonomy && SomeCueOccurs(t.cues, msg.lowered)
      ensures exists c :: c in cs && c.tacticId == t.id
    {
      var i :| 0 <= i < |taxonomy| && taxonomy[i] == t;
      var k := KeptIsSelected(taxonomy, keep, makes, cs, i);
      assert cs[k] in cs;
    }
  }

  /** Routing, on the message itself: nothing is routed exactly when no two declarations of cues occur in it
      or no scoreable tactic has an occurring cue. */
  lemma NothingRouted(tactics: Tactics, msg: Message, prior: set<string>, models: Models)
    requires DistinctIds(tactics.taxonomy)
    ensures Route(tactics, msg, prior, models).tierReached == 0 <==>
            || !TwoCuesOccur(CueLists(tactics.taxonomy), msg.lowered)
            || forall t :: t in tactics.taxonomy && t.id != CALMING ==> !SomeCueOccurs(t.cues, msg.lowered)
  {
    TierReachedMeans(tactics, msg, prior, models);
    TwoCuesEscalate(tactics.taxonomy, msg);
    var all := Tier0Candidates(tactics.taxonomy, msg);
    Tier0FindsAll(tactics.taxonomy, msg);
    hide Route, Tier0Candidates, Tier0Score, ListsOccurring, FindsAll, TwoCuesOccur, CueLists;
    FindingsDiffer(tactics.taxonomy, msg, all);
    FindingsOccur(tactics.taxonomy, msg, all);
  }

  lemma FindingsOccur(taxonomy: seq<Tactic>, msg: Message, cs: seq<Candidate>)
    requires FindsAll(taxonomy, msg, cs)
    ensures forall c :: c in cs ==>
              exists t :: t in taxonomy && t.id == c.tacticId && SomeCueOccurs(t.cues, msg.lowered)
  {
    hide ListsOccurring, SomeCueOccurs;
    forall c | c in cs
      ensures exists t :: t in taxonomy && t.id == c.tacticId && SomeCueOccurs(t.cues, msg.lowered)
    {
      var k :| 0 <= k < |cs| && cs[k] == c;
      var i := SelectedIsKept(taxonomy, (t: Tactic) => SomeCueOccurs(t.cues, msg.lowered),
                              (t: Tactic, d: Candidate) => IsFinding(t.id, t.cues, msg.lowered, msg.normalized, d),
                              cs, k);
      assert taxonomy[i] in taxonomy;
    }
  }

  lemma FindingScore(taxonomy: seq<Tactic>, msg: Message, d: Candidate)
    requires DistinctIds(taxonomy) && d in Tier0Candidates(taxonomy, msg)
    ensures d.spans != [] && d.score == Min(1.0, 0.22 * |d.spans| as real)
  {
    Tier0FindsAll(taxonomy, msg);
    FindingsDiffer(taxonomy, msg, Tier0Candidates(taxonomy, msg));
    hide Tier0Candidates, ListsOccurring, FindsAll;
  }

  function Compounding(tactics: Tactics, msg: Message): bool {
    |Ids(Scoreable(tactics, Tier0Candidates(tactics.taxonomy, msg)))| >= 3
  }

  /** A routed candidate is a refined finding. */
  lemma RoutedFrom(tactics: Tactics, msg: Message, prior: set<string>, models: Models, c: Candidate)
    returns (d: Candidate)
    requires c in Route(tactics, msg, prior, models).candidates
    ensures d in Tier0Candidates(tactics.taxonomy, msg)
    ensures c == RefineOne(d, prior, Compounding(tactics, msg), models)
  {
    hide Conflicted, Tier0Candidates, Scoreable, Survivors, RefineOne, IsScoreable, Ids;
    var all := Tier0Candidates(tactics.taxonomy, msg);
    var cs := Scoreable(tactics, all);
    var refined := RefineAll(cs, prior, Compounding(tactics, msg), models);
    SurvivorsAreUnconflicted(tactics, refined, all);
    var i :| 0 <= i < |refined| && refined[i] == c;
    ScoreableMembers(tactics, all);
    d := cs[i];
    assert d in cs;
  }

  /** Without models, a routed candidate reaches Tier 2 exactly by its number of cues and the history. */
  lemma Tier2WithoutModels(tactics: Tactics, msg: Message, prior: set<string>, c: Candidate)
    requires DistinctIds(tactics.taxonomy) && c in Route(tactics, msg, prior, NO_MODELS).candidates
    ensures c.score >= 0.55 <==> ReachesTier2(c.tacticId, |c.spans|, prior, Compounding(tactics, msg))
  {
    hide *;
    var d := RoutedFrom(tactics, msg, prior, NO_MODELS, c);
    FindingScore(tactics.taxonomy, msg, d);
    RefineKeepsFinding(d, prior, Compounding(tactics, msg), NO_MODELS);
    RefinedReachesTier2(d, prior, Compounding(tactics, msg));
  }

  /** The scoreable findings, refined, before exclusion. */
  function BeforeExclusion(tactics: Tactics, msg: Message, prior: set<string>, models: Models): seq<Candidate> {
    var cs := Scoreable(tactics, Tier0Candidates(tactics.taxonomy, msg));
    RefineAll(cs, prior, |Ids(cs)| >= 3, models)
  }

  /** What is routed are the refined findings that no tactic they exclude rivals. */
  lemma RouteKeepsUnrivalled(tactics: Tactics, msg: Message, prior: set<string>, models: Models)
    requires DistinctIds(tactics.taxonomy) && Route(tactics, msg, prior, models).tierReached > 0
    ensures KeepsUnrivalled(tactics, BeforeExclusion(tactics, msg, prior, models),
                            Tier0Candidates(tactics.taxonomy, msg), Route(tactics, msg, prior, models).candidates)
  {
    var all := Tier0Candidates(tactics.taxonomy, msg);
    Tier0FindsAll(tactics.taxonomy, msg);
    FindingsDiffer(tactics.taxonomy, msg, all);
    hide Tier0Candidates, Scoreable, FindsAll, Ids, RefineAll, Survivors, KeepsUnrivalled, ListsOccurring;
    SurvivorsAreUnrivalled(tactics, BeforeExclusion(tactics, msg, prior, models), all);
  }

  lemma MaxScoreOfNone()
    ensures MaxScore([]) == 0.0
  {
  }
}
