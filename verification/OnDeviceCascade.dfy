/** The on-device cascade: cue scan, boosts, exclusion, model blend, grounding gate. */
module OnDeviceCascade {
  import opened Options
  import opened Substrings
  import opened Rounding
  import opened FastPatternMatcher
  import opened Selection
  import opened ModelCascade
  import opened TextRules
  import E = EntailmentGate

  const PER_CUE_BASE := 0.22
  const ESCALATION_THRESHOLD := 0.28
  const CEILING := 0.35

  datatype TacticSpec = TacticSpec(id: string, cues: seq<string>, exclusive: seq<string>, scoreable: bool)

  /** The taxonomy, lower-casing, and the two sets of cues the specificity weights consult. */
  datatype Device = Device(tactics: seq<TacticSpec>, lower: string -> string, highCues: seq<string>,
                           lowCues: set<string>)

  function SpecOf(tactics: seq<TacticSpec>, id: string): Option<TacticSpec> {
    if tactics == [] then None
    else if tactics[0].id == id then Some(tactics[0])
    else SpecOf(tactics[1..], id)
  }

  predicate ScoreableId(device: Device, id: string) {
    var spec := SpecOf(device.tactics, id);
    spec.Some? && spec.value.scoreable
  }

  // ------------------------------------------------------------------ Tier 0

  function CandidateOf(t: TacticSpec, lowered: string): seq<Candidate> {
    var spans := Matched(t.cues, lowered);
    if spans == [] then [] else [Candidate(t.id, spans, Min(1.0, PER_CUE_BASE * |spans| as real), lowered)]
  }

  function Scan(tactics: seq<TacticSpec>, lowered: string): seq<Candidate> {
    if tactics == [] then [] else Scan(tactics[..|tactics| - 1], lowered) + CandidateOf(tactics[|tactics| - 1], lowered)
  }

  /** One finding for each tactic with an occurring cue, in declaration order. */
  ghost predicate FindsAllOf(tactics: seq<TacticSpec>, lowered: string, cs: seq<Candidate>) {
    Selected(tactics, (t: TacticSpec) => SomeCueOccurs(t.cues, lowered),
             (t: TacticSpec, c: Candidate) => IsFinding(t.id, t.cues, lowered, lowered, c), cs)
  }

  lemma {:induction false} ScanFindsAll(tactics: seq<TacticSpec>, lowered: string)
    ensures FindsAllOf(tactics, lowered, Scan(tactics, lowered))
  {
    hide Matched, ListsOccurring, Occurs, Selected;
    var keep := (t: TacticSpec) => SomeCueOccurs(t.cues, lowered);
    var makes := (t: TacticSpec, c: Candidate) => IsFinding(t.id, t.cues, lowered, lowered, c);
    if tactics == [] {
      NothingSelected(keep, makes);
    } else {
      var (front, last) := (tactics[..|tactics| - 1], tactics[|tactics| - 1]);
      ScanFindsAll(front, lowered);
      MatchedLists(last.cues, lowered);
      SelectNext(tactics, keep, makes, Scan(front, lowered), Scan(tactics, lowered));
    }
  }

  lemma NothingScanned(lowered: string)
    ensures Scan([], lowered) == []
  {
  }

  lemma ScanNext(tactics: seq<TacticSpec>, i: nat, lowered: string)
    requires i < |tactics|
    ensures Scan(tactics[..i + 1], lowered) == Scan(tactics[..i], lowered) + CandidateOf(tactics[i], lowered)
  {
    hide Matched;
    assert tactics[..i + 1][..i] == tactics[..i];
  }

  /** The inner loop of the scan: the cues that occur, as often as declared. */
  method FilterCues(cues: seq<string>, lowered: string) returns (spans: seq<string>)
    ensures spans == Matched(cues, lowered) && ListsOccurring(cues, lowered, spans)
  {
    hide Matched, Occurs, ListsOccurring;
    spans := [];
    MatchedWhole(cues, lowered);
    MatchedLists(cues, lowered);
    for j := 0 to |cues|
      invariant spans + Matched(cues[j..], lowered) == Matched(cues, lowered)
    {
      MatchedNext(cues, j, lowered);
      if Occurs(cues[j], lowered) {
        spans := spans + [cues[j]];
      }
    }
  }

  method Tier0Scan(tactics: seq<TacticSpec>, lowered: string) returns (out: seq<Candidate>)
    ensures out == Scan(tactics, lowered)
    ensures FindsAllOf(tactics, lowered, out)
  {
    hide FindsAllOf, Scan, Matched, Occurs, ListsOccurring;
    out := [];
    assert tactics[..0] == [] && Scan([], lowered) == [] by { NothingScanned(lowered); }
    for i := 0 to |tactics|
      invariant out == Scan(tactics[..i], lowered)
    {
      ScanNext(tactics, i, lowered);
      var spans := FilterCues(tactics[i].cues, lowered);
      if |spans| > 0 {
        out := out + [Candidate(tactics[i].id, spans, Min(1.0, PER_CUE_BASE * |spans| as real), lowered)];
      }
    }
    assert tactics[..|tactics|] == tactics;
    ScanFindsAll(tactics, lowered);
  }

  function ScoreableOf(device: Device, cs: seq<Candidate>): seq<Candidate> {
    if cs == [] then []
    else
      ScoreableOf(device, cs[..|cs| - 1])
      + (if ScoreableId(device, cs[|cs| - 1].tacticId) then [cs[|cs| - 1]] else [])
  }

  predicate Escalates(scoreable: seq<Candidate>) {
    Min(1.0, 0.18 * |Ids(scoreable)| as real + 0.05 * Hits(scoreable) as real) >= ESCALATION_THRESHOLD
      && scoreable != []
  }

  /** The candidates worth a model pass. */
  function Tier0CandidatesOf(device: Device, lowered: string): seq<Candidate> {
    var scoreable := ScoreableOf(device, Scan(device.tactics, lowered));
    if Escalates(scoreable) then scoreable else []
  }

  predicate DistinctSpecs(tactics: seq<TacticSpec>) {
    forall i, j :: 0 <= i < j < |tactics| ==> tactics[i].id != tactics[j].id
  }

  lemma {:induction false} SpecOfAt(tactics: seq<TacticSpec>, i: nat)
    requires DistinctSpecs(tactics) && i < |tactics|
    ensures SpecOf(tactics, tactics[i].id) == Some(tactics[i])
  {
    if i > 0 {
      assert tactics[0].id != tactics[i].id;
      SpecOfAt(tactics[1..], i - 1);
    }
  }

  /** The scoreable findings are those of the scoreable tactics, in order. */
  ghost predicate FindsScoreable(tactics: seq<TacticSpec>, lowered: string, cs: seq<Candidate>) {
    Selected(tactics, (t: TacticSpec) => t.scoreable && SomeCueOccurs(t.cues, lowered),
             (t: TacticSpec, c: Candidate) => IsFinding(t.id, t.cues, lowered, lowered, c), cs)
  }

  lemma {:induction false} ScoreableFindings(device: Device, n: nat, lowered: string)
    requires DistinctSpecs(device.tactics) && n <= |device.tactics|
    ensures FindsScoreable(device.tactics[..n], lowered, ScoreableOf(device, Scan(device.tactics[..n], lowered)))
  {
    hide DistinctSpecs, Scan, ScoreableOf, Selected, SomeCueOccurs, IsFinding;
    var keep := (t: TacticSpec) => t.scoreable && SomeCueOccurs(t.cues, lowered);
    var makes := (t: TacticSpec, c: Candidate) => IsFinding(t.id, t.cues, lowered, lowered, c);
    if n == 0 {
      NothingScoreable(device, lowered);
      NothingSelected(keep, makes);
    } else {
      var tactics := device.tactics[..n];
      assert tactics[..n - 1] == device.tactics[..n - 1];
      ScoreableFindings(device, n - 1, lowered);
      ScoreableScan(device, n, lowered);
      CandidateIsFinding(tactics[n - 1], lowered);
      hide *;
      SelectNext(tactics, keep, makes, ScoreableOf(device, Scan(tactics[..n - 1], lowered)),
                 ScoreableOf(device, Scan(tactics, lowered)));
    }
  }

  lemma NothingScoreable(device: Device, lowered: string)
    ensures ScoreableOf(device, Scan([], lowered)) == []
  {
  }

  lemma ScoreableScan(device: Device, n: nat, lowered: string)
    requires DistinctSpecs(device.tactics) && 0 < n <= |device.tactics|
    ensures var (tactics, last) := (device.tactics[..n], device.tactics[n - 1]);
            ScoreableOf(device, Scan(tactics, lowered)) ==
            ScoreableOf(device, Scan(tactics[..n - 1], lowered))
            + (if last.scoreable then CandidateOf(last, lowered) else [])
  {
    hide DistinctSpecs, SpecOf, Matched, ScoreableOf;
    var (tactics, last) := (device.tactics[..n], device.tactics[n - 1]);
    SpecOfAt(device.tactics, n - 1);
    ScoreableNext(device, Scan(tactics[..n - 1], lowered), CandidateOf(last, lowered), last);
  }

  lemma CandidateIsFinding(t: TacticSpec, lowered: string)
    ensures if SomeCueOccurs(t.cues, lowered) then
              |CandidateOf(t, lowered)| == 1 && IsFinding(t.id, t.cues, lowered, lowered, CandidateOf(t, lowered)[0])
            else CandidateOf(t, lowered) == []
  {
    MatchedLists(t.cues, lowered);
    hide Matched, ListsOccurring, Occurs;
  }

  lemma ScoreableNext(device: Device, cs: seq<Candidate>, found: seq<Candidate>, t: TacticSpec)
    requires SpecOf(device.tactics, t.id) == Some(t)
    requires found == [] || (|found| == 1 && found[0].tacticId == t.id)
    ensures ScoreableOf(device, cs + found) == ScoreableOf(device, cs) + if t.scoreable then found else []
  {
    hide SpecOf;
    if found == [] {
      assert cs + found == cs;
    } else {
      assert (cs + found)[..|cs|] == cs;
    }
  }

  /** The cues of the scoreable tactics, by tactic. */
  function ScoreableCues(tactics: seq<TacticSpec>): (r: seq<seq<string>>)
    ensures |r| == |tactics|
    ensures forall i :: 0 <= i < |tactics| ==> r[i] == if tactics[i].scoreable then tactics[i].cues else []
  {
    seq(|tactics|, i requires 0 <= i < |tactics| => if tactics[i].scoreable then tactics[i].cues else [])
  }

  /** The device asks its model exactly when two declarations of scoreable tactics' cues occur. */
  lemma TwoCuesWakeTheModel(device: Device, lowered: string)
    requires DistinctSpecs(device.tactics)
    ensures Tier0CandidatesOf(device, lowered) != [] <==> TwoCuesOccur(ScoreableCues(device.tactics), lowered)
  {
    var tactics, cs := device.tactics, ScoreableOf(device, Scan(device.tactics, lowered));
    ScoreableFindings(device, |tactics|, lowered);
    assert tactics[..|tactics|] == tactics;
    hide Scan, ScoreableOf, SpecOf, TwoCuesOccur, ListsOccurring, Occurs;
    FindingsWake(tactics, lowered, cs);
  }

  lemma FindingsWake(tactics: seq<TacticSpec>, lowered: string, cs: seq<Candidate>)
    requires DistinctSpecs(tactics) && FindsScoreable(tactics, lowered, cs)
    ensures Escalates(cs) <==> TwoCuesOccur(ScoreableCues(tactics), lowered)
  {
    var lists := ScoreableCues(tactics);
    var at := ScoreablePositions(tactics, lowered, cs);
    hide Occurs, ListsOccurring, TwoCuesOccur, SomeCueOccurs, DistinctSpecs;
    ScoreByCount(cs);
    hide Ids, FindsScoreable, Increasing;
    TwoFound(lists, lowered, cs, at);
  }

  lemma ScoreablePositions(tactics: seq<TacticSpec>, lowered: string, cs: seq<Candidate>) returns (at: seq<nat>)
    requires DistinctSpecs(tactics) && FindsScoreable(tactics, lowered, cs)
    ensures |at| == |cs| && Increasing(at) && DistinctFindings(cs) && forall c :: c in cs ==> c.spans != []
    ensures forall k :: 0 <= k < |at| ==>
              at[k] < |tactics| && ListsOccurring(ScoreableCues(tactics)[at[k]], lowered, cs[k].spans)
    ensures forall i :: 0 <= i < |tactics| ==> (i in at <==> SomeCueOccurs(ScoreableCues(tactics)[i], lowered))
  {
    var keep := (t: TacticSpec) => t.scoreable && SomeCueOccurs(t.cues, lowered);
    at :| SelectedAt(tactics, keep, (t: TacticSpec, c: Candidate) => IsFinding(t.id, t.cues, lowered, lowered, c), cs,
                     at);
    assert !SomeCueOccurs([], lowered);
    hide ListsOccurring, SomeCueOccurs;
    forall k | 0 <= k < |at|
      ensures tactics[at[k]].scoreable && IsFinding(tactics[at[k]].id, tactics[at[k]].cues, lowered, lowered, cs[k])
    {
      assert at[k] in at && keep(tactics[at[k]]);
    }
  }

  // ------------------------------------------------------- boost, exclusion

  function BoostOf(id: string, compounding: bool): real {
    if id == PAYMENT && compounding then 0.2 else if compounding then 0.1 else 0.0
  }

  function Boosted(cs: seq<Candidate>, compounding: bool): (r: seq<Candidate>)
    ensures |r| == |cs|
    ensures forall i :: 0 <= i < |cs| ==>
            r[i] == cs[i].(score := Min(1.0, cs[i].score + BoostOf(cs[i].tacticId, compounding)))
  {
    seq(|cs|, i requires 0 <= i < |cs| => cs[i].(score := Min(1.0, cs[i].score + BoostOf(cs[i].tacticId, compounding))))
  }

  predicate Excluded(device: Device, c: Candidate, all: seq<Candidate>) {
    var spec := SpecOf(device.tactics, c.tacticId);
    spec.None? || exists other :: other in spec.value.exclusive && ScoreOf(all, other) >= c.score * 0.7
  }

  /** Some tactic that the candidate's tactic excludes rivals it. */
  ghost predicate RivalledOn(device: Device, c: Candidate, all: seq<Candidate>) {
    exists t, other :: t in device.tactics && t.id == c.tacticId && other in t.exclusive && Rivals(all, other, c.score)
  }

  lemma ExcludedMeansRivalled(device: Device, c: Candidate, all: seq<Candidate>)
    requires DistinctSpecs(device.tactics) && DistinctFindings(all)
    requires exists t :: t in device.tactics && t.id == c.tacticId
    ensures Excluded(device, c, all) <==> RivalledOn(device, c, all)
  {
    hide ScoreOf, Rivals, DistinctFindings;
    forall other
      ensures ScoreOf(all, other) >= c.score * 0.7 <==> Rivals(all, other, c.score)
    {
      ScoreOfFound(all, other, c.score);
    }
    forall t | t in device.tactics && t.id == c.tacticId
      ensures SpecOf(device.tactics, c.tacticId) == Some(t)
    {
      var i :| 0 <= i < |device.tactics| && device.tactics[i] == t;
      SpecOfAt(device.tactics, i);
    }
  }

  /** Exactly the candidates no excluded tactic rivals, in order. */
  ghost predicate KeepsUnrivalledOn(device: Device, cs: seq<Candidate>, all: seq<Candidate>, kept: seq<Candidate>) {
    Selected(cs, (c: Candidate) => !RivalledOn(device, c, all), (c: Candidate, d: Candidate) => c == d, kept)
  }

  lemma {:induction false} NotExcludedAreUnrivalled(device: Device, cs: seq<Candidate>, all: seq<Candidate>)
    requires DistinctSpecs(device.tactics) && DistinctFindings(all)
    requires forall c :: c in cs ==> exists t :: t in device.tactics && t.id == c.tacticId
    ensures KeepsUnrivalledOn(device, cs, all, NotExcluded(device, cs, all))
  {
    hide Selected, Excluded, RivalledOn, DistinctFindings, DistinctSpecs;
    var keep := (c: Candidate) => !RivalledOn(device, c, all);
    var same := (c: Candidate, d: Candidate) => c == d;
    if cs == [] {
      NothingSelected(keep, same);
    } else {
      var (front, last) := (cs[..|cs| - 1], cs[|cs| - 1]);
      assert last in cs && forall c :: c in front ==> c in cs;
      NotExcludedAreUnrivalled(device, front, all);
      ExcludedMeansRivalled(device, last, all);
      SelectNext(cs, keep, same, NotExcluded(device, front, all), NotExcluded(device, cs, all));
    }
  }

  function NotExcluded(device: Device, cs: seq<Candidate>, all: seq<Candidate>): seq<Candidate> {
    if cs == [] then []
    else NotExcluded(device, cs[..|cs| - 1], all) + (if Excluded(device, cs[|cs| - 1], all) then [] else [cs[|cs| - 1]])
  }

  /** The candidates that reach the gate, before any model is asked. */
  function RefinedOf(device: Device, lowered: string): seq<Candidate> {
    var all := Scan(device.tactics, lowered);
    var scoreable := ScoreableOf(device, all);
    NotExcluded(device, Boosted(scoreable, |scoreable| >= 2), all)
  }

  // --------------------------------------------------------- grounding checks

  function InformationWeight(device: Device, span: string): (w: real)
    ensures 0.0 <= w <= 1.0
  {
    var s := Strip(JavaScript, device.lower(span));
    if s == "" then 0.0
    else if s in device.lowCues then 0.25
    else
      var wordBased := Min(1.0, |Pieces(s)| as real / 3.0);
      var high := if ContainsAny(s, device.highCues) then 0.9 else 0.0;
      Min(1.0, if wordBased >= high then wordBased else high)
  }

  /** The weight of the strongest single span. */
  function Specificity(device: Device, spans: seq<string>): (w: real)
    ensures 0.0 <= w <= 1.0
  {
    if spans == [] then 0.0
    else
      var rest, last := Specificity(device, spans[..|spans| - 1]), InformationWeight(device, spans[|spans| - 1]);
      if last >= rest then last else rest
  }

  /** No span weighs more than the specificity, and one weighs as much. */
  lemma {:induction false} SpecificityIsGreatest(device: Device, spans: seq<string>)
    ensures forall s :: s in spans ==> InformationWeight(device, s) <= Specificity(device, spans)
    ensures spans != [] ==> exists s :: s in spans && InformationWeight(device, s) == Specificity(device, spans)
  {
    hide InformationWeight;
    if spans != [] {
      var (front, last) := (spans[..|spans| - 1], spans[|spans| - 1]);
      SpecificityIsGreatest(device, front);
      assert forall s :: s in spans <==> s in front || s == last by { assert spans == front + [last]; }
      if |spans| > 1 {
        var s :| s in front && InformationWeight(device, s) == Specificity(device, front);
        assert s in spans;
      }
    }
  }

  function Stem(span: string): string {
    StartOf(Pieces(span)[0], 4)
  }

  /** A negation cue stands among the six words before a word that starts like a matched span. */
  predicate Negated(context: string, spans: seq<string>) {
    exists k, i :: 0 <= k < |spans| && 0 <= i < |Pieces(context)| && Stem(spans[k]) != ""
                   && E.NegatedAt(Pieces(context), Stem(spans[k]), i)
  }

  method HasNegation(context: string, spans: seq<string>) returns (negated: bool)
    ensures negated <==> Negated(context, spans)
  {
    var words := Pieces(context);
    for k := 0 to |spans|
      invariant forall h, i :: 0 <= h < k && 0 <= i < |words| && Stem(spans[h]) != "" ==>
                !E.NegatedAt(words, Stem(spans[h]), i)
    {
      var stem := Stem(spans[k]);
      if stem == "" {
        continue;
      }
      for i := 0 to |words|
        invariant forall h :: 0 <= h < i ==> !E.NegatedAt(words, stem, h)
      {
        if stem <= words[i] {
          if ContainsAny(E.WindowBefore(words, i), E.NEGATION_CUES) {
            assert E.NegatedAt(words, Stem(spans[k]), i);
            return true;
          }
        }
      }
    }
    negated := false;
  }

  predicate Hypothetical(context: string) {
    var s := Strip(JavaScript, context);
    (s != "" && s[|s| - 1] == '?') || "what if" <= s || "suppose" <= s || "imagine if" <= s
  }

  /** What the grounding checks leave of a score. */
  function Ground(device: Device, spans: seq<string>, context: string): (g: real)
    ensures 0.0 <= g <= Specificity(device, spans)
  {
    E.Scaled(E.Scaled(Specificity(device, spans), if Hypothetical(context) then 0.55 else 1.0),
             if Negated(context, spans) then 0.15 else 1.0)
  }

  /** What reaches the gate are the boosted scoreable findings that no tactic they exclude rivals, in order. */
  lemma RefinedAreUnrivalled(device: Device, lowered: string)
    requires DistinctSpecs(device.tactics)
    ensures var all := Scan(device.tactics, lowered);
            var scoreable := ScoreableOf(device, all);
            KeepsUnrivalledOn(device, Boosted(scoreable, |scoreable| >= 2), all, RefinedOf(device, lowered))
  {
    var all := Scan(device.tactics, lowered);
    var scoreable := ScoreableOf(device, all);
    var boosted := Boosted(scoreable, |scoreable| >= 2);
    ScanFindsAll(device.tactics, lowered);
    hide Scan, ScoreableOf, NotExcluded, FindsAllOf, KeepsUnrivalledOn, BoostOf, ListsOccurring;
    FindingsDifferOn(device.tactics, lowered, all);
    ScoreableMembers(device, all);
    forall c | c in boosted
      ensures exists t :: t in device.tactics && t.id == c.tacticId
    {
      var i :| 0 <= i < |boosted| && boosted[i] == c;
      assert scoreable[i] in scoreable;
    }
    NotExcludedAreUnrivalled(device, boosted, all);
  }

  lemma FindingsDifferOn(tactics: seq<TacticSpec>, lowered: string, cs: seq<Candidate>)
    requires DistinctSpecs(tactics) && FindsAllOf(tactics, lowered, cs)
    ensures DistinctFindings(cs)
    ensures forall c :: c in cs ==> exists t :: t in tactics && t.id == c.tacticId
  {
    hide ListsOccurring, SomeCueOccurs;
    var at :| SelectedAt(tactics, (t: TacticSpec) => SomeCueOccurs(t.cues, lowered),
                         (t: TacticSpec, c: Candidate) => IsFinding(t.id, t.cues, lowered, lowered, c), cs, at);
  }

  // ---------------------------------------------------------- gate and flags

  datatype Flag = Flag(tacticId: string, confidence: real, spans: seq<string>, rationale: Option<string>)

  datatype Score = Score(tierReached: nat, flags: seq<Flag>)

  function CorroborationOf(cs: seq<Candidate>): real {
    Min(0.3, 0.15 * (if |Ids(cs)| >= 1 then |Ids(cs)| - 1 else 0) as real)
  }

  function GateConfidence(device: Device, c: Candidate): real {
    Min(1.0, E.Weighted(c.score, Ground(device, c.spans, c.context)))
  }

  /** Corroboration lifts only what is below the ceiling. */
  function Lifted(confidence: real, corroboration: real): real {
    if corroboration > 0.0 && confidence < CEILING then Min(1.0, confidence + corroboration) else confidence
  }

  function BlendOne(c: Candidate, confidences: map<string, real>): Candidate {
    if c.tacticId in confidences then c.(score := Min(1.0, 0.5 * c.score + 0.5 * confidences[c.tacticId])) else c
  }

  function FlagsFor(device: Device, cs: seq<Candidate>, corroboration: real,
                    rationales: map<string, string>): seq<Flag> {
    if cs == [] then []
    else
      var last := cs[|cs| - 1];
      var confidence := Lifted(GateConfidence(device, last), corroboration);
      FlagsFor(device, cs[..|cs| - 1], corroboration, rationales)
      + (if confidence >= CEILING then [FlagOf(last, confidence, rationales)] else [])
  }

  function FlagOf(c: Candidate, confidence: real, rationales: map<string, string>): Flag {
    Flag(c.tacticId, Round4(HalfUp, confidence), c.spans,
         if c.tacticId in rationales && rationales[c.tacticId] != "" then Some(rationales[c.tacticId]) else None)
  }

  function Blended(cs: seq<Candidate>, confidences: map<string, real>): (r: seq<Candidate>)
    ensures |r| == |cs| && forall i :: 0 <= i < |cs| ==> r[i] == BlendOne(cs[i], confidences)
  {
    seq(|cs|, i requires 0 <= i < |cs| => BlendOne(cs[i], confidences))
  }

  /** The whole cascade; `confidences` is absent on the heuristic-only path. */
  function Cascade(device: Device, lowered: string, confidences: Option<map<string, real>>,
                   rationales: map<string, string>): Score {
    if Tier0CandidatesOf(device, lowered) == [] then Score(0, [])
    else
      var refined := RefinedOf(device, lowered);
      var blended := if confidences.Some? then Blended(refined, confidences.value) else refined;
      Score(if confidences.Some? then 1 else 0, FlagsFor(device, blended, CorroborationOf(blended), rationales))
  }

  method RunOnDeviceCascade(device: Device, lowered: string, confidences: Option<map<string, real>>,
                            rationales: map<string, string>)
    returns (score: Score)
    ensures score == Cascade(device, lowered, confidences, rationales)
  {
    hide RefinedOf, Blended, CorroborationOf, GateConfidence, Lifted, FlagOf, Scan;
    var all := Tier0Scan(device.tactics, lowered);
    var scoreable := ScoreableOf(device, all);
    if !Escalates(scoreable) {
      return Score(0, []);
    }
    assert scoreable != [];
    var refined := RefinedOf(device, lowered);
    if confidences.Some? {
      refined := Blended(refined, confidences.value);
    }
    var corroboration := CorroborationOf(refined);
    var flags := [];
    for i := 0 to |refined|
      invariant flags == FlagsFor(device, refined[..i], corroboration, rationales)
    {
      assert refined[..i + 1][..i] == refined[..i];
      var confidence := Lifted(GateConfidence(device, refined[i]), corroboration);
      if confidence >= CEILING {
        flags := flags + [FlagOf(refined[i], confidence, rationales)];
      }
    }
    assert refined[..|refined|] == refined;
    score := Score(if confidences.Some? then 1 else 0, flags);
  }

  // -------------------------------------------- what a flag can and cannot be

  lemma {:induction false} ScanMembers(tactics: seq<TacticSpec>, lowered: string)
    ensures forall c :: c in Scan(tactics, lowered) ==> c.spans != [] && exists t :: t in tactics && t.id == c.tacticId
  {
    if tactics != [] {
      ScanMembers(tactics[..|tactics| - 1], lowered);
      assert tactics == tactics[..|tactics| - 1] + [tactics[|tactics| - 1]];
    }
  }

  lemma {:induction false} ScoreableMembers(device: Device, cs: seq<Candidate>)
    ensures forall c :: c in ScoreableOf(device, cs) ==> c in cs
  {
    if cs != [] {
      ScoreableMembers(device, cs[..|cs| - 1]);
      assert cs == cs[..|cs| - 1] + [cs[|cs| - 1]];
    }
  }

  lemma {:induction false} NotExcludedMembers(device: Device, cs: seq<Candidate>, all: seq<Candidate>)
    ensures forall c :: c in NotExcluded(device, cs, all) ==> c in cs
  {
    if cs != [] {
      NotExcludedMembers(device, cs[..|cs| - 1], all);
      assert cs == cs[..|cs| - 1] + [cs[|cs| - 1]];
    }
  }

  /** Same tactic and same evidence. */
  predicate SameFinding(tacticId: string, spans: seq<string>, c: Candidate) {
    c.tacticId == tacticId && c.spans == spans
  }

  /** Every refined candidate is a Tier 0 candidate with its own matched spans. */
  lemma RefinedAreTier0(device: Device, lowered: string, r: Candidate)
    requires r in RefinedOf(device, lowered)
    ensures exists c :: c in ScoreableOf(device, Scan(device.tactics, lowered)) && SameFinding(r.tacticId, r.spans, c)
    ensures r.spans != []
  {
    var all := Scan(device.tactics, lowered);
    var scoreable := ScoreableOf(device, all);
    var boosted := Boosted(scoreable, |scoreable| >= 2);
    NotExcludedMembers(device, boosted, all);
    var i :| 0 <= i < |boosted| && boosted[i] == r;
    assert scoreable[i] in scoreable && SameFinding(r.tacticId, r.spans, scoreable[i]);
    ScoreableMembers(device, all);
    ScanMembers(device.tactics, lowered);
  }

  /** A candidate is shown when its lifted confidence clears the ceiling. */
  predicate SurfacesAt(device: Device, c: Candidate, corroboration: real) {
    Lifted(GateConfidence(device, c), corroboration) >= CEILING
  }

  /** The flag a shown candidate gets. */
  function FlagAt(device: Device, c: Candidate, corroboration: real, rationales: map<string, string>): Flag {
    FlagOf(c, Lifted(GateConfidence(device, c), corroboration), rationales)
  }

  lemma FlagsForLast(device: Device, cs: seq<Candidate>, corroboration: real, rationales: map<string, string>)
    requires cs != []
    ensures var n := |cs| - 1;
            FlagsFor(device, cs, corroboration, rationales) ==
            FlagsFor(device, cs[..n], corroboration, rationales)
            + (if SurfacesAt(device, cs[n], corroboration) then [FlagAt(device, cs[n], corroboration, rationales)]
               else [])
  {
    hide FlagOf, Lifted, GateConfidence;
  }

  /** The flags are those of the candidates that surface, in order. */
  lemma {:induction false} FlagsInOrder(device: Device, cs: seq<Candidate>, corroboration: real,
                                        rationales: map<string, string>)
    ensures Selected(cs, (c: Candidate) => SurfacesAt(device, c, corroboration),
                     (c: Candidate, f: Flag) => f == FlagAt(device, c, corroboration, rationales),
                     FlagsFor(device, cs, corroboration, rationales))
  {
    hide SurfacesAt, FlagAt, FlagsFor, Selected;
    var keep := (c: Candidate) => SurfacesAt(device, c, corroboration);
    var makes := (c: Candidate, f: Flag) => f == FlagAt(device, c, corroboration, rationales);
    if cs == [] {
      NoFlags(device, corroboration, rationales);
      NothingSelected(keep, makes);
    } else {
      var front := cs[..|cs| - 1];
      FlagsForLast(device, cs, corroboration, rationales);
      FlagsInOrder(device, front, corroboration, rationales);
      SelectNext(cs, keep, makes, FlagsFor(device, front, corroboration, rationales),
                 FlagsFor(device, cs, corroboration, rationales));
    }
  }

  /** A flag is shown exactly for the candidates that surface. */
  lemma {:induction false} FlagMembers(device: Device, cs: seq<Candidate>, corroboration: real,
                                       rationales: map<string, string>)
    ensures forall f :: f in FlagsFor(device, cs, corroboration, rationales) <==>
              exists i :: 0 <= i < |cs| && SurfacesAt(device, cs[i], corroboration)
                          && f == FlagAt(device, cs[i], corroboration, rationales)
  {
    hide SurfacesAt, FlagAt, FlagsFor;
    if cs == [] {
      NoFlags(device, corroboration, rationales);
    } else {
      FlagsForLast(device, cs, corroboration, rationales);
      var n := |cs| - 1;
      FlagMembers(device, cs[..n], corroboration, rationales);
      assert forall i :: 0 <= i < n ==> cs[..n][i] == cs[i];
    }
  }

  lemma NoFlags(device: Device, corroboration: real, rationales: map<string, string>)
    ensures FlagsFor(device, [], corroboration, rationales) == []
  {
  }

  /** The flags of a cascade that escalates with model confidences. */
  lemma CascadeFlags(device: Device, lowered: string, confidences: map<string, real>, rationales: map<string, string>)
    requires Tier0CandidatesOf(device, lowered) != []
    ensures var blended := Blended(RefinedOf(device, lowered), confidences);
            Cascade(device, lowered, Some(confidences), rationales).flags ==
            FlagsFor(device, blended, CorroborationOf(RefinedOf(device, lowered)), rationales)
  {
    hide FlagsFor, Tier0CandidatesOf, RefinedOf, Blended, Ids;
    BlendedIds(RefinedOf(device, lowered), confidences);
  }

  /** Whatever the model says, every flag is a tactic Tier 0 surfaced, cites that tactic's matched
      spans, of which there are some, and has a confidence between 0.35 and 1. */
  lemma FlagsAreGrounded(device: Device, lowered: string, confidences: Option<map<string, real>>,
                         rationales: map<string, string>, f: Flag)
    requires f in Cascade(device, lowered, confidences, rationales).flags
    ensures exists c :: c in Tier0CandidatesOf(device, lowered) && SameFinding(f.tacticId, f.spans, c)
    ensures f.spans != [] && 0.35 <= f.confidence <= 1.0
  {
    hide Scan, ScoreableOf, RefinedOf;
    var refined := RefinedOf(device, lowered);
    var blended := if confidences.Some? then Blended(refined, confidences.value) else refined;
    FlagMembers(device, blended, CorroborationOf(blended), rationales);
    var i :| 0 <= i < |blended| && SurfacesAt(device, blended[i], CorroborationOf(blended))
             && f == FlagAt(device, blended[i], CorroborationOf(blended), rationales);
    assert SameFinding(f.tacticId, f.spans, refined[i]) && refined[i] in refined;
    RefinedAreTier0(device, lowered, refined[i]);
    assert 3500 as real / 10000.0 == CEILING && 10000 as real / 10000.0 == 1.0;
    RoundKeepsBounds(HalfUp, Lifted(GateConfidence(device, blended[i]), CorroborationOf(blended)), 3500, 10000);
  }

  // ------------------------------------------------ scores, from cues to flags

  predicate TwoScoreable(device: Device, lowered: string) {
    |ScoreableOf(device, Scan(device.tactics, lowered))| >= 2
  }

  /** A refined candidate is a boosted finding. */
  lemma RefinedFrom(device: Device, lowered: string, r: Candidate) returns (c: Candidate)
    requires r in RefinedOf(device, lowered)
    ensures c in Scan(device.tactics, lowered)
    ensures r == c.(score := Min(1.0, c.score + BoostOf(c.tacticId, TwoScoreable(device, lowered))))
  {
    hide Scan, ScoreableOf, NotExcluded, BoostOf;
    var all := Scan(device.tactics, lowered);
    var scoreable := ScoreableOf(device, all);
    var boosted := Boosted(scoreable, TwoScoreable(device, lowered));
    NotExcludedMembers(device, boosted, all);
    var i :| 0 <= i < |boosted| && boosted[i] == r;
    ScoreableMembers(device, all);
    c := scoreable[i];
    assert c in scoreable;
  }

  /** A refined candidate scores 0.22 for each of its spans, and 0.1 more, or 0.2 for the payment tactic, when two
      scoreable tactics are found, each time up to 1. */
  lemma RefinedScore(device: Device, lowered: string, r: Candidate)
    requires r in RefinedOf(device, lowered)
    ensures var gain := if !TwoScoreable(device, lowered) then 0.0
                        else if r.tacticId == "payment_channel_funneling" then 0.2 else 0.1;
            r.score == Min(1.0, Min(1.0, 0.22 * |r.spans| as real) + gain)
  {
    hide Scan, RefinedOf, FindsAllOf, TwoScoreable;
    var c := RefinedFrom(device, lowered, r);
    ScanFindsAll(device.tactics, lowered);
    FindingScoreOn(device.tactics, lowered, Scan(device.tactics, lowered), c);
  }

  lemma FindingScoreOn(tactics: seq<TacticSpec>, lowered: string, cs: seq<Candidate>, c: Candidate)
    requires FindsAllOf(tactics, lowered, cs) && c in cs
    ensures c.score == Min(1.0, 0.22 * |c.spans| as real)
  {
    hide ListsOccurring, SomeCueOccurs;
    var k :| 0 <= k < |cs| && cs[k] == c;
    var i := SelectedIsKept(tactics, (t: TacticSpec) => SomeCueOccurs(t.cues, lowered),
                            (t: TacticSpec, d: Candidate) => IsFinding(t.id, t.cues, lowered, lowered, d), cs, k);
  }

  /** A model's confidence counts half. */
  lemma ModelCountsHalf(c: Candidate, confidences: map<string, real>)
    requires 0.0 <= c.score <= 1.0 && Calibrated(confidences)
    ensures var d := BlendOne(c, confidences);
            && d.spans == c.spans && d.tacticId == c.tacticId
            && if c.tacticId in confidences then 2.0 * d.score == c.score + confidences[c.tacticId] else d == c
  {
  }

  /** A candidate surfaces exactly when its score times its grounding reaches 0.35, or does so with 0.15 added,
      0.3 at most, for every further tactic; what is shown is that value, rounded. */
  lemma SurfacesExactly(device: Device, cs: seq<Candidate>, c: Candidate, rationales: map<string, string>)
    ensures var n, x := |Ids(cs)|, Min(1.0, E.Weighted(c.score, Ground(device, c.spans, c.context)));
            var lifted := if x < 0.35 && n >= 2 then Min(1.0, x + Min(0.3, 0.15 * (n - 1) as real)) else x;
            && (SurfacesAt(device, c, CorroborationOf(cs)) <==> lifted >= 0.35)
            && FlagAt(device, c, CorroborationOf(cs), rationales).confidence == Round4(HalfUp, lifted)
  {
    hide Ground, E.Weighted, Round4, Ids;
  }

  // -------------------------------------------------- raising model confidence

  lemma SurfacingMonotone(device: Device, c: Candidate, d: Candidate, corroboration: real)
    requires d.score >= c.score && d.spans == c.spans && d.context == c.context
    requires SurfacesAt(device, c, corroboration)
    ensures SurfacesAt(device, d, corroboration)
  {
    hide Lifted;
    GateMonotone(device, c, d);
    LiftKeepsSurfacing(GateConfidence(device, c), GateConfidence(device, d), corroboration);
  }

  lemma LiftKeepsSurfacing(x: real, y: real, corroboration: real)
    requires x <= y && Lifted(x, corroboration) >= CEILING
    ensures Lifted(y, corroboration) >= CEILING
  {
  }

  lemma GateMonotone(device: Device, c: Candidate, d: Candidate)
    requires d.score >= c.score && d.spans == c.spans && d.context == c.context
    ensures GateConfidence(device, c) <= GateConfidence(device, d)
  {
    hide Ground, Specificity, E.Weighted;
    E.WeightedMonotone(c.score, d.score, Ground(device, c.spans, c.context));
  }

  lemma BlendedIds(cs: seq<Candidate>, confidences: map<string, real>)
    ensures Ids(Blended(cs, confidences)) == Ids(cs)
  {
    var bs := Blended(cs, confidences);
    forall id
      ensures id in Ids(bs) <==> id in Ids(cs)
    {
      if id in Ids(bs) {
        var i :| 0 <= i < |bs| && bs[i].tacticId == id;
        assert cs[i] in cs;
      }
      if id in Ids(cs) {
        var i :| 0 <= i < |cs| && cs[i].tacticId == id;
        assert bs[i] in bs;
      }
    }
  }

  /** With the scored tactics fixed, raising model confidences never removes a flagged tactic. */
  lemma RaisingConfidenceKeepsFlags(device: Device, lowered: string, low: map<string, real>, high: map<string, real>,
                                    rationales: map<string, string>, f: Flag)
    requires low.Keys == high.Keys && forall id :: id in low ==> low[id] <= high[id]
    requires f in Cascade(device, lowered, Some(low), rationales).flags
    ensures exists g :: g in Cascade(device, lowered, Some(high), rationales).flags
                        && g.tacticId == f.tacticId && g.spans == f.spans
  {
    hide RefinedOf, Tier0CandidatesOf, GateConfidence, Lifted;
    var refined := RefinedOf(device, lowered);
    var a, b := Blended(refined, low), Blended(refined, high);
    BlendedIds(refined, low);
    BlendedIds(refined, high);
    var corroboration := CorroborationOf(a);
    assert CorroborationOf(b) == corroboration;
    FlagMembers(device, a, corroboration, rationales);
    FlagMembers(device, b, corroboration, rationales);
    var i :| 0 <= i < |a| && SurfacesAt(device, a[i], corroboration)
             && f == FlagAt(device, a[i], corroboration, rationales);
    SurfacingMonotone(device, a[i], b[i], corroboration);
    assert FlagAt(device, b[i], corroboration, rationales) in Cascade(device, lowered, Some(high), rationales).flags;
  }

  // --------------------------------------------- the confidence that is shown

  /** Of two gate confidences, the higher is shown lower exactly when it crosses the ceiling, forgoes the
      corroboration, and rounds to less than the lower one with it. */
  lemma LiftIsNotMonotone(x: real, y: real, corroboration: real)
    requires x <= y
    ensures Round4(HalfUp, Lifted(y, corroboration)) < Round4(HalfUp, Lifted(x, corroboration)) <==>
              x < CEILING <= y && Round4(HalfUp, y) < Round4(HalfUp, Min(1.0, x + corroboration))
  {
    hide Round4;
    if Lifted(x, corroboration) <= Lifted(y, corroboration) {
      RoundMonotone(HalfUp, Lifted(x, corroboration), Lifted(y, corroboration));
    }
    if x < CEILING <= y && corroboration <= 0.0 {
      RoundMonotone(HalfUp, Min(1.0, x + corroboration), y);
    }
  }

  /** Raising model confidences keeps a candidate's flag, but shows it with less confidence exactly when the
      raise takes its gate confidence over the ceiling to a value that rounds to less than the old one with
      the corroboration added. */
  lemma ShownConfidenceDrops(device: Device, lowered: string, low: map<string, real>, high: map<string, real>,
                             rationales: map<string, string>, i: nat)
    requires low.Keys == high.Keys && forall id :: id in low ==> low[id] <= high[id]
    requires Tier0CandidatesOf(device, lowered) != [] && i < |RefinedOf(device, lowered)|
    requires SurfacesAt(device, BlendOne(RefinedOf(device, lowered)[i], low),
                        CorroborationOf(RefinedOf(device, lowered)))
    ensures var refined := RefinedOf(device, lowered);
            var a, b := BlendOne(refined[i], low), BlendOne(refined[i], high);
            var corroboration, x, y := CorroborationOf(refined), GateConfidence(device, a), GateConfidence(device, b);
            var f, g := FlagAt(device, a, corroboration, rationales), FlagAt(device, b, corroboration, rationales);
            && f in Cascade(device, lowered, Some(low), rationales).flags
            && g in Cascade(device, lowered, Some(high), rationales).flags
            && f.tacticId == g.tacticId && f.spans == g.spans
            && (g.confidence < f.confidence <==>
                  x < CEILING <= y && Round4(HalfUp, y) < Round4(HalfUp, Min(1.0, x + corroboration)))
  {
    hide RefinedOf, Tier0CandidatesOf, GateConfidence, Lifted, Round4, Cascade, FlagsFor, CorroborationOf;
    var refined := RefinedOf(device, lowered);
    var as', bs := Blended(refined, low), Blended(refined, high);
    CascadeFlags(device, lowered, low, rationales);
    CascadeFlags(device, lowered, high, rationales);
    var corroboration := CorroborationOf(refined);
    FlagMembers(device, as', corroboration, rationales);
    FlagMembers(device, bs, corroboration, rationales);
    SurfacingMonotone(device, as'[i], bs[i], corroboration);
    GateMonotone(device, as'[i], bs[i]);
    LiftIsNotMonotone(GateConfidence(device, as'[i]), GateConfidence(device, bs[i]), corroboration);
  }
}
