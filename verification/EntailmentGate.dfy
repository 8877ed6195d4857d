/** The deterministic entailment gate every flag must clear. */
module EntailmentGate {
  import opened Sets
  import opened TextRules
  import opened Rounding
  import opened ModelCascade
  import opened Selection

  const HIGH_INFO_WEIGHT := 0.9
  const LOW_INFO_WEIGHT := 0.25
  const ENTAILMENT_CONFIDENCE_CEILING := 0.35
  const NEGATION_CUES := ["never", "not going to", "won't", "wouldn't", "did not", "didn't", "refuse to"]

  /** The gate's fixed data: lower-casing, the two cue sets, and the number of templates per known tactic. */
  datatype Gate = Gate(lower: string -> string, highCues: seq<string>, lowCues: set<string>,
                       templates: map<string, nat>)

  predicate ValidGate(gate: Gate) {
    forall id :: id in gate.templates ==> gate.templates[id] > 0
  }

  // ------------------------------------------------------------- specificity

  function InformationWeight(gate: Gate, span: string): (w: real)
    ensures 0.0 <= w <= 1.0
  {
    var s := Strip(Python, gate.lower(span));
    if s == "" then 0.0
    else if s in gate.lowCues then LOW_INFO_WEIGHT
    else
      var wordBased := Min(1.0, |Words(s)| as real / 3.0);
      var high := if ContainsAny(s, gate.highCues) then HIGH_INFO_WEIGHT else 0.0;
      Min(1.0, if wordBased >= high then wordBased else high)
  }

  /** The weight of the strongest single cue. */
  function Specificity(gate: Gate, spans: seq<string>): (w: real)
    ensures 0.0 <= w <= 1.0
  {
    if spans == [] then 0.0
    else
      var rest, last := Specificity(gate, spans[..|spans| - 1]), InformationWeight(gate, spans[|spans| - 1]);
      if last >= rest then last else rest
  }

  /** What a cue weighs: a dual-use one a quarter; a term of art nine tenths at least; any other a third for each
      of its words, up to three. */
  lemma WeightByWords(gate: Gate, span: string)
    ensures var s, w := Strip(Python, gate.lower(span)), InformationWeight(gate, span);
            var n, high := |Words(s)|, ContainsAny(s, gate.highCues);
            && (s == "" ==> w == 0.0)
            && (s != "" && s in gate.lowCues ==> 4.0 * w == 1.0)
            && (s != "" && s !in gate.lowCues ==>
                  if n >= 3 then w == 1.0 else if high then 10.0 * w == 9.0 else 3.0 * w == n as real)
  {
    hide Strip, Words;
  }

  /** No cue weighs more than the specificity, and one weighs as much. */
  lemma {:induction false} SpecificityIsGreatest(gate: Gate, spans: seq<string>)
    ensures forall s :: s in spans ==> InformationWeight(gate, s) <= Specificity(gate, spans)
    ensures spans != [] ==> exists s :: s in spans && InformationWeight(gate, s) == Specificity(gate, spans)
  {
    hide InformationWeight;
    if spans != [] {
      var (front, last) := (spans[..|spans| - 1], spans[|spans| - 1]);
      SpecificityIsGreatest(gate, front);
      assert forall s :: s in spans <==> s in front || s == last by { assert spans == front + [last]; }
      if |spans| > 1 {
        var s :| s in front && InformationWeight(gate, s) == Specificity(gate, front);
        assert s in spans;
      }
    }
  }

  // ------------------------------------------------------- negation, framing

  /** The six words before position `i`. */
  function WindowBefore(words: seq<string>, i: nat): string
    requires i <= |words|
  {
    Join(words[if i >= 6 then i - 6 else 0..i], " ")
  }

  /** The window reaches six words back, or to the start. */
  lemma WindowIsSixWords(words: seq<string>, i: nat)
    requires i <= |words|
    ensures i >= 6 ==> WindowBefore(words, i) == Join(words[i - 6..i], " ")
    ensures i < 6 ==> WindowBefore(words, i) == Join(words[..i], " ")
  {
  }

  predicate NegatedAt(words: seq<string>, stem: string, i: nat)
    requires i < |words|
  {
    stem <= words[i] && ContainsAny(WindowBefore(words, i), NEGATION_CUES)
  }

  function Stem(gate: Gate, span: string): string {
    var ws := Words(gate.lower(span));
    if ws == [] then "" else StartOf(ws[0], 4)
  }

  /** A negation counts when it is among the six words before a word that starts like a matched cue;
      with no matched cue, anywhere in the sentence. */
  predicate Negated(gate: Gate, sentence: string, spans: seq<string>) {
    var lowered := gate.lower(sentence);
    var words := Words(lowered);
    if spans == [] then ContainsAny(lowered, NEGATION_CUES)
    else
      exists k, i :: 0 <= k < |spans| && 0 <= i < |words|
                     && Stem(gate, spans[k]) != "" && NegatedAt(words, Stem(gate, spans[k]), i)
  }

  method HasNegation(gate: Gate, sentence: string, spans: seq<string>) returns (negated: bool)
    ensures negated <==> Negated(gate, sentence, spans)
  {
    var lowered := gate.lower(sentence);
    var words := Words(lowered);
    if spans == [] {
      return ContainsAny(lowered, NEGATION_CUES);
    }
    for k := 0 to |spans|
      invariant forall h, i :: 0 <= h < k && 0 <= i < |words| && Stem(gate, spans[h]) != "" ==>
                !NegatedAt(words, Stem(gate, spans[h]), i)
    {
      var stem := Stem(gate, spans[k]);
      for i := 0 to |words|
        invariant forall h :: 0 <= h < i && stem != "" ==> !NegatedAt(words, stem, h)
      {
        if stem <= words[i] && stem != "" {
          if ContainsAny(WindowBefore(words, i), NEGATION_CUES) {
            assert NegatedAt(words, Stem(gate, spans[k]), i);
            return true;
          }
        }
      }
    }
    negated := false;
  }

  predicate Hypothetical(gate: Gate, sentence: string) {
    var s := Strip(Python, sentence);
    (s != "" && s[|s| - 1] == '?')
    || "what if" <= gate.lower(s) || "suppose" <= gate.lower(s) || "imagine if" <= gate.lower(s)
  }

  /** The factor the grounding checks leave of a score. */
  function Grounding(gate: Gate, spans: seq<string>, context: string): (g: real)
    ensures 0.0 <= g <= Specificity(gate, spans)
  {
    Scaled(Scaled(Specificity(gate, spans), if Hypothetical(gate, context) then 0.55 else 1.0),
           if Negated(gate, context, spans) then 0.15 else 1.0)
  }

  function Scaled(x: real, factor: real): (r: real)
    requires 0.0 <= x && 0.0 <= factor <= 1.0
    ensures 0.0 <= r <= x
  {
    FractionBounds(x, factor);
    x * factor
  }

  lemma FractionBounds(x: real, factor: real)
    requires 0.0 <= x && 0.0 <= factor <= 1.0
    ensures 0.0 <= x * factor <= x
  {
    assert x * (1.0 - factor) >= 0.0;
  }

  // --------------------------------------------------------------- entailment

  datatype EntailmentResult = EntailmentResult(tacticId: string, survived: bool, confidence: real)

  function Round(x: real): real {
    Round4(HalfEven, x)
  }

  function Weighted(score: real, factor: real): real {
    score * factor
  }

  function RawScore(gate: Gate, c: Candidate): real {
    Weighted(c.score, Grounding(gate, c.spans, c.context))
  }

  /** The score one template gives. */
  function TemplateScore(gate: Gate, c: Candidate): real {
    Round(Min(1.0, RawScore(gate, c)))
  }

  function SumOf(n: nat, x: real): real {
    if n == 0 then 0.0 else SumOf(n - 1, x) + x
  }

  /** The rounded mean over the tactic's templates, all scored alike. */
  function Confidence(gate: Gate, c: Candidate): real {
    if c.tacticId !in gate.templates || gate.templates[c.tacticId] == 0 then 0.0
    else Round(SumOf(gate.templates[c.tacticId], TemplateScore(gate, c)) / gate.templates[c.tacticId] as real)
  }

  function Evaluate(gate: Gate, c: Candidate): EntailmentResult {
    EntailmentResult(c.tacticId,
                     c.tacticId in gate.templates && Confidence(gate, c) >= ENTAILMENT_CONFIDENCE_CEILING,
                     Confidence(gate, c))
  }

  method EvaluateEntailment(gate: Gate, c: Candidate) returns (r: EntailmentResult)
    requires ValidGate(gate)
    ensures r == Evaluate(gate, c)
  {
    if c.tacticId !in gate.templates {
      return EntailmentResult(c.tacticId, false, 0.0);
    }
    var n := gate.templates[c.tacticId];
    var total := 0.0;
    for i := 0 to n
      invariant total == SumOf(i, TemplateScore(gate, c))
    {
      total := total + TemplateScore(gate, c);
    }
    var confidence := Round(total / n as real);
    r := EntailmentResult(c.tacticId, confidence >= ENTAILMENT_CONFIDENCE_CEILING, confidence);
  }

  lemma {:induction false} SumOfIsProduct(n: nat, x: real)
    ensures SumOf(n, x) == n as real * x
  {
    if n > 0 {
      SumOfIsProduct(n - 1, x);
      assert n as real * x == (n - 1) as real * x + x;
    }
  }

  /** Averaging equal template scores changes nothing: the number of templates is irrelevant. */
  lemma ConfidenceIsTemplateScore(gate: Gate, c: Candidate)
    requires ValidGate(gate) && c.tacticId in gate.templates
    ensures Confidence(gate, c) == TemplateScore(gate, c)
  {
    hide RawScore;
    var n, x := gate.templates[c.tacticId], TemplateScore(gate, c);
    SumOfIsProduct(n, x);
    assert n as real * x / n as real == x by { DivideBack(n as real, x); }
    RoundIdempotent(HalfEven, Min(1.0, RawScore(gate, c)));
  }

  lemma DivideBack(n: real, x: real)
    requires n > 0.0
    ensures n * x / n == x
  {
  }

  // ------------------------------------------------------------ corroboration

  function Corroboration(cs: seq<Candidate>): real {
    Min(0.30, 0.15 * (if |Ids(cs)| >= 1 then |Ids(cs)| - 1 else 0) as real)
  }

  function Gated(gate: Gate, c: Candidate, corroboration: real): EntailmentResult {
    var r := Evaluate(gate, c);
    if corroboration > 0.0 && r.confidence < ENTAILMENT_CONFIDENCE_CEILING then
      var boosted := Round(Min(1.0, r.confidence + corroboration));
      EntailmentResult(r.tacticId, boosted >= ENTAILMENT_CONFIDENCE_CEILING, boosted)
    else r
  }

  /** The candidates that clear the gate. */
  function Surviving(gate: Gate, cs: seq<Candidate>, corroboration: real): seq<Candidate> {
    if cs == [] then []
    else
      var last := cs[|cs| - 1];
      Surviving(gate, cs[..|cs| - 1], corroboration)
        + (if Gated(gate, last, corroboration).survived then [last] else [])
  }

  method GateCandidates(gate: Gate, cs: seq<Candidate>)
    returns (survivors: seq<Candidate>, results: seq<EntailmentResult>)
    requires ValidGate(gate)
    ensures survivors == Surviving(gate, cs, Corroboration(cs))
    ensures |results| == |cs| && forall i :: 0 <= i < |cs| ==> results[i] == Gated(gate, cs[i], Corroboration(cs))
  {
    hide Evaluate, Corroboration;
    var corroboration := Corroboration(cs);
    survivors, results := [], [];
    for i := 0 to |cs|
      invariant survivors == Surviving(gate, cs[..i], corroboration)
      invariant |results| == i && forall k :: 0 <= k < i ==> results[k] == Gated(gate, cs[k], corroboration)
    {
      assert cs[..i + 1][..i] == cs[..i];
      var r := EvaluateEntailment(gate, cs[i]);
      if corroboration > 0.0 && r.confidence < ENTAILMENT_CONFIDENCE_CEILING {
        var boosted := Round(Min(1.0, r.confidence + corroboration));
        r := EntailmentResult(r.tacticId, boosted >= ENTAILMENT_CONFIDENCE_CEILING, boosted);
      }
      results := results + [r];
      if r.survived {
        survivors := survivors + [cs[i]];
      }
    }
    assert cs[..|cs|] == cs;
  }

  // ------------------------------------- more history never weakens a verdict

  lemma EvaluateMonotone(gate: Gate, c: Candidate, d: Candidate)
    requires ValidGate(gate) && AtLeast(d, c)
    ensures Evaluate(gate, d).confidence >= Evaluate(gate, c).confidence
    ensures Evaluate(gate, c).survived ==> Evaluate(gate, d).survived
  {
    if c.tacticId in gate.templates {
      ConfidenceIsTemplateScore(gate, c);
      ConfidenceIsTemplateScore(gate, d);
      RawMonotone(gate, c, d);
      hide RawScore, Round4, Confidence;
      RoundMonotone(HalfEven, Min(1.0, RawScore(gate, c)), Min(1.0, RawScore(gate, d)));
    }
  }

  lemma RawMonotone(gate: Gate, c: Candidate, d: Candidate)
    requires AtLeast(d, c)
    ensures RawScore(gate, c) <= RawScore(gate, d)
  {
    hide Grounding, Specificity;
    WeightedMonotone(c.score, d.score, Grounding(gate, c.spans, c.context));
    hide Weighted;
  }

  lemma WeightedMonotone(x: real, y: real, g: real)
    requires x <= y && g >= 0.0
    ensures Weighted(x, g) <= Weighted(y, g)
  {
    assert (y - x) * g >= 0.0;
    assert (y - x) * g == y * g - x * g;
  }

  lemma GatedMonotone(gate: Gate, c: Candidate, d: Candidate, lo: real, hi: real)
    requires ValidGate(gate) && AtLeast(d, c) && 0.0 <= lo <= hi
    ensures Gated(gate, c, lo).survived ==> Gated(gate, d, hi).survived
  {
    hide Evaluate, Round4;
    EvaluateMonotone(gate, c, d);
    var x, y := Evaluate(gate, c), Evaluate(gate, d);
    UnknownNeverSurvives(gate, d);
    RoundMonotone(HalfEven, Min(1.0, x.confidence + lo), Min(1.0, y.confidence + hi));
    RoundMonotone(HalfEven, x.confidence, Min(1.0, y.confidence + hi)) by { ConfidenceAtMostOne(gate, c); }
    ConfidenceIsRounded(gate, c);
    KnownSurvival(gate, d);
    KnownSurvival(gate, c);
  }

  lemma UnknownNeverSurvives(gate: Gate, c: Candidate)
    ensures c.tacticId !in gate.templates ==> Evaluate(gate, c).confidence == 0.0 && !Evaluate(gate, c).survived
  {
  }

  lemma ConfidenceAtMostOne(gate: Gate, c: Candidate)
    requires ValidGate(gate)
    ensures Evaluate(gate, c).confidence <= 1.0
  {
    if c.tacticId in gate.templates {
      ConfidenceIsTemplateScore(gate, c);
      hide RawScore, Round4, Confidence;
      RoundMonotone(HalfEven, Min(1.0, RawScore(gate, c)), 1.0);
      RoundFixed(HalfEven, 10000);
      assert 10000 as real / 10000.0 == 1.0;
    }
  }

  lemma ConfidenceIsRounded(gate: Gate, c: Candidate)
    ensures Round(Evaluate(gate, c).confidence) == Evaluate(gate, c).confidence
  {
    if c.tacticId in gate.templates && gate.templates[c.tacticId] > 0 {
      RoundIdempotent(HalfEven,
                      SumOf(gate.templates[c.tacticId], TemplateScore(gate, c)) / gate.templates[c.tacticId] as real);
    } else {
      RoundFixed(HalfEven, 0);
    }
  }

  lemma KnownSurvival(gate: Gate, c: Candidate)
    ensures Evaluate(gate, c).survived <==>
            c.tacticId in gate.templates && Evaluate(gate, c).confidence >= ENTAILMENT_CONFIDENCE_CEILING
  {
  }

  lemma {:induction false} SurvivingMembers(gate: Gate, cs: seq<Candidate>, corroboration: real)
    ensures forall c :: c in Surviving(gate, cs, corroboration) <==> c in cs && Gated(gate, c, corroboration).survived
  {
    if cs != [] {
      hide Gated;
      SurvivingMembers(gate, cs[..|cs| - 1], corroboration);
      assert cs == cs[..|cs| - 1] + [cs[|cs| - 1]];
    }
  }

  lemma CorroborationMonotone(cs: seq<Candidate>, ds: seq<Candidate>)
    requires Dominates(ds, cs)
    ensures 0.0 <= Corroboration(cs) <= Corroboration(ds)
  {
    forall id | id in Ids(cs)
      ensures id in Ids(ds)
    {
      var c :| c in cs && c.tacticId == id;
      var d :| d in ds && AtLeast(d, c);
    }
    SubsetSize(Ids(cs), Ids(ds));
  }

  /** Stronger candidates lose no survivor of the gate. */
  lemma GateMonotone(gate: Gate, cs: seq<Candidate>, ds: seq<Candidate>)
    requires ValidGate(gate) && Dominates(ds, cs)
    ensures Dominates(Surviving(gate, ds, Corroboration(ds)), Surviving(gate, cs, Corroboration(cs)))
  {
    hide Gated, Corroboration;
    CorroborationMonotone(cs, ds);
    SurvivingMembers(gate, cs, Corroboration(cs));
    SurvivingMembers(gate, ds, Corroboration(ds));
    forall c | c in Surviving(gate, cs, Corroboration(cs))
      ensures exists d :: d in Surviving(gate, ds, Corroboration(ds)) && AtLeast(d, c)
    {
      var d :| d in ds && AtLeast(d, c);
      GatedMonotone(gate, c, d, Corroboration(cs), Corroboration(ds));
    }
  }

  /** Through routing and the gate: more prior session flags never drop a surviving flag. */
  lemma MorePriorFlagsKeepSurvivors(tactics: Tactics, gate: Gate, msg: Message, models: Models, p: set<string>,
                                    q: set<string>)
    requires ValidGate(gate) && p <= q
    ensures var a, b := Route(tactics, msg, p, models).candidates, Route(tactics, msg, q, models).candidates;
            Dominates(Surviving(gate, b, Corroboration(b)), Surviving(gate, a, Corroboration(a)))
  {
    hide Surviving, Corroboration, Route;
    RouteMonotone(tactics, msg, models, p, q);
    GateMonotone(gate, Route(tactics, msg, p, models).candidates, Route(tactics, msg, q, models).candidates);
  }

  // ------------------------------------------------------ what clears the gate

  /** A question or supposition leaves 0.55 of the specificity, a negation 0.15. */
  lemma GroundingFactors(gate: Gate, spans: seq<string>, context: string)
    ensures var w := Specificity(gate, spans);
            var asks, negates := Hypothetical(gate, context), Negated(gate, context, spans);
            Grounding(gate, spans, context) ==
            if asks && negates then 0.0825 * w else if asks then 0.55 * w else if negates then 0.15 * w else w
  {
    hide Specificity, Hypothetical, Negated;
  }

  /** A candidate of a known tactic clears the gate exactly when its score times its grounding, rounded, reaches
      0.35, or does so with 0.15 added, 0.30 at most, for every further tactic; one of an unknown tactic never. */
  lemma SurvivesExactly(gate: Gate, cs: seq<Candidate>, c: Candidate)
    requires ValidGate(gate) && c in cs
    ensures var x := Round4(HalfEven, Min(1.0, Weighted(c.score, Grounding(gate, c.spans, c.context))));
            c in Surviving(gate, cs, Corroboration(cs)) <==>
              && c.tacticId in gate.templates
              && (x >= 0.35 || (|Ids(cs)| >= 2
                                && Round4(HalfEven, Min(1.0, x + Min(0.30, 0.15 * (|Ids(cs)| - 1) as real))) >= 0.35))
  {
    SurvivingMembers(gate, cs, Corroboration(cs));
    if c.tacticId in gate.templates {
      ConfidenceIsTemplateScore(gate, c);
      hide Confidence, Surviving, Round4, Weighted, Grounding;
    } else {
      UnknownNeverGated(gate, c, Corroboration(cs));
    }
  }

  lemma UnknownNeverGated(gate: Gate, c: Candidate, corroboration: real)
    requires c.tacticId !in gate.templates && corroboration <= 0.30
    ensures !Gated(gate, c, corroboration).survived
  {
    RoundMonotone(HalfEven, Min(1.0, 0.0 + corroboration), 3000 as real / 10000.0);
    RoundFixed(HalfEven, 3000);
    hide Round4;
    assert 3000 as real / 10000.0 == 0.3;
  }

  /** The survivors keep their order. */
  lemma {:induction false} SurvivorsInOrder(gate: Gate, cs: seq<Candidate>, corroboration: real)
    ensures Selected(cs, (c: Candidate) => Gated(gate, c, corroboration).survived,
                     (c: Candidate, d: Candidate) => c == d, Surviving(gate, cs, corroboration))
  {
    hide Gated, Selected;
    var keep := (c: Candidate) => Gated(gate, c, corroboration).survived;
    var same := (c: Candidate, d: Candidate) => c == d;
    if cs == [] {
      NothingSelected(keep, same);
    } else {
      var front := cs[..|cs| - 1];
      SurvivorsInOrder(gate, front, corroboration);
      SelectNext(cs, keep, same, Surviving(gate, front, corroboration), Surviving(gate, cs, corroboration));
    }
  }

  // ------------------------------------------------- capped dual-use evidence

  lemma {:induction false} LowSpecificity(gate: Gate, spans: seq<string>)
    requires forall s :: s in spans ==>
             Strip(Python, gate.lower(s)) == "" || Strip(Python, gate.lower(s)) in gate.lowCues
    ensures Specificity(gate, spans) <= LOW_INFO_WEIGHT
  {
    if spans != [] {
      assert spans == spans[..|spans| - 1] + [spans[|spans| - 1]];
      LowSpecificity(gate, spans[..|spans| - 1]);
    }
  }

  /** Dual-use phrases are capped: a tactic backed by nothing else clears the gate neither alone nor
      with any number of such phrases, unless another tactic corroborates it. */
  lemma DualUseAloneAbstains(gate: Gate, cs: seq<Candidate>, c: Candidate)
    requires ValidGate(gate) && c in cs && |Ids(cs)| == 1 && 0.0 <= c.score <= 1.0
    requires forall s :: s in c.spans ==>
             Strip(Python, gate.lower(s)) == "" || Strip(Python, gate.lower(s)) in gate.lowCues
    ensures c !in Surviving(gate, cs, Corroboration(cs))
  {
    hide Grounding, Specificity, Surviving, Evaluate;
    SurvivingMembers(gate, cs, Corroboration(cs));
    LowConfidence(gate, c);
    KnownSurvival(gate, c);
    assert Corroboration(cs) == 0.0;
  }

  lemma LowConfidence(gate: Gate, c: Candidate)
    requires ValidGate(gate) && 0.0 <= c.score <= 1.0
    requires forall s :: s in c.spans ==>
             Strip(Python, gate.lower(s)) == "" || Strip(Python, gate.lower(s)) in gate.lowCues
    ensures Evaluate(gate, c).confidence <= LOW_INFO_WEIGHT
  {
    if c.tacticId in gate.templates {
      LowRawScore(gate, c);
      ConfidenceIsTemplateScore(gate, c);
      hide RawScore, Round4, Confidence;
      RoundMonotone(HalfEven, Min(1.0, RawScore(gate, c)), 0.25);
      RoundFixed(HalfEven, 2500);
      assert 2500 as real / 10000.0 == 0.25;
    }
  }

  lemma LowRawScore(gate: Gate, c: Candidate)
    requires 0.0 <= c.score <= 1.0
    requires forall s :: s in c.spans ==>
             Strip(Python, gate.lower(s)) == "" || Strip(Python, gate.lower(s)) in gate.lowCues
    ensures RawScore(gate, c) <= LOW_INFO_WEIGHT
  {
    hide Grounding, Specificity;
    LowSpecificity(gate, c.spans);
    WeightedMonotone(c.score, 1.0, Grounding(gate, c.spans, c.context));
    WeightedWhole(Grounding(gate, c.spans, c.context));
    hide Weighted;
  }

  lemma WeightedWhole(g: real)
    ensures Weighted(1.0, g) == g
  {
  }
}
