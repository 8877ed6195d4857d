/** A message and two model confidences for which the more certain model shows less. */
module RaisedConfidence {
  import opened Options
  import opened Substrings
  import opened TextRules
  import opened Rounding
  import opened FastPatternMatcher
  import opened ModelCascade
  import opened OnDeviceCascade
  import E = EntailmentGate

  const CUES := "otp pay"

  const OTP := TacticSpec("otp", ["otp"], [], true)
  const PAY := TacticSpec("pay", ["pay"], [], true)

  /** Two one-word tactics, the cue of the first a term of art. */
  const PHONE := Device([OTP, PAY], (s: string) => s, ["otp"], {})

  /** The candidate of a tactic with one matched cue. */
  function Found(t: TacticSpec, score: real): Candidate {
    Candidate(t.id, t.cues, score, CUES)
  }

  /** A model that is more certain of the first tactic makes the device show less: 0.369 instead of 0.474. */
  lemma HigherConfidenceShownLower()
    ensures var low, high := map["otp" := 0.4], map["otp" := 0.5];
            && Flag("otp", 0.474, ["otp"], None) in Cascade(PHONE, CUES, Some(low), map[]).flags
            && Flag("otp", 0.369, ["otp"], None) in Cascade(PHONE, CUES, Some(high), map[]).flags
  {
    hide Cascade;
    ShownAt(0.4, 4740);
    ShownAt(0.5, 3690);
    assert 4740 as real / 10000.0 == 0.474 && 3690 as real / 10000.0 == 0.369;
  }

  lemma ShownAt(confidence: real, shown: int)
    requires (confidence == 0.4 && shown == 4740) || (confidence == 0.5 && shown == 3690)
    ensures Flag("otp", shown as real / 10000.0, ["otp"], None) in
              Cascade(PHONE, CUES, Some(map["otp" := confidence]), map[]).flags
  {
    hide *;
    CuesEscalate();
    CuesRefined();
    var refined := [Found(OTP, 0.32), Found(PAY, 0.32)];
    var blended := Blended(refined, map["otp" := confidence]);
    CascadeFlags(PHONE, CUES, map["otp" := confidence], map[]);
    FlagMembers(PHONE, blended, 0.15, map[]);
    OtpSurfaces(confidence, shown);
    assert blended[0] == BlendOne(Found(OTP, 0.32), map["otp" := confidence]);
  }

  lemma OtpSurfaces(confidence: real, shown: int)
    requires (confidence == 0.4 && shown == 4740) || (confidence == 0.5 && shown == 3690)
    ensures var c := BlendOne(Found(OTP, 0.32), map["otp" := confidence]);
            SurfacesAt(PHONE, c, 0.15) && FlagAt(PHONE, c, 0.15, map[]) ==
              Flag("otp", shown as real / 10000.0, ["otp"], None)
  {
    hide Ground, Round4, E.Weighted;
    CuesGround();
    WeightedIs(0.16 + 0.5 * confidence, 0.9);
    RoundFixed(HalfUp, shown);
  }

  lemma WeightedIs(score: real, factor: real)
    ensures E.Weighted(score, factor) == score * factor
  {
  }

  lemma CuesScan()
    ensures Scan(PHONE.tactics, CUES) == [Found(OTP, 0.22), Found(PAY, 0.22)]
  {
    assert OccursAt("otp", CUES, 0) && OccursAt("pay", CUES, 4);
    OneCue(OTP, "otp");
    OneCue(PAY, "pay");
    hide CandidateOf;
    assert PHONE.tactics[..1] == [OTP] && [OTP][..0] == [];
    assert Scan([OTP], CUES) == [] + CandidateOf(OTP, CUES);
  }

  lemma OneCue(t: TacticSpec, cue: string)
    requires t.cues == [cue] && Occurs(cue, CUES)
    ensures CandidateOf(t, CUES) == [Found(t, 0.22)]
  {
    hide Occurs;
    assert t.cues[1..] == [];
    assert Matched(t.cues, CUES) == [cue];
  }

  lemma SpecsFound()
    ensures SpecOf(PHONE.tactics, "otp") == Some(OTP) && SpecOf(PHONE.tactics, "pay") == Some(PAY)
  {
    assert PHONE.tactics[1..] == [PAY];
    assert SpecOf([PAY], "pay") == Some(PAY);
  }

  lemma BothScoreable(score: real)
    ensures var cs := [Found(OTP, score), Found(PAY, score)]; ScoreableOf(PHONE, cs) == cs
  {
    var cs := [Found(OTP, score), Found(PAY, score)];
    SpecsFound();
    hide SpecOf;
    assert ScoreableId(PHONE, "otp") && ScoreableId(PHONE, "pay");
    hide ScoreableId;
    assert cs[..1] == [cs[0]] && [cs[0]][..0] == [];
    assert ScoreableOf(PHONE, [cs[0]]) == [cs[0]];
  }

  lemma TwoTactics(score: real)
    ensures var cs := [Found(OTP, score), Found(PAY, score)];
            |Ids(cs)| == 2 && Hits(cs) == 2 && CorroborationOf(cs) == 0.15
  {
    var cs := [Found(OTP, score), Found(PAY, score)];
    assert Ids(cs) == {"otp", "pay"};
    assert cs[..1] == [cs[0]] && [cs[0]][..0] == [];
    assert Hits([cs[0]]) == 1;
  }

  lemma CuesEscalate()
    ensures Tier0CandidatesOf(PHONE, CUES) != []
  {
    hide Scan, ScoreableOf, Ids, Hits, CorroborationOf;
    CuesScan();
    BothScoreable(0.22);
    TwoTactics(0.22);
  }

  lemma CuesRefined()
    ensures RefinedOf(PHONE, CUES) == [Found(OTP, 0.32), Found(PAY, 0.32)]
    ensures CorroborationOf(RefinedOf(PHONE, CUES)) == 0.15
  {
    hide Scan, ScoreableOf, Ids, CorroborationOf, NotExcluded;
    CuesScan();
    BothScoreable(0.22);
    TwoTactics(0.32);
    BothKept();
    assert Boosted([Found(OTP, 0.22), Found(PAY, 0.22)], true) == [Found(OTP, 0.32), Found(PAY, 0.32)];
  }

  lemma BothKept()
    ensures var cs := [Found(OTP, 0.32), Found(PAY, 0.32)];
            NotExcluded(PHONE, cs, [Found(OTP, 0.22), Found(PAY, 0.22)]) == cs
  {
    var cs, all := [Found(OTP, 0.32), Found(PAY, 0.32)], [Found(OTP, 0.22), Found(PAY, 0.22)];
    SpecsFound();
    hide SpecOf;
    assert !Excluded(PHONE, cs[0], all) && !Excluded(PHONE, cs[1], all);
    hide Excluded;
    assert cs[..1] == [cs[0]] && [cs[0]][..0] == [];
    assert NotExcluded(PHONE, [cs[0]], all) == [cs[0]];
  }

  lemma CuesGround()
    ensures Ground(PHONE, ["otp"], CUES) == 0.9
  {
    OtpWeight();
    NothingNegated();
    StripShape(JavaScript, CUES);
    hide InformationWeight, Negated, Strip;
    assert Specificity(PHONE, ["otp"]) == 0.9 by { assert ["otp"][..0] == []; }
    assert !Hypothetical(CUES);
  }

  lemma OtpWeight()
    ensures InformationWeight(PHONE, "otp") == 0.9
  {
    StripShape(JavaScript, "otp");
    PlainPiece("otp");
    OccursInItself("otp");
    assert "otp" in PHONE.highCues;
    assert ContainsAny("otp", PHONE.highCues);
  }

  lemma NothingNegated()
    ensures !Negated(CUES, ["otp"])
  {
    assert CUES == "otp" + [' '] + "pay";
    PiecesAround("otp", ' ', "pay");
    hide Pieces;
    ShortWindows(["otp", "pay"]);
  }

  /** No negation cue fits before the second of two short words. */
  lemma ShortWindows(words: seq<string>)
    requires |words| == 2 && |words[0]| == 3
    ensures forall stem, i :: 0 <= i < 2 ==> !E.NegatedAt(words, stem, i)
  {
    forall i | 0 <= i < 2
      ensures |E.WindowBefore(words, i)| <= 3
    {
    }
    assert forall c :: c in E.NEGATION_CUES ==> |c| > 3;
  }
}
