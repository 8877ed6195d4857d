/** Where the device's port of the grounding checks agrees with the server's original. */
module PortAgreement {
  import opened Substrings
  import opened TextRules
  import opened OnDeviceCascade
  import E = EntailmentGate

  /** The gate data of the server, as far as the device carries it. */
  ghost predicate SameGateData(device: Device, gate: E.Gate) {
    device.lower == gate.lower && device.lowCues == gate.lowCues && device.highCues == gate.highCues
  }

  lemma {:induction false} SpecificityAgrees(device: Device, gate: E.Gate, spans: seq<string>)
    requires SameGateData(device, gate)
    requires forall s :: s in spans ==> Undisputed(gate.lower(s))
    ensures Specificity(device, spans) == E.Specificity(gate, spans)
  {
    if spans != [] {
      var last := spans[|spans| - 1];
      SpecificityAgrees(device, gate, spans[..|spans| - 1]);
      WeightAgrees(device, gate, last);
      hide InformationWeight, E.InformationWeight;
    }
  }

  lemma WeightAgrees(device: Device, gate: E.Gate, span: string)
    requires SameGateData(device, gate) && Undisputed(gate.lower(span))
    ensures InformationWeight(device, span) == E.InformationWeight(gate, span)
  {
    hide IsSpace, IsDisputed, Strip, Words, Pieces;
    var s := Strip(JavaScript, gate.lower(span));
    StripAgrees(gate.lower(span));
    StripShape(JavaScript, gate.lower(span));
    if s != "" {
      PiecesAreWords(s);
    }
  }

  lemma NegationAgrees(gate: E.Gate, context: string, spans: seq<string>)
    requires gate.lower(context) == context && Trimmed(JavaScript, context) && Undisputed(context) && spans != []
    requires forall s :: s in spans ==> gate.lower(s) == s && Trimmed(JavaScript, s) && Undisputed(s)
    ensures Negated(context, spans) <==> E.Negated(gate, context, spans)
  {
    hide Pieces, Words, ContainsAny, Join, Stem, E.Stem, E.NegatedAt, IsSpace, IsDisputed;
    PiecesAreWords(context);
    forall k | 0 <= k < |spans|
      ensures Stem(spans[k]) == E.Stem(gate, spans[k])
    {
      assert spans[k] in spans;
      StemAgrees(gate, spans[k]);
    }
    var words := Words(gate.lower(context));
    if Negated(context, spans) {
      var k, i :| 0 <= k < |spans| && 0 <= i < |words| && Stem(spans[k]) != "" && E.NegatedAt(words, Stem(spans[k]), i);
      assert E.NegatedAt(words, E.Stem(gate, spans[k]), i);
    }
    if E.Negated(gate, context, spans) {
      var k, i :| 0 <= k < |spans| && 0 <= i < |words| && E.Stem(gate, spans[k]) != ""
                  && E.NegatedAt(words, E.Stem(gate, spans[k]), i);
      assert E.NegatedAt(words, Stem(spans[k]), i);
    }
  }

  lemma StemAgrees(gate: E.Gate, span: string)
    requires gate.lower(span) == span && Trimmed(JavaScript, span) && Undisputed(span)
    ensures Stem(span) == E.Stem(gate, span)
  {
    hide IsSpace, IsDisputed, Words;
    PiecesAreWords(span);
  }

  /** The grounding checks of the port leave of a score exactly what those of the server leave, for every
      normalised message and every non-empty list of trimmed lower-case spans, as long as the languages
      agree on which of the characters are white space. */
  lemma GroundingAgrees(device: Device, gate: E.Gate, spans: seq<string>, context: string)
    requires SameGateData(device, gate) && spans != []
    requires Trimmed(JavaScript, context) && gate.lower(context) == context && Undisputed(context)
    requires forall s :: s in spans ==> Trimmed(JavaScript, s) && gate.lower(s) == s && Undisputed(s)
    ensures Ground(device, spans, context) == E.Grounding(gate, spans, context)
  {
    hide Specificity, E.Specificity, Negated, E.Negated, IsSpace, IsDisputed;
    SpecificityAgrees(device, gate, spans);
    NegationAgrees(gate, context, spans);
    StripShape(JavaScript, context);
    StripAgrees(context);
  }

  /** A negation and a cue with one character between them. */
  function NegatedCue(c: char): string {
    "never" + [c] + "otp"
  }

  /** The agreement needs that condition: with a single character between a negation and a cue, the two
      gates agree exactly when the languages do not dispute whether it is white space. */
  lemma SeparatorDecidesAgreement(device: Device, gate: E.Gate, c: char)
    requires SameGateData(device, gate)
    requires gate.lower("otp") == "otp" && gate.lower(NegatedCue(c)) == NegatedCue(c)
    ensures Ground(device, ["otp"], NegatedCue(c)) == E.Grounding(gate, ["otp"], NegatedCue(c)) <==> !IsDisputed(c)
  {
    hide Pieces, Words, StripLeft, StripRight;
    var context := NegatedCue(c);
    LettersAreUndisputed(c);
    if !IsDisputed(c) {
      GroundingAgrees(device, gate, ["otp"], context);
    } else {
      hide IsDisputed, Specificity, E.Specificity, InformationWeight, E.InformationWeight, Negated, E.Negated, IsSpace;
      SpecificityAgrees(device, gate, ["otp"]);
      OtpHasWeight(gate);
      NegatedCueSplits(gate, c);
      StripShape(JavaScript, context);
      StripShape(Python, context);
      hide Strip;
      assert !Hypothetical(context) && !E.Hypothetical(gate, context);
      var w := E.Specificity(gate, ["otp"]);
      assert E.Scaled(w, 1.0) == w && w * 0.15 != w;
    }
  }

  lemma LettersAreUndisputed(c: char)
    ensures Undisputed("otp") && Trimmed(JavaScript, "otp") && Trimmed(Python, "otp")
    ensures Trimmed(JavaScript, NegatedCue(c)) && Trimmed(Python, NegatedCue(c))
    ensures !IsDisputed(c) ==> Undisputed(NegatedCue(c))
  {
  }

  lemma OtpHasWeight(gate: E.Gate)
    requires gate.lower("otp") == "otp"
    ensures E.Specificity(gate, ["otp"]) > 0.0
  {
    StripShape(Python, "otp");
    PlainWord("otp");
    hide Strip, Words;
    assert ["otp"][..0] == [];
    assert E.InformationWeight(gate, "otp") > 0.0;
  }

  lemma CutPieces(c: char)
    ensures Pieces(NegatedCue(c)) == if IsSpace(JavaScript, c) then ["never", "otp"] else [NegatedCue(c)]
  {
    if IsSpace(JavaScript, c) {
      PiecesAround("never", c, "otp");
    } else {
      PlainPiece(NegatedCue(c));
    }
  }

  lemma CutWords(c: char)
    ensures Words(NegatedCue(c)) == if IsSpace(Python, c) then ["never", "otp"] else [NegatedCue(c)]
  {
    if IsSpace(Python, c) {
      WordsAround("never", c, "otp");
    } else {
      PlainWord(NegatedCue(c));
    }
  }

  lemma CutNegation(words: seq<string>, c: char, split: bool)
    requires words == if split then ["never", "otp"] else [NegatedCue(c)]
    ensures (exists i :: 0 <= i < |words| && E.NegatedAt(words, "otp", i)) <==> split
  {
    if split {
      assert E.WindowBefore(words, 1) == "never";
      assert OccursAt("never", "never", 0) && "never" in E.NEGATION_CUES;
      assert ContainsAny("never", E.NEGATION_CUES) by { assert Occurs("never", "never"); }
      assert E.NegatedAt(words, "otp", 1);
    } else {
      assert words[0][0] == 'n' && "otp"[0] == 'o';
    }
  }

  /** The language that splits at `c` finds the negation before the cue, the other finds no cue. */
  lemma NegatedCueSplits(gate: E.Gate, c: char)
    requires gate.lower("otp") == "otp" && gate.lower(NegatedCue(c)) == NegatedCue(c)
    ensures Negated(NegatedCue(c), ["otp"]) <==> IsSpace(JavaScript, c)
    ensures E.Negated(gate, NegatedCue(c), ["otp"]) <==> IsSpace(Python, c)
  {
    var pieces, words := Pieces(NegatedCue(c)), Words(NegatedCue(c));
    PlainPiece("otp");
    PlainWord("otp");
    CutPieces(c);
    CutWords(c);
    CutNegation(pieces, c, IsSpace(JavaScript, c));
    CutNegation(words, c, IsSpace(Python, c));
    hide IsSpace, Words, Pieces, E.NegatedAt;
    assert Stem("otp") == "otp" && E.Stem(gate, "otp") == "otp";
    assert Negated(NegatedCue(c), ["otp"]) <==> exists i :: 0 <= i < |pieces| && E.NegatedAt(pieces, "otp", i) by {
      if i :| 0 <= i < |pieces| && E.NegatedAt(pieces, "otp", i) {
        assert E.NegatedAt(pieces, Stem(["otp"][0]), i);
      }
    }
    assert E.Negated(gate, NegatedCue(c), ["otp"]) <==>
           exists i :: 0 <= i < |words| && E.NegatedAt(words, "otp", i) by {
      if i :| 0 <= i < |words| && E.NegatedAt(words, "otp", i) {
        assert E.NegatedAt(words, E.Stem(gate, ["otp"][0]), i);
      }
    }
  }
}
