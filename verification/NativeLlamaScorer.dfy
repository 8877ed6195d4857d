/** The model-backed scorer: reading assessments out of model text, and blending them in. */
module NativeLlamaScorer {
  import opened Options
  import opened TextRules
  import opened ModelCascade
  import opened OnDeviceCascade
  import opened JsonText
  import opened JsonExtraction

  /** What `JSON.parse` builds; a number is None when it overflows to an infinity. */
  datatype Value =
    | NullValue
    | BoolValue(b: bool)
    | NumberValue(n: Option<real>)
    | TextValue(s: string)
    | ListValue(items: seq<Value>)
    | ObjectValue(fields: map<string, Value>)

  /** What `Number(x)` makes of a value: a finite number, another number, or an exception. */
  datatype Coercion = Finite(x: real) | NotFinite | Throws

  /** The built-in parser, and `Number` on strings, arrays and objects. */
  datatype Platform = Platform(parse: string -> Option<Value>, number: Value -> Coercion)

  datatype Assessment = Assessment(confidence: real, rationale: Option<string>)

  type Assessments = map<string, Assessment>

  predicate IsObject(v: Value) {
    v.ListValue? || v.ObjectValue?
  }

  /** A property of a value, None when it is undefined. */
  function Field(v: Value, name: string): Option<Value> {
    if v.ObjectValue? && name in v.fields then Some(v.fields[name]) else None
  }

  /** The rows of a reply: an array, an object with a `results` array, or one assessment. */
  function SelectRows(parsed: Value): seq<Value> {
    if parsed.ListValue? then parsed.items
    else
      var results := Field(parsed, "results");
      if results.Some? && results.value.ListValue? then results.value.items
      else if Field(parsed, "tactic_id").Some? then [parsed]
      else []
  }

  function Clamp(x: real): real {
    var y := if x <= 1.0 then x else 1.0;
    if y >= 0.0 then y else 0.0
  }

  function IdOf(row: Value): string {
    var id := Field(row, "tactic_id");
    if id.Some? && id.value.TextValue? then id.value.s else ""
  }

  function ConfidenceOf(platform: Platform, row: Value): Coercion {
    match Field(row, "confidence")
    case None => NotFinite
    case Some(NumberValue(n)) => if n.Some? then Finite(n.value) else NotFinite
    case Some(NullValue) => Finite(0.0)
    case Some(BoolValue(b)) => Finite(if b then 1.0 else 0.0)
    case Some(other) => platform.number(other)
  }

  /** The trimmed rationale, unless it is absent, not a string or blank. */
  function RationaleOf(row: Value): Option<string> {
    var rationale := Field(row, "rationale");
    if rationale.Some? && rationale.value.TextValue? && Strip(JavaScript, rationale.value.s) != ""
    then Some(Strip(JavaScript, rationale.value.s)) else None
  }

  predicate NamesRequested(row: Value, requested: set<string>) {
    IsObject(row) && IdOf(row) in requested
  }

  /** A row counts when it names a requested tactic and has a finite confidence. */
  predicate Usable(platform: Platform, row: Value, requested: set<string>) {
    NamesRequested(row, requested) && ConfidenceOf(platform, row).Finite?
  }

  predicate Breaks(platform: Platform, row: Value, requested: set<string>) {
    NamesRequested(row, requested) && ConfidenceOf(platform, row).Throws?
  }

  function AssessmentOf(platform: Platform, row: Value): Assessment
    requires ConfidenceOf(platform, row).Finite?
  {
    Assessment(Clamp(ConfidenceOf(platform, row).x), RationaleOf(row))
  }

  /** The index of the last usable row for a tactic, or -1. */
  function LastRowFor(platform: Platform, rows: seq<Value>, requested: set<string>, id: string): (i: int)
    ensures -1 <= i < |rows|
    ensures i >= 0 ==> Usable(platform, rows[i], requested) && IdOf(rows[i]) == id
    ensures forall j :: i < j < |rows| && Usable(platform, rows[j], requested) ==> IdOf(rows[j]) != id
  {
    if rows == [] then -1
    else if Usable(platform, rows[|rows| - 1], requested) && IdOf(rows[|rows| - 1]) == id then |rows| - 1
    else LastRowFor(platform, rows[..|rows| - 1], requested, id)
  }

  /** The last usable row of each requested tactic, clamped. */
  ghost predicate ReadFrom(platform: Platform, out: Assessments, rows: seq<Value>, requested: set<string>) {
    forall id ::
      var i := LastRowFor(platform, rows, requested, id);
      (id in out <==> i >= 0) && (id in out ==> out[id] == AssessmentOf(platform, rows[i]))
  }

  /** The rows are read, unless the confidence of one of them throws. */
  ghost predicate RowsRead(platform: Platform, out: Option<Assessments>, rows: seq<Value>, requested: set<string>) {
    && (out.None? <==> exists row :: row in rows && Breaks(platform, row, requested))
    && (out.Some? ==> ReadFrom(platform, out.value, rows, requested))
  }

  lemma ReadOneMore(platform: Platform, out: Assessments, rows: seq<Value>, requested: set<string>)
    requires rows != [] && ReadFrom(platform, out, rows[..|rows| - 1], requested)
    ensures var last := rows[|rows| - 1];
            if Usable(platform, last, requested) then
              ReadFrom(platform, out[IdOf(last) := AssessmentOf(platform, last)], rows, requested)
            else ReadFrom(platform, out, rows, requested)
  {
    hide Usable, IdOf, AssessmentOf;
  }

  method ReadRows(platform: Platform, rows: seq<Value>, requested: set<string>) returns (out: Option<Assessments>)
    ensures RowsRead(platform, out, rows, requested)
  {
    var read: Assessments := map[];
    for i := 0 to |rows|
      invariant ReadFrom(platform, read, rows[..i], requested)
      invariant forall row :: row in rows[..i] ==> !Breaks(platform, row, requested)
    {
      hide ReadFrom;
      assert rows[..i + 1] == rows[..i] + [rows[i]];
      ReadOneMore(platform, read, rows[..i + 1], requested);
      var row := rows[i];
      if !IsObject(row) {
        continue;
      }
      var tid := IdOf(row);
      if tid !in requested {
        continue;
      }
      var confidence := ConfidenceOf(platform, row);
      if confidence.Throws? {
        assert row in rows && Breaks(platform, row, requested);
        return None;
      }
      if confidence.NotFinite? {
        continue;
      }
      read := read[tid := Assessment(Clamp(confidence.x), RationaleOf(row))];
    }
    assert rows[..|rows|] == rows;
    out := Some(read);
  }

  predicate OneRowEach(platform: Platform, rows: seq<Value>, requested: set<string>) {
    forall j, k :: 0 <= j < k < |rows| && Usable(platform, rows[j], requested) ==>
      Usable(platform, rows[k], requested) ==> IdOf(rows[j]) != IdOf(rows[k])
  }

  /** When no two usable rows name one tactic, every usable row is read. */
  lemma EachRowIsRead(platform: Platform, out: Assessments, rows: seq<Value>, requested: set<string>, i: nat)
    requires ReadFrom(platform, out, rows, requested)
    requires OneRowEach(platform, rows, requested)
    requires i < |rows| && Usable(platform, rows[i], requested)
    ensures IdOf(rows[i]) in out && out[IdOf(rows[i])] == AssessmentOf(platform, rows[i])
  {
    hide Usable, IdOf, AssessmentOf;
    assert LastRowFor(platform, rows, requested, IdOf(rows[i])) == i;
  }

  /** The rationale a row gives, trimmed, if it is a string that is not blank. */
  predicate GivesRationale(fields: map<string, Value>, rationale: Option<string>) {
    if rationale.Some? then
      && "rationale" in fields && fields["rationale"].TextValue?
      && rationale.value == Strip(JavaScript, fields["rationale"].s) != ""
    else "rationale" in fields && fields["rationale"].TextValue? ==> Strip(JavaScript, fields["rationale"].s) == ""
  }

  /** A row in the requested format is read as it stands: a confidence from 0 to 1 unchanged, a lower one as 0
      and a higher one as 1, with its rationale. */
  lemma FormattedRowIsRead(platform: Platform, out: Assessments, rows: seq<Value>, requested: set<string>, i: nat,
                           fields: map<string, Value>, id: string, x: real)
    requires ReadFrom(platform, out, rows, requested) && OneRowEach(platform, rows, requested)
    requires i < |rows| && rows[i] == ObjectValue(fields) && id in requested
    requires "tactic_id" in fields && fields["tactic_id"] == TextValue(id)
    requires "confidence" in fields && fields["confidence"] == NumberValue(Some(x))
    ensures id in out && GivesRationale(fields, out[id].rationale)
    ensures 0.0 <= x <= 1.0 ==> out[id].confidence == x
    ensures x < 0.0 ==> out[id].confidence == 0.0
    ensures x > 1.0 ==> out[id].confidence == 1.0
  {
    hide ReadFrom, OneRowEach;
    EachRowIsRead(platform, out, rows, requested, i);
  }

  /** `out` is what a model's output says about the requested tactics: the rows of the extracted bracketed
      text, selected and clamped, nothing when the text cannot be extracted or parsed, and None when reading
      it throws. */
  ghost predicate IsReading(raw: string, requested: set<string>, platform: Platform, out: Option<Assessments>) {
    var span := ExtractSpan(raw);
    if span.None? then out == Some(map[])
    else
      && span.value.0 <= span.value.1 <= |raw|
      && var parsed := platform.parse(raw[span.value.0..span.value.1]);
         if parsed.None? then out == Some(map[])
         else RowsRead(platform, out, SelectRows(parsed.value), requested)
  }

  /** Read a model's output. */
  method ParseTacticAssessments(raw: string, requested: set<string>, platform: Platform)
    returns (out: Option<Assessments>)
    ensures out.Some? ==> forall id :: id in out.value ==> id in requested && 0.0 <= out.value[id].confidence <= 1.0
    ensures IsReading(raw, requested, platform, out)
  {
    hide ExtractSpan, SelectRows;
    out := Some(map[]);
    var json := ExtractJson(raw);
    if json.None? {
      return;
    }
    var parsed := platform.parse(json.value);
    if parsed.None? {
      return;
    }
    out := ReadRows(platform, SelectRows(parsed.value), requested);
  }

  /** Prose around a reply changes nothing, as long as no bracket opens before the reply. */
  lemma ProseIsIgnored(prefix: string, v: Json, suffix: string, requested: set<string>, platform: Platform,
                       out: Option<Assessments>)
    requires (v.Arr? || v.Obj?) && Valid(v) && BracketFree(prefix)
    ensures IsReading(prefix + Print(v) + suffix, requested, platform, out) <==>
            IsReading(Print(v), requested, platform, out)
  {
    hide ExtractSpan, RowsRead, SelectRows, Valid, Print;
    var text, raw := Print(v), prefix + Print(v) + suffix;
    ExtractionUndoesEmbedding(prefix, v, suffix);
    ExtractionUndoesEmbedding("", v, "");
    assert "" + text + "" == text;
    assert raw[|prefix|..|prefix| + |text|] == text;
    assert text[0..|text|] == text;
  }

  /** The rows of a reply in each of the three shapes a model may choose. */
  predicate HasRows(value: Value, rows: seq<Value>) {
    || value == ListValue(rows)
    || (value.ObjectValue? && "results" in value.fields && value.fields["results"] == ListValue(rows))
    || (value.ObjectValue? && "tactic_id" in value.fields && rows == [value]
        && ("results" in value.fields ==> !value.fields["results"].ListValue?))
  }

  /** A JSON reply in prose is read row by row, whichever shape it has. */
  lemma ReplyIsRead(prefix: string, v: Json, suffix: string, requested: set<string>, platform: Platform,
                    rows: seq<Value>, out: Option<Assessments>)
    requires (v.Arr? || v.Obj?) && Valid(v) && BracketFree(prefix)
    requires platform.parse(Print(v)).Some? && HasRows(platform.parse(Print(v)).value, rows)
    ensures IsReading(prefix + Print(v) + suffix, requested, platform, out) <==>
            RowsRead(platform, out, rows, requested)
  {
    hide ExtractSpan, RowsRead, Valid, Print;
    var text := Print(v);
    ProseIsIgnored(prefix, v, suffix, requested, platform, out);
    ExtractionUndoesEmbedding("", v, "");
    assert "" + text + "" == text && text[0..|text|] == text;
  }

  function ConfidencesOf(out: Assessments): (r: map<string, real>)
    ensures r.Keys == out.Keys && forall id :: id in out ==> r[id] == out[id].confidence
  {
    map id | id in out :: out[id].confidence
  }

  function RationalesOf(out: Assessments): map<string, string> {
    map id | id in out && out[id].rationale.Some? :: out[id].rationale.value
  }

  /** What the engine did: it was not ready, its completion failed, or it produced text. */
  datatype Engine = NotReady | Failed | Completed(text: string)

  /** What the model contributes: nothing when reading its text throws. */
  ghost predicate IsSignal(used: Assessments, raw: string, requested: set<string>, platform: Platform) {
    || IsReading(raw, requested, platform, Some(used))
    || (used == map[] && IsReading(raw, requested, platform, None))
  }

  /** Score a transcript: the heuristic result for benign text, for an engine that gives nothing usable,
      and otherwise the blended one. Model text never adds a tactic. */
  method ScoreTranscript(device: Device, lowered: string, engine: Engine, platform: Platform)
    returns (score: Score, ghost used: Assessments)
    ensures score == (if used == map[] then Cascade(device, lowered, None, map[])
                      else Cascade(device, lowered, Some(ConfidencesOf(used)), RationalesOf(used)))
    ensures forall id :: id in used ==> 0.0 <= used[id].confidence <= 1.0
    ensures if Tier0CandidatesOf(device, lowered) == [] || !engine.Completed? then used == map[]
            else IsSignal(used, engine.text, Ids(Tier0CandidatesOf(device, lowered)), platform)
    ensures score.tierReached == 1 <==> used != map[] && Tier0CandidatesOf(device, lowered) != []
    ensures forall f :: f in score.flags ==>
              && (exists c :: c in Tier0CandidatesOf(device, lowered) && SameFinding(f.tacticId, f.spans, c))
              && f.spans != [] && CEILING <= f.confidence <= 1.0
  {
    hide Tier0CandidatesOf, IsReading;
    var candidates := Tier0CandidatesOf(device, lowered);
    var assessments: Assessments := map[];
    if candidates != [] {
      var tacticIds := Ids(candidates);
      if engine.Completed? {
        var reading := ParseTacticAssessments(engine.text, tacticIds, platform);
        if reading.Some? {
          assessments := reading.value;
        }
      }
    }
    used := assessments;
    var confidences, rationales := ConfidencesOf(assessments), RationalesOf(assessments);
    if |confidences.Keys| > 0 {
      assert assessments != map[];
      score := RunOnDeviceCascade(device, lowered, Some(confidences), rationales);
    } else {
      assert assessments == map[] by { NothingUsable(assessments); }
      score := RunOnDeviceCascade(device, lowered, None, map[]);
    }
    forall f | f in score.flags
      ensures (exists c :: c in Tier0CandidatesOf(device, lowered) && SameFinding(f.tacticId, f.spans, c))
              && f.spans != [] && CEILING <= f.confidence <= 1.0
    {
      if assessments == map[] {
        FlagsAreGrounded(device, lowered, None, map[], f);
      } else {
        FlagsAreGrounded(device, lowered, Some(confidences), rationales, f);
      }
    }
  }

  lemma NothingUsable(m: Assessments)
    requires |m.Keys| == 0
    ensures m == map[]
  {
    assert m.Keys == {};
  }
}
