/** JSON texts as the grammar of RFC 8259 (sections 2 to 7) derives them. */
module JsonText {
  import opened Options

  /** Section 7: an unescaped character, a two-character escape, or a four-digit escape. */
  datatype StringPart = Plain(c: char) | Escaped(c: char) | Unicode(hex: string)

  /** Section 6. */
  datatype Exponent = Exponent(upper: bool, sign: Option<char>, digits: string)
  datatype Number = Number(negative: bool, whole: string, fraction: Option<string>, exponent: Option<Exponent>)

  /** Values, with the whitespace the grammar allows around structural characters. */
  datatype Json =
    | Null | True | False
    | Num(number: Number)
    | Str(parts: seq<StringPart>)
    | Arr(lead: string, items: Items)
    | Obj(lead: string, members: Members)

  datatype Items =
    | NoItems
    | LastItem(value: Json, trail: string)
    | MoreItems(value: Json, trail: string, lead: string, rest: Items)

  datatype Members =
    | NoMembers
    | LastMember(name: seq<StringPart>, ws1: string, ws2: string, value: Json, trail: string)
    | MoreMembers(name: seq<StringPart>, ws1: string, ws2: string, value: Json, trail: string, lead: string,
                  rest: Members)

  predicate IsWs(s: string) {
    forall c :: c in s ==> c in {' ', '\t', '\n', '\r'}
  }

  predicate IsDigits(s: string) {
    s != "" && forall c :: c in s ==> '0' <= c <= '9'
  }

  predicate ValidNumber(n: Number) {
    && IsDigits(n.whole) && (n.whole[0] == '0' ==> |n.whole| == 1)
    && (n.fraction.Some? ==> IsDigits(n.fraction.value))
    && (n.exponent.Some? ==> && IsDigits(n.exponent.value.digits)
                             && (n.exponent.value.sign.Some? ==> n.exponent.value.sign.value in {'+', '-'}))
  }

  predicate ValidPart(p: StringPart) {
    match p
    case Plain(c) => ' ' <= c && c != '"' && c != '\\'
    case Escaped(c) => c in {'"', '\\', '/', 'b', 'f', 'n', 'r', 't'}
    case Unicode(hex) => |hex| == 4 && forall c :: c in hex ==> '0' <= c <= '9' || 'a' <= c <= 'f' || 'A' <= c <= 'F'
  }

  predicate ValidString(parts: seq<StringPart>) {
    forall p :: p in parts ==> ValidPart(p)
  }

  predicate Valid(v: Json) {
    match v
    case Num(n) => ValidNumber(n)
    case Str(parts) => ValidString(parts)
    case Arr(lead, items) => IsWs(lead) && ValidItems(items)
    case Obj(lead, members) => IsWs(lead) && ValidMembers(members)
    case _ => true
  }

  predicate ValidItems(items: Items) {
    match items
    case NoItems => true
    case LastItem(v, trail) => Valid(v) && IsWs(trail)
    case MoreItems(v, trail, lead, rest) => Valid(v) && IsWs(trail) && IsWs(lead) && rest != NoItems && ValidItems(rest)
  }

  predicate ValidMembers(members: Members) {
    match members
    case NoMembers => true
    case LastMember(name, ws1, ws2, v, trail) => ValidString(name) && IsWs(ws1) && IsWs(ws2) && Valid(v) && IsWs(trail)
    case MoreMembers(name, ws1, ws2, v, trail, lead, rest) =>
      ValidString(name) && IsWs(ws1) && IsWs(ws2) && Valid(v) && IsWs(trail) && IsWs(lead) && rest != NoMembers
      && ValidMembers(rest)
  }

  function PrintNumber(n: Number): string {
    (if n.negative then "-" else "") + n.whole
    + (if n.fraction.Some? then "." + n.fraction.value else "")
    + (if n.exponent.Some? then PrintExponent(n.exponent.value) else "")
  }

  function PrintExponent(e: Exponent): string {
    (if e.upper then "E" else "e") + (if e.sign.Some? then [e.sign.value] else "") + e.digits
  }

  function PrintPart(p: StringPart): string {
    match p
    case Plain(c) => [c]
    case Escaped(c) => ['\\', c]
    case Unicode(hex) => "\\u" + hex
  }

  function PrintParts(parts: seq<StringPart>): string {
    if parts == [] then "" else PrintPart(parts[0]) + PrintParts(parts[1..])
  }

  function PrintString(parts: seq<StringPart>): string {
    "\"" + PrintParts(parts) + "\""
  }

  function Print(v: Json): string {
    match v
    case Null => "null"
    case True => "true"
    case False => "false"
    case Num(n) => PrintNumber(n)
    case Str(parts) => PrintString(parts)
    case Arr(lead, items) => "[" + (lead + PrintItems(items)) + "]"
    case Obj(lead, members) => "{" + (lead + PrintMembers(members)) + "}"
  }

  function PrintItems(items: Items): string {
    match items
    case NoItems => ""
    case LastItem(v, trail) => Print(v) + trail
    case MoreItems(v, trail, lead, rest) => (Print(v) + trail) + ("," + lead) + PrintItems(rest)
  }

  function PrintMembers(members: Members): string {
    match members
    case NoMembers => ""
    case LastMember(name, ws1, ws2, v, trail) => PrintString(name) + (ws1 + ":" + ws2) + (Print(v) + trail)
    case MoreMembers(name, ws1, ws2, v, trail, lead, rest) =>
      PrintString(name) + (ws1 + ":" + ws2) + (Print(v) + trail) + ("," + lead) + PrintMembers(rest)
  }
}

/** Extraction of the first bracketed JSON text from arbitrary model output. */
module JsonExtraction {
  import opened Options
  import opened JsonText

  predicate IsOpening(c: char) {
    c == '[' || c == '{'
  }

  function ClosingOf(open: char): char {
    if open == '[' then ']' else '}'
  }

  /** `raw.search(/[[{]/)`: the first opening bracket, or the length when there is none. */
  function FirstOpening(raw: string): (i: nat)
    ensures i <= |raw| && (i < |raw| ==> IsOpening(raw[i]))
    ensures forall k :: 0 <= k < i ==> !IsOpening(raw[k])
  {
    if raw == "" || IsOpening(raw[0]) then 0 else 1 + FirstOpening(raw[1..])
  }

  function Shift(o: Option<nat>, n: nat): Option<nat> {
    if o.Some? then Some(o.value + n) else None
  }

  /** The scanner's variables. */
  datatype Lexer = Lexer(depth: int, inString: bool, escaped: bool)

  const INITIAL := Lexer(0, false, false)

  function Step(open: char, st: Lexer, ch: char): Lexer {
    if st.inString then
      if st.escaped then st.(escaped := false)
      else if ch == '\\' then st.(escaped := true)
      else if ch == '"' then st.(inString := false)
      else st
    else if ch == '"' then st.(inString := true)
    else if ch == open then st.(depth := st.depth + 1)
    else if ch == ClosingOf(open) then st.(depth := st.depth - 1)
    else st
  }

  /** A closing bracket outside strings that brings the depth back to 0. */
  predicate Finishes(open: char, st: Lexer, ch: char) {
    !st.inString && ch != open && ch == ClosingOf(open) && st.depth == 1
  }

  /** The number of characters up to and including the finishing bracket. */
  function Scan(open: char, s: string, st: Lexer): (n: Option<nat>)
    ensures n.Some? ==> 0 < n.value <= |s|
  {
    if s == "" then None
    else if Finishes(open, st, s[0]) then Some(1)
    else Shift(Scan(open, s[1..], Step(open, st, s[0])), 1)
  }

  /** The extracted slice as a pair of positions. */
  function ExtractSpan(raw: string): Option<(nat, nat)> {
    var start := FirstOpening(raw);
    if start == |raw| then None
    else
      var length := Scan(raw[start], raw[start..], INITIAL);
      if length.Some? then Some((start, start + length.value)) else None
  }

  lemma ScanStep(open: char, raw: string, i: nat, st: Lexer)
    requires i < |raw|
    ensures Scan(open, raw[i..], st) ==
            if Finishes(open, st, raw[i]) then Some(1) else Shift(Scan(open, raw[i + 1..], Step(open, st, raw[i])), 1)
  {
    assert raw[i..][1..] == raw[i + 1..];
  }

  lemma SearchStep(raw: string, i: nat)
    requires i < |raw|
    ensures FirstOpening(raw[i..]) == if IsOpening(raw[i]) then 0 else 1 + FirstOpening(raw[i + 1..])
  {
    assert raw[i..][1..] == raw[i + 1..];
  }

  method ExtractJson(raw: string) returns (r: Option<string>)
    ensures var span := ExtractSpan(raw);
            if span.Some? then span.value.0 < span.value.1 <= |raw| && r == Some(raw[span.value.0..span.value.1])
            else r == None
  {
    hide Scan, FirstOpening;
    var start := 0;
    while start < |raw| && !IsOpening(raw[start])
      invariant start <= |raw| && FirstOpening(raw) == start + FirstOpening(raw[start..])
    {
      SearchStep(raw, start);
      start := start + 1;
    }
    if start == |raw| {
      return None;
    }
    SearchStep(raw, start);
    var open := raw[start];
    var close := ClosingOf(open);
    var depth, inString, escaped := 0, false, false;
    for i := start to |raw|
      invariant Scan(open, raw[start..], INITIAL) ==
                Shift(Scan(open, raw[i..], Lexer(depth, inString, escaped)), i - start)
    {
      var ch := raw[i];
      ScanStep(open, raw, i, Lexer(depth, inString, escaped));
      if inString {
        if escaped {
          escaped := false;
        } else if ch == '\\' {
          escaped := true;
        } else if ch == '"' {
          inString := false;
        }
        continue;
      }
      if ch == '"' {
        inString := true;
      } else if ch == open {
        depth := depth + 1;
      } else if ch == close {
        depth := depth - 1;
        if depth == 0 {
          return Some(raw[start..i + 1]);
        }
      }
    }
    ScanNothing(open, Lexer(depth, inString, escaped));
    r := None;
  }

  lemma ScanNothing(open: char, st: Lexer)
    ensures Scan(open, "", st) == None
  {
  }

  // ------------------------------------------------ extraction undoes embedding

  function Outside(depth: int): Lexer {
    Lexer(depth, false, false)
  }

  /** Inside some bracket, the scanner reads across `text` and is left as it was. */
  ghost predicate Passes(open: char, text: string) {
    forall rest: string, d: int {:trigger Scan(open, text + rest, Outside(d))} :: d >= 1 ==>
      Scan(open, text + rest, Outside(d)) == Shift(Scan(open, rest, Outside(d)), |text|)
  }

  lemma PassesEmpty(open: char)
    ensures Passes(open, "")
  {
    forall rest: string, d: int | d >= 1
      ensures Scan(open, "" + rest, Outside(d)) == Shift(Scan(open, rest, Outside(d)), 0)
    {
      assert "" + rest == rest;
    }
  }

  lemma PassesConcat(open: char, a: string, b: string)
    requires Passes(open, a) && Passes(open, b)
    ensures Passes(open, a + b)
  {
    forall rest: string, d: int | d >= 1
      ensures Scan(open, (a + b) + rest, Outside(d)) == Shift(Scan(open, rest, Outside(d)), |a + b|)
    {
      assert (a + b) + rest == a + (b + rest);
      assert Scan(open, a + (b + rest), Outside(d)) == Shift(Scan(open, b + rest, Outside(d)), |a|);
    }
  }

  predicate IsStructural(c: char) {
    c in {'"', '[', ']', '{', '}'}
  }

  lemma ScanCons(open: char, c: char, rest: string, st: Lexer)
    ensures Scan(open, [c] + rest, st) ==
            if Finishes(open, st, c) then Some(1) else Shift(Scan(open, rest, Step(open, st, c)), 1)
  {
    assert ([c] + rest)[1..] == rest;
  }

  /** Text without quotes and brackets passes. */
  lemma {:induction false} PassesInert(open: char, text: string)
    requires IsOpening(open) && forall c :: c in text ==> !IsStructural(c)
    ensures Passes(open, text)
  {
    if text == "" {
      PassesEmpty(open);
    } else {
      assert text[0] in text && text == [text[0]] + text[1..];
      forall rest: string, d: int | d >= 1
        ensures Scan(open, [text[0]] + rest, Outside(d)) == Shift(Scan(open, rest, Outside(d)), 1)
      {
        ScanCons(open, text[0], rest, Outside(d));
      }
      assert Passes(open, [text[0]]);
      PassesInert(open, text[1..]);
      PassesConcat(open, [text[0]], text[1..]);
    }
  }

  /** Inside a string the scanner stays inside across any valid part: escapes hide quotes and brackets. */
  lemma ScanPart(open: char, part: StringPart, rest: string, d: int)
    requires IsOpening(open) && ValidPart(part)
    ensures Scan(open, PrintPart(part) + rest, Lexer(d, true, false)) ==
            Shift(Scan(open, rest, Lexer(d, true, false)), |PrintPart(part)|)
  {
    match part
    case Plain(c) =>
      ScanCons(open, c, rest, Lexer(d, true, false));
    case Escaped(c) =>
      assert ['\\', c] + rest == ['\\'] + ([c] + rest);
      ScanCons(open, '\\', [c] + rest, Lexer(d, true, false));
      ScanCons(open, c, rest, Lexer(d, true, true));
    case Unicode(hex) =>
      assert "\\u" + hex + rest == ['\\'] + (['u'] + (hex + rest));
      ScanCons(open, '\\', ['u'] + (hex + rest), Lexer(d, true, false));
      ScanCons(open, 'u', hex + rest, Lexer(d, true, true));
      ScanHex(open, hex, rest, d);
  }

  lemma {:induction false} ScanHex(open: char, hex: string, rest: string, d: int)
    requires forall c :: c in hex ==> c != '"' && c != '\\'
    ensures Scan(open, hex + rest, Lexer(d, true, false)) == Shift(Scan(open, rest, Lexer(d, true, false)), |hex|)
  {
    if hex == "" {
      assert hex + rest == rest;
    } else {
      assert hex[0] in hex && forall c :: c in hex[1..] ==> c in hex;
      assert hex + rest == [hex[0]] + (hex[1..] + rest);
      ScanCons(open, hex[0], hex[1..] + rest, Lexer(d, true, false));
      ScanHex(open, hex[1..], rest, d);
    }
  }

  lemma {:induction false} ScanParts(open: char, parts: seq<StringPart>, rest: string, d: int)
    requires IsOpening(open) && ValidString(parts)
    ensures Scan(open, PrintParts(parts) + rest, Lexer(d, true, false)) ==
            Shift(Scan(open, rest, Lexer(d, true, false)), |PrintParts(parts)|)
  {
    if parts == [] {
      assert PrintParts(parts) + rest == rest;
    } else {
      assert PrintParts(parts) + rest == PrintPart(parts[0]) + (PrintParts(parts[1..]) + rest);
      ScanPart(open, parts[0], PrintParts(parts[1..]) + rest, d);
      ScanParts(open, parts[1..], rest, d);
    }
  }

  lemma PassesString(open: char, parts: seq<StringPart>)
    requires IsOpening(open) && ValidString(parts)
    ensures Passes(open, PrintString(parts))
  {
    hide Scan, ValidString, PrintParts;
    forall rest: string, d: int | d >= 1
      ensures Scan(open, PrintString(parts) + rest, Outside(d)) ==
              Shift(Scan(open, rest, Outside(d)), |PrintString(parts)|)
    {
      var body := PrintParts(parts);
      assert PrintString(parts) + rest == ['"'] + (body + (['"'] + rest));
      ScanCons(open, '"', body + (['"'] + rest), Outside(d));
      ScanParts(open, parts, ['"'] + rest, d);
      ScanCons(open, '"', rest, Lexer(d, true, false));
    }
  }

  /** A bracketed text passes when its inside does, whichever bracket the scanner counts. */
  lemma PassesBracketed(open: char, left: char, inner: string)
    requires IsOpening(open) && IsOpening(left) && Passes(open, inner)
    ensures Passes(open, [left] + inner + [ClosingOf(left)])
  {
    hide Scan;
    var text := [left] + inner + [ClosingOf(left)];
    forall rest: string, d: int | d >= 1
      ensures Scan(open, text + rest, Outside(d)) == Shift(Scan(open, rest, Outside(d)), |text|)
    {
      ScanPassed(open, left, inner, rest, d);
      assert text + rest == [left] + (inner + ([ClosingOf(left)] + rest));
    }
  }

  lemma ScanPassed(open: char, left: char, inner: string, rest: string, d: int)
    requires d >= 1 && IsOpening(open) && IsOpening(left) && Passes(open, inner)
    ensures Scan(open, [left] + (inner + ([ClosingOf(left)] + rest)), Outside(d)) ==
            Shift(Scan(open, rest, Outside(d)), |inner| + 2)
  {
    hide *;
    BracketSteps(open, left, d);
    StepOver(open, ClosingOf(left), rest, Outside(Inside(open, left, d)), Outside(d));
    ScanOpened(open, left, inner, [ClosingOf(left)] + rest, d);
    ShiftShift(Scan(open, rest, Outside(d)), 1, |inner| + 1);
  }

  /** The depth behind a bracket met at depth `d`. */
  function Inside(open: char, left: char, d: int): int {
    if left == open then d + 1 else d
  }

  lemma ScanOpened(open: char, left: char, inner: string, closed: string, d: int)
    requires d >= 1 && IsOpening(open) && IsOpening(left) && Passes(open, inner)
    ensures Scan(open, [left] + (inner + closed), Outside(d)) ==
            Shift(Scan(open, closed, Outside(Inside(open, left, d))), |inner| + 1)
  {
    hide *;
    BracketSteps(open, left, d);
    StepOver(open, left, inner + closed, Outside(d), Outside(Inside(open, left, d)));
    PassesAt(open, inner, closed, Inside(open, left, d));
    ShiftShift(Scan(open, closed, Outside(Inside(open, left, d))), |inner|, 1);
  }

  lemma StepOver(open: char, c: char, rest: string, st: Lexer, st': Lexer)
    requires !Finishes(open, st, c) && Step(open, st, c) == st'
    ensures Scan(open, [c] + rest, st) == Shift(Scan(open, rest, st'), 1)
  {
    ScanCons(open, c, rest, st);
  }

  lemma ShiftShift(o: Option<nat>, m: nat, n: nat)
    ensures Shift(Shift(o, m), n) == Shift(o, m + n)
  {
  }

  /** A bracket and its partner lead back to the same depth without ending the scan. */
  lemma BracketSteps(open: char, left: char, d: int)
    requires d >= 1 && IsOpening(open) && IsOpening(left)
    ensures var inside := Inside(open, left, d);
            && inside >= 1
            && !Finishes(open, Outside(d), left) && Step(open, Outside(d), left) == Outside(inside)
            && !Finishes(open, Outside(inside), ClosingOf(left))
              && Step(open, Outside(inside), ClosingOf(left)) == Outside(d)
  {
  }

  lemma PassesAt(open: char, text: string, rest: string, d: int)
    requires Passes(open, text) && d >= 1
    ensures Scan(open, text + rest, Outside(d)) == Shift(Scan(open, rest, Outside(d)), |text|)
  {
    hide Scan;
  }

  lemma PassesWs(open: char, ws: string)
    requires IsOpening(open) && IsWs(ws)
    ensures Passes(open, ws)
  {
    PassesInert(open, ws);
  }

  lemma NumberIsInert(n: Number)
    requires ValidNumber(n)
    ensures forall c :: c in PrintNumber(n) ==> !IsStructural(c)
  {
    var sign, frac, exp := if n.negative then "-" else "",
                           if n.fraction.Some? then "." + n.fraction.value else "",
                           if n.exponent.Some? then PrintExponent(n.exponent.value) else "";
    assert forall c :: c in sign ==> c == '-';
    assert forall c :: c in frac ==> c == '.' || '0' <= c <= '9';
    assert forall c :: c in exp ==> c in {'e', 'E', '+', '-'} || '0' <= c <= '9';
    assert PrintNumber(n) == sign + n.whole + frac + exp;
  }

  /** Every valid JSON value passes. */
  lemma {:induction false} PassesValue(open: char, v: Json)
    requires IsOpening(open) && Valid(v)
    ensures Passes(open, Print(v))
    decreases v
  {
    hide Passes;
    match v
    case Null => PassesInert(open, "null");
    case True => PassesInert(open, "true");
    case False => PassesInert(open, "false");
    case Num(n) =>
      NumberIsInert(n);
      PassesInert(open, PrintNumber(n));
    case Str(parts) => PassesString(open, parts);
    case Arr(lead, items) =>
      PassesWs(open, lead);
      PassesItems(open, items);
      PassesConcat(open, lead, PrintItems(items));
      PassesBracketed(open, '[', lead + PrintItems(items));
    case Obj(lead, members) =>
      PassesWs(open, lead);
      PassesMembers(open, members);
      PassesConcat(open, lead, PrintMembers(members));
      PassesBracketed(open, '{', lead + PrintMembers(members));
  }

  lemma PassesSeparator(open: char, a: string, c: char, b: string)
    requires IsOpening(open) && IsWs(a) && IsWs(b) && !IsStructural(c)
    ensures Passes(open, a + [c] + b)
  {
    PassesInert(open, a + [c] + b);
  }

  lemma {:induction false} PassesItems(open: char, items: Items)
    requires IsOpening(open) && ValidItems(items)
    ensures Passes(open, PrintItems(items))
    decreases items
  {
    hide Passes;
    match items
    case NoItems => PassesEmpty(open);
    case LastItem(v, trail) =>
      PassesValue(open, v);
      PassesWs(open, trail);
      PassesConcat(open, Print(v), trail);
    case MoreItems(v, trail, lead, rest) =>
      PassesValue(open, v);
      PassesWs(open, trail);
      PassesConcat(open, Print(v), trail);
      PassesSeparator(open, "", ',', lead);
      assert "" + [','] + lead == "," + lead;
      PassesConcat(open, Print(v) + trail, "," + lead);
      PassesItems(open, rest);
      PassesConcat(open, (Print(v) + trail) + ("," + lead), PrintItems(rest));
  }

  lemma {:induction false} PassesMembers(open: char, members: Members)
    requires IsOpening(open) && ValidMembers(members)
    ensures Passes(open, PrintMembers(members))
    decreases members
  {
    hide Passes;
    match members
    case NoMembers => PassesEmpty(open);
    case LastMember(name, ws1, ws2, v, trail) =>
      PassesMember(open, name, ws1, ws2, v, trail) by { PassesValue(open, v); }
    case MoreMembers(name, ws1, ws2, v, trail, lead, rest) =>
      PassesMember(open, name, ws1, ws2, v, trail) by { PassesValue(open, v); }
      PassesSeparator(open, "", ',', lead);
      assert "" + [','] + lead == "," + lead;
      PassesConcat(open, PrintString(name) + (ws1 + ":" + ws2) + (Print(v) + trail), "," + lead);
      PassesMembers(open, rest);
      PassesConcat(open, PrintString(name) + (ws1 + ":" + ws2) + (Print(v) + trail) + ("," + lead), PrintMembers(rest));
  }

  lemma PassesMember(open: char, name: seq<StringPart>, ws1: string, ws2: string, v: Json, trail: string)
    requires IsOpening(open) && ValidString(name) && IsWs(ws1) && IsWs(ws2) && IsWs(trail) && Passes(open, Print(v))
    ensures Passes(open, PrintString(name) + (ws1 + ":" + ws2) + (Print(v) + trail))
  {
    hide Passes;
    PassesString(open, name);
    PassesSeparator(open, ws1, ':', ws2);
    PassesWs(open, trail);
    PassesConcat(open, PrintString(name), ws1 + ":" + ws2);
    PassesConcat(open, Print(v), trail);
    PassesConcat(open, PrintString(name) + (ws1 + ":" + ws2), Print(v) + trail);
  }

  predicate BracketFree(s: string) {
    forall c :: c in s ==> !IsOpening(c)
  }

  lemma {:induction false} FirstOpeningAfter(prefix: string, text: string)
    requires text != "" && IsOpening(text[0])
    ensures FirstOpening(prefix + text) <= |prefix|
    ensures FirstOpening(prefix + text) == |prefix| <==> BracketFree(prefix)
  {
    if prefix == "" {
      assert prefix + text == text;
    } else {
      assert (prefix + text)[1..] == prefix[1..] + text;
      FirstOpeningAfter(prefix[1..], text);
      assert prefix == [prefix[0]] + prefix[1..];
    }
  }

  lemma ScanBracketed(open: char, inner: string, suffix: string)
    requires IsOpening(open) && Passes(open, inner)
    ensures var text := [open] + inner + [ClosingOf(open)]; Scan(open, text + suffix, INITIAL) == Some(|text|)
  {
    var tail := [ClosingOf(open)] + suffix;
    assert [open] + inner + [ClosingOf(open)] + suffix == [open] + (inner + tail);
    ScanCons(open, open, inner + tail, INITIAL);
    assert Scan(open, inner + tail, Outside(1)) == Shift(Scan(open, tail, Outside(1)), |inner|);
    ScanCons(open, ClosingOf(open), suffix, Outside(1));
  }

  /** Scanning a printed array or object from its start consumes exactly it. */
  lemma ScanWhole(v: Json, suffix: string)
    requires (v.Arr? || v.Obj?) && Valid(v)
    ensures Print(v) != "" && IsOpening(Print(v)[0])
    ensures Scan(Print(v)[0], Print(v) + suffix, INITIAL) == Some(|Print(v)|)
  {
    hide Scan, Passes;
    match v
    case Arr(lead, items) =>
      PassesWs('[', lead);
      PassesItems('[', items);
      PassesConcat('[', lead, PrintItems(items));
      ScanBracketed('[', lead + PrintItems(items), suffix);
    case Obj(lead, members) =>
      PassesWs('{', lead);
      PassesMembers('{', members);
      PassesConcat('{', lead, PrintMembers(members));
      ScanBracketed('{', lead + PrintMembers(members), suffix);
  }

  /** Extraction undoes embedding: an array or object printed into prose is cut out exactly when
      the prose before it has no opening bracket, whatever follows it. */
  lemma ExtractionUndoesEmbedding(prefix: string, v: Json, suffix: string)
    requires (v.Arr? || v.Obj?) && Valid(v)
    ensures ExtractSpan(prefix + Print(v) + suffix) == Some((|prefix|, |prefix| + |Print(v)|)) <==> BracketFree(prefix)
  {
    var text := Print(v) + suffix;
    var raw := prefix + text;
    assert raw == prefix + Print(v) + suffix;
    ScanWhole(v, suffix);
    assert text[0] == Print(v)[0];
    FirstOpeningAfter(prefix, text);
    if BracketFree(prefix) {
      assert raw[|prefix|..] == text;
    }
  }

  // ------------------------------------------------------- what is extracted

  /** The scanner's variables after reading all of `s`. */
  ghost function After(open: char, s: string): Lexer {
    if s == "" then INITIAL else Step(open, After(open, s[..|s| - 1]), s[|s| - 1])
  }

  /** Read on its own, the text closes its first bracket at its last character and not before. */
  ghost predicate FirstBalanced(open: char, s: string) {
    && s != "" && s[0] == open
    && After(open, s).depth == 0
    && forall k :: 0 < k < |s| ==> After(open, s[..k]).depth > 0
  }

  lemma AfterStep(open: char, s: string, k: nat)
    ensures k < |s| ==> After(open, s[..k + 1]) == Step(open, After(open, s[..k]), s[k])
    ensures k == |s| ==> Scan(open, s[k..], After(open, s[..k])) == None
  {
    hide Step;
    if k < |s| {
      assert s[..k + 1][..k] == s[..k];
    }
  }

  lemma {:induction false} ScanFinds(open: char, s: string, k: nat)
    requires IsOpening(open) && s != "" && s[0] == open && 0 < k <= |s|
    requires forall j :: 0 < j <= k ==> After(open, s[..j]).depth > 0
    ensures var n := Scan(open, s[k..], After(open, s[..k]));
            && (n.Some? ==> FirstBalanced(open, s[..k + n.value]))
            && (n.None? ==> forall j :: k < j <= |s| ==> After(open, s[..j]).depth > 0)
    decreases |s| - k
  {
    AfterStep(open, s, k);
    if k < |s| {
      ScanStep(open, s, k, After(open, s[..k]));
      hide Scan, After;
      if Finishes(open, After(open, s[..k]), s[k]) {
        var found := s[..k + 1];
        assert forall j :: 0 < j < |found| ==> found[..j] == s[..j];
      } else {
        ScanFinds(open, s, k + 1);
      }
    }
  }

  lemma ScanIsFirstBalanced(open: char, s: string)
    requires IsOpening(open) && s != "" && s[0] == open
    ensures var n := Scan(open, s, INITIAL);
            && (n.Some? ==> FirstBalanced(open, s[..n.value]))
            && (n.None? ==> forall k :: 0 < k <= |s| ==> !FirstBalanced(open, s[..k]))
  {
    hide Scan;
    assert s[..1][..0] == "" && After(open, "") == INITIAL;
    assert After(open, s[..1]) == Outside(1);
    ScanStep(open, s, 0, INITIAL);
    assert s[0..] == s;
    ScanFinds(open, s, 1);
  }

  /** The extracted text starts at the first opening bracket and is the shortest text from there
      that closes it; nothing is extracted exactly when no bracket opens or none closes it. */
  lemma ExtractsFirstBalanced(raw: string)
    ensures var start, span := FirstOpening(raw), ExtractSpan(raw);
            && (span.Some? ==> && start == span.value.0 < span.value.1 <= |raw|
                               && FirstBalanced(raw[start], raw[start..span.value.1]))
            && (span.None? ==> forall k :: start < k <= |raw| ==> !FirstBalanced(raw[start], raw[start..k]))
  {
    hide FirstBalanced, FirstOpening, Scan;
    var start := FirstOpening(raw);
    if start < |raw| {
      SpanFromOpening(raw, start);
    }
  }

  lemma SpanFromOpening(raw: string, start: nat)
    requires start < |raw| && IsOpening(raw[start])
    ensures var length := Scan(raw[start], raw[start..], INITIAL);
            && (length.Some? ==>
                0 < length.value <= |raw| - start && FirstBalanced(raw[start], raw[start..start + length.value]))
            && (length.None? ==> forall k :: start < k <= |raw| ==> !FirstBalanced(raw[start], raw[start..k]))
  {
    hide *;
    var s, length := raw[start..], Scan(raw[start], raw[start..], INITIAL);
    ScanIsFirstBalanced(raw[start], s);
    if length.Some? {
      SliceOf(raw, start, start + length.value);
    } else {
      forall k | start < k <= |raw|
        ensures !FirstBalanced(raw[start], raw[start..k])
      {
        SliceOf(raw, start, k);
        assert !FirstBalanced(raw[start], s[..k - start]);
      }
    }
  }

  lemma SliceOf(raw: string, start: nat, k: nat)
    requires start <= k <= |raw|
    ensures raw[start..k] == raw[start..][..k - start]
  {
  }
}
