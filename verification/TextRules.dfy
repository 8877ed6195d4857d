/** Words and phrases of a text, as the two languages of the detection code read them. */
module TextRules {
  import opened Substrings

  /** Whose idea of white space applies: Python's `str.split` and `strip`, or JavaScript's `\s` and `trim`. */
  datatype Language = Python | JavaScript

  predicate IsSpace(language: Language, c: char) {
    || c == ' ' || '\t' <= c <= '\r' || c == '\U{A0}' || c == '\U{1680}' || '\U{2000}' <= c <= '\U{200A}'
    || c == '\U{2028}' || c == '\U{2029}' || c == '\U{202F}' || c == '\U{205F}' || c == '\U{3000}'
    || match language
       case Python => '\U{1C}' <= c <= '\U{1F}' || c == '\U{85}'
       case JavaScript => c == '\U{FEFF}'
  }

  /** A character that only one of the languages takes for white space. */
  predicate IsDisputed(c: char) {
    IsSpace(Python, c) != IsSpace(JavaScript, c)
  }

  predicate Undisputed(s: string) {
    forall c :: c in s ==> !IsDisputed(c)
  }

  /** The disputed characters are the four information separators, the next-line control and the
      zero-width no-break space. */
  lemma DisputedCharacters(c: char)
    ensures IsDisputed(c) <==> '\U{1C}' <= c <= '\U{1F}' || c == '\U{85}' || c == '\U{FEFF}'
  {
  }

  /** The length of the leading run of non-space characters. */
  function WordLength(language: Language, s: string): (n: nat)
    ensures n <= |s|
    ensures forall i :: 0 <= i < n ==> !IsSpace(language, s[i])
    ensures n < |s| ==> IsSpace(language, s[n])
  {
    if s == "" || IsSpace(language, s[0]) then 0 else 1 + WordLength(language, s[1..])
  }

  function StripLeft(language: Language, s: string): string {
    if s != "" && IsSpace(language, s[0]) then StripLeft(language, s[1..]) else s
  }

  function StripRight(language: Language, s: string): string {
    if s != "" && IsSpace(language, s[|s| - 1]) then StripRight(language, s[..|s| - 1]) else s
  }

  /** `s.strip()` or `s.trim()`. */
  function Strip(language: Language, s: string): string {
    StripRight(language, StripLeft(language, s))
  }

  predicate Trimmed(language: Language, s: string) {
    s != "" && !IsSpace(language, s[0]) && !IsSpace(language, s[|s| - 1])
  }

  lemma {:induction false} StripLeftShape(language: Language, s: string)
    ensures var t := StripLeft(language, s);
            && |t| <= |s| && t == s[|s| - |t|..] && (forall i :: 0 <= i < |s| - |t| ==> IsSpace(language, s[i]))
            && (t != "" ==> !IsSpace(language, t[0]))
            && (s != "" && IsSpace(language, s[0]) ==> |t| < |s|)
  {
    hide IsSpace;
    if s != "" && IsSpace(language, s[0]) {
      StripLeftShape(language, s[1..]);
    }
  }

  lemma {:induction false} StripRightShape(language: Language, s: string)
    requires s != "" && !IsSpace(language, s[0])
    ensures Trimmed(language, StripRight(language, s)) && StripRight(language, s) <= s
  {
    hide IsSpace;
    if IsSpace(language, s[|s| - 1]) {
      StripRightShape(language, s[..|s| - 1]);
    }
  }

  /** Stripping leaves nothing or a trimmed piece of the text. */
  lemma StripShape(language: Language, s: string)
    ensures Strip(language, s) != "" ==> Trimmed(language, Strip(language, s))
    ensures Trimmed(language, s) ==> Strip(language, s) == s
    ensures forall c :: c in Strip(language, s) ==> c in s
  {
    hide IsSpace;
    var t := StripLeft(language, s);
    StripLeftShape(language, s);
    if t != "" {
      StripRightShape(language, t);
    }
  }

  /** Python's `s.split()`. */
  function Words(s: string): seq<string>
    decreases |s|
  {
    if s == "" then []
    else if IsSpace(Python, s[0]) then Words(s[1..])
    else
      var n := WordLength(Python, s);
      [s[..n]] + Words(s[n..])
  }

  /** JavaScript's `s.split(/\s+/)`: unlike `s.split()` it keeps the empty pieces at both ends. */
  function Pieces(s: string): seq<string>
    decreases |s|
  {
    var n := WordLength(JavaScript, s);
    if n == |s| then [s]
    else
      StripLeftShape(JavaScript, s[n..]);
      [s[..n]] + Pieces(StripLeft(JavaScript, s[n..]))
  }

  lemma {:induction false} WordsSkipSpace(s: string)
    ensures Words(s) == Words(StripLeft(Python, s))
  {
    hide IsSpace;
    if s != "" && IsSpace(Python, s[0]) {
      WordsSkipSpace(s[1..]);
    }
  }

  /** Words hold every character but white space, and no white space. */
  lemma {:induction false} WordsHold(s: string, c: char)
    ensures (exists w :: w in Words(s) && c in w) <==> c in s && !IsSpace(Python, c)
    decreases |s|
  {
    hide IsSpace;
    if s == "" {
    } else if IsSpace(Python, s[0]) {
      WordsHold(s[1..], c);
      assert s == [s[0]] + s[1..];
    } else {
      var n := WordLength(Python, s);
      WordsHold(s[n..], c);
      HeldByParts(s, s[..n], Words(s[n..]), c);
      assert c in s <==> c in s[..n] || c in s[n..] by { assert s == s[..n] + s[n..]; }
    }
  }

  lemma HeldByParts(s: string, first: string, rest: seq<string>, c: char)
    ensures (exists w :: w in [first] + rest && c in w) <==> c in first || exists w :: w in rest && c in w
  {
    assert forall w :: w in [first] + rest <==> w == first || w in rest;
  }

  lemma {:induction false} PiecesHold(s: string, c: char)
    ensures (exists w :: w in Pieces(s) && c in w) <==> c in s && !IsSpace(JavaScript, c)
    decreases |s|
  {
    hide IsSpace;
    var n := WordLength(JavaScript, s);
    if n == |s| {
      assert forall w :: w in [s] <==> w == s;
    } else {
      var rest := StripLeft(JavaScript, s[n..]);
      StripLeftShape(JavaScript, s[n..]);
      assert Pieces(s) == [s[..n]] + Pieces(rest);
      HeldAround(s, n, c);
      PiecesHold(rest, c);
      hide *;
      HeldByParts(s, s[..n], Pieces(rest), c);
    }
  }

  /** Past its first word and the gap behind it, a text holds the same characters other than white space. */
  lemma HeldAround(s: string, n: nat, c: char)
    requires n == WordLength(JavaScript, s)
    ensures var rest := StripLeft(JavaScript, s[n..]);
            c in s && !IsSpace(JavaScript, c) <==> c in s[..n] || (c in rest && !IsSpace(JavaScript, c))
  {
    hide IsSpace;
    var (gap, rest) := (s[n..], StripLeft(JavaScript, s[n..]));
    StripLeftShape(JavaScript, gap);
    var blank := gap[..|gap| - |rest|];
    assert s == s[..n] + (blank + rest);
    assert c in s <==> c in s[..n] || c in blank || c in rest;
  }

  lemma {:induction false} WordLengthAgrees(s: string)
    requires Undisputed(s)
    ensures WordLength(Python, s) == WordLength(JavaScript, s)
  {
    hide IsSpace;
    if s != "" {
      assert s[0] in s && forall c :: c in s[1..] ==> c in s;
      WordLengthAgrees(s[1..]);
    }
  }

  lemma {:induction false} StripLeftAgrees(s: string)
    requires Undisputed(s)
    ensures StripLeft(Python, s) == StripLeft(JavaScript, s)
  {
    hide IsSpace;
    if s != "" {
      assert s[0] in s && forall c :: c in s[1..] ==> c in s;
      StripLeftAgrees(s[1..]);
    }
  }

  lemma {:induction false} StripRightAgrees(s: string)
    requires Undisputed(s)
    ensures StripRight(Python, s) == StripRight(JavaScript, s)
  {
    hide IsSpace;
    if s != "" {
      var n := |s| - 1;
      assert s[n] in s && forall c :: c in s[..n] ==> c in s;
      StripRightAgrees(s[..n]);
    }
  }

  lemma UndisputedFrom(s: string, k: nat)
    requires k <= |s| && Undisputed(s)
    ensures Undisputed(s[k..])
  {
    hide IsDisputed;
    assert forall c :: c in s[k..] ==> c in s;
  }

  lemma StripAgrees(s: string)
    requires Undisputed(s)
    ensures Strip(Python, s) == Strip(JavaScript, s)
  {
    hide IsSpace, Undisputed;
    StripLeftAgrees(s);
    StripLeftShape(Python, s);
    UndisputedFrom(s, |s| - |StripLeft(Python, s)|);
    StripRightAgrees(StripLeft(Python, s));
  }

  /** The two languages split trimmed text into the same words exactly when they dispute none of its
      characters. */
  lemma PiecesAreWords(s: string)
    requires Trimmed(JavaScript, s)
    ensures Pieces(s) == Words(s) <==> Undisputed(s)
  {
    hide IsSpace;
    if Undisputed(s) {
      UndisputedPieces(s);
    }
    if Pieces(s) == Words(s) {
      forall c | c in s
        ensures !IsDisputed(c)
      {
        WordsHold(s, c);
        PiecesHold(s, c);
      }
    }
  }

  lemma {:induction false} UndisputedPieces(s: string)
    requires Trimmed(JavaScript, s) && Undisputed(s)
    ensures Pieces(s) == Words(s)
    decreases |s|
  {
    hide IsSpace, IsDisputed;
    var n := WordLength(JavaScript, s);
    WordLengthAgrees(s);
    assert s[0] in s;
    assert !IsSpace(Python, s[0]) by { NotDisputed(s[0]); }
    if n < |s| {
      var gap := s[n..];
      var rest := StripLeft(JavaScript, gap);
      assert forall c :: c in gap ==> c in s;
      StripLeftAgrees(gap);
      StripLeftShape(JavaScript, gap);
      WordsSkipSpace(gap);
      assert rest != "" && rest[|rest| - 1] == s[|s| - 1];
      assert forall c :: c in rest ==> c in s;
      UndisputedPieces(rest);
    } else {
      assert s[..n] == s && s[n..] == "";
    }
  }

  lemma NotDisputed(c: char)
    requires !IsDisputed(c)
    ensures IsSpace(Python, c) == IsSpace(JavaScript, c)
  {
  }

  lemma WordLengthIs(language: Language, s: string, n: nat)
    requires n <= |s| && (forall i :: 0 <= i < n ==> !IsSpace(language, s[i])) && (n < |s| ==> IsSpace(language, s[n]))
    ensures WordLength(language, s) == n
  {
    hide IsSpace;
  }

  lemma PlainPiece(s: string)
    requires forall c :: c in s ==> !IsSpace(JavaScript, c)
    ensures Pieces(s) == [s]
  {
    hide IsSpace;
    WordLengthIs(JavaScript, s, |s|);
  }

  lemma PlainWord(s: string)
    requires s != "" && forall c :: c in s ==> !IsSpace(Python, c)
    ensures Words(s) == [s]
  {
    hide IsSpace;
    WordLengthIs(Python, s, |s|);
    assert s[..|s|] == s && s[|s|..] == "";
  }

  /** One space between two plain texts splits them. */
  lemma PiecesAround(a: string, c: char, b: string)
    requires IsSpace(JavaScript, c) && b != "" && forall x :: x in a + b ==> !IsSpace(JavaScript, x)
    ensures Pieces(a + [c] + b) == [a, b]
  {
    hide IsSpace;
    var s := a + [c] + b;
    assert forall x :: x in a || x in b ==> x in a + b;
    WordLengthIs(JavaScript, s, |a|);
    assert s[..|a|] == a && s[|a|..] == [c] + b && ([c] + b)[1..] == b;
    assert b[0] in b && StripLeft(JavaScript, b) == b;
    assert StripLeft(JavaScript, [c] + b) == b;
    PlainPiece(b);
  }

  lemma WordsAround(a: string, c: char, b: string)
    requires IsSpace(Python, c) && a != "" && b != "" && forall x :: x in a + b ==> !IsSpace(Python, x)
    ensures Words(a + [c] + b) == [a, b]
  {
    hide IsSpace, Words;
    assert forall x :: x in a || x in b ==> x in a + b;
    WordsApart(a, c, b);
    PlainWord(a);
    PlainWord(b);
  }

  /** `" ".join(words)`. */
  function Join(words: seq<string>, separator: string): string {
    if words == [] then ""
    else if |words| == 1 then words[0]
    else words[0] + separator + Join(words[1..], separator)
  }

  /** A white-space character separates the words before it from those behind it. */
  lemma {:induction false} WordsApart(a: string, c: char, b: string)
    requires IsSpace(Python, c)
    ensures Words(a + [c] + b) == Words(a) + Words(b)
    decreases |a|
  {
    hide IsSpace;
    var s := a + [c] + b;
    if a == "" {
      assert s[0] == c && s[1..] == b;
    } else if IsSpace(Python, a[0]) {
      assert s[1..] == a[1..] + [c] + b;
      WordsApart(a[1..], c, b);
    } else {
      var n := WordLength(Python, a);
      FirstWordApart(a, c, b);
      WordsApart(a[n..], c, b);
    }
  }

  lemma FirstWordApart(a: string, c: char, b: string)
    requires IsSpace(Python, c)
    ensures var s, n := a + [c] + b, WordLength(Python, a);
            WordLength(Python, s) == n && s[..n] == a[..n] && s[n..] == a[n..] + [c] + b
  {
    hide IsSpace;
    var s, n := a + [c] + b, WordLength(Python, a);
    assert forall i :: 0 <= i < |a| ==> s[i] == a[i];
    assert s[|a|] == c;
    WordLengthIs(Python, s, n);
  }

  lemma {:induction false} WordsOfStripRight(s: string)
    ensures Words(StripRight(Python, s)) == Words(s)
  {
    hide IsSpace;
    if s != "" && IsSpace(Python, s[|s| - 1]) {
      var front := s[..|s| - 1];
      WordsOfStripRight(front);
      WordsApart(front, s[|s| - 1], "");
      assert s == front + [s[|s| - 1]] + "";
    }
  }

  function AllWords(texts: seq<string>): seq<string> {
    if texts == [] then [] else Words(texts[0]) + AllWords(texts[1..])
  }

  lemma {:induction false} AllWordsAppend(a: seq<string>, b: seq<string>)
    ensures AllWords(a + b) == AllWords(a) + AllWords(b)
  {
    hide Words;
    if a == [] {
      assert a + b == b;
    } else {
      assert (a + b)[1..] == a[1..] + b;
      AllWordsAppend(a[1..], b);
    }
  }

  /** Joining texts with blanks and trimming the result keeps their words. */
  lemma {:induction false} WordsOfJoin(texts: seq<string>)
    ensures Words(Join(texts, " ")) == AllWords(texts)
  {
    if |texts| == 1 {
      assert AllWords(texts[1..]) == [];
    } else if |texts| > 1 {
      var rest := Join(texts[1..], " ");
      assert Join(texts, " ") == texts[0] + [' '] + rest;
      hide Words, Join;
      WordsOfJoin(texts[1..]);
      WordsApart(texts[0], ' ', rest);
    }
  }

  lemma WordsOfStrip(s: string)
    ensures Words(Strip(Python, s)) == Words(s)
  {
    hide Words, StripLeft, StripRight;
    WordsSkipSpace(s);
    WordsOfStripRight(StripLeft(Python, s));
  }

  function StartOf(s: string, n: nat): string {
    if n <= |s| then s[..n] else s
  }

  predicate ContainsAny(s: string, cues: seq<string>) {
    exists c :: c in cues && Occurs(c, s)
  }
}
