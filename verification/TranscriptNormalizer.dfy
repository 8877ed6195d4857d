/** Reassembly of rapid-fire messages into complete turns. */
module TranscriptNormalizer {
  import opened TextRules

  const BURST_WINDOW_MS := 4000
  const SHORT_MESSAGE_WORD_LIMIT := 4

  datatype RawTurn = RawTurn(sender: string, text: string, at: int)

  datatype ReassembledTurn = ReassembledTurn(sender: string, text: string, startMs: int, endMs: int, sourceCount: nat)

  /** Whether `cur` continues the burst `prev` belongs to. */
  predicate Joins(normalize: string -> string, prev: RawTurn, cur: RawTurn) {
    cur.sender == prev.sender && cur.at - prev.at <= BURST_WINDOW_MS
      && |Words(normalize(prev.text))| <= SHORT_MESSAGE_WORD_LIMIT
  }

  function Texts(normalize: string -> string, bucket: seq<RawTurn>): (r: seq<string>)
    ensures |r| == |bucket|
  {
    seq(|bucket|, i requires 0 <= i < |bucket| => normalize(bucket[i].text))
  }

  function Flush(normalize: string -> string, bucket: seq<RawTurn>): ReassembledTurn
    requires bucket != []
  {
    ReassembledTurn(bucket[0].sender, Strip(Python, Join(Texts(normalize, bucket), " ")), bucket[0].at,
                    bucket[|bucket| - 1].at, |bucket|)
  }

  function FlushAll(normalize: string -> string, buckets: seq<seq<RawTurn>>): (r: seq<ReassembledTurn>)
    requires forall b :: b in buckets ==> b != []
    ensures |r| == |buckets|
  {
    seq(|buckets|, i requires 0 <= i < |buckets| => assert buckets[i] in buckets; Flush(normalize, buckets[i]))
  }

  function Concat(buckets: seq<seq<RawTurn>>): seq<RawTurn> {
    if buckets == [] then [] else Concat(buckets[..|buckets| - 1]) + buckets[|buckets| - 1]
  }

  /** Each bucket is a burst: non-empty, every message joining the one before. */
  ghost predicate AreBursts(normalize: string -> string, buckets: seq<seq<RawTurn>>) {
    forall k :: 0 <= k < |buckets| ==> IsBurst(normalize, buckets[k])
  }

  predicate IsBurst(normalize: string -> string, b: seq<RawTurn>) {
    b != [] && forall i {:trigger b[i]} :: 0 < i < |b| ==> Joins(normalize, b[i - 1], b[i])
  }

  /** No bucket could have been continued by the next. */
  ghost predicate AreMaximal(normalize: string -> string, buckets: seq<seq<RawTurn>>) {
    forall k {:trigger buckets[k]} :: 0 < k < |buckets| && buckets[k - 1] != [] && buckets[k] != [] ==>
      !Joins(normalize, buckets[k - 1][|buckets[k - 1]| - 1], buckets[k][0])
  }

  /** A lossless division of the messages into maximal bursts. */
  ghost predicate IsReassembly(normalize: string -> string, raw: seq<RawTurn>, buckets: seq<seq<RawTurn>>) {
    Concat(buckets) == raw && AreBursts(normalize, buckets) && AreMaximal(normalize, buckets)
  }

  /** In a burst each message is by the same sender within four seconds of the one before, which has four words at
      most; at a boundary between two bursts one of these fails. */
  lemma WhatMakesABurst(normalize: string -> string, raw: seq<RawTurn>, buckets: seq<seq<RawTurn>>)
    requires IsReassembly(normalize, raw, buckets)
    ensures forall k, i {:trigger buckets[k][i]} :: 0 <= k < |buckets| && 0 < i < |buckets[k]| ==>
              var prev, cur := buckets[k][i - 1], buckets[k][i];
              cur.sender == prev.sender && cur.at <= prev.at + 4000 && |Words(normalize(prev.text))| <= 4
    ensures forall k {:trigger buckets[k]} :: 0 < k < |buckets| ==>
              && buckets[k - 1] != [] && buckets[k] != []
              && var prev, cur := buckets[k - 1][|buckets[k - 1]| - 1], buckets[k][0];
                 cur.sender != prev.sender || cur.at > prev.at + 4000 || |Words(normalize(prev.text))| > 4
  {
    hide Words, Concat;
    forall k, i | 0 <= k < |buckets| && 0 < i < |buckets[k]|
      ensures Joins(normalize, buckets[k][i - 1], buckets[k][i])
    {
      assert IsBurst(normalize, buckets[k]);
    }
    forall k | 0 <= k < |buckets|
      ensures buckets[k] != []
    {
      assert IsBurst(normalize, buckets[k]);
    }
  }

  /** The last message of a non-empty division ends its last bucket, which starts within the messages. */
  lemma LastOfLast(normalize: string -> string, raw: seq<RawTurn>, buckets: seq<seq<RawTurn>>)
    requires Concat(buckets) == raw && AreBursts(normalize, buckets) && buckets != []
    ensures var last := buckets[|buckets| - 1];
            last != [] && |last| <= |raw| && raw[|raw| - 1] == last[|last| - 1] && last == raw[|raw| - |last|..]
            && Concat(buckets[..|buckets| - 1]) == raw[..|raw| - |last|]
  {
    assert IsBurst(normalize, buckets[|buckets| - 1]);
  }

  lemma BurstGrows(normalize: string -> string, b: seq<RawTurn>, cur: RawTurn)
    requires IsBurst(normalize, b) && Joins(normalize, b[|b| - 1], cur)
    ensures IsBurst(normalize, b + [cur])
  {
  }

  lemma ExtendLast(normalize: string -> string, raw: seq<RawTurn>, buckets: seq<seq<RawTurn>>, cur: RawTurn)
    requires buckets != [] && IsReassembly(normalize, raw, buckets)
    requires raw != [] && Joins(normalize, raw[|raw| - 1], cur)
    ensures var n := |buckets| - 1;
            IsReassembly(normalize, raw + [cur], buckets[..n] + [buckets[n] + [cur]])
  {
    hide Joins, IsBurst;
    var n := |buckets| - 1;
    var buckets' := buckets[..n] + [buckets[n] + [cur]];
    LastOfLast(normalize, raw, buckets);
    BurstGrows(normalize, buckets[n], cur);
    assert Concat(buckets') == raw + [cur] by {
      assert buckets'[..n] == buckets[..n];
    }
    SameHeads(normalize, buckets, buckets[n] + [cur]);
    hide Concat, AreMaximal;
  }

  /** Lengthening the last bucket leaves every boundary as it was. */
  lemma SameHeads(normalize: string -> string, buckets: seq<seq<RawTurn>>, longer: seq<RawTurn>)
    requires buckets != [] && AreMaximal(normalize, buckets)
    requires var last := buckets[|buckets| - 1]; last != [] && longer != [] && longer[0] == last[0]
    ensures AreMaximal(normalize, buckets[..|buckets| - 1] + [longer])
  {
    hide Joins;
  }

  lemma StartNew(normalize: string -> string, raw: seq<RawTurn>, buckets: seq<seq<RawTurn>>, cur: RawTurn)
    requires IsReassembly(normalize, raw, buckets)
    requires raw != [] ==> !Joins(normalize, raw[|raw| - 1], cur)
    ensures IsReassembly(normalize, raw + [cur], buckets + [[cur]])
  {
    hide Joins, IsBurst;
    var buckets' := buckets + [[cur]];
    if buckets != [] {
      LastOfLast(normalize, raw, buckets);
    }
    assert IsBurst(normalize, [cur]) by { SingleIsBurst(normalize, cur); }
    assert Concat(buckets') == raw + [cur] by {
      assert buckets'[..|buckets|] == buckets;
    }
    assert AreMaximal(normalize, buckets');
  }

  lemma SingleIsBurst(normalize: string -> string, cur: RawTurn)
    ensures IsBurst(normalize, [cur])
  {
  }

  /** The division the source computes: each message joins the last burst or opens a new one. */
  function Bursts(normalize: string -> string, raw: seq<RawTurn>): seq<seq<RawTurn>> {
    if raw == [] then []
    else
      var n := |raw| - 1;
      var front := Bursts(normalize, raw[..n]);
      if n > 0 && front != [] && Joins(normalize, raw[n - 1], raw[n]) then
        front[..|front| - 1] + [front[|front| - 1] + [raw[n]]]
      else front + [[raw[n]]]
  }

  /** The bursts are a lossless division into maximal bursts. */
  lemma {:induction false} BurstsAreReassembly(normalize: string -> string, raw: seq<RawTurn>)
    ensures IsReassembly(normalize, raw, Bursts(normalize, raw))
  {
    hide IsReassembly, Joins;
    if raw == [] {
      EmptyReassembly(normalize);
    } else {
      var n := |raw| - 1;
      BurstsAreReassembly(normalize, raw[..n]);
      assert raw == raw[..n] + [raw[n]];
      EmptyOnlyWhenNothing(normalize, raw[..n], Bursts(normalize, raw[..n]));
      if n > 0 && Joins(normalize, raw[n - 1], raw[n]) {
        ExtendLast(normalize, raw[..n], Bursts(normalize, raw[..n]), raw[n]);
      } else {
        StartNew(normalize, raw[..n], Bursts(normalize, raw[..n]), raw[n]);
      }
    }
  }

  lemma BurstsStep(normalize: string -> string, raw: seq<RawTurn>, i: nat, flushed: seq<seq<RawTurn>>,
                   bucket: seq<RawTurn>)
    requires 0 < i < |raw| && Bursts(normalize, raw[..i]) == flushed + [bucket]
    ensures Bursts(normalize, raw[..i + 1]) ==
            if Joins(normalize, raw[i - 1], raw[i]) then flushed + [bucket + [raw[i]]]
              else flushed + [bucket] + [[raw[i]]]
  {
    hide Joins;
    assert raw[..i + 1][..i] == raw[..i];
    assert (flushed + [bucket])[..|flushed|] == flushed;
  }

  lemma BurstsNonEmpty(normalize: string -> string, raw: seq<RawTurn>)
    ensures forall b :: b in Bursts(normalize, raw) ==> b != []
  {
    BurstsAreReassembly(normalize, raw);
    hide Bursts;
    forall b | b in Bursts(normalize, raw)
      ensures b != []
    {
      var k :| 0 <= k < |Bursts(normalize, raw)| && Bursts(normalize, raw)[k] == b;
      assert IsBurst(normalize, Bursts(normalize, raw)[k]);
    }
  }

  /** Collapse each burst of messages into one turn. */
  method ReassembleTurns(normalize: string -> string, raw: seq<RawTurn>) returns (out: seq<ReassembledTurn>)
    ensures forall b :: b in Bursts(normalize, raw) ==> b != []
    ensures out == FlushAll(normalize, Bursts(normalize, raw))
  {
    hide Joins, Flush, FlushAll, Bursts;
    BurstsNonEmpty(normalize, raw);
    BurstsStart(normalize, raw);
    FlushNone(normalize);
    out := [];
    if raw == [] {
      return;
    }
    var bucket := [raw[0]];
    ghost var flushed: seq<seq<RawTurn>> := [];
    for i := 1 to |raw|
      invariant bucket != [] && Bursts(normalize, raw[..i]) == flushed + [bucket]
      invariant (forall b :: b in flushed ==> b != []) && out == FlushAll(normalize, flushed)
    {
      BurstsStep(normalize, raw, i, flushed, bucket);
      if Joins(normalize, raw[i - 1], raw[i]) {
        bucket := bucket + [raw[i]];
      } else {
        FlushOneMore(normalize, flushed, bucket);
        out := out + [Flush(normalize, bucket)];
        flushed := flushed + [bucket];
        bucket := [raw[i]];
      }
    }
    assert raw[..|raw|] == raw;
    FlushOneMore(normalize, flushed, bucket);
    out := out + [Flush(normalize, bucket)];
  }

  lemma BurstsStart(normalize: string -> string, raw: seq<RawTurn>)
    ensures if raw == [] then Bursts(normalize, raw) == [] else Bursts(normalize, raw[..1]) == [] + [[raw[0]]]
  {
    if raw != [] {
      assert raw[..1][..0] == [];
    }
  }

  lemma FlushNone(normalize: string -> string)
    ensures FlushAll(normalize, []) == []
  {
  }

  lemma FlushOneMore(normalize: string -> string, buckets: seq<seq<RawTurn>>, b: seq<RawTurn>)
    requires b != [] && forall c :: c in buckets ==> c != []
    ensures (forall c :: c in buckets + [b] ==> c != [])
            && FlushAll(normalize, buckets + [b]) == FlushAll(normalize, buckets) + [Flush(normalize, b)]
  {
    hide Flush;
  }

  lemma EmptyReassembly(normalize: string -> string)
    ensures IsReassembly(normalize, [], [])
  {
  }

  function TurnTexts(turns: seq<ReassembledTurn>): (r: seq<string>)
    ensures |r| == |turns| && forall i :: 0 <= i < |turns| ==> r[i] == turns[i].text
  {
    seq(|turns|, i requires 0 <= i < |turns| => turns[i].text)
  }

  /** A turn has its messages' sender, times, number and words. */
  lemma TurnOfBurst(normalize: string -> string, b: seq<RawTurn>)
    requires IsBurst(normalize, b)
    ensures var turn := Flush(normalize, b);
            && (forall i {:trigger b[i]} :: 0 <= i < |b| ==> b[i].sender == turn.sender)
            && turn.startMs == b[0].at && turn.endMs == b[|b| - 1].at && turn.sourceCount == |b|
            && Words(turn.text) == AllWords(Texts(normalize, b))
  {
    hide Words, Join, Strip;
    OneSender(normalize, b);
    WordsOfStrip(Join(Texts(normalize, b), " "));
    WordsOfJoin(Texts(normalize, b));
  }

  lemma {:induction false} OneSender(normalize: string -> string, b: seq<RawTurn>)
    requires IsBurst(normalize, b)
    ensures forall i {:trigger b[i]} :: 0 <= i < |b| ==> b[i].sender == b[0].sender
  {
    if |b| > 1 {
      OneSender(normalize, b[..|b| - 1]);
      assert Joins(normalize, b[|b| - 2], b[|b| - 1]);
      assert forall i {:trigger b[i]} :: 0 <= i < |b| - 1 ==> b[..|b| - 1][i] == b[i];
    }
  }

  /** Reassembly loses no word and adds none: the words of the turns are those of the messages, in order. */
  lemma {:induction false} ReassemblyKeepsWords(normalize: string -> string, buckets: seq<seq<RawTurn>>)
    requires AreBursts(normalize, buckets) && forall b :: b in buckets ==> b != []
    ensures AllWords(TurnTexts(FlushAll(normalize, buckets))) == AllWords(Texts(normalize, Concat(buckets)))
  {
    hide AllWords, Flush, FlushAll, Joins;
    if buckets == [] {
      FlushNone(normalize);
      assert TurnTexts([]) == [] && Texts(normalize, []) == [];
    } else {
      var (front, last) := (buckets[..|buckets| - 1], buckets[|buckets| - 1]);
      assert last in buckets && forall b :: b in front ==> b in buckets;
      ReassemblyKeepsWords(normalize, front);
      assert buckets == front + [last];
      FlushOneMore(normalize, front, last);
      var turn := Flush(normalize, last);
      var turns := FlushAll(normalize, front);
      assert TurnTexts(turns + [turn]) == TurnTexts(turns) + [turn.text];
      assert Texts(normalize, Concat(front) + last) == Texts(normalize, Concat(front)) + Texts(normalize, last);
      AllWordsAppend(TurnTexts(turns), [turn.text]);
      AllWordsAppend(Texts(normalize, Concat(front)), Texts(normalize, last));
      TurnOfBurst(normalize, last);
      OneText(turn.text);
    }
  }

  lemma OneText(text: string)
    ensures AllWords([text]) == Words(text)
  {
    hide Words;
    assert AllWords([text][1..]) == [];
  }

  /** The division is the only one: losslessness, bursts and maximality leave no choice. */
  lemma {:induction false} ReassemblyUnique(normalize: string -> string, raw: seq<RawTurn>, a: seq<seq<RawTurn>>,
                                            b: seq<seq<RawTurn>>)
    requires IsReassembly(normalize, raw, a) && IsReassembly(normalize, raw, b)
    ensures a == b
    decreases |a|
  {
    hide IsReassembly, Joins, IsBurst, AreBursts, AreMaximal, Concat;
    EmptyOnlyWhenNothing(normalize, raw, a);
    EmptyOnlyWhenNothing(normalize, raw, b);
    if raw != [] {
      var (m, n) := (|a| - 1, |b| - 1);
      LastBucketNoLonger(normalize, raw, a, b);
      LastBucketNoLonger(normalize, raw, b, a);
      DropLast(normalize, raw, a);
      DropLast(normalize, raw, b);
      ReassemblyUnique(normalize, raw[..|raw| - |a[m]|], a[..m], b[..n]);
      assert a == a[..m] + [a[m]] && b == b[..n] + [b[n]];
    }
  }

  lemma EmptyOnlyWhenNothing(normalize: string -> string, raw: seq<RawTurn>, buckets: seq<seq<RawTurn>>)
    requires IsReassembly(normalize, raw, buckets)
    ensures raw == [] <==> buckets == []
  {
    if buckets != [] {
      LastOfLast(normalize, raw, buckets);
    }
  }

  /** Without its last bucket a division is one of the earlier messages. */
  lemma DropLast(normalize: string -> string, raw: seq<RawTurn>, buckets: seq<seq<RawTurn>>)
    requires buckets != [] && IsReassembly(normalize, raw, buckets)
    ensures var last := buckets[|buckets| - 1];
            last != [] && |last| <= |raw| && last == raw[|raw| - |last|..]
            && IsReassembly(normalize, raw[..|raw| - |last|], buckets[..|buckets| - 1])
  {
    LastOfLast(normalize, raw, buckets);
    hide Concat, Joins, IsBurst;
  }

  /** The message before the last bucket does not join it. */
  lemma BoundaryDoesNotJoin(normalize: string -> string, raw: seq<RawTurn>, buckets: seq<seq<RawTurn>>)
    requires buckets != [] && IsReassembly(normalize, raw, buckets)
    ensures var p := |raw| - |buckets[|buckets| - 1]|; p > 0 ==> p < |raw| && !Joins(normalize, raw[p - 1], raw[p])
  {
    hide Joins;
    LastOfLast(normalize, raw, buckets);
    var n := |buckets| - 1;
    if |buckets[n]| < |raw| {
      DropLast(normalize, raw, buckets);
      LastOfLast(normalize, raw[..|raw| - |buckets[n]|], buckets[..n]);
      assert buckets[n - 1] == buckets[..n][n - 1];
    }
  }

  /** Inside the last bucket every message joins the one before. */
  lemma InsideJoins(normalize: string -> string, raw: seq<RawTurn>, buckets: seq<seq<RawTurn>>, p: nat)
    requires buckets != [] && IsReassembly(normalize, raw, buckets)
    requires |raw| - |buckets[|buckets| - 1]| < p < |raw|
    ensures Joins(normalize, raw[p - 1], raw[p])
  {
    hide Joins;
    LastOfLast(normalize, raw, buckets);
    var last := buckets[|buckets| - 1];
    assert IsBurst(normalize, last);
    var i := p - (|raw| - |last|);
    assert last[i] == raw[p] && last[i - 1] == raw[p - 1];
  }

  /** The last bucket of one division is no longer than that of another, whose boundary it would cross. */
  lemma LastBucketNoLonger(normalize: string -> string, raw: seq<RawTurn>, a: seq<seq<RawTurn>>, b: seq<seq<RawTurn>>)
    requires a != [] && b != [] && IsReassembly(normalize, raw, a) && IsReassembly(normalize, raw, b)
    ensures |a[|a| - 1]| <= |b[|b| - 1]|
  {
    hide Joins, IsReassembly;
    BoundaryDoesNotJoin(normalize, raw, b);
    DropLast(normalize, raw, a);
    DropLast(normalize, raw, b);
    var p := |raw| - |b[|b| - 1]|;
    if |raw| - |a[|a| - 1]| < p < |raw| {
      InsideJoins(normalize, raw, a, p);
    }
  }
}
