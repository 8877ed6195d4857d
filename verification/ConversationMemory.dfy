/** The conversation memory: a sliding window of raw turns and permanent risk flags. */
module ConversationMemory {
  import opened Options
  import opened TextRules
  import opened ModelCascade
  import opened EntailmentGate

  const SLIDING_WINDOW_MAX_TURNS := 12

  datatype Turn = Turn(sender: string, text: string, index: nat, epoch: real)

  datatype RiskFlag = RiskFlag(tacticId: string, turnIndex: nat, confidence: real, citedSpan: string, firstSeen: real)

  datatype Memory = Memory(window: seq<Turn>, flags: seq<RiskFlag>, turnCount: nat)

  const EMPTY := Memory([], [], 0)

  /** What one turn adds: its text, and the cascade's findings when it was scored. */
  datatype Input = Input(sender: string, text: string, result: Option<CascadeResult>, at: real)

  function FlagOf(c: Candidate, index: nat, at: real): RiskFlag {
    var joined := Join(c.spans, ", ");
    RiskFlag(c.tacticId, index, c.score, if joined != "" then joined else StartOf(c.context, 80), at)
  }

  function FlagsOf(cs: seq<Candidate>, index: nat, at: real): (r: seq<RiskFlag>)
    ensures |r| == |cs| && forall i :: 0 <= i < |cs| ==> r[i] == FlagOf(cs[i], index, at)
  {
    seq(|cs|, i requires 0 <= i < |cs| => FlagOf(cs[i], index, at))
  }

  function Added(mem: Memory, input: Input): Memory {
    var index := mem.turnCount + 1;
    var window := mem.window + [Turn(input.sender, input.text, index, input.at)];
    Memory(if |window| > SLIDING_WINDOW_MAX_TURNS then window[1..] else window,
           mem.flags + (if input.result.Some? then FlagsOf(input.result.value.candidates, index, input.at) else []),
           index)
  }

  function Run(history: seq<Input>): Memory {
    if history == [] then EMPTY else Added(Run(history[..|history| - 1]), history[|history| - 1])
  }

  /** The tactics flagged so far, which the cascade compounds with. */
  function PriorFlagIds(mem: Memory): set<string> {
    set f | f in mem.flags :: f.tacticId
  }

  class ConversationStore {
    var window: seq<Turn>
    var flags: seq<RiskFlag>
    var turnCount: nat

    function Abs(): Memory
      reads this
    {
      Memory(window, flags, turnCount)
    }

    constructor ()
      ensures Abs() == EMPTY
    {
      window, flags, turnCount := [], [], 0;
    }

    method AddTurn(input: Input)
      modifies this
      ensures Abs() == Added(old(Abs()), input)
    {
      turnCount := turnCount + 1;
      window := window + [Turn(input.sender, input.text, turnCount, input.at)];
      if input.result.Some? {
        var cs := input.result.value.candidates;
        for i := 0 to |cs|
          invariant flags == old(flags) + FlagsOf(cs[..i], turnCount, input.at)
          invariant turnCount == old(turnCount) + 1
          invariant window == old(window) + [Turn(input.sender, input.text, turnCount, input.at)]
        {
          flags := flags + [FlagOf(cs[i], turnCount, input.at)];
        }
        assert cs[..|cs|] == cs;
      }
      if |window| > SLIDING_WINDOW_MAX_TURNS {
        CompactOldest();
      }
    }

    method CompactOldest()
      requires window != []
      modifies `window
      ensures window == old(window)[1..]
    {
      window := window[1..];
    }
  }

  /** All turns of a history, numbered from 1. */
  function AllTurns(history: seq<Input>): (r: seq<Turn>)
    ensures |r| == |history|
    ensures forall i :: 0 <= i < |history| ==> r[i] == Turn(history[i].sender, history[i].text, i + 1, history[i].at)
  {
    seq(|history|, i requires 0 <= i < |history| => Turn(history[i].sender, history[i].text, i + 1, history[i].at))
  }

  /** The raw window is always the last twelve turns, or all of a shorter conversation. */
  lemma {:induction false} WindowIsRecentTurns(history: seq<Input>)
    ensures var n := |history|;
            && Run(history).turnCount == n
            && Run(history).window == AllTurns(history)[if n > 12 then n - 12 else 0..]
  {
    if history != [] {
      var front := history[..|history| - 1];
      WindowIsRecentTurns(front);
      var last := AllTurns(history)[|history| - 1];
      assert AllTurns(history) == AllTurns(front) + [last];
      hide FlagsOf;
      Slide(AllTurns(front), last);
    }
  }

  /** Dropping the oldest of thirteen turns leaves the last twelve. */
  lemma Slide(turns: seq<Turn>, last: Turn)
    ensures var window := turns[if |turns| > 12 then |turns| - 12 else 0..] + [last];
            (if |window| > 12 then window[1..] else window) ==
            (turns + [last])[if |turns| + 1 > 12 then |turns| + 1 - 12 else 0..]
  {
  }

  /** What a flag says of the finding it records. */
  predicate Records(f: RiskFlag, c: Candidate, index: nat, at: real) {
    && f.tacticId == c.tacticId && f.turnIndex == index && f.confidence == c.score && f.firstSeen == at
    && f.citedSpan == if Join(c.spans, ", ") != "" then Join(c.spans, ", ") else StartOf(c.context, 80)
  }

  ghost predicate RecordsFinding(history: seq<Input>, f: RiskFlag) {
    exists i, c :: 0 <= i < |history| && history[i].result.Some? && c in history[i].result.value.candidates
                   && Records(f, c, i + 1, history[i].at)
  }

  /** The flags are the records of the findings of all turns, each with its turn, score and evidence. */
  lemma {:induction false} FlagsRecordFindings(history: seq<Input>, f: RiskFlag)
    ensures Run(history).turnCount == |history|
    ensures f in Run(history).flags <==> RecordsFinding(history, f)
  {
    if history != [] {
      var n := |history| - 1;
      FlagsRecordFindings(history[..n], f);
      AddedFlags(Run(history[..n]), history[n], f);
      hide Records, RecordsFinding, Join, StartOf;
      RecordsStep(history, f);
    }
  }

  lemma AddedFlags(mem: Memory, input: Input, f: RiskFlag)
    ensures f in Added(mem, input).flags <==>
              || f in mem.flags
              || (input.result.Some? && exists c :: c in input.result.value.candidates
                                                    && Records(f, c, mem.turnCount + 1, input.at))
  {
    hide Join, StartOf;
    if input.result.Some? {
      var cs := input.result.value.candidates;
      var added := FlagsOf(cs, mem.turnCount + 1, input.at);
      if f in added {
        var i :| 0 <= i < |added| && added[i] == f;
        assert cs[i] in cs;
      }
      if c :| c in cs && Records(f, c, mem.turnCount + 1, input.at) {
        var i :| 0 <= i < |cs| && cs[i] == c;
        assert added[i] == f;
      }
    }
  }

  lemma RecordsStep(history: seq<Input>, f: RiskFlag)
    requires history != []
    ensures var (front, last) := (history[..|history| - 1], history[|history| - 1]);
            RecordsFinding(history, f) <==>
              || RecordsFinding(front, f)
              || (last.result.Some? && exists c :: c in last.result.value.candidates
                                                   && Records(f, c, |history|, last.at))
  {
    hide Records;
    var front := history[..|history| - 1];
    if i, c :| 0 <= i < |history| && history[i].result.Some? && c in history[i].result.value.candidates
               && Records(f, c, i + 1, history[i].at) {
      assert i < |front| ==> front[i] == history[i];
    }
    if i, c :| 0 <= i < |front| && front[i].result.Some? && c in front[i].result.value.candidates
               && Records(f, c, i + 1, front[i].at) {
      assert history[i] == front[i];
    }
  }

  /** Flags are only ever added, at the end. */
  lemma {:induction false} FlagsArePermanent(history: seq<Input>, more: seq<Input>)
    ensures Run(history).flags <= Run(history + more).flags
    ensures PriorFlagIds(Run(history)) <= PriorFlagIds(Run(history + more))
  {
    if more == [] {
      assert history + more == history;
    } else {
      assert (history + more)[..|history + more| - 1] == history + more[..|more| - 1];
      FlagsArePermanent(history, more[..|more| - 1]);
      var old', new' := Run(history).flags, Run(history + more).flags;
      forall f | f in old'
        ensures f in new'
      {
        var i :| 0 <= i < |old'| && old'[i] == f;
        assert new'[i] == f;
      }
    }
  }

  predicate Finds(input: Input, id: string) {
    input.result.Some? && id in Ids(input.result.value.candidates)
  }

  lemma AddedPrior(mem: Memory, input: Input, id: string)
    ensures id in PriorFlagIds(Added(mem, input)) <==> id in PriorFlagIds(mem) || Finds(input, id)
  {
    var added := if input.result.Some? then FlagsOf(input.result.value.candidates, mem.turnCount + 1, input.at) else [];
    assert Added(mem, input).flags == mem.flags + added;
    if Finds(input, id) {
      var i :| 0 <= i < |added| && input.result.value.candidates[i].tacticId == id;
      assert added[i] in Added(mem, input).flags;
    }
    if id in PriorFlagIds(mem) {
      var f :| f in mem.flags && f.tacticId == id;
      assert f in Added(mem, input).flags;
    }
    if f :| f in added && f.tacticId == id {
      var i :| 0 <= i < |added| && added[i] == f;
      assert input.result.value.candidates[i] in input.result.value.candidates;
    }
  }

  /** Every tactic ever found is remembered, whether or not its turn has left the window. */
  lemma {:induction false} FindingsAreRemembered(history: seq<Input>, id: string)
    ensures id in PriorFlagIds(Run(history)) <==> EverFound(history, id)
  {
    if history != [] {
      hide PriorFlagIds, Added, EverFound;
      var n := |history| - 1;
      FindingsAreRemembered(history[..n], id);
      AddedPrior(Run(history[..n]), history[n], id);
      EverFoundStep(history, id);
    }
  }

  ghost predicate EverFound(history: seq<Input>, id: string) {
    exists i :: 0 <= i < |history| && Finds(history[i], id)
  }

  lemma EverFoundStep(history: seq<Input>, id: string)
    requires history != []
    ensures EverFound(history, id) <==> EverFound(history[..|history| - 1], id) || Finds(history[|history| - 1], id)
  {
    hide Finds;
    var front := history[..|history| - 1];
    if i :| 0 <= i < |history| && Finds(history[i], id) {
      assert i < |front| ==> front[i] == history[i];
    }
    if i :| 0 <= i < |front| && Finds(front[i], id) {
      assert Finds(history[i], id);
    }
  }

  /** A longer conversation never weakens the verdict on a message: whatever cleared the gate after
      `history` still does, scored at least as high, after any continuation. */
  lemma LongerHistoryKeepsSurvivors(tactics: Tactics, gate: Gate, msg: Message, models: Models, history: seq<Input>,
                                    more: seq<Input>)
    requires ValidGate(gate)
    ensures var a := Route(tactics, msg, PriorFlagIds(Run(history)), models).candidates;
            var b := Route(tactics, msg, PriorFlagIds(Run(history + more)), models).candidates;
            Dominates(Surviving(gate, b, Corroboration(b)), Surviving(gate, a, Corroboration(a)))
  {
    FlagsArePermanent(history, more);
    MorePriorFlagsKeepSurvivors(tactics, gate, msg, models, PriorFlagIds(Run(history)),
                                PriorFlagIds(Run(history + more)));
  }
}
