/** How a message list becomes the turns of an Anthropic request: all results of
    one round go into a single user turn. */
module AnthropicGrouping {
  import opened Transcript

  datatype Block =
    | Text(text: string)
    | ToolUse(call: ToolCall)
    | ToolResultBlock(id: string, content: string, isError: bool)

  /** A text with an optional image, or a list of blocks. */
  datatype Content = Whole(text: string, imageBase64: string, imageMime: string) | Blocks(blocks: seq<Block>)

  datatype Turn = Turn(fromAssistant: bool, content: Content)

  function ResultBlocks(ms: seq<Message>): seq<Block> {
    seq(|ms|, i requires 0 <= i < |ms| => ToolResultBlock(ms[i].toolCallId, ms[i].content, ms[i].isToolError))
  }

  function UseBlocks(calls: seq<ToolCall>): seq<Block> {
    seq(|calls|, i requires 0 <= i < |calls| => ToolUse(calls[i]))
  }

  function ResultsTurn(ms: seq<Message>): Turn { Turn(false, Blocks(ResultBlocks(ms))) }

  /** The turn of a message that is neither a system nor a tool message. */
  function SingleTurn(m: Message): Turn {
    if m.role == Assistant && m.toolCalls != [] then
      Turn(true, Blocks((if m.content != "" then [Text(m.content)] else []) + UseBlocks(m.toolCalls)))
    else Turn(m.role == Assistant, Whole(m.content, m.imageBase64, m.imageMime))
  }

  /** How many tool messages the list starts with. */
  function ToolRun(ms: seq<Message>): (n: nat)
    ensures n <= |ms| && (ms != [] && ms[0].role == Tool ==> n > 0)
  {
    if ms != [] && ms[0].role == Tool then 1 + ToolRun(ms[1..]) else 0
  }

  function Grouped(ms: seq<Message>): seq<Turn>
    decreases |ms|
  {
    if ms == [] then []
    else if ms[0].role == System then Grouped(ms[1..])
    else if ms[0].role == Tool then [ResultsTurn(ms[..ToolRun(ms)])] + Grouped(ms[ToolRun(ms)..])
    else [SingleTurn(ms[0])] + Grouped(ms[1..])
  }

  method GroupMessages(messages: seq<Message>) returns (turns: seq<Turn>)
    ensures turns == Grouped(messages)
  {
    hide ResultBlocks, SingleTurn;
    turns := [];
    var i := 0;
    assert messages[0..] == messages;
    while i < |messages|
      invariant i <= |messages|
      invariant turns + Grouped(messages[i..]) == Grouped(messages)
    {
      var m := messages[i];
      ghost var rest := messages[i..];
      assert rest[0] == m && rest[1..] == messages[i + 1..];
      if m.role == System {
        i := i + 1;
        continue;
      }
      if m.role == Tool {
        var j, blocks := CollectResults(messages, i);
        TakeRun(messages, i, j);
        turns := Append(turns, Turn(false, Blocks(blocks)), Grouped(messages[j..]));
        i := j;
        continue;
      }
      var turn := WriteTurn(m);
      turns := Append(turns, turn, Grouped(messages[i + 1..]));
      i := i + 1;
    }
  }

  /** Adding a turn, as seen by what is still to come. */
  method Append(turns: seq<Turn>, t: Turn, ghost rest: seq<Turn>) returns (r: seq<Turn>)
    ensures r == turns + [t] && r + rest == turns + ([t] + rest)
  {
    r := turns + [t];
  }

  /** The inner loop: the blocks of the tool messages from `start` on. */
  method CollectResults(messages: seq<Message>, start: nat) returns (i: nat, blocks: seq<Block>)
    requires start <= |messages|
    ensures start <= i <= |messages| && i - start == ToolRun(messages[start..])
    ensures blocks == ResultBlocks(messages[start..i])
  {
    i, blocks := start, [];
    while i < |messages| && messages[i].role == Tool
      invariant start <= i <= |messages|
      invariant ToolRun(messages[start..]) == i - start + ToolRun(messages[i..])
      invariant blocks == ResultBlocks(messages[start..i])
    {
      var tm := messages[i];
      assert messages[i..][1..] == messages[i + 1..];
      blocks := blocks + [ToolResultBlock(tm.toolCallId, tm.content, tm.isToolError)];
      assert messages[start..i + 1] == messages[start..i] + [tm];
      i := i + 1;
    }
  }

  method WriteTurn(m: Message) returns (t: Turn)
    ensures t == SingleTurn(m)
  {
    if m.role == Assistant && m.toolCalls != [] {
      var blocks: seq<Block> := [];
      if m.content != "" { blocks := [Text(m.content)]; }
      ghost var before := blocks;
      for i := 0 to |m.toolCalls|
        invariant blocks == before + UseBlocks(m.toolCalls)[..i]
      {
        blocks := blocks + [ToolUse(m.toolCalls[i])];
      }
      assert UseBlocks(m.toolCalls)[..|m.toolCalls|] == UseBlocks(m.toolCalls);
      t := Turn(true, Blocks(blocks));
    } else {
      t := Turn(m.role == Assistant, Whole(m.content, m.imageBase64, m.imageMime));
    }
  }

  lemma {:induction false} TakeRun(messages: seq<Message>, i: nat, j: nat)
    requires i <= j <= |messages|
    ensures messages[i..][..j - i] == messages[i..j] && messages[i..][j - i..] == messages[j..]
  {
  }

  // ---- Nothing is lost or reordered ----

  /** What a message says, apart from its place in a turn. */
  datatype Item =
    | Result(id: string, content: string, isError: bool)
    | Calls(text: string, calls: seq<ToolCall>)
    | Said(fromAssistant: bool, text: string, imageBase64: string, imageMime: string)

  function ItemOf(m: Message): Item {
    if m.role == Tool then Result(m.toolCallId, m.content, m.isToolError)
    else if m.role == Assistant && m.toolCalls != [] then Calls(m.content, m.toolCalls)
    else Said(m.role == Assistant, m.content, m.imageBase64, m.imageMime)
  }

  /** What the messages say; system messages go elsewhere in the request. */
  function Items(ms: seq<Message>): seq<Item> {
    if ms == [] then []
    else (if ms[0].role == System then [] else [ItemOf(ms[0])]) + Items(ms[1..])
  }

  function BlockItems(blocks: seq<Block>): seq<Item> {
    if blocks == [] then []
    else (if blocks[0].ToolResultBlock? then [Result(blocks[0].id, blocks[0].content, blocks[0].isError)] else [])
         + BlockItems(blocks[1..])
  }

  function CallsOf(blocks: seq<Block>): seq<ToolCall> {
    if blocks == [] then []
    else (if blocks[0].ToolUse? then [blocks[0].call] else []) + CallsOf(blocks[1..])
  }

  function TurnItems(t: Turn): seq<Item> {
    match t.content
    case Whole(text, image, mime) => [Said(t.fromAssistant, text, image, mime)]
    case Blocks(bs) =>
      if t.fromAssistant then [Calls(if bs != [] && bs[0].Text? then bs[0].text else "", CallsOf(bs))]
      else BlockItems(bs)
  }

  function Ungrouped(turns: seq<Turn>): seq<Item> {
    if turns == [] then [] else TurnItems(turns[0]) + Ungrouped(turns[1..])
  }

  lemma {:induction false} CallsOfUses(calls: seq<ToolCall>)
    ensures CallsOf(UseBlocks(calls)) == calls
    decreases |calls|
  {
    if calls != [] {
      CallsOfUses(calls[1..]);
      assert UseBlocks(calls)[1..] == UseBlocks(calls[1..]);
    }
  }

  lemma {:induction false} SingleTurnItems(m: Message)
    requires m.role != Tool
    ensures TurnItems(SingleTurn(m)) == [ItemOf(m)]
  {
    if m.role == Assistant && m.toolCalls != [] {
      var uses := UseBlocks(m.toolCalls);
      var head: seq<Block> := if m.content != "" then [Text(m.content)] else [];
      CallsOfUses(m.toolCalls);
      assert m.content != "" ==> (head + uses)[1..] == uses;
      assert m.content == "" ==> head + uses == uses;
      assert uses[0].ToolUse?;
      assert CallsOf(head + uses) == m.toolCalls;
    }
  }

  /** A run of tool messages, read off its turn. */
  lemma {:induction false} RunItems(ms: seq<Message>)
    ensures var n := ToolRun(ms); Items(ms) == BlockItems(ResultBlocks(ms[..n])) + Items(ms[n..])
    decreases |ms|
  {
    if ms != [] && ms[0].role == Tool {
      var n := ToolRun(ms[1..]);
      RunItems(ms[1..]);
      assert ms[..n + 1][1..] == ms[1..][..n];
      assert ResultBlocks(ms[..n + 1])[1..] == ResultBlocks(ms[1..][..n]);
    }
  }

  /** Reading the turns gives back every message but the system ones, in order. */
  lemma {:induction false} GroupingKeepsEverything(ms: seq<Message>)
    ensures Ungrouped(Grouped(ms)) == Items(ms)
    decreases |ms|
  {
    hide ResultBlocks, BlockItems, ItemOf;
    if ms == [] || ms[0].role == System {
      if ms != [] { GroupingKeepsEverything(ms[1..]); }
    } else if ms[0].role == Tool {
      hide Items;
      RunItems(ms);
      GroupingKeepsEverything(ms[ToolRun(ms)..]);
    } else {
      hide TurnItems, SingleTurn;
      SingleTurnItems(ms[0]);
      GroupingKeepsEverything(ms[1..]);
    }
  }

  // ---- Each round is answered at once ----

  function UseIds(t: Turn): seq<string> {
    if t.fromAssistant && t.content.Blocks? then CallIds(CallsOf(t.content.blocks)) else []
  }

  function CallIds(calls: seq<ToolCall>): seq<string> {
    seq(|calls|, i requires 0 <= i < |calls| => calls[i].id)
  }

  predicate IsResults(t: Turn) { !t.fromAssistant && t.content.Blocks? }

  /** The turn holds exactly one result for each id, in that order. */
  predicate ResultsFor(t: Turn, ids: seq<string>) {
    && IsResults(t) && |t.content.blocks| == |ids|
    && forall i | 0 <= i < |ids| :: t.content.blocks[i].ToolResultBlock? && t.content.blocks[i].id == ids[i]
  }

  /** What the API asks for: the turn after one with calls answers all of them. */
  predicate AnsweredAtOnce(turns: seq<Turn>) {
    forall i | 0 <= i < |turns| && UseIds(turns[i]) != [] ::
      i + 1 < |turns| && ResultsFor(turns[i + 1], UseIds(turns[i]))
  }

  predicate StartsRound(ms: seq<Message>) { ms == [] || ms[0].role == Assistant }

  lemma {:induction false} RunOfConcat(a: seq<Message>, b: seq<Message>)
    requires StartsRound(b)
    ensures ToolRun(a + b) == ToolRun(a)
    decreases |a|
  {
    if a == [] {
      assert a + b == b;
    } else {
      assert (a + b)[1..] == a[1..] + b;
      RunOfConcat(a[1..], b);
    }
  }

  /** An assistant turn never joins what stands before it. */
  lemma {:induction false} GroupedConcat(a: seq<Message>, b: seq<Message>)
    requires StartsRound(b)
    ensures Grouped(a + b) == Grouped(a) + Grouped(b)
    decreases |a|
  {
    hide ResultsTurn, SingleTurn;
    if a == [] {
      assert a + b == b;
    } else {
      RunOfConcat(a, b);
      var n := if a[0].role == Tool then ToolRun(a) else 1;
      SlicesOfConcat(a, b, n);
      GroupedConcat(a[n..], b);
      hide ToolRun;
    }
  }

  lemma {:induction false} RunOfAnswers(ms: seq<Message>, n: nat)
    requires n <= |ms| && StartsRound(ms[n..]) && forall i | 0 <= i < n :: ms[i].role == Tool
    ensures ToolRun(ms) == n
    decreases n
  {
    if n > 0 {
      assert ms[1..][n - 1..] == ms[n..];
      RunOfAnswers(ms[1..], n - 1);
    } else {
      assert ms[0..] == ms;
    }
  }

  lemma {:induction false} GroupedSingle(ms: seq<Message>)
    requires ms != [] && ms[0].role != System && ms[0].role != Tool
    ensures Grouped(ms) == [SingleTurn(ms[0])] + Grouped(ms[1..])
  {
    hide SingleTurn;
  }

  lemma {:induction false} GroupedRun(ms: seq<Message>, n: nat)
    requires 0 < n <= |ms| && StartsRound(ms[n..]) && forall i | 0 <= i < n :: ms[i].role == Tool
    ensures Grouped(ms) == [ResultsTurn(ms[..n])] + Grouped(ms[n..])
  {
    RunOfAnswers(ms, n);
    assert ms[0].role == Tool;
    hide ResultsTurn, ToolRun;
  }

  lemma {:induction false} AnswersAreResults(answers: seq<Message>, calls: seq<ToolCall>)
    requires AnswersAll(answers, calls)
    ensures forall i | 0 <= i < |answers| :: answers[i].role == Tool
  {
    forall i | 0 <= i < |answers| ensures answers[i].role == Tool { assert Answers(answers[i], calls[i]); }
  }

  lemma {:induction false} SlicesOfTail(ms: seq<Message>, n: nat)
    requires n < |ms|
    ensures ms[1..][..n] == ms[1..n + 1] && ms[1..][n..] == ms[n + 1..]
    ensures forall i | 0 <= i < n :: ms[1..][i] == ms[1..n + 1][i]
  {
  }

  /** A round makes two turns: the calls, and all of their results. */
  lemma {:induction false} RoundTurns(ms: seq<Message>)
    requires WellFormed(ms) && ms != []
    ensures var n := |ms[0].toolCalls|;
      Grouped(ms) == [SingleTurn(ms[0]), ResultsTurn(ms[1..n + 1])] + Grouped(ms[n + 1..])
  {
    var n := |ms[0].toolCalls|;
    assert ms[0].role == Assistant && 0 < n < |ms| && AnswersAll(ms[1..n + 1], ms[0].toolCalls);
    assert StartsRound(ms[n + 1..]) by { assert WellFormed(ms[n + 1..]); }
    hide *;
    AnswersAreResults(ms[1..n + 1], ms[0].toolCalls);
    SlicesOfTail(ms, n);
    GroupedSingle(ms);
    GroupedRun(ms[1..], n);
    TwoThenRest(SingleTurn(ms[0]), ResultsTurn(ms[1..n + 1]), Grouped(ms[n + 1..]));
  }

  lemma {:induction false} TwoThenRest(a: Turn, b: Turn, rest: seq<Turn>)
    ensures [a] + ([b] + rest) == [a, b] + rest
  {
  }

  lemma {:induction false} CallsOfTurn(m: Message)
    requires m.role == Assistant && m.toolCalls != []
    ensures SingleTurn(m).fromAssistant && UseIds(SingleTurn(m)) == CallIds(m.toolCalls)
  {
    var uses := UseBlocks(m.toolCalls);
    CallsOfUses(m.toolCalls);
    if m.content == "" {
      var none: seq<Block> := [];
      assert none + uses == uses;
    } else {
      assert ([Text(m.content)] + uses)[1..] == uses;
    }
    hide UseBlocks, CallIds;
  }

  lemma {:induction false} AnswersResult(answers: seq<Message>, calls: seq<ToolCall>)
    requires AnswersAll(answers, calls)
    ensures ResultsFor(ResultsTurn(answers), CallIds(calls)) && UseIds(ResultsTurn(answers)) == []
  {
    forall i | 0 <= i < |answers| ensures answers[i].toolCallId == calls[i].id {
      assert Answers(answers[i], calls[i]);
    }
  }

  lemma {:induction false} TurnsAnswer(ms: seq<Message>)
    requires WellFormed(ms) && ms != []
    ensures var n := |ms[0].toolCalls|;
      && UseIds(SingleTurn(ms[0])) == CallIds(ms[0].toolCalls)
      && ResultsFor(ResultsTurn(ms[1..n + 1]), CallIds(ms[0].toolCalls))
      && UseIds(ResultsTurn(ms[1..n + 1])) == []
  {
    var n := |ms[0].toolCalls|;
    assert ms[0].role == Assistant && 0 < n < |ms| && AnswersAll(ms[1..n + 1], ms[0].toolCalls);
    hide *;
    CallsOfTurn(ms[0]);
    AnswersResult(ms[1..n + 1], ms[0].toolCalls);
  }

  /** Behind a list of turns, other turns that start with one of the assistant
      and are all answered change nothing. */
  lemma {:induction false} AnsweredConcat(a: seq<Turn>, b: seq<Turn>)
    requires AnsweredAtOnce(b) && (b != [] ==> b[0].fromAssistant)
    ensures AnsweredAtOnce(a + b) <==> AnsweredAtOnce(a)
  {
    hide UseIds;
    assert forall i | 0 <= i < |a| :: (a + b)[i] == a[i];
    assert forall i | 0 <= i < |b| :: (a + b)[|a| + i] == b[i];
    if AnsweredAtOnce(a + b) {
      forall i | 0 <= i < |a| && UseIds(a[i]) != [] ensures i + 1 < |a| && ResultsFor(a[i + 1], UseIds(a[i])) {
        assert UseIds((a + b)[i]) != [];
      }
    }
  }

  /** The turns of one round: the calls, and all of their results. */
  function RoundPair(r: Round): seq<Turn>
    requires Complete(r)
  {
    [SingleTurn(AssistantTurn(r.text, r.calls)), ResultsTurn(ResultMessages(r.calls, r.results))]
  }

  lemma {:induction false} RoundMakesPair(r: Round)
    requires Complete(r)
    ensures Grouped(RoundMessages(r)) == RoundPair(r)
    ensures AnsweredAtOnce(RoundPair(r)) && RoundPair(r)[0].fromAssistant
  {
    var ms := RoundMessages(r);
    RoundWellFormed(r);
    RoundTurns(ms);
    TurnsAnswer(ms);
    assert ms[|r.calls| + 1..] == [] && ms[1..|r.calls| + 1] == ResultMessages(r.calls, r.results);
    hide WellFormed, ResultsTurn, ResultMessages, ToolRun, UseIds, ResultsFor;
  }

  /** The turns of the rounds, one after the other. */
  function RoundsTurns(rounds: seq<Round>): seq<Turn>
    requires AllComplete(rounds)
  {
    if rounds == [] then [] else RoundsTurns(rounds[..|rounds| - 1]) + RoundPair(rounds[|rounds| - 1])
  }

  lemma {:induction false} RoundsTurnsAnswered(rounds: seq<Round>)
    requires AllComplete(rounds)
    ensures AnsweredAtOnce(RoundsTurns(rounds)) && |RoundsTurns(rounds)| == 2 * |rounds|
    ensures rounds != [] ==> RoundsTurns(rounds)[0].fromAssistant
    decreases |rounds|
  {
    hide AnsweredAtOnce;
    if rounds == [] {
      NothingToAnswer();
    } else {
      RoundsTurnsAnswered(rounds[..|rounds| - 1]);
      RoundMakesPair(rounds[|rounds| - 1]);
      AnsweredConcat(RoundsTurns(rounds[..|rounds| - 1]), RoundPair(rounds[|rounds| - 1]));
      hide SingleTurn, ResultsTurn;
    }
  }

  lemma {:induction false} NothingToAnswer()
    ensures AnsweredAtOnce([])
  {
  }

  /** Whatever list the agent loop was given, each of its rounds makes two turns
      behind those of the list: the calls, and one user turn with exactly their
      results, in order. */
  lemma {:induction false} RoundsGrouped(initial: seq<Message>, rounds: seq<Round>)
    requires AllComplete(rounds)
    ensures Grouped(Working(initial, rounds)) == Grouped(initial) + RoundsTurns(rounds)
    ensures AnsweredAtOnce(RoundsTurns(rounds))
    decreases |rounds|
  {
    hide AnsweredAtOnce;
    RoundsTurnsAnswered(rounds);
    if rounds == [] {
      assert Grouped(initial) + [] == Grouped(initial);
    } else {
      var shorter, r := rounds[..|rounds| - 1], rounds[|rounds| - 1];
      RoundsGrouped(initial, shorter);
      RoundMakesPair(r);
      GroupedConcat(Working(initial, shorter), RoundMessages(r));
      hide RoundPair;
      var before, middle, pair := Grouped(initial), RoundsTurns(shorter), RoundPair(r);
      assert before + (middle + pair) == before + middle + pair;
    }
  }

  /** So every turn with calls is followed by one user turn with exactly their
      results after the rounds if and only if it was before. */
  lemma {:induction false} RoundsAnsweredAtOnce(initial: seq<Message>, rounds: seq<Round>)
    requires AllComplete(rounds)
    ensures AnsweredAtOnce(Grouped(Working(initial, rounds))) <==> AnsweredAtOnce(Grouped(initial))
  {
    RoundsGrouped(initial, rounds);
    RoundsTurnsAnswered(rounds);
    hide AnsweredAtOnce, Grouped;
    AnsweredConcat(Grouped(initial), RoundsTurns(rounds));
  }

  // ---- System messages between results ----

  predicate NoAdjacentResults(turns: seq<Turn>) {
    forall i | 0 <= i < |turns| - 1 :: !(IsResults(turns[i]) && IsResults(turns[i + 1]))
  }

  /** Only system messages stand in `ms` before its message number `j`, a result. */
  ghost predicate FirstResultAt(ms: seq<Message>, j: int) {
    0 <= j < |ms| && ms[j].role == Tool && forall k | 0 <= k < j :: ms[k].role == System
  }

  ghost predicate LeadsToResult(ms: seq<Message>) {
    exists j :: FirstResultAt(ms, j)
  }

  /** Messages `i` and `j` are results with nothing but system messages between
      them, and at least one. */
  ghost predicate SplitBetween(ms: seq<Message>, i: int, j: int) {
    && 0 <= i && i + 1 < j < |ms| && ms[i].role == Tool && ms[j].role == Tool
    && forall k | i < k < j :: ms[k].role == System
  }

  ghost predicate SplitResults(ms: seq<Message>) {
    exists i, j :: SplitBetween(ms, i, j)
  }

  lemma {:induction false} LeadsStep(ms: seq<Message>)
    requires ms != []
    ensures LeadsToResult(ms) <==> ms[0].role == Tool || (ms[0].role == System && LeadsToResult(ms[1..]))
  {
    if ms[0].role == Tool { assert FirstResultAt(ms, 0); }
    forall j | FirstResultAt(ms, j) && j > 0 ensures FirstResultAt(ms[1..], j - 1) {
    }
    forall j | ms[0].role == System && FirstResultAt(ms[1..], j) ensures FirstResultAt(ms, j + 1) {
    }
  }

  lemma {:induction false} SplitStep(ms: seq<Message>)
    requires ms != []
    ensures SplitResults(ms) <==>
              SplitResults(ms[1..])
              || (ms[0].role == Tool && |ms| > 1 && ms[1].role == System && LeadsToResult(ms[1..]))
  {
    forall i, j | SplitBetween(ms, i, j) ensures if i > 0 then SplitBetween(ms[1..], i - 1, j - 1)
                                                 else ms[1].role == System && FirstResultAt(ms[1..], j - 1)
    {
    }
    forall i, j | SplitBetween(ms[1..], i, j) ensures SplitBetween(ms, i + 1, j + 1) {
    }
    forall j | ms[0].role == Tool && |ms| > 1 && ms[1].role == System && FirstResultAt(ms[1..], j)
      ensures SplitBetween(ms, 0, j + 1)
    {
    }
  }

  /** A run of results splits off another one exactly if only system messages
      lead from its end to a result. */
  lemma {:induction false} SplitAfterRun(ms: seq<Message>)
    ensures var rest := ms[ToolRun(ms)..];
      SplitResults(ms) <==> SplitResults(rest) || (ToolRun(ms) > 0 && LeadsToResult(rest))
    decreases |ms|
  {
    hide SplitResults, LeadsToResult;
    if ms != [] && ms[0].role == Tool {
      SplitStep(ms);
      SplitAfterRun(ms[1..]);
      if |ms| > 1 { LeadsStep(ms[1..]); } else { NoneLeads(); }
      assert ms[1..][ToolRun(ms[1..])..] == ms[ToolRun(ms)..];
    }
  }

  lemma {:induction false} NoneLeads()
    ensures !LeadsToResult([]) && !SplitResults([])
  {
  }

  /** The first turn holds results exactly if only system messages come before
      the first result. */
  lemma {:induction false} FirstTurnIsResults(ms: seq<Message>)
    ensures Grouped(ms) != [] && IsResults(Grouped(ms)[0]) <==> LeadsToResult(ms)
    decreases |ms|
  {
    hide LeadsToResult, ToolRun, ResultBlocks, UseBlocks;
    if ms == [] {
      NoneLeads();
    } else {
      LeadsStep(ms);
      if ms[0].role == System { FirstTurnIsResults(ms[1..]); }
    }
  }

  lemma {:induction false} AdjacentAfter(t: Turn, turns: seq<Turn>)
    ensures NoAdjacentResults([t] + turns) <==>
              NoAdjacentResults(turns) && !(IsResults(t) && turns != [] && IsResults(turns[0]))
  {
    hide IsResults;
    var all := [t] + turns;
    assert forall i | 0 <= i < |turns| :: all[i + 1] == turns[i];
    if NoAdjacentResults(all) {
      assert turns != [] ==> !(IsResults(all[0]) && IsResults(all[0 + 1]));
      forall i | 0 <= i < |turns| - 1 ensures !(IsResults(turns[i]) && IsResults(turns[i + 1])) {
        assert !(IsResults(all[i + 1]) && IsResults(all[i + 1 + 1]));
      }
    }
  }

  /** All results that belong together share a turn exactly if no two of them
      are kept apart by system messages alone. */
  lemma {:induction false} ResultsShareATurn(ms: seq<Message>)
    ensures NoAdjacentResults(Grouped(ms)) <==> !SplitResults(ms)
    decreases |ms|
  {
    hide NoAdjacentResults, SplitResults, LeadsToResult, ResultBlocks, UseBlocks;
    if ms == [] {
      NoneLeads();
      NoneAdjacent();
    } else if ms[0].role == Tool {
      var rest := ms[ToolRun(ms)..];
      SplitAfterRun(ms);
      FirstTurnIsResults(rest);
      AdjacentAfter(ResultsTurn(ms[..ToolRun(ms)]), Grouped(rest));
      ResultsShareATurn(rest);
    } else {
      SplitStep(ms);
      ResultsShareATurn(ms[1..]);
      if ms[0].role != System { AdjacentAfter(SingleTurn(ms[0]), Grouped(ms[1..])); }
    }
  }

  lemma {:induction false} NoneAdjacent()
    ensures NoAdjacentResults([])
  {
  }

  /** A system message between two results splits them into two user turns. */
  lemma {:induction false} SystemMessageSplits(a: Message, s: Message, b: Message)
    requires a.role == Tool && s.role == System && b.role == Tool
    ensures Grouped([a, s, b]) == [ResultsTurn([a]), ResultsTurn([b])]
  {
    assert [a, s, b][1..] == [s, b] && [s, b][1..] == [b] && [b][1..] == [];
    assert [a, s, b][..1] == [a] && [b][..1] == [b];
    hide ResultsTurn;
    var last := [b];
    assert ToolRun(last[1..]) == 0 && ToolRun(last) == 1 && Grouped(last[1..]) == [];
    assert ToolRun([a, s, b]) == 1;
    assert Grouped([b]) == [ResultsTurn([b])];
    assert Grouped([s, b]) == Grouped([b]);
    assert Grouped([a, s, b]) == [ResultsTurn([a])] + Grouped([s, b]);
  }
}
