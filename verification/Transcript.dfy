/** The messages of a conversation, and what the agent loop adds to them. */
module Transcript {
  datatype Role = System | User | Assistant | Tool

  datatype ToolCall = ToolCall(id: string, name: string, arguments: string)

  datatype ToolResult = ToolResult(content: string, isError: bool)

  datatype Message = Message(
    role: Role,
    content: string,
    imageBase64: string,
    imageMime: string,
    toolCalls: seq<ToolCall>,
    toolCallId: string,
    toolName: string,
    isToolError: bool)

  function Plain(role: Role, content: string): Message {
    Message(role, content, "", "", [], "", "", false)
  }

  function AssistantTurn(text: string, calls: seq<ToolCall>): Message {
    Plain(Assistant, text).(toolCalls := calls)
  }

  function ToolResultMessage(call: ToolCall, result: ToolResult): Message {
    Plain(Tool, result.content).(toolCallId := call.id, toolName := call.name, isToolError := result.isError)
  }

  // ---- Rounds ----

  /** One turn of the model that asks for tools, and what they returned. */
  datatype Round = Round(text: string, calls: seq<ToolCall>, results: seq<ToolResult>)

  /** Every call has its result, and there is at least one call. */
  predicate Complete(r: Round) {
    r.calls != [] && |r.results| == |r.calls|
  }

  function ResultMessages(calls: seq<ToolCall>, results: seq<ToolResult>): seq<Message>
    requires |results| <= |calls|
  {
    seq(|results|, i requires 0 <= i < |results| => ToolResultMessage(calls[i], results[i]))
  }

  function RoundMessages(r: Round): seq<Message>
    requires Complete(r)
  {
    [AssistantTurn(r.text, r.calls)] + ResultMessages(r.calls, r.results)
  }

  predicate AllComplete(rounds: seq<Round>) {
    forall i | 0 <= i < |rounds| :: Complete(rounds[i])
  }

  /** The working list after some rounds. */
  function Working(initial: seq<Message>, rounds: seq<Round>): seq<Message>
    requires AllComplete(rounds)
  {
    if rounds == [] then initial
    else Working(initial, rounds[..|rounds| - 1]) + RoundMessages(rounds[|rounds| - 1])
  }

  lemma {:induction false} WorkingPush(initial: seq<Message>, rounds: seq<Round>, r: Round)
    requires AllComplete(rounds) && Complete(r)
    ensures AllComplete(rounds + [r]) && Working(initial, rounds + [r]) == Working(initial, rounds) + RoundMessages(r)
  {
    assert (rounds + [r])[..|rounds|] == rounds;
  }

  // ---- Well-formedness, told from the messages alone ----

  /** `m` answers `call`. */
  predicate Answers(m: Message, call: ToolCall) {
    m.role == Tool && m.toolCallId == call.id && m.toolName == call.name
  }

  predicate AnswersAll(ms: seq<Message>, calls: seq<ToolCall>) {
    |ms| == |calls| && forall i | 0 <= i < |ms| :: Answers(ms[i], calls[i])
  }

  /** A list of rounds: an assistant turn with one or more calls, then exactly
      one answer to each call, in order, and so on to the end. */
  predicate WellFormed(ms: seq<Message>)
    decreases |ms|
  {
    ms == [] ||
    (var n := |ms[0].toolCalls|;
     && ms[0].role == Assistant && 0 < n < |ms|
     && AnswersAll(ms[1..n + 1], ms[0].toolCalls)
     && WellFormed(ms[n + 1..]))
  }

  lemma {:induction false} SlicesOfConcat<T>(a: seq<T>, b: seq<T>, n: nat)
    requires n <= |a|
    ensures (a + b)[n..] == a[n..] + b && (a + b)[..n] == a[..n] && (n > 0 ==> (a + b)[1..n] == a[1..n])
  {
  }

  lemma {:induction false} WellFormedConcat(a: seq<Message>, b: seq<Message>)
    requires WellFormed(a) && WellFormed(b)
    ensures WellFormed(a + b)
    decreases |a|
  {
    hide AnswersAll;
    if a == [] {
      assert a + b == b;
    } else {
      var n := |a[0].toolCalls|;
      WellFormedConcat(a[n + 1..], b);
      SlicesOfConcat(a, b, n + 1);
    }
  }

  lemma {:induction false} RoundWellFormed(r: Round)
    requires Complete(r)
    ensures WellFormed(RoundMessages(r))
  {
    var ms := RoundMessages(r);
    assert ms[|r.calls| + 1..] == [];
    assert ms[1..|r.calls| + 1] == ResultMessages(r.calls, r.results);
  }

  lemma {:induction false} RoundKeepsWellFormed(w: seq<Message>, n: nat, r: Round)
    requires n <= |w| && WellFormed(w[n..]) && Complete(r)
    ensures var v := w + RoundMessages(r); v[..n] == w[..n] && WellFormed(v[n..])
  {
    RoundWellFormed(r);
    hide *;
    WellFormedConcat(w[n..], RoundMessages(r));
    SlicesOfConcat(w, RoundMessages(r), n);
  }

  /** The working list is the initial list followed by well-formed rounds. */
  lemma {:induction false} WorkingWellFormed(initial: seq<Message>, rounds: seq<Round>)
    requires AllComplete(rounds)
    ensures var w := Working(initial, rounds);
      |initial| <= |w| && w[..|initial|] == initial && WellFormed(w[|initial|..])
    decreases |rounds|
  {
    if rounds != [] {
      WorkingWellFormed(initial, rounds[..|rounds| - 1]);
      hide WellFormed, RoundMessages;
      RoundKeepsWellFormed(Working(initial, rounds[..|rounds| - 1]), |initial|, rounds[|rounds| - 1]);
    }
  }

  // ---- Flattening for the final, structured call ----

  const REQUESTED: string := "(requested tools)"

  function ToolPrefix(name: string): string { "[tool " + name + " result] " }

  function Flat(m: Message): Message {
    if m.role == Tool then Plain(User, ToolPrefix(m.toolName) + m.content)
    else if m.role == Assistant && m.toolCalls != [] then
      Plain(Assistant, if m.content == "" then REQUESTED else m.content)
    else m
  }

  function Flattened(ms: seq<Message>): seq<Message> {
    seq(|ms|, i requires 0 <= i < |ms| => Flat(ms[i]))
  }

  method FlattenForStructured(working: seq<Message>) returns (flat: seq<Message>)
    ensures flat == Flattened(working)
  {
    hide Flat;
    flat := [];
    for i := 0 to |working|
      invariant flat == Flattened(working)[..i]
    {
      var m := FlattenOne(working[i]);
      flat := flat + [m];
    }
  }

  method FlattenOne(m: Message) returns (f: Message)
    ensures f == Flat(m)
  {
    if m.role == Tool {
      f := Plain(User, "[tool " + m.toolName + " result] " + m.content);
    } else if m.role == Assistant && m.toolCalls != [] {
      f := Plain(Assistant, if m.content == "" then REQUESTED else m.content);
    } else {
      f := m;
    }
  }

  /** Free of the tool protocol: no tool message, and no assistant turn with calls. */
  predicate Protocolless(ms: seq<Message>) {
    forall i | 0 <= i < |ms| :: ms[i].role != Tool && (ms[i].role == Assistant ==> ms[i].toolCalls == [])
  }

  predicate EndsWith(s: string, suffix: string) {
    |suffix| <= |s| && s[|s| - |suffix|..] == suffix
  }

  /** Flattening keeps length, order and every text, leaves nothing of the tool
      protocol, and leaves lists without it alone. */
  lemma {:induction false} FlatteningKeeps(ms: seq<Message>)
    ensures |Flattened(ms)| == |ms| && Protocolless(Flattened(ms))
    ensures forall i | 0 <= i < |ms| ::
              && (ms[i].content != "" || ms[i].role == Tool ==> EndsWith(Flattened(ms)[i].content, ms[i].content))
              && (ms[i].role != Tool ==> Flattened(ms)[i].role == ms[i].role)
    ensures Protocolless(ms) <==> Flattened(ms) == ms
  {
    hide ToolPrefix, REQUESTED;
    if Flattened(ms) == ms {
      forall i | 0 <= i < |ms| ensures ms[i].role != Tool && (ms[i].role == Assistant ==> ms[i].toolCalls == []) {
        assert Flattened(ms)[i] == Flat(ms[i]);
      }
    }
  }
}
