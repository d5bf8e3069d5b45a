/** What the LLM client talks to. Each class stands for every possible party of
    its kind: results are left open, and a ghost log keeps what was asked and
    answered. */
module LlmOutside {
  import opened Core
  import opened HttpTypes
  import opened Transcript

  /** One request sent, and how it ended. */
  datatype Attempt = Attempt(request: HttpRequest, status: Status, response: HttpResponse)

  /** One request built from a message list. */
  datatype Built = Built(messages: seq<Message>, status: Status, request: HttpRequest)

  /** One response read: a text, the tool calls it asks for, and its tokens. */
  datatype Reading = Reading(response: HttpResponse, status: Status, text: string, calls: seq<ToolCall>, input: Uint32,
                             output: Uint32)

  /** One tool run. */
  datatype ToolUse = ToolUse(name: string, arguments: string, outcome: Result<ToolResult>)

  /** The HTTP client over its connection. It never reports a spent budget. */
  class Transport {
    ghost var sent: seq<Attempt>

    method Send(req: HttpRequest) returns (status: Status, resp: HttpResponse)
      modifies this
      ensures sent == old(sent) + [Attempt(req, status, resp)] && status != Fail(BudgetExceeded)
    {
      status, resp := *, *;
      if status == Fail(BudgetExceeded) { status := Ok; }
      sent := sent + [Attempt(req, status, resp)];
    }
  }

  /** The sleep between retries. */
  class Delay {
    ghost var waits: seq<nat>

    method Wait(ms: Uint32)
      modifies this
      ensures waits == old(waits) + [ms]
    {
      waits := waits + [ms];
    }
  }

  class Provider {
    const supportsTools: bool
    ghost var toolRequests: seq<Built>
    ghost var finalRequests: seq<Built>
    ghost var readings: seq<Reading>

    method BuildToolRequest(messages: seq<Message>) returns (status: Status, req: HttpRequest)
      modifies this`toolRequests
      ensures toolRequests == old(toolRequests) + [Built(messages, status, req)]
    {
      status, req := *, *;
      toolRequests := toolRequests + [Built(messages, status, req)];
    }

    method BuildStructuredRequest(messages: seq<Message>) returns (status: Status, req: HttpRequest)
      modifies this`finalRequests
      ensures finalRequests == old(finalRequests) + [Built(messages, status, req)]
    {
      status, req := *, *;
      finalRequests := finalRequests + [Built(messages, status, req)];
    }

    /** Reads a response, be it a tool turn or structured output. */
    method Parse(resp: HttpResponse) returns (reading: Reading)
      modifies this`readings
      ensures readings == old(readings) + [reading] && reading.response == resp
    {
      reading := *;
      reading := reading.(response := resp);
      readings := readings + [reading];
    }
  }

  class ToolRegistry {
    ghost var dispatched: seq<ToolUse>

    method Dispatch(name: string, arguments: string) returns (outcome: Result<ToolResult>)
      modifies this
      ensures dispatched == old(dispatched) + [ToolUse(name, arguments, outcome)]
    {
      outcome := *;
      dispatched := dispatched + [ToolUse(name, arguments, outcome)];
    }
  }

  // ---- Sums over the logs ----

  function Sum(ns: seq<nat>): nat { if ns == [] then 0 else Sum(ns[..|ns| - 1]) + ns[|ns| - 1] }

  /** The tokens of the responses that could be read. */
  function InputTokens(rs: seq<Reading>): nat {
    if rs == [] then 0
    else InputTokens(rs[..|rs| - 1]) + (if rs[|rs| - 1].status == Ok then rs[|rs| - 1].input else 0)
  }

  function OutputTokens(rs: seq<Reading>): nat {
    if rs == [] then 0
    else OutputTokens(rs[..|rs| - 1]) + (if rs[|rs| - 1].status == Ok then rs[|rs| - 1].output else 0)
  }

  lemma {:induction false} TokensOfPush(rs: seq<Reading>, r: Reading)
    ensures InputTokens(rs + [r]) == InputTokens(rs) + (if r.status == Ok then r.input else 0)
    ensures OutputTokens(rs + [r]) == OutputTokens(rs) + (if r.status == Ok then r.output else 0)
  {
    assert (rs + [r])[..|rs|] == rs;
  }
}
