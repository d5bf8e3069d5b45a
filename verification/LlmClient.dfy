/** The LLM client: retried requests, structured generation, and the agent loop. */
module LlmClientModel {
  import opened Core
  import opened HttpTypes
  import opened Backoff
  import opened Transcript
  import opened UsageMeterModel
  import opened LlmOutside
  import opened LlmRetry

  /** How far the client's counters are ahead of what went on outside. Equal
      books before and after say that everything was counted exactly once. */
  datatype Books = Books(
    requests: int, retries: int, inputTokens: int, outputTokens: int,
    meteredRequests: int, meteredInput: int, meteredOutput: int)

  function Last<T>(s: seq<T>): T
    requires s != []
  {
    s[|s| - 1]
  }

  /** All these requests ask with `messages`. */
  ghost predicate AllAsk(builts: seq<Built>, messages: seq<Message>) {
    forall i | 0 <= i < |builts| :: builts[i].messages == messages
  }

  lemma {:induction false} NoneAsks(messages: seq<Message>)
    ensures AllAsk([], messages)
  {
  }

  lemma {:induction false} OneMoreAsks(builts: seq<Built>, b: Built, messages: seq<Message>)
    requires AllAsk(builts, messages) && b.messages == messages
    ensures AllAsk(builts + [b], messages)
  {
  }

  // ---- Rounds of tool use ----

  function ErrorString(e: Error): string {
    match e
    case InvalidArgument => "invalid argument"
    case InvalidState => "invalid state"
    case NotImplemented => "not implemented"
    case Timeout => "timeout"
    case NotFound => "not found"
    case Capacity => "capacity exceeded"
    case ConnectFailed => "connect failed"
    case DnsFailed => "dns resolution failed"
    case TlsHandshakeFailed => "tls handshake failed"
    case CertVerifyFailed => "certificate verification failed"
    case WriteFailed => "socket write failed"
    case ReadFailed => "socket read failed"
    case ConnectionClosed => "connection closed"
    case HttpMalformed => "malformed http response"
    case HttpBodyTooLarge => "http body too large"
    case SchemaValidationFailed => "schema validation failed"
    case Unauthorized => "unauthorized"
    case Forbidden => "forbidden"
    case SecretNotFound => "secret not found"
    case ProviderError => "provider error"
    case RateLimited => "rate limited"
    case ToolIterationLimit => "tool iteration limit reached"
    case BudgetExceeded => "usage budget exceeded"
    case JsonParseError => "json parse error"
  }

  function FailureText(name: string, e: Error): string { "tool '" + name + "' failed: " + ErrorString(e) }

  /** The call was run with its own name and arguments, and `result` is what
      came of it: a tool that cannot be run gives an error result. */
  predicate CallRan(call: ToolCall, result: ToolResult, use: ToolUse) {
    && use.name == call.name && use.arguments == call.arguments
    && result == match use.outcome
                 case Success(tr) => tr
                 case Failure(e) => ToolResult(FailureText(call.name, e), true)
  }

  /** The round a reading led to: each of its calls ran once, in order. */
  predicate RoundRan(r: Round, reading: Reading, uses: seq<ToolUse>) {
    && Complete(r) && r.text == reading.text && r.calls == reading.calls && |uses| == |r.calls|
    && forall k | 0 <= k < |uses| :: CallRan(r.calls[k], r.results[k], uses[k])
  }

  /** What the model gets to see of a tool use: what the tool returned, or why
      it could not be run, marked as an error. */
  ghost predicate ShowsOutcome(m: Message, call: ToolCall, use: ToolUse) {
    && use.name == call.name && use.arguments == call.arguments
    && match use.outcome
       case Success(tr) => m == Message(Tool, tr.content, "", "", [], call.id, call.name, tr.isError)
       case Failure(e) =>
         m == Message(Tool, "tool '" + call.name + "' failed: " + ErrorString(e), "", "", [], call.id, call.name, true)
  }

  /** The messages of one round: the turn as it was read, with its text and its
      calls, and then the outcome of every call, in order. */
  ghost predicate TellsRound(ms: seq<Message>, reading: Reading, uses: seq<ToolUse>) {
    && |ms| == |uses| + 1 == |reading.calls| + 1
    && ms[0] == Message(Assistant, reading.text, "", "", reading.calls, "", "", false)
    && forall k | 0 <= k < |uses| :: ShowsOutcome(ms[k + 1], reading.calls[k], uses[k])
  }

  lemma {:induction false} OutcomeShown(call: ToolCall, result: ToolResult, use: ToolUse)
    requires CallRan(call, result, use)
    ensures ShowsOutcome(ToolResultMessage(call, result), call, use)
  {
  }

  lemma {:induction false} RoundTold(r: Round, reading: Reading, uses: seq<ToolUse>)
    requires RoundRan(r, reading, uses)
    ensures TellsRound(RoundMessages(r), reading, uses)
  {
    var ms := RoundMessages(r);
    hide ShowsOutcome, CallRan;
    forall k | 0 <= k < |uses| ensures ShowsOutcome(ms[k + 1], reading.calls[k], uses[k]) {
      OutcomeShown(r.calls[k], r.results[k], uses[k]);
    }
  }

  /** The rounds of a run, with the readings that asked for them. */
  datatype Rounds = Rounds(rounds: seq<Round>, readings: seq<Reading>, uses: seq<seq<ToolUse>>) {
    predicate Ran() {
      && AllComplete(rounds) && |readings| == |uses| == |rounds|
      && forall i | 0 <= i < |rounds| :: readings[i].status == Ok && RoundRan(rounds[i], readings[i], uses[i])
    }

    /** The working list after these rounds. */
    function After(messages: seq<Message>): seq<Message>
      requires Ran()
    {
      Working(messages, rounds)
    }

    function Push(r: Round, reading: Reading, u: seq<ToolUse>): Rounds {
      Rounds(rounds + [r], readings + [reading], uses + [u])
    }
  }

  function AllUses(uses: seq<seq<ToolUse>>): seq<ToolUse> {
    if uses == [] then [] else AllUses(uses[..|uses| - 1]) + Last(uses)
  }

  /** Request number `i` was built from the initial messages and `i` rounds; at
      most one more was built than there are rounds. */
  ghost predicate AskedInTurn(builts: seq<Built>, messages: seq<Message>, rounds: seq<Round>) {
    && AllComplete(rounds) && |rounds| <= |builts| <= |rounds| + 1
    && forall i | 0 <= i < |builts| :: builts[i].messages == Working(messages, rounds[..i])
  }

  lemma {:induction false} NoRounds(messages: seq<Message>)
    ensures Rounds([], [], []).Ran() && AllUses([]) == [] && Rounds([], [], []).After(messages) == messages
    ensures AskedInTurn([], messages, [])
  {
  }

  lemma {:induction false} AskedOnce(builts: seq<Built>, b: Built, messages: seq<Message>, log: Rounds)
    requires log.Ran() && AskedInTurn(builts, messages, log.rounds) && |builts| == |log.rounds|
    requires b.messages == log.After(messages)
    ensures AskedInTurn(builts + [b], messages, log.rounds)
  {
    assert log.rounds[..|log.rounds|] == log.rounds;
  }

  lemma {:induction false} RoundAdded(builts: seq<Built>, messages: seq<Message>, log: Rounds,
                                      round: Round, reading: Reading, uses: seq<ToolUse>)
    requires log.Ran() && AskedInTurn(builts, messages, log.rounds) && |builts| == |log.rounds| + 1
    requires reading.status == Ok && RoundRan(round, reading, uses)
    ensures var more := log.Push(round, reading, uses);
      && more.Ran() && AskedInTurn(builts, messages, more.rounds)
      && more.After(messages) == log.After(messages) + RoundMessages(round)
      && AllUses(more.uses) == AllUses(log.uses) + uses
  {
    hide RoundMessages;
    WorkingPush(messages, log.rounds, round);
    assert (log.uses + [uses])[..|log.uses|] == log.uses;
    forall i | 0 <= i <= |log.rounds| ensures (log.rounds + [round])[..i] == log.rounds[..i] {
    }
  }

  lemma {:induction false} ResultsPush(calls: seq<ToolCall>, results: seq<ToolResult>, result: ToolResult)
    requires |results| < |calls|
    ensures ResultMessages(calls, results + [result]) ==
            ResultMessages(calls, results) + [ToolResultMessage(calls[|results|], result)]
  {
  }

  class LlmClient {
    const transport: Transport
    const delay: Delay
    const provider: Provider
    const meter: UsageMeter?
    const policy: RetryPolicy
    const structuredRetries: Uint8
    const maxIterations: Uint8
    var metrics: Metrics
    var jitterState: Uint32

    constructor (transport: Transport, delay: Delay, provider: Provider, meter: UsageMeter?,
                 policy: RetryPolicy, structuredRetries: Uint8, maxIterations: Uint8)
      ensures this.transport == transport && this.delay == delay && this.provider == provider && this.meter == meter
      ensures this.policy == policy
      ensures this.structuredRetries == structuredRetries && this.maxIterations == maxIterations
      ensures metrics == Metrics(0, 0, 0, 0, 0, 0, 0)
    {
      this.transport, this.delay, this.provider, this.meter := transport, delay, provider, meter;
      this.policy, this.structuredRetries, this.maxIterations := policy, structuredRetries, maxIterations;
      metrics, jitterState := Metrics(0, 0, 0, 0, 0, 0, 0), 0x6d2b79f5;
    }

    ghost function Metered(): set<object> { if meter == null then {} else {meter} }

    ghost function Balance(): Books
      reads this, transport, delay, provider, Metered()
    {
      var sent, input, output := |transport.sent|, InputTokens(provider.readings), OutputTokens(provider.readings);
      Books(metrics.requests - sent, metrics.retries - |delay.waits|, metrics.inputTokens - input,
            metrics.outputTokens - output,
            if meter == null then 0 else meter.requests - sent,
            if meter == null then 0 else meter.inputTokens - input,
            if meter == null then 0 else meter.outputTokens - output)
    }

    /** The caps of the meter, if there is one, are kept. */
    ghost predicate Within()
      reads Metered()
    {
      meter != null ==> WithinCaps(meter.caps, meter.Used(), meter.last)
    }

    ghost predicate BudgetSpent()
      reads Metered()
    {
      meter != null && !Allowed(meter.caps, meter.Used())
    }

    ghost predicate TokensLeft()
      reads Metered()
    {
      meter != null && meter.caps.tokens != 0 ==> meter.inputTokens + meter.outputTokens < meter.caps.tokens
    }

    // ---- Retries ----

    method BackoffFor(attempt: Uint8, resp: HttpResponse, haveResponse: bool) returns (ms: Uint32)
      modifies this`jitterState
      ensures (ms, jitterState) ==
                BackoffStep(policy, attempt, if haveResponse then FindHeader(resp.headers, RETRY_AFTER) else None,
                            old(jitterState))
    {
      hide RetryAfterMs, FindHeader, RETRY_AFTER, Doubled, Spread, NextJitter;
      if haveResponse && policy.respectRetryAfter {
        var ra := FindHeader(resp.headers, RETRY_AFTER);
        if ra.Some? {
          var directed := ParseRetryAfterMs(ra.value);
          if directed > 0 { return if directed < policy.maxBackoffMs then directed else policy.maxBackoffMs; }
        }
      }
      var backoff := Exponential(attempt);
      if policy.jitter && backoff > 1 {
        backoff := Jitter(backoff);
      }
      ms := backoff;
    }

    method Jitter(backoff: Uint32) returns (ms: Uint32)
      modifies this`jitterState
      ensures jitterState == NextJitter(old(jitterState)) && ms == Spread(backoff, jitterState)
    {
      jitterState := (jitterState * MULTIPLIER + INCREMENT) % TWO_32;
      var half := backoff / 2;
      ms := half + jitterState % (backoff - half + 1);
    }

    /** The doubling loop and its ceiling. */
    method Exponential(attempt: Uint8) returns (backoff: Uint32)
      ensures backoff == Ceiling(policy, attempt)
    {
      backoff := policy.initialBackoffMs;
      var i: Uint8 := 0;
      while i < attempt && backoff < policy.maxBackoffMs
        invariant i <= attempt
        invariant Doubled(backoff, policy.maxBackoffMs, attempt - i) ==
                  Doubled(policy.initialBackoffMs, policy.maxBackoffMs, attempt)
      {
        backoff := backoff * 2 % TWO_32;
        i := i + 1;
      }
      if backoff > policy.maxBackoffMs { backoff := policy.maxBackoffMs; }
    }

    /** Sends unless the budget is spent, and counts it. */
    method SendOnce(req: HttpRequest) returns (denied: bool, status: Status, resp: HttpResponse)
      modifies this`metrics, transport, Metered()
      ensures denied ==> BudgetSpent() && unchanged(this, transport, Metered())
      ensures !denied ==>
                && transport.sent == old(transport.sent) + [Attempt(req, status, resp)]
                && status != Fail(BudgetExceeded)
                && metrics == old(metrics).(requests := old(metrics.requests) + 1)
                && (meter != null ==>
                      && old(Allowed(meter.caps, meter.Used())) && meter.last == old(meter.last)
                      && meter.Used() == old(meter.Used()).(requests := old(meter.Used()).requests + 1))
                && TokensLeft()
      ensures old(Within()) ==> Within()
    {
      if meter != null {
        var allowed := meter.AllowRequest();
        if !allowed { return true, Fail(BudgetExceeded), EMPTY_RESPONSE; }
      }
      status, resp := transport.Send(req);
      if meter != null { meter.RecordRequest(); }
      metrics := metrics.(requests := metrics.requests + 1);
      denied := false;
    }

    method SendWithRetry(req: HttpRequest) returns (r: Status, resp: HttpResponse, ghost run: Run)
      modifies this, transport, delay, Metered()
      ensures run.Follows(policy, req) && run.Returns(r, resp) && run.denied == (r == Fail(BudgetExceeded))
      ensures transport.sent == old(transport.sent) + run.sent && delay.waits == old(delay.waits) + run.waits
      ensures metrics == Tally(old(metrics), run)
      ensures meter != null ==>
                && meter.Used() == old(meter.Used()).(requests := old(meter.Used()).requests + |run.sent|)
                && meter.last == old(meter.last)
      ensures old(Within()) ==> Within()
      ensures if run.denied then BudgetSpent() else TokensLeft()
    {
      hide AllRetried, Retryable, WaitOk, RetryAfter, Run.Follows, Within, TokensLeft, BudgetSpent, Allowed,
           UsageMeter.Used, IsSuccess;
      ghost var sent: seq<Attempt>, waits: seq<nat> := [], [];
      var attempt: Uint8 := 0;
      assert AllRetried(policy, req, sent, waits) by { NoneRetried(policy, req); }
      while true
        invariant |sent| == |waits| == attempt <= policy.maxRetries && AllRetried(policy, req, sent, waits)
        invariant transport.sent == old(transport.sent) + sent && delay.waits == old(delay.waits) + waits
        invariant metrics == old(metrics).(requests := old(metrics.requests) + attempt,
                                           retries := old(metrics.retries) + attempt)
        invariant meter != null ==>
                    && meter.Used() == old(meter.Used()).(requests := old(meter.Used()).requests + attempt)
                    && meter.last == old(meter.last)
        invariant old(Within()) ==> Within()
        decreases policy.maxRetries - attempt
      {
        var denied, status, response := SendOnce(req);
        if denied {
          EndsDenied(policy, req, sent, waits);
          run := Run(sent, waits, true);
          return Fail(BudgetExceeded), response, run;
        }
        ghost var a := Attempt(req, status, response);
        var retryable := Classify(status, response, a);
        if !retryable || attempt >= policy.maxRetries {
          CountError(status, response);
          EndsFinal(policy, req, sent, waits, a);
          run := Run(sent + [a], waits, false);
          return status, response, run;
        }
        metrics := metrics.(retries := metrics.retries + 1);
        var ms := WaitFor(attempt, response, status, a);
        RetriedOnce(policy, req, sent, waits, a, ms);
        sent, waits := sent + [a], waits + [ms];
        attempt := attempt + 1;
      }
    }

    /** A final attempt that is not a success counts as one error. */
    method CountError(status: Status, resp: HttpResponse)
      modifies this`metrics
      ensures metrics == match status
                         case Fail(_) => old(metrics).(transportErrors := old(metrics.transportErrors) + 1)
                         case Ok => if IsSuccess(resp.status) then old(metrics)
                                    else old(metrics).(httpErrors := old(metrics.httpErrors) + 1)
    {
      if status.Fail? {
        metrics := metrics.(transportErrors := metrics.transportErrors + 1);
      } else if !IsSuccess(resp.status) {
        metrics := metrics.(httpErrors := metrics.httpErrors + 1);
      }
    }

    method Classify(status: Status, resp: HttpResponse, ghost a: Attempt) returns (retryable: bool)
      requires a.status == status && a.response == resp
      ensures retryable == Retryable(a)
    {
      if status.Fail? {
        retryable := IsTransient(status.error);
      } else {
        retryable := IsRetryableStatus(resp.status);
      }
    }

    method WaitFor(attempt: Uint8, resp: HttpResponse, status: Status, ghost a: Attempt) returns (ms: Uint32)
      requires a.status == status && a.response == resp
      modifies this`jitterState, delay
      ensures WaitOk(policy, attempt, RetryAfter(a), ms)
      ensures delay.waits == old(delay.waits) + [ms]
    {
      hide FindHeader, RETRY_AFTER, Directed, Ceiling;
      ghost var state := jitterState;
      ms := BackoffFor(attempt, resp, status == Ok);
      assert BackoffStep(policy, attempt, RetryAfter(a), state).0 == ms;
      WaitsExactly(policy, attempt, RetryAfter(a), ms);
      delay.Wait(ms);
    }

    // ---- One request and its response ----

    /** Why a request gave no response to read: the budget is spent, or an
        attempt made after the first `before` ones failed for good. */
    ghost predicate NoResponse(e: Error, before: nat)
      reads transport, Metered()
    {
      || (e == BudgetExceeded && BudgetSpent())
      || (|transport.sent| > before && Last(transport.sent).status == Fail(e))
      || (|transport.sent| > before && Last(transport.sent).status == Ok
          && !IsSuccess(Last(transport.sent).response.status) && e == MapStatus(Last(transport.sent).response.status))
    }

    lemma {:induction false} NoResponseSince(e: Error, before: nat, earlier: nat)
      requires NoResponse(e, before) && earlier <= before
      ensures NoResponse(e, earlier)
    {
    }

    /** The last attempt was answered with `resp`, a success. */
    ghost predicate Answered(resp: HttpResponse)
      reads transport
    {
      && transport.sent != [] && IsSuccess(resp.status)
      && Last(transport.sent).status == Ok && Last(transport.sent).response == resp
    }

    /** Only a success is handed on; other statuses become errors. */
    method Fetch(req: HttpRequest) returns (r: Result<HttpResponse>, ghost run: Run)
      modifies this, transport, delay, Metered()
      ensures run.Follows(policy, req) && (run.denied ==> r == Failure(BudgetExceeded))
      ensures transport.sent == old(transport.sent) + run.sent && delay.waits == old(delay.waits) + run.waits
      ensures r.Success? ==> Answered(r.value) && TokensLeft() && |old(transport.sent)| < |transport.sent|
      ensures r.Success? <==> !run.denied && Last(run.sent).status == Ok && 200 <= Last(run.sent).response.status < 300
      ensures r.Failure? ==> NoResponse(r.error, |old(transport.sent)|)
      ensures old(transport.sent) <= transport.sent && |transport.sent| <= |old(transport.sent)| + policy.maxRetries + 1
      ensures metrics.schemaRetries == old(metrics.schemaRetries)
      ensures Balance() == old(Balance()) && (old(Within()) ==> Within())
    {
      var status, resp;
      status, resp, run := SendWithRetry(req);
      hide Retryable, WaitOk, MapStatus;
      if status.Fail? { return Failure(status.error), run; }
      if !IsSuccess(resp.status) { return Failure(MapStatus(resp.status)), run; }
      r := Success(resp);
    }

    /** Adds up the tokens of a response that could be read. */
    method Account(reading: Reading)
      requires reading.status == Ok && TokensLeft()
      modifies this`metrics, Metered()
      ensures metrics == old(metrics).(inputTokens := old(metrics.inputTokens) + reading.input,
                                       outputTokens := old(metrics.outputTokens) + reading.output)
      ensures meter != null ==>
                meter.Used() == old(meter.Used()).(input := old(meter.inputTokens) + reading.input,
                                                   output := old(meter.outputTokens) + reading.output)
      ensures old(Within()) ==> Within()
    {
      metrics := metrics.(inputTokens := metrics.inputTokens + reading.input,
                          outputTokens := metrics.outputTokens + reading.output);
      if meter != null { meter.RecordTokens(reading.input, reading.output); }
    }

    /** Reads a response, and accounts for it if that succeeds. */
    method Read(resp: HttpResponse) returns (reading: Reading)
      requires TokensLeft()
      modifies this`metrics, provider`readings, Metered()
      ensures provider.readings == old(provider.readings) + [reading] && reading.response == resp
      ensures metrics.schemaRetries == old(metrics.schemaRetries)
      ensures Balance() == old(Balance()) && (old(Within()) ==> Within())
    {
      hide InputTokens, OutputTokens;
      reading := provider.Parse(resp);
      TokensOfPush(old(provider.readings), reading);
      if reading.status == Ok { Account(reading); }
    }

    // ---- Structured generation ----

    /** The response was read, but is not what was asked for. */
    ghost predicate Rejected(reading: Reading, accepts: string -> bool) {
      reading.status == Ok ==> !accepts(reading.text)
    }

    lemma {:induction false} JudgedFailure(r: Result<string>, reading: Reading, accepts: string -> bool)
      requires Judged(r, reading, accepts) && r.Failure?
      ensures Rejected(reading, accepts)
    {
    }

    /** What the last reading makes of an attempt: an accepted text, or why not. */
    ghost predicate Judged(r: Result<string>, reading: Reading, accepts: string -> bool) {
      match r
      case Success(json) => reading.status == Ok && reading.text == json && accepts(json)
      case Failure(e) =>
        && Rejected(reading, accepts)
        && e == if reading.status == Ok then SchemaValidationFailed else reading.status.error
    }

    /** How a generation may end: with reading number `count` accepted, or
        rejected when no retry is left; without a response, after the first
        `before` attempts; or with a request not built. */
    ghost predicate Concluded(r: Result<string>, accepts: string -> bool, exhausted: bool, count: nat, before: nat)
      reads transport, provider, Metered()
    {
      || (&& |provider.readings| == count > 0 && Answered(Last(provider.readings).response)
          && Judged(r, Last(provider.readings), accepts) && (r.Failure? ==> exhausted))
      || (r.Failure? && NoResponse(r.error, before))
      || (r.Failure? && provider.finalRequests != [] && Last(provider.finalRequests).status == Fail(r.error))
    }

    lemma {:induction false} ConcludedSince(r: Result<string>, accepts: string -> bool, exhausted: bool,
                                            count: nat, before: nat, earlier: nat)
      requires Concluded(r, accepts, exhausted, count, before) && earlier <= before
      ensures Concluded(r, accepts, exhausted, count, earlier)
    {
      if r.Failure? && NoResponse(r.error, before) { NoResponseSince(r.error, before, earlier); }
    }

    /** One attempt: no answer to read ends the generation with `stop`. */
    method TryOnce(messages: seq<Message>, accepts: string -> bool)
      returns (stop: Option<Error>, r: Result<string>, ghost b: Built, ghost run: Run)
      modifies this, transport, delay, provider`finalRequests, provider`readings, Metered()
      ensures provider.finalRequests == old(provider.finalRequests) + [b] && b.messages == messages
      ensures CarriedBy(policy, b, run) && (run.denied ==> stop == Some(BudgetExceeded))
      ensures transport.sent == old(transport.sent) + run.sent && delay.waits == old(delay.waits) + run.waits
      ensures stop.Some? ==>
                && provider.readings == old(provider.readings)
                && (NoResponse(stop.value, |old(transport.sent)|)
                    || Last(provider.finalRequests).status == Fail(stop.value))
      ensures stop.None? ==>
                && |provider.readings| == |old(provider.readings)| + 1 && old(provider.readings) <= provider.readings
                && |old(transport.sent)| < |transport.sent|
                && Answered(Last(provider.readings).response) && Judged(r, Last(provider.readings), accepts)
      ensures old(transport.sent) <= transport.sent && |transport.sent| <= |old(transport.sent)| + policy.maxRetries + 1
      ensures metrics.schemaRetries == old(metrics.schemaRetries)
      ensures Balance() == old(Balance()) && (old(Within()) ==> Within())
    {
      hide InputTokens, OutputTokens, IsSuccess, MapStatus, Run.Follows;
      r, run := Failure(SchemaValidationFailed), NOTHING_SENT;
      var built, req := provider.BuildStructuredRequest(messages);
      b := Built(messages, built, req);
      if built.Fail? { return Some(built.error), r, b, run; }
      var resp;
      resp, run := Fetch(req);
      if resp.Failure? { return Some(resp.error), r, b, run; }
      var reading := Read(resp.value);
      stop := None;
      if reading.status.Fail? {
        r := Failure(reading.status.error);
      } else if accepts(reading.text) {
        r := Success(reading.text);
      }
    }

    /** Asks for structured output until it is accepted, as long as retries are
        left. `n` is the number of requests built, `t` what went out for them. */
    method DoGenerate(messages: seq<Message>, accepts: string -> bool)
      returns (r: Result<string>, ghost n: nat, ghost t: Traffic)
      modifies this, transport, delay, provider`finalRequests, provider`readings, Metered()
      ensures 1 <= n <= structuredRetries + 1 && metrics.schemaRetries == old(metrics.schemaRetries) + n - 1
      ensures Concluded(r, accepts, n == structuredRetries + 1, |old(provider.readings)| + n, |old(transport.sent)|)
      // what was read before the last request was rejected
      ensures old(provider.readings) <= provider.readings
      ensures forall i | |old(provider.readings)| <= i < |provider.readings| && i < |old(provider.readings)| + n - 1 ::
                Rejected(provider.readings[i], accepts)
      ensures n - 1 <= |provider.readings| - |old(provider.readings)| <= n
      // each attempt carries the request just built
      ensures |t.builts| == n && AllAsk(t.builts, messages) && t.Carried(policy, r == Failure(BudgetExceeded))
      ensures provider.finalRequests == old(provider.finalRequests) + t.builts
      ensures transport.sent == old(transport.sent) + t.sent && delay.waits == old(delay.waits) + t.waits
      // each reading has a request of its own
      ensures |provider.readings| - |old(provider.readings)| <= |t.sent| <= MostAttempts(policy, n)
      ensures Balance() == old(Balance()) && (old(Within()) ==> Within())
    {
      hide Judged, Answered, NoResponse, AllAsk, Traffic.Carried, CarriedBy, MostAttempts, Balance, Within;
      NothingCarried(policy);
      assert AllAsk([], messages) by { NoneAsks(messages); }
      n, t := 0, Traffic([], [], []);
      var attempt: int := 0;
      var attempts := structuredRetries as int + 1;
      while true
        invariant attempt == n == |t.builts| < attempts && AllAsk(t.builts, messages)
        invariant metrics.schemaRetries == old(metrics.schemaRetries) + n
        invariant t.Carried(policy, false) && provider.finalRequests == old(provider.finalRequests) + t.builts
        invariant transport.sent == old(transport.sent) + t.sent && delay.waits == old(delay.waits) + t.waits
        invariant |provider.readings| == |old(provider.readings)| + n && old(provider.readings) <= provider.readings
        invariant forall i | |old(provider.readings)| <= i < |provider.readings| ::
                  Rejected(provider.readings[i], accepts)
        invariant n <= |t.sent|
        invariant Balance() == old(Balance()) && (old(Within()) ==> Within())
        decreases attempts - attempt
      {
        ghost var sent := |transport.sent|;
        var stop;
        ghost var b, run;
        stop, r, b, run := TryOnce(messages, accepts);
        CarriedMore(policy, t, b, run, stop == Some(BudgetExceeded));
        OneMoreAsks(t.builts, b, messages);
        n, t := n + 1, t.Push(b, run);
        TrafficBounded(policy, t, stop == Some(BudgetExceeded));
        if stop.Some? {
          if NoResponse(stop.value, sent) { NoResponseSince(stop.value, sent, |old(transport.sent)|); }
          return Failure(stop.value), n, t;
        }
        StoppedOrNot(policy, t, r == Failure(BudgetExceeded));
        if r.Success? { return r, n, t; }
        JudgedFailure(r, Last(provider.readings), accepts);
        attempt := attempt + 1;
        if attempt == attempts { return r, n, t; }
        CountSchemaRetry();
      }
    }

    method CountSchemaRetry()
      modifies this`metrics
      ensures metrics == old(metrics).(schemaRetries := old(metrics.schemaRetries) + 1)
      ensures Balance() == old(Balance()) && Within() == old(Within())
    {
      hide InputTokens, OutputTokens;
      metrics := metrics.(schemaRetries := metrics.schemaRetries + 1);
    }

    // ---- The agent loop ----

    /** Why a round could not be completed: no response, a request not built, or
        a response that could not be read. */
    ghost predicate NoTurn(e: Error, before: nat, count: nat)
      reads transport, provider, Metered()
    {
      || NoResponse(e, before)
      || (provider.toolRequests != [] && Last(provider.toolRequests).status == Fail(e))
      || (|provider.readings| == count + 1 && Last(provider.readings).status == Fail(e)
          && Answered(Last(provider.readings).response))
    }

    lemma {:induction false} NoTurnSince(e: Error, before: nat, count: nat, earlier: nat)
      requires NoTurn(e, before, count) && earlier <= before
      ensures NoTurn(e, earlier, count)
    {
      if NoResponse(e, before) { NoResponseSince(e, before, earlier); }
    }

    /** The model asked for no more tools in reading number `count`. */
    ghost predicate Content(count: nat)
      reads provider
    {
      |provider.readings| == count > 0 && Last(provider.readings).status == Ok && Last(provider.readings).calls == []
    }

    /** One turn of the model. */
    method AskForTools(working: seq<Message>) returns (r: Result<Reading>, ghost b: Built, ghost run: Run)
      modifies this, transport, delay, provider`toolRequests, provider`readings, Metered()
      ensures provider.toolRequests == old(provider.toolRequests) + [b] && b.messages == working
      ensures CarriedBy(policy, b, run) && (run.denied ==> r == Failure(BudgetExceeded))
      ensures transport.sent == old(transport.sent) + run.sent && delay.waits == old(delay.waits) + run.waits
      ensures r.Success? ==>
                && provider.readings == old(provider.readings) + [r.value] && r.value.status == Ok
                && Answered(r.value.response) && |old(transport.sent)| < |transport.sent|
      ensures r.Failure? ==>
                && NoTurn(r.error, |old(transport.sent)|, |old(provider.readings)|)
                && old(provider.readings) <= provider.readings
      ensures old(transport.sent) <= transport.sent && |transport.sent| <= |old(transport.sent)| + policy.maxRetries + 1
      ensures metrics.schemaRetries == old(metrics.schemaRetries)
      ensures Balance() == old(Balance()) && (old(Within()) ==> Within())
    {
      hide InputTokens, OutputTokens, IsSuccess, MapStatus, NoResponse, Run.Follows;
      run := NOTHING_SENT;
      var built, req := provider.BuildToolRequest(working);
      b := Built(working, built, req);
      if built.Fail? { return Failure(built.error), b, run; }
      var resp;
      resp, run := Fetch(req);
      if resp.Failure? { return Failure(resp.error), b, run; }
      var reading := Read(resp.value);
      if reading.status.Fail? { return Failure(reading.status.error), b, run; }
      r := Success(reading);
    }

    /** Runs the tools a turn asks for, one by one. */
    method CallTools(tools: ToolRegistry, working: seq<Message>, reading: Reading)
      returns (longer: seq<Message>, ghost round: Round, ghost uses: seq<ToolUse>)
      requires reading.calls != []
      modifies tools
      ensures working <= longer && TellsRound(longer[|working|..], reading, uses)
      ensures RoundRan(round, reading, uses) && longer == working + RoundMessages(round)
      ensures tools.dispatched == old(tools.dispatched) + uses
    {
      hide FailureText, ShowsOutcome;
      ghost var results: seq<ToolResult> := [];
      var calls := reading.calls;
      longer := working + [AssistantTurn(reading.text, calls)];
      ghost var turn := longer;
      uses := [];
      for i := 0 to |calls|
        invariant |uses| == |results| == i && longer == turn + ResultMessages(calls, results)
        invariant forall k | 0 <= k < i :: CallRan(calls[k], results[k], uses[k])
        invariant tools.dispatched == old(tools.dispatched) + uses
      {
        var outcome := tools.Dispatch(calls[i].name, calls[i].arguments);
        var result := match outcome
          case Success(tr) => tr
          case Failure(e) => ToolResult(FailureText(calls[i].name, e), true);
        longer := longer + [ToolResultMessage(calls[i], result)];
        ResultsPush(calls, results, result);
        results, uses := results + [result], uses + [ToolUse(calls[i].name, calls[i].arguments, outcome)];
      }
      round := Round(reading.text, calls, results);
      RoundTold(round, reading, uses);
      assert longer[|working|..] == RoundMessages(round);
    }

    /** One round: a turn of the model, and the tools it asks for. */
    method OneRound(working: seq<Message>, tools: ToolRegistry)
      returns (status: Status, settled: bool, longer: seq<Message>, ghost round: Round, ghost reading: Reading,
               ghost uses: seq<ToolUse>, ghost b: Built, ghost run: Run)
      modifies this, transport, delay, provider`toolRequests, provider`readings, tools, Metered()
      ensures provider.toolRequests == old(provider.toolRequests) + [b] && b.messages == working
      ensures CarriedBy(policy, b, run) && (run.denied ==> status == Fail(BudgetExceeded))
      ensures transport.sent == old(transport.sent) + run.sent && delay.waits == old(delay.waits) + run.waits
      ensures status == Ok && !settled ==>
                && reading.status == Ok && RoundRan(round, reading, uses) && longer == working + RoundMessages(round)
                && provider.readings == old(provider.readings) + [reading]
                && tools.dispatched == old(tools.dispatched) + uses
      ensures status == Ok ==> |old(transport.sent)| < |transport.sent|
      ensures status.Fail? || settled ==>
                && longer == working && tools.dispatched == old(tools.dispatched)
                && old(provider.readings) <= provider.readings
      ensures status.Fail? ==> !settled && NoTurn(status.error, |old(transport.sent)|, |old(provider.readings)|)
      ensures settled ==> Content(|old(provider.readings)| + 1)
      ensures old(transport.sent) <= transport.sent && |transport.sent| <= |old(transport.sent)| + policy.maxRetries + 1
      ensures metrics.schemaRetries == old(metrics.schemaRetries)
      ensures Balance() == old(Balance()) && (old(Within()) ==> Within())
    {
      hide NoTurn, NoResponse, Answered, RoundRan, RoundMessages, TellsRound, CarriedBy, Balance, Within;
      longer, settled := working, false;
      round, reading, uses := Round("", [], []), Reading(EMPTY_RESPONSE, Ok, "", [], 0, 0), [];
      var turn;
      turn, b, run := AskForTools(working);
      if turn.Failure? { status := Fail(turn.error); return; }
      status, reading := Ok, turn.value;
      if turn.value.calls == [] {
        settled := true;
        return;
      }
      longer, round, uses := CallTools(tools, working, turn.value);
    }

    /** Rounds of tool use until the model asks for no more tools, a round
        fails, or no round is left. */
    method ToolRounds(messages: seq<Message>, tools: ToolRegistry)
      returns (status: Status, settled: bool, working: seq<Message>, ghost log: Rounds, ghost t: Traffic)
      modifies this, transport, delay, provider`toolRequests, provider`readings, tools, Metered()
      ensures log.Ran() && |log.rounds| <= maxIterations && working == log.After(messages)
      ensures AskedInTurn(t.builts, messages, log.rounds) && t.Carried(policy, status == Fail(BudgetExceeded))
      ensures provider.toolRequests == old(provider.toolRequests) + t.builts
      ensures transport.sent == old(transport.sent) + t.sent && delay.waits == old(delay.waits) + t.waits
      ensures |t.builts| <= maxIterations
      ensures old(provider.readings) + log.readings <= provider.readings
      ensures tools.dispatched == old(tools.dispatched) + AllUses(log.uses)
      ensures |t.builts| == |log.rounds| + (if status.Fail? || settled then 1 else 0)
      ensures match status
              case Fail(e) => !settled && NoTurn(e, |old(transport.sent)|, |old(provider.readings)| + |log.rounds|)
              case Ok =>
                if settled then Content(|old(provider.readings)| + |log.rounds| + 1)
                else |log.rounds| == maxIterations
      ensures |log.rounds| + (if settled then 1 else 0) <= |t.sent| <= MostAttempts(policy, maxIterations)
      ensures metrics.schemaRetries == old(metrics.schemaRetries)
      ensures Balance() == old(Balance()) && (old(Within()) ==> Within())
    {
      hide NoTurn, Content, RoundRan, AskedInTurn, Rounds.Ran, AllUses, Rounds.After, Within, Balance,
           Traffic.Carried, CarriedBy, MostAttempts, TellsRound, AllComplete;
      status, settled, working, log, t := Ok, false, messages, Rounds([], [], []), Traffic([], [], []);
      NothingCarried(policy);
      NoRounds(messages);
      var iter: Uint8 := 0;
      while iter < maxIterations && !settled
        invariant iter <= maxIterations && !settled && status == Ok && |log.rounds| == iter
        invariant log.Ran() && working == log.After(messages)
        invariant AskedInTurn(t.builts, messages, log.rounds) && |t.builts| == iter
        invariant t.Carried(policy, false) && provider.toolRequests == old(provider.toolRequests) + t.builts
        invariant transport.sent == old(transport.sent) + t.sent && delay.waits == old(delay.waits) + t.waits
        invariant provider.readings == old(provider.readings) + log.readings
        invariant |provider.readings| == |old(provider.readings)| + iter
        invariant tools.dispatched == old(tools.dispatched) + AllUses(log.uses)
        invariant iter <= |t.sent| <= MostAttempts(policy, maxIterations)
        invariant metrics.schemaRetries == old(metrics.schemaRetries)
        invariant Balance() == old(Balance()) && (old(Within()) ==> Within())
        decreases maxIterations - iter
      {
        ghost var sent := |transport.sent|;
        ghost var round, reading, uses, b, run;
        status, settled, working, round, reading, uses, b, run := OneRound(working, tools);
        CarriedMore(policy, t, b, run, status == Fail(BudgetExceeded));
        AskedOnce(t.builts, b, messages, log);
        t := t.Push(b, run);
        TrafficWithin(policy, t, status == Fail(BudgetExceeded), maxIterations);
        if status.Fail? { NoTurnSince(status.error, sent, |old(provider.readings)| + iter, |old(transport.sent)|); }
        if status.Fail? || settled { return; }
        RoundAdded(t.builts, messages, log, round, reading, uses);
        log := log.Push(round, reading, uses);
        iter := iter + 1;
      }
    }

    /** Reading number `i` asked for no more tools. */
    ghost predicate SettledAt(i: nat)
      reads provider
    {
      i < |provider.readings| && provider.readings[i].status == Ok && provider.readings[i].calls == []
    }

    /** The whole run: rounds of tool use, then structured output from the
        flattened transcript. */
    method RunImpl(messages: seq<Message>, accepts: string -> bool, tools: ToolRegistry)
      returns (r: Result<string>, ghost log: Rounds, ghost settled: bool, ghost n: nat, ghost asked: Traffic,
               ghost final: Traffic)
      modifies this, transport, delay, provider, tools, Metered()
      ensures log.Ran() && |log.rounds| <= maxIterations
      ensures !provider.supportsTools ==>
                r == Failure(NotImplemented) && unchanged(this, transport, delay, provider, tools, Metered())
      // the transcripts the model saw, and the tools that ran
      ensures provider.supportsTools ==>
                && AskedInTurn(asked.builts, messages, log.rounds) && |asked.builts| <= maxIterations
                && tools.dispatched == old(tools.dispatched) + AllUses(log.uses)
                && old(provider.readings) + log.readings <= provider.readings
      // the final answer: validated, and asked for with the flattened transcript
      ensures settled ==>
                && |asked.builts| == |log.rounds| + 1
                && SettledAt(|old(provider.readings)| + |log.rounds|)
                && 1 <= n <= structuredRetries + 1 && metrics.schemaRetries == old(metrics.schemaRetries) + n - 1
                && |final.builts| == n && AllAsk(final.builts, Flattened(log.After(messages)))
                && Concluded(r, accepts, n == structuredRetries + 1,
                             |old(provider.readings)| + |log.rounds| + 1 + n, |old(transport.sent)|)
      ensures !settled && provider.supportsTools ==>
                && final.builts == [] && r.Failure?
                && ((r.error == ToolIterationLimit && |log.rounds| == maxIterations)
                    || (NoTurn(r.error, |old(transport.sent)|, |old(provider.readings)| + |log.rounds|)
                        && |asked.builts| == |log.rounds| + 1))
      // what went out: first for the tool requests, then for the final ones
      ensures asked.Carried(policy, !settled && r == Failure(BudgetExceeded))
      ensures final.Carried(policy, r == Failure(BudgetExceeded))
      ensures provider.toolRequests == old(provider.toolRequests) + asked.builts
      ensures provider.finalRequests == old(provider.finalRequests) + final.builts
      ensures transport.sent == old(transport.sent) + asked.sent + final.sent
      ensures delay.waits == old(delay.waits) + asked.waits + final.waits
      // bounds and conservation
      ensures |asked.sent| + |final.sent| <= MostAttempts(policy, maxIterations + structuredRetries + 1)
      ensures Balance() == old(Balance()) && (old(Within()) ==> Within())
    {
      hide NoTurn, Concluded, AllAsk, AskedInTurn, Rounds.Ran, AllUses, Rounds.After, Flattened, Within, Balance,
           Traffic.Carried, MostAttempts, AllComplete, Answered, NoResponse, Judged, Run.Follows, CarriedBy, Allowed,
           IsSuccess, MapStatus, TellsRound;
      log, settled, n, asked, final := Rounds([], [], []), false, 0, Traffic([], [], []), Traffic([], [], []);
      NothingCarried(policy);
      StoppedOrNot(policy, asked, true);
      NoRounds(messages);
      if !provider.supportsTools { return Failure(NotImplemented), log, settled, n, asked, final; }
      var status, done, working;
      status, done, working, log, asked := ToolRounds(messages, tools);
      settled := done;
      MostAttemptsMore(policy, maxIterations, structuredRetries + 1);
      if status.Fail? { return Failure(status.error), log, settled, n, asked, final; }
      if !done { return Failure(ToolIterationLimit), log, settled, n, asked, final; }
      var flat := FlattenForStructured(working);
      ghost var sent, read := |transport.sent|, |provider.readings|;
      r, n, final := DoGenerate(flat, accepts);
      ConcludedSince(r, accepts, n == structuredRetries + 1, read + n, sent, |old(transport.sent)|);
      MostAttemptsMore(policy, n, structuredRetries + 1);
    }
  }
}
