/** The retry policy: which attempts are made, and what they add to the counters. */
module LlmRetry {
  import opened Core
  import opened HttpTypes
  import opened Backoff
  import opened LlmOutside

  const RETRY_AFTER: string := "Retry-After"

  /** Failures that may clear up; certificate and protocol failures do not. */
  predicate IsTransient(e: Error) {
    match e
    case ConnectFailed => true
    case DnsFailed => true
    case TlsHandshakeFailed => true
    case Timeout => true
    case ConnectionClosed => true
    case ReadFailed => true
    case WriteFailed => true
    case _ => false
  }

  predicate IsRetryableStatus(status: int) {
    status == 429 || status == 500 || status == 502 || status == 503 || status == 504
  }

  predicate IsSuccess(status: int) { 200 <= status < 300 }

  predicate Succeeded(a: Attempt) { a.status == Ok && IsSuccess(a.response.status) }

  predicate Retryable(a: Attempt) {
    match a.status
    case Fail(e) => IsTransient(e)
    case Ok => IsRetryableStatus(a.response.status)
  }

  /** The header counts only if there is a response. */
  function RetryAfter(a: Attempt): Option<string> {
    if a.status == Ok then FindHeader(a.response.headers, RETRY_AFTER) else None
  }

  /** One call of the retry loop: the attempts, and the waits between them.
      `denied` says that the budget ended it. */
  datatype Run = Run(sent: seq<Attempt>, waits: seq<nat>, denied: bool) {
    /** The attempts come to an end exactly at the first one not to be retried,
        at the last one allowed, or when the budget is spent. */
    ghost predicate Follows(p: RetryPolicy, req: HttpRequest) {
      && |waits| <= p.maxRetries
      && |sent| == |waits| + (if denied then 0 else 1)
      && (forall i | 0 <= i < |sent| :: sent[i].request == req)
      && (forall i | 0 <= i < |waits| :: Retryable(sent[i]) && WaitOk(p, i, RetryAfter(sent[i]), waits[i]))
      && (!denied ==> |sent| == p.maxRetries + 1 || !Retryable(sent[|sent| - 1]))
    }

    /** The result handed on. */
    predicate Returns(r: Status, resp: HttpResponse) {
      if denied || sent == [] then r == Fail(BudgetExceeded)
      else r == sent[|sent| - 1].status && resp == sent[|sent| - 1].response
    }
  }

  /** The attempts so far have all been retried. */
  ghost predicate AllRetried(p: RetryPolicy, req: HttpRequest, sent: seq<Attempt>, waits: seq<nat>) {
    && |sent| == |waits| <= p.maxRetries
    && forall i | 0 <= i < |sent| ::
         sent[i].request == req && Retryable(sent[i]) && WaitOk(p, i, RetryAfter(sent[i]), waits[i])
  }

  lemma {:induction false} NoneRetried(p: RetryPolicy, req: HttpRequest)
    ensures AllRetried(p, req, [], [])
  {
  }

  lemma {:induction false} RetriedOnce(p: RetryPolicy, req: HttpRequest, sent: seq<Attempt>, waits: seq<nat>,
                                       a: Attempt, w: nat)
    requires AllRetried(p, req, sent, waits) && |sent| < p.maxRetries
    requires a.request == req && Retryable(a) && WaitOk(p, |sent|, RetryAfter(a), w)
    ensures AllRetried(p, req, sent + [a], waits + [w])
  {
    hide Retryable, WaitOk;
  }

  lemma {:induction false} EndsDenied(p: RetryPolicy, req: HttpRequest, sent: seq<Attempt>, waits: seq<nat>)
    requires AllRetried(p, req, sent, waits)
    ensures Run(sent, waits, true).Follows(p, req)
  {
    hide Retryable, WaitOk;
  }

  lemma {:induction false} EndsFinal(p: RetryPolicy, req: HttpRequest, sent: seq<Attempt>, waits: seq<nat>, a: Attempt)
    requires AllRetried(p, req, sent, waits) && a.request == req && (|sent| == p.maxRetries || !Retryable(a))
    ensures Run(sent + [a], waits, false).Follows(p, req) && Run(sent + [a], waits, false).Returns(a.status, a.response)
  {
    hide Retryable, WaitOk;
  }

  datatype Metrics = Metrics(
    requests: nat,
    retries: nat,
    transportErrors: nat,
    httpErrors: nat,
    schemaRetries: nat,
    inputTokens: nat,
    outputTokens: nat)

  /** The counters after a run: the final attempt counts as one error at most. */
  function Tally(m: Metrics, run: Run): Metrics {
    var n := |run.sent|;
    var last := if run.denied || n == 0 then None else Some(run.sent[n - 1]);
    m.(requests := m.requests + n,
       retries := m.retries + |run.waits|,
       transportErrors := m.transportErrors + (if last.Some? && last.value.status.Fail? then 1 else 0),
       httpErrors := m.httpErrors +
         (if last.Some? && last.value.status == Ok && !IsSuccess(last.value.response.status) then 1 else 0))
  }

  /** The first attempt not to be retried. */
  function FirstFinal(sent: seq<Attempt>): nat {
    if sent == [] || !Retryable(sent[0]) then 0 else 1 + FirstFinal(sent[1..])
  }

  lemma {:induction false} FirstFinalAt(sent: seq<Attempt>, k: nat)
    requires k <= |sent| && forall i | 0 <= i < k :: Retryable(sent[i])
    requires k < |sent| ==> !Retryable(sent[k])
    ensures FirstFinal(sent) == k
    decreases k
  {
    hide Retryable;
    if k > 0 { FirstFinalAt(sent[1..], k - 1); }
  }

  /** How many requests are sent: as many as it takes to see one that is not to
      be retried, but at most one more than the retries allowed. */
  lemma {:induction false} AttemptsExactly(run: Run, p: RetryPolicy, req: HttpRequest)
    requires run.Follows(p, req) && !run.denied
    ensures |run.sent| == Min(FirstFinal(run.sent), p.maxRetries) + 1
  {
    hide Retryable, WaitOk;
    var n := |run.sent|;
    FirstFinalAt(run.sent, if Retryable(run.sent[n - 1]) then n else n - 1);
  }

  /** An attempt is retried exactly if a retry is left and it timed out, lost or
      never got its connection, or was answered with 429, 500, 502, 503 or 504;
      then it is waited for. The last one is not, unless the budget is spent. */
  lemma {:induction false} RetriedExactly(run: Run, p: RetryPolicy, req: HttpRequest, i: nat)
    requires run.Follows(p, req) && i < |run.sent|
    ensures i < |run.waits| <==>
            i < p.maxRetries
            && match run.sent[i].status
               case Fail(e) =>
                 e in {ConnectFailed, DnsFailed, TlsHandshakeFailed, Timeout, ConnectionClosed, ReadFailed, WriteFailed}
               case Ok => run.sent[i].response.status in {429, 500, 502, 503, 504}
  {
    assert i < |run.waits| ==> Retryable(run.sent[i]);
    hide WaitOk, Run.Follows, RetryAfter;
    LastNotRetried(run, p, req);
  }

  lemma {:induction false} LastNotRetried(run: Run, p: RetryPolicy, req: HttpRequest)
    requires run.Follows(p, req) && run.sent != []
    ensures |run.waits| <= p.maxRetries && |run.sent| - 1 <= |run.waits| <= |run.sent|
    ensures |run.waits| < |run.sent| ==> |run.sent| == p.maxRetries + 1 || !Retryable(run.sent[|run.sent| - 1])
  {
    hide Retryable, WaitOk;
  }

  /** The response asks for a wait: its first Retry-After header says a number
      of milliseconds other than zero. */
  ghost predicate AsksFor(a: Attempt, ms: nat) {
    a.status == Ok && ms > 0 && exists v :: FirstNamed(a.response.headers, "Retry-After", v) && RetryAfterMs(v) == ms
  }

  /** How long each retry is waited for, with a ceiling of at most 2^31: as long
      as the response asks for, as far as the ceiling allows; else the first
      wait doubled once per attempt, or with jitter half of that at least. */
  lemma {:induction false} WaitedExactly(run: Run, p: RetryPolicy, req: HttpRequest, i: nat)
    requires run.Follows(p, req) && i < |run.waits| && p.maxBackoffMs <= TWO_31
    ensures forall ms | p.respectRetryAfter && AsksFor(run.sent[i], ms) :: run.waits[i] == Min(ms, p.maxBackoffMs)
    ensures var full := FullWait(p, i);
      !(p.respectRetryAfter && exists ms :: AsksFor(run.sent[i], ms)) ==>
        if p.jitter then full / 2 <= run.waits[i] <= full else run.waits[i] == full
  {
    hide Retryable, WaitOk, RetryAfter, RetryAfterMs, FullWait, AsksFor;
    WaitInWords(p, i, RetryAfter(run.sent[i]), run.waits[i]);
    var a := run.sent[i];
    forall ms ensures AsksFor(a, ms) <==> RetryAfter(a).Some? && ms > 0 && RetryAfterMs(RetryAfter(a).value) == ms {
      AskedExactly(a, ms);
    }
    if RetryAfter(a).Some? && RetryAfterMs(RetryAfter(a).value) > 0 {
      assert AsksFor(a, RetryAfterMs(RetryAfter(a).value));
    }
  }

  lemma {:induction false} AskedExactly(a: Attempt, ms: nat)
    ensures AsksFor(a, ms) <==> RetryAfter(a).Some? && ms > 0 && RetryAfterMs(RetryAfter(a).value) == ms
  {
    assert RETRY_AFTER == "Retry-After";
    hide RETRY_AFTER, RetryAfterMs, FindHeader, FirstNamed;
    FindHeaderExactly(a.response.headers, RETRY_AFTER);
    if a.status == Ok && RetryAfter(a).Some? {
      assert FirstNamed(a.response.headers, RETRY_AFTER, RetryAfter(a).value);
    }
  }

  /** No single wait and no sum of waits passes its bound. */
  lemma {:induction false} WaitsBounded(run: Run, p: RetryPolicy, req: HttpRequest)
    requires run.Follows(p, req)
    ensures Sum(run.waits) <= |run.waits| * p.maxBackoffMs <= p.maxRetries * p.maxBackoffMs
  {
    forall i | 0 <= i < |run.waits| ensures run.waits[i] <= p.maxBackoffMs {
      assert WaitOk(p, i, RetryAfter(run.sent[i]), run.waits[i]);
      hide RetryAfter, Retryable, Directed, Doubled;
    }
    hide *;
    SumBounded(run.waits, p.maxBackoffMs);
    Monotone(|run.waits|, p.maxRetries, p.maxBackoffMs) by { FewWaits(run, p, req); }
  }

  lemma {:induction false} FewWaits(run: Run, p: RetryPolicy, req: HttpRequest)
    requires run.Follows(p, req)
    ensures |run.waits| <= p.maxRetries
  {
  }

  lemma {:induction false} SumBounded(ns: seq<nat>, max: nat)
    requires forall i | 0 <= i < |ns| :: ns[i] <= max
    ensures Sum(ns) <= |ns| * max
    decreases |ns|
  {
    if ns != [] {
      SumBounded(ns[..|ns| - 1], max);
      assert |ns| * max == (|ns| - 1) * max + max;
    }
  }

  lemma {:induction false} Monotone(a: nat, b: nat, c: nat)
    requires a <= b
    ensures a * c <= b * c
  {
  }

  /** Requests and retries grow together, and by one request more unless the
      budget ended the run; so they never drift apart by more than the calls. */
  lemma {:induction false} RequestsMatchRetries(m: Metrics, run: Run, p: RetryPolicy, req: HttpRequest)
    requires run.Follows(p, req)
    ensures var after := Tally(m, run);
      && after.requests - m.requests == after.retries - m.retries + (if run.denied then 0 else 1)
      && after.requests - m.requests <= p.maxRetries + 1
      && after.transportErrors + after.httpErrors <= m.transportErrors + m.httpErrors + 1
      && (after.transportErrors + after.httpErrors == m.transportErrors + m.httpErrors <==>
            run.denied || Succeeded(run.sent[|run.sent| - 1]))
  {
    hide Retryable, WaitOk;
  }

  // ---- What goes out for the requests that were built ----

  /** The requests built, one after the other, the attempts at them, and the
      waits in between. */
  datatype Traffic = Traffic(builts: seq<Built>, sent: seq<Attempt>, waits: seq<nat>) {
    /** What is sent is what was built: each request that could be built has its
        own run of the retry loop, every attempt of it carrying that request, and
        nothing else is sent. The budget can end the last run only. */
    ghost predicate Carried(p: RetryPolicy, stopped: bool)
      decreases |builts|
    {
      if builts == [] then sent == [] && waits == []
      else exists run :: LastRun(p, stopped, run) && Before(run).Carried(p, false)
    }

    /** The run of the last request. */
    ghost predicate LastRun(p: RetryPolicy, stopped: bool, run: Run)
      requires builts != []
    {
      && CarriedBy(p, builts[|builts| - 1], run) && (run.denied ==> stopped)
      && |run.sent| <= |sent| && sent[|sent| - |run.sent|..] == run.sent
      && |run.waits| <= |waits| && waits[|waits| - |run.waits|..] == run.waits
    }

    ghost function Before(run: Run): Traffic {
      Traffic(if builts == [] then [] else builts[..|builts| - 1],
              if |run.sent| <= |sent| then sent[..|sent| - |run.sent|] else [],
              if |run.waits| <= |waits| then waits[..|waits| - |run.waits|] else [])
    }

    function Push(b: Built, run: Run): Traffic {
      Traffic(builts + [b], sent + run.sent, waits + run.waits)
    }
  }

  const NOTHING_SENT := Run([], [], false)

  /** One request and its run: none if it could not be built. */
  ghost predicate CarriedBy(p: RetryPolicy, b: Built, run: Run) {
    if b.status.Fail? then run == NOTHING_SENT else run.Follows(p, b.request)
  }

  lemma {:induction false} NothingCarried(p: RetryPolicy)
    ensures Traffic([], [], []).Carried(p, false)
  {
  }

  lemma {:induction false} LastOfTraffic(p: RetryPolicy, t: Traffic, stopped: bool) returns (run: Run)
    requires t.Carried(p, stopped) && t.builts != []
    ensures t.LastRun(p, stopped, run) && t.Before(run).Carried(p, false)
  {
    hide CarriedBy, Run.Follows;
    run :| t.LastRun(p, stopped, run) && t.Before(run).Carried(p, false);
  }

  lemma {:induction false} CarriedIf(p: RetryPolicy, t: Traffic, stopped: bool, run: Run)
    requires t.builts != [] && t.LastRun(p, stopped, run) && t.Before(run).Carried(p, false)
    ensures t.Carried(p, stopped)
  {
    hide CarriedBy, Run.Follows;
  }

  lemma {:induction false} NothingBuilt(p: RetryPolicy, t: Traffic, stopped: bool)
    requires t.builts == []
    ensures t.Carried(p, stopped) <==> t.sent == [] && t.waits == []
  {
  }

  lemma {:induction false} StoppedOrNot(p: RetryPolicy, t: Traffic, stopped: bool)
    requires t.Carried(p, false)
    ensures t.Carried(p, stopped)
  {
    hide Traffic.Carried, CarriedBy;
    if t.builts == [] {
      NothingBuilt(p, t, false);
      NothingBuilt(p, t, stopped);
    } else {
      var run := LastOfTraffic(p, t, false);
      assert t.LastRun(p, stopped, run);
      CarriedIf(p, t, stopped, run);
    }
  }

  lemma {:induction false} CarriedMore(p: RetryPolicy, t: Traffic, b: Built, run: Run, stopped: bool)
    requires t.Carried(p, false) && CarriedBy(p, b, run) && (run.denied ==> stopped)
    ensures t.Push(b, run).Carried(p, stopped)
  {
    hide Traffic.Carried, CarriedBy;
    var more := t.Push(b, run);
    assert more.Before(run) == t;
    assert more.LastRun(p, stopped, run);
    CarriedIf(p, more, stopped, run);
  }

  /** How often `n` requests are sent at most. */
  function MostAttempts(p: RetryPolicy, n: nat): nat { n * (p.maxRetries + 1) }

  lemma {:induction false} LastRunBounded(p: RetryPolicy, t: Traffic, stopped: bool, run: Run)
    requires t.builts != [] && t.LastRun(p, stopped, run)
    ensures |t.sent| <= |t.Before(run).sent| + p.maxRetries + 1
  {
    hide Retryable, WaitOk;
  }

  lemma {:induction false} MostAttemptsMore(p: RetryPolicy, n: nat, m: nat)
    ensures n > 0 ==> MostAttempts(p, n - 1) + p.maxRetries + 1 == MostAttempts(p, n)
    ensures n <= m ==> MostAttempts(p, n) <= MostAttempts(p, m)
    ensures MostAttempts(p, n + m) == MostAttempts(p, n) + MostAttempts(p, m)
  {
    if n <= m { Monotone(n, m, p.maxRetries + 1); }
  }

  lemma {:induction false} TrafficWithin(p: RetryPolicy, t: Traffic, stopped: bool, most: nat)
    requires t.Carried(p, stopped) && |t.builts| <= most
    ensures |t.sent| <= MostAttempts(p, most)
  {
    hide Traffic.Carried, MostAttempts;
    TrafficBounded(p, t, stopped);
    MostAttemptsMore(p, |t.builts|, most);
  }

  /** A request built is sent at most once more than it may be retried. */
  lemma {:induction false} TrafficBounded(p: RetryPolicy, t: Traffic, stopped: bool)
    requires t.Carried(p, stopped)
    ensures |t.sent| <= MostAttempts(p, |t.builts|)
    decreases |t.builts|
  {
    hide Traffic.Carried, Traffic.LastRun, MostAttempts;
    if t.builts == [] {
      NothingBuilt(p, t, stopped);
    } else {
      var run := LastOfTraffic(p, t, stopped);
      LastRunBounded(p, t, stopped, run);
      TrafficBounded(p, t.Before(run), false);
      MostAttemptsMore(p, |t.builts|, 0);
    }
  }

  ghost predicate WasBuilt(builts: seq<Built>, req: HttpRequest) {
    exists b :: b in builts && b.status == Ok && b.request == req
  }

  lemma {:induction false} WasBuiltBefore(builts: seq<Built>, req: HttpRequest)
    requires builts != [] && WasBuilt(builts[..|builts| - 1], req)
    ensures WasBuilt(builts, req)
  {
  }

  /** Every attempt carries a request that was built. */
  lemma {:induction false} SentWasBuilt(p: RetryPolicy, t: Traffic, stopped: bool, i: nat)
    requires t.Carried(p, stopped) && i < |t.sent|
    ensures WasBuilt(t.builts, t.sent[i].request)
    decreases |t.builts|
  {
    hide Traffic.Carried, CarriedBy, WasBuilt;
    if t.builts == [] { NothingBuilt(p, t, stopped); }
    var run := LastOfTraffic(p, t, stopped);
    var n := |t.sent| - |run.sent|;
    if i < n {
      SentWasBuilt(p, t.Before(run), false, i);
      WasBuiltBefore(t.builts, t.sent[i].request);
    } else {
      assert t.sent[i] == t.sent[n..][i - n];
      InLastRun(p, t.builts, run, i - n);
    }
  }

  lemma {:induction false} InLastRun(p: RetryPolicy, builts: seq<Built>, run: Run, i: nat)
    requires builts != [] && CarriedBy(p, builts[|builts| - 1], run) && i < |run.sent|
    ensures WasBuilt(builts, run.sent[i].request)
  {
    hide Retryable, WaitOk;
    assert builts[|builts| - 1] in builts;
  }

  /** Each status that has an error of its own is told by it, and by it alone. */
  lemma {:induction false} ErrorTellsStatus(status: int)
    ensures MapStatus(status) == InvalidArgument <==> status == 400
    ensures MapStatus(status) == Unauthorized <==> status == 401
    ensures MapStatus(status) == Forbidden <==> status == 403
    ensures MapStatus(status) == NotFound <==> status == 404
    ensures MapStatus(status) == RateLimited <==> status == 429
    ensures MapStatus(status) == ProviderError <==> status !in {400, 401, 403, 404, 429}
  {
  }

  /** What a final status other than 2xx becomes. */
  function MapStatus(httpStatus: int): Error {
    if httpStatus == 400 then InvalidArgument
    else if httpStatus == 401 then Unauthorized
    else if httpStatus == 403 then Forbidden
    else if httpStatus == 404 then NotFound
    else if httpStatus == 429 then RateLimited
    else ProviderError
  }
}
