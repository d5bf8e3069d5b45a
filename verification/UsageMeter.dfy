/** Cumulative usage with optional hard caps. */
module UsageMeterModel {

  /** A cap of 0 means no cap. */
  datatype Caps = Caps(requests: nat, tokens: nat)

  datatype Usage = Usage(requests: nat, input: nat, output: nat)

  predicate Allowed(caps: Caps, u: Usage) {
    && !(caps.requests != 0 && u.requests >= caps.requests)
    && !(caps.tokens != 0 && u.input + u.output >= caps.tokens)
  }

  function Total(costs: seq<nat>): nat {
    if costs == [] then 0 else Total(costs[..|costs| - 1]) + costs[|costs| - 1]
  }

  /** A new meter allows as many requests as there are of these, told what each
      response before has cost: tokens read and tokens written. */
  predicate AllAllowed(caps: Caps, input: seq<nat>, output: seq<nat>)
    requires |input| == |output|
  {
    forall k | 0 <= k < |input| :: Allowed(caps, Usage(k, Total(input[..k]), Total(output[..k])))
  }

  /** It does exactly if there are no more of them than the request cap, and the
      token cap was not reached before the last one; no request is refused early. */
  lemma {:induction false} AllowedExactly(caps: Caps, input: seq<nat>, output: seq<nat>)
    requires |input| == |output|
    ensures var n := |input|;
      AllAllowed(caps, input, output) <==>
        && (caps.requests == 0 || n <= caps.requests)
        && (caps.tokens == 0 || n == 0 || Total(input[..n - 1]) + Total(output[..n - 1]) < caps.tokens)
    decreases |input|
  {
    if input != [] {
      var n := |input| - 1;
      AllowedExactly(caps, input[..n], output[..n]);
      OneMoreAllowed(caps, input, output);
      hide Total, AllAllowed;
      if n > 0 {
        TotalGrows(input[..n]);
        TotalGrows(output[..n]);
      }
    }
  }

  lemma {:induction false} OneMoreAllowed(caps: Caps, input: seq<nat>, output: seq<nat>)
    requires |input| == |output| > 0
    ensures var n := |input| - 1;
      AllAllowed(caps, input, output) <==>
        && AllAllowed(caps, input[..n], output[..n])
        && Allowed(caps, Usage(n, Total(input[..n]), Total(output[..n])))
  {
    hide Total, Allowed;
    var n := |input| - 1;
    forall k | 0 <= k < n ensures input[..n][..k] == input[..k] && output[..n][..k] == output[..k] {
    }
  }

  lemma {:induction false} TotalGrows(costs: seq<nat>)
    requires costs != []
    ensures Total(costs[..|costs| - 1]) <= Total(costs)
  {
  }

  /** The guarantee of the caps, `last` being the tokens of the last response:
      the request cap is never passed, and the token total passes its cap by
      less than one response. */
  predicate WithinCaps(caps: Caps, u: Usage, last: nat) {
    && (caps.requests != 0 ==> u.requests <= caps.requests)
    && (caps.tokens != 0 ==> u.input + u.output < caps.tokens + last)
  }

  class UsageMeter {
    const caps: Caps
    var requests: nat
    var inputTokens: nat
    var outputTokens: nat
    /** The tokens of the last response accounted for. */
    ghost var last: nat

    constructor (caps: Caps)
      ensures this.caps == caps && Used() == Usage(0, 0, 0) && WithinCaps(caps, Used(), last)
    {
      this.caps := caps;
      requests, inputTokens, outputTokens := 0, 0, 0;
      last := 0;
    }

    function Used(): Usage
      reads this
    {
      Usage(requests, inputTokens, outputTokens)
    }

    method AllowRequest() returns (b: bool)
      ensures b == Allowed(caps, Used())
    {
      if caps.requests != 0 && requests >= caps.requests { return false; }
      if caps.tokens != 0 && inputTokens + outputTokens >= caps.tokens { return false; }
      b := true;
    }

    method RecordRequest()
      modifies this
      ensures Used() == old(Used()).(requests := old(requests) + 1) && last == old(last)
    {
      requests := requests + 1;
    }

    method RecordTokens(input: nat, output: nat)
      modifies this
      ensures Used() == old(Used()).(input := old(inputTokens) + input, output := old(outputTokens) + output)
      ensures last == input + output
    {
      inputTokens := inputTokens + input;
      outputTokens := outputTokens + output;
      last := input + output;
    }

    method Reset()
      modifies this
      ensures Used() == Usage(0, 0, 0) && WithinCaps(caps, Used(), last)
    {
      requests, inputTokens, outputTokens := 0, 0, 0;
      last := 0;
    }
  }
}
