/** The byte stream under the HTTP client. The class stands for every possible
    peer and network: what a call does is left open within its contract. */
module Connections {
  import opened Core

  predicate IsConnectError(e: Error) {
    e in {ConnectFailed, DnsFailed, TlsHandshakeFailed, CertVerifyFailed}
  }

  class Connection {
    /** Whether the socket is usable. */
    var open: bool
    /** What the peer has yet to deliver on the present connection. */
    var inbound: string
    /** Everything the peer delivers on the present connection. */
    ghost var whole: string
    /** How many connections have been made. */
    ghost var epoch: nat
    /** Every byte written so far, over all connections. */
    ghost var outbound: string
    /** The hosts and ports that were asked for a connection, one by one. */
    ghost var dialled: seq<(string, nat)>
    /** How often reads and writes may still make no progress: finitely often,
        so that the client's loops end. */
    var stalls: nat
    /** A steady connection does not fail while the peer has bytes to deliver. */
    var steady: bool

    constructor ()
      ensures !open && inbound == "" && whole == "" && epoch == 0 && outbound == "" && dialled == []
    {
      open, inbound, stalls, steady := false, "", 0, false;
      whole, epoch, outbound, dialled := "", 0, "", [];
    }

    /** A new connection starts a new stream; a failed attempt changes nothing. */
    method Connect(host: string, port: nat) returns (status: Status)
      modifies this
      ensures outbound == old(outbound) && dialled == old(dialled) + [(host, port)]
      ensures match status
              case Ok => open && epoch == old(epoch) + 1 && whole == inbound
              case Fail(e) =>
                && IsConnectError(e)
                && unchanged(this`open, this`inbound, this`whole, this`epoch, this`stalls, this`steady)
    {
      dialled := dialled + [(host, port)];
      var failure: nat := *;
      if failure == 1 { return Fail(ConnectFailed); }
      if failure == 2 { return Fail(DnsFailed); }
      if failure == 3 { return Fail(TlsHandshakeFailed); }
      if failure == 4 { return Fail(CertVerifyFailed); }
      var stream: string := *;
      var patience: nat := *;
      var reliable: bool := *;
      open, inbound, stalls, steady := true, stream, patience, reliable;
      whole, epoch := stream, epoch + 1;
      status := Ok;
    }

    /** The peer may close at any time. */
    method Connected() returns (b: bool)
      modifies this`open
      ensures b == open
      ensures open ==> old(open)
      ensures steady && old(open) ==> open
    {
      MayDrop();
      b := open;
    }

    method MayDrop()
      modifies this`open
      ensures open ==> old(open)
      ensures steady ==> open == old(open)
    {
      var drop: bool := *;
      if drop && !steady { open := false; }
    }

    /** Accepts a prefix of `data`, or fails. */
    method Write(data: string) returns (n: int)
      requires data != ""
      modifies this`open, this`stalls, this`outbound
      ensures n <= |data|
      ensures outbound == old(outbound) + (if n > 0 then data[..n] else "")
      ensures if n == 0 then stalls < old(stalls) else stalls == old(stalls)
      ensures open ==> old(open)
      ensures steady ==> n >= 0 && open == old(open)
    {
      MayDrop();
      var wish: int := *;
      n := if wish < |data| then wish else |data|;
      if n < 0 && steady { n := |data|; }
      if n == 0 {
        if stalls == 0 { n := |data|; } else { stalls := stalls - 1; }
      }
      outbound := outbound + (if n > 0 then data[..n] else "");
    }

    /** Delivers a prefix of what is inbound, nothing for now, or an error. */
    method Read(cap: nat) returns (n: int, bytes: string)
      requires cap > 0
      modifies this`open, this`stalls, this`inbound
      ensures |bytes| == (if n > 0 then n else 0) <= cap
      ensures old(inbound) == bytes + inbound
      ensures if n == 0 then stalls < old(stalls) else stalls == old(stalls)
      ensures open ==> old(open)
      ensures steady && old(inbound) != "" ==> n >= 0 && open == old(open)
    {
      var wish: int := *;
      var limit := if cap < |inbound| then cap else |inbound|;
      n := if wish < limit then wish else limit;
      if !steady || inbound == "" { var drop: bool := *; if drop { open := false; } }
      if n < 0 && steady && inbound != "" { n := limit; }
      if n == 0 {
        if stalls == 0 { n := if inbound == "" then -1 else limit; } else { stalls := stalls - 1; }
      }
      bytes := if n > 0 then inbound[..n] else "";
      inbound := inbound[|bytes|..];
    }

    /** Bytes readable at once; a negative value is an error. */
    method Available() returns (n: int)
      ensures n <= |inbound|
    {
      n := *;
      if n > |inbound| { n := |inbound|; }
    }

    method Stop()
      modifies this`open
      ensures !open
    {
      open := false;
    }
  }
}
