/** The HTTP client, over a connection that may cut its bytes anywhere and fail
    at any time. */
module HttpClientModel {
  import opened Core
  import opened Text
  import opened HttpTypes
  import opened HttpHead
  import opened RequestBuilder
  import opened Connections
  import opened HttpExchange
  import opened HeadReading
  import Chunked = ChunkedDecoderModel

  /** The errors that make an unanswered attempt look stale. */
  predicate IsStaleError(e: Error) {
    e in {WriteFailed, ConnectionClosed, HttpMalformed}
  }

  /** Only behind a body of announced length are surplus bytes kept. */
  predicate KeepsSurplus(out: HttpResponse) {
    !Bodiless(out.status) && FramingOf(out.headers).Sized?
  }

  lemma {:induction false} SurplusByHead(a: HttpResponse, b: HttpResponse)
    requires a.status == b.status && a.headers == b.headers
    ensures KeepsSurplus(a) <==> KeepsSurplus(b)
  {
  }

  lemma {:induction false} SurplusByFraming(out: HttpResponse)
    ensures KeepsSurplus(out) <==> !Bodiless(out.status) && FramingOf(out.headers).Sized?
  {
  }

  /** What one attempt at a request did: whether it found the socket open and so
      used it again, whether it got to see a response byte, how it ended, and
      what it put on the wire. */
  datatype Attempt = Attempt(reused: bool, sawBytes: bool, status: Status, wire: string)

  /** An attempt is repeated: the socket was found open before it, no response
      byte came, and the error is one of a stale connection. */
  predicate Replays(foundOpen: bool, first: Attempt) {
    && foundOpen && !first.sawBytes
    && first.status in {Fail(WriteFailed), Fail(ConnectionClosed), Fail(HttpMalformed)}
  }

  /** How much of a request went out, as its end tells: all of it if there was a
      response or none came, not all of it if writing failed. A connection that
      closes inside a body has shown some bytes. */
  predicate SentAsTold(a: Attempt, full: string) {
    && a.wire <= full
    && (a.status == Fail(ConnectionClosed) ==> a.sawBytes)
    && (a.status == Ok || a.status == Fail(HttpMalformed) ==> a.wire == full)
    && (a.status == Fail(WriteFailed) ==> |a.wire| < |full|)
  }

  lemma {:induction false} EndTells(a: Attempt, full: string, sent: nat)
    requires sent <= |full| && a.wire == full[..sent]
    requires a.status == Ok || a.status == Fail(HttpMalformed) ==> sent == |full|
    requires a.status == Fail(WriteFailed) ==> sent < |full|
    requires a.status == Fail(ConnectionClosed) ==> a.sawBytes
    ensures SentAsTold(a, full) && full[..|full|] == full
  {
  }

  /** Nothing goes out without a connection. */
  lemma {:induction false} ConnectErrorTells(a: Attempt, full: string)
    requires a.wire == "" && a.status.Fail? && IsConnectError(a.status.error)
    ensures SentAsTold(a, full)
  {
  }

  /** An attempt is repeated even if it had made its own connection: when the
      socket is open at the first look and gone at the second. */
  lemma {:induction false} FreshAttemptReplays(full: string)
    ensures var first := Attempt(false, false, Fail(HttpMalformed), full);
      Replays(true, first) && !first.reused && SentAsTold(first, full)
  {
  }

  /** What a repeated attempt had put on the wire. */
  lemma {:induction false} ReplayedWire(foundOpen: bool, first: Attempt, full: string)
    requires Replays(foundOpen, first) && SentAsTold(first, full)
    ensures first.status in {Fail(HttpMalformed), Fail(WriteFailed)}
    ensures first.wire == full <==> first.status == Fail(HttpMalformed)
  {
  }

  /** All calls since then went to `target`. */
  ghost predicate CalledOnly(before: seq<(string, nat)>, after: seq<(string, nat)>, target: (string, nat)) {
    before <= after && forall i | |before| <= i < |after| :: after[i] == target
  }

  /** One call to `target`, or none. */
  ghost predicate Called(called: bool, before: seq<(string, nat)>, after: seq<(string, nat)>, target: (string, nat)) {
    after == if called then before + [target] else before
  }

  lemma {:induction false} NowCalled(called: bool, before: seq<(string, nat)>, after: seq<(string, nat)>,
                                     target: (string, nat))
    requires Called(called, before, after, target)
    ensures CalledOnly(before, after, target)
  {
  }

  lemma {:induction false} CalledAgain(called: bool, a: seq<(string, nat)>, b: seq<(string, nat)>,
                                       c: seq<(string, nat)>, target: (string, nat))
    requires CalledOnly(a, b, target) && Called(called, b, c, target)
    ensures CalledOnly(a, c, target)
  {
  }

  class HttpClient {
    const conn: Connection
    const hasClock: bool
    const timeoutMs: nat
    const maxResponseBody: nat
    const recvBufferSize: nat
    const keepAlive: bool

    var reusable: bool
    var sawResponseBytes: bool
    /** Surplus of the last read: the next response starts with it. */
    var pending: string

    /** The attempts made so far. */
    ghost var attempts: seq<Attempt>
    /** The longest the response body has been during the current attempt. */
    ghost var peak: nat

    constructor (conn: Connection, hasClock: bool, timeoutMs: nat, maxResponseBody: nat, recvBufferSize: nat,
                 keepAlive: bool)
      requires maxResponseBody < TWO_32
      ensures Valid() && this.conn == conn && pending == "" && attempts == []
      ensures this.hasClock == hasClock && this.maxResponseBody == maxResponseBody && this.keepAlive == keepAlive
    {
      this.conn, this.hasClock, this.timeoutMs, this.maxResponseBody := conn, hasClock, timeoutMs, maxResponseBody;
      this.recvBufferSize := if recvBufferSize < 64 then 64 else recvBufferSize;
      this.keepAlive := keepAlive;
      reusable, sawResponseBytes, pending := false, false, "";
      attempts, peak := [], 0;
    }

    /** The most bytes the client takes in while it looks for the end of a head. */
    ghost function HeadLimit(): nat {
      MAX_HEADER_SECTION + recvBufferSize
    }

    ghost predicate Valid()
      reads this
    {
      && recvBufferSize >= 64
      && maxResponseBody < TWO_32
      && |pending| <= HeadLimit()
    }

    /** The response bytes not yet returned: read ahead, or still inbound. */
    ghost function Stream(): string
      reads this, conn
    {
      pending + conn.inbound
    }

    /** The unread bytes are the end of what this connection delivers. */
    ghost predicate InSync()
      reads this, conn
    {
      IsSuffix(Stream(), conn.whole)
    }

    /** Nothing goes wrong by itself: no timeouts, and a steady open connection. */
    ghost predicate Calm()
      reads this, conn
    {
      !hasClock && conn.steady && conn.open
    }

    /** A millisecond clock; zero when there is none. */
    method Now() returns (t: nat)
      ensures !hasClock ==> t == 0
    {
      t := 0;
      if hasClock {
        t := *;
        t := t % TWO_32;
      }
    }

    method TimedOut(startMs: nat) returns (b: bool)
      ensures !hasClock ==> !b
    {
      if !hasClock { return false; }
      var t := Now();
      b := (t - startMs) % TWO_32 >= timeoutMs;
    }

    method WriteAll(data: string, startMs: nat) returns (status: Status, ghost sent: nat)
      modifies conn`open, conn`stalls, conn`outbound
      ensures conn.open ==> old(conn.open)
      ensures conn.stalls <= old(conn.stalls)
      ensures sent <= |data| && conn.outbound == old(conn.outbound) + data[..sent]
      ensures status == Ok <==> sent == |data|
      ensures status in {Ok, Fail(WriteFailed), Fail(Timeout)} && (status == Fail(Timeout) ==> hasClock)
      ensures old(Calm()) ==> status == Ok && conn.open
    {
      var off := 0;
      assert old(conn.outbound) + data[..0] == conn.outbound;
      while off < |data|
        invariant 0 <= off <= |data|
        invariant conn.outbound == old(conn.outbound) + data[..off]
        invariant conn.open ==> old(conn.open)
        invariant conn.stalls <= old(conn.stalls)
        invariant old(Calm()) ==> conn.open
        decreases |data| - off + conn.stalls
      {
        var n := conn.Write(data[off..]);
        if n < 0 { return Fail(WriteFailed), off; }
        if n == 0 {
          var late := TimedOut(startMs);
          if late { return Fail(Timeout), off; }
        } else {
          assert data[off..][..n] == data[off..off + n];
          assert data[..off] + data[off..off + n] == data[..off + n];
          ConcatAssociates(old(conn.outbound), data[..off], data[off..off + n]);
          off := off + n;
        }
      }
      status, sent := Ok, off;
    }

    /** The socket is dead and drained. */
    method Drained() returns (b: bool)
      modifies conn`open
      ensures conn.open ==> old(conn.open)
      ensures conn.steady && old(conn.open) ==> conn.open && !b
    {
      var up := conn.Connected();
      if up { return false; }
      var n := conn.Available();
      b := n <= 0;
    }

    /** A read during the head brought nothing. */
    method NothingRead(startMs: nat) returns (status: Status)
      modifies conn`open
      ensures conn.open ==> old(conn.open)
      ensures status in {Ok, Fail(HttpMalformed), Fail(Timeout)} && (status == Fail(Timeout) ==> hasClock)
      ensures old(Calm()) ==> status == Ok && conn.open
    {
      var dead := Drained();
      if dead { return Fail(HttpMalformed); }
      var late := TimedOut(startMs);
      status := if late then Fail(Timeout) else Ok;
    }

    /** Takes in bytes until the blank line; `acc` is all of them, in `parts`. */
    method FindHead(startMs: nat) returns (status: Status, acc: string, ghost parts: seq<string>)
      requires Valid()
      modifies this`pending, this`sawResponseBytes, conn`open, conn`stalls, conn`inbound
      ensures Valid() && pending == ""
      ensures conn.open ==> old(conn.open)
      ensures acc + conn.inbound == old(Stream()) && |acc| <= HeadLimit()
      ensures Parts(parts, recvBufferSize) && acc == old(pending) + Joined(parts)
      ensures Find(old(pending), BLANK, 0).Some? ==> acc == old(pending)
      ensures sawResponseBytes == (old(sawResponseBytes) || acc != "")
      ensures status in {Ok, Fail(HttpMalformed), Fail(Timeout)} && (status == Fail(Timeout) ==> hasClock)
      ensures status == Ok ==> Find(acc, BLANK, 0).Some?
      ensures match HeadLoop(old(pending), parts)
              case Found(e) => status == Ok && Find(acc, BLANK, 0) == Some(e)
              case TooLong => status == Fail(HttpMalformed)
              case Waiting => status != Ok
      ensures forall e: nat | old(Calm()) && Find(old(Stream()), BLANK, 0) == Some(e) && e + 3 <= MAX_HEADER_SECTION ::
                status == Ok && conn.open
    {
      hide ParseHead, OccursAt, Find, HeadLoop, Parts, Joined;
      NoParts(pending, recvBufferSize);
      acc, parts := pending, [];
      pending := "";
      if acc != "" { sawResponseBytes := true; }
      while true
        invariant Valid() && pending == ""
        invariant acc + conn.inbound == old(Stream()) && |acc| <= HeadLimit()
        invariant Parts(parts, recvBufferSize) && acc == old(pending) + Joined(parts)
        invariant HeadLoop(old(pending), parts) == HeadLoop(acc, [])
        invariant Find(old(pending), BLANK, 0).Some? ==> acc == old(pending)
        invariant sawResponseBytes == (old(sawResponseBytes) || acc != "")
        invariant conn.open ==> old(conn.open)
        invariant forall e: nat |
                    && old(Calm()) && Find(old(Stream()), BLANK, 0) == Some(e) && e + 3 <= MAX_HEADER_SECTION ::
                    conn.open
        decreases |conn.inbound| + conn.stalls
      {
        var end := Find(acc, BLANK, 0);
        FirstBlankExtends(acc, conn.inbound);
        EmptySuffix(acc);
        HeadNow(acc);
        if end.Some? { return Ok, acc, parts; }
        if |acc| > MAX_HEADER_SECTION { return Fail(HttpMalformed), acc, parts; }
        status, acc, parts := ReadSome(acc, startMs, old(pending), parts);
        if status != Ok { return; }
      }
    }

    /** One more read of the head; `parts` are the reads that led from `start` to
        `acc`, and from `start` to `more` after this one. */
    method ReadSome(acc: string, startMs: nat, ghost start: string, ghost parts: seq<string>)
      returns (status: Status, more: string, ghost parts': seq<string>)
      requires recvBufferSize >= 64 && Parts(parts, recvBufferSize) && acc == start + Joined(parts)
      requires HeadLoop(start, parts) == Waiting && HeadLoop(acc, []) == Waiting
      modifies this`sawResponseBytes, conn`open, conn`stalls, conn`inbound
      ensures more + conn.inbound == acc + old(conn.inbound) && acc <= more && |more| <= |acc| + recvBufferSize
      ensures Parts(parts', recvBufferSize) && more == start + Joined(parts')
      ensures HeadLoop(start, parts') == HeadLoop(more, [])
      ensures sawResponseBytes == (old(sawResponseBytes) || more != acc)
      ensures status in {Ok, Fail(HttpMalformed), Fail(Timeout)} && (status == Fail(Timeout) ==> hasClock)
      ensures status == Ok ==> |conn.inbound| + conn.stalls < old(|conn.inbound| + conn.stalls)
      ensures status != Ok ==> more == acc && parts' == parts
      ensures conn.open ==> old(conn.open)
      ensures old(Calm() && conn.inbound != "") ==> status == Ok && conn.open
    {
      hide HeadLoop, Joined, Parts;
      status, more, parts' := Ok, acc, parts;
      var n, bytes := conn.Read(recvBufferSize);
      ConcatAssociates(acc, bytes, conn.inbound);
      EmptySuffix(acc);
      if n > 0 {
        sawResponseBytes := true;
        ReadOn(start, parts, bytes, recvBufferSize);
        parts' := parts + [bytes];
        more := acc + bytes;
      } else if n < 0 {
        status := Fail(HttpMalformed);
      } else {
        status := NothingRead(startMs);
      }
    }

    /** Reads a head; `leftover` is what came with it of the body. */
    method ReadHeaders(outIn: HttpResponse, startMs: nat)
      returns (status: Status, leftover: string, out: HttpResponse, ghost acc: string, ghost parts: seq<string>)
      requires Valid()
      modifies this`pending, this`sawResponseBytes, conn`open, conn`stalls, conn`inbound
      ensures Valid() && pending == ""
      ensures conn.open ==> old(conn.open)
      ensures acc + conn.inbound == old(Stream()) && old(pending) <= acc
      ensures Find(old(pending), BLANK, 0).Some? ==> acc == old(pending)
      ensures |acc| <= HeadLimit()
      ensures sawResponseBytes == (old(sawResponseBytes) || acc != "")
      ensures status in {Ok, Fail(HttpMalformed), Fail(Timeout)} && (status == Fail(Timeout) ==> hasClock)
      ensures status == Ok ==>
                var end := Find(acc, BLANK, 0);
                && end.Some? && leftover == acc[end.value + 4..]
                && HeadApplied(acc[..end.value], outIn, out) && out.body == outIn.body
      ensures status != Ok ==> out == outIn
      // the verdict on these parts: a head that can be parsed is taken
      ensures Parts(parts, recvBufferSize) && acc == old(pending) + Joined(parts)
      ensures match HeadLoop(old(pending), parts)
              case Found(e) => e <= |acc| && (status == Ok <==> ParseHead(acc[..e] + CRLF).Some?)
              case TooLong => status == Fail(HttpMalformed)
              case Waiting => status != Ok
      ensures forall e: nat |
                && old(Calm()) && Find(old(Stream()), BLANK, 0) == Some(e)
                && e + 3 <= MAX_HEADER_SECTION && ParseHead(old(Stream())[..e] + CRLF).Some? ::
                status == Ok && conn.open
    {
      hide ParseHead, OccursAt, Find, HeadLoop, Joined;
      var buf;
      leftover, out := "", outIn;
      status, buf, parts := FindHead(startMs);
      acc := buf;
      if status != Ok { return; }
      var end := Find(buf, BLANK, 0);
      FirstBlankExtends(acc, conn.inbound);
      HeadOfPrefix(acc, conn.inbound, end.value);
      status, out := ParseHeaderBlock(buf[..end.value + 2], outIn);
      if status != Ok { return; }
      leftover := buf[end.value + 4..];
    }

    /** A body of announced length. What was read past it starts the next
        response; nothing more is read past it. */
    method ReadSized(initial: string, want: nat, startMs: nat) returns (status: Status, body: string)
      requires Valid() && pending == "" && |initial| <= HeadLimit()
      modifies this`pending, this`peak, conn`open, conn`stalls, conn`inbound
      ensures Valid()
      ensures conn.open ==> old(conn.open)
      ensures body + Stream() == initial + old(conn.inbound)
      ensures status == Ok ==> |body| == want
      ensures status != Ok ==> pending == ""
      ensures |conn.inbound| <= |old(conn.inbound)|
      ensures status in {Ok, Fail(ConnectionClosed), Fail(Timeout)} && (status == Fail(Timeout) ==> hasClock)
      ensures peak <= old(peak) || peak <= |initial| || peak <= want
      ensures old(Calm()) && want <= |initial + old(conn.inbound)| ==> status == Ok && conn.open
    {
      body := initial;
      NotePeak(|body|);
      if |body| > want {
        pending := body[want..];
        body := body[..want];
        assert body + pending == initial;
        ConcatAssociates(body, pending, conn.inbound);
      }
      while |body| < want
        invariant |body| <= want && Valid()
        invariant pending != "" ==> |body| == want
        invariant body + (pending + conn.inbound) == initial + old(conn.inbound)
        invariant |conn.inbound| <= |old(conn.inbound)|
        invariant conn.open ==> old(conn.open)
        invariant old(Calm()) && want <= |initial + old(conn.inbound)| ==> conn.open
        invariant peak <= old(peak) || peak <= |initial| || peak <= want
        decreases want - |body| + conn.stalls
      {
        var room := want - |body|;
        var take := if room < recvBufferSize then room else recvBufferSize;
        var n, bytes := conn.Read(take);
        ConcatAssociates(body, bytes, conn.inbound);
        assert pending == "" && pending + conn.inbound == conn.inbound;
        if n > 0 {
          body := body + bytes;
          NotePeak(|body|);
        } else if n < 0 {
          return Fail(ConnectionClosed), body;
        } else {
          var late := TimedOut(startMs);
          if late { return Fail(Timeout), body; }
          var dead := Drained();
          if dead { return Fail(ConnectionClosed), body; }
        }
      }
      status := Ok;
    }

    /** One read of a chunked body; it may bring nothing for now. */
    method ReadPiece(startMs: nat) returns (status: Status, bytes: string)
      requires recvBufferSize > 0
      modifies conn`open, conn`stalls, conn`inbound
      ensures old(conn.inbound) == bytes + conn.inbound && |bytes| <= recvBufferSize
      ensures status in {Ok, Fail(ConnectionClosed), Fail(Timeout)} && (status == Fail(Timeout) ==> hasClock)
      ensures if status == Ok then |conn.inbound| + conn.stalls < old(|conn.inbound| + conn.stalls) else bytes == ""
      ensures conn.open ==> old(conn.open)
      ensures old(Calm() && conn.inbound != "") ==> status == Ok && conn.open
    {
      status := Ok;
      var n;
      n, bytes := conn.Read(recvBufferSize);
      if n < 0 { return Fail(ConnectionClosed), bytes; }
      if n == 0 {
        var late := TimedOut(startMs);
        if late { return Fail(Timeout), bytes; }
        var dead := Drained();
        if dead { return Fail(ConnectionClosed), bytes; }
      }
    }

    /** A chunked body; whatever follows its end in the same read is dropped. */
    method ReadChunked(initial: string, bodyIn: string, startMs: nat)
      returns (status: Status, body: string, ghost raw: string)
      requires Valid() && pending == ""
      modifies this`peak, conn`open, conn`stalls, conn`inbound
      ensures conn.open ==> old(conn.open)
      ensures status == Ok ==> |body| <= maxResponseBody && BodyOf(Chunks, raw, bodyIn, body)
      ensures raw + conn.inbound == initial + old(conn.inbound) && |conn.inbound| <= |old(conn.inbound)|
      // each failure has its cause in the bytes read or in the time
      ensures status in {Ok, Fail(HttpMalformed), Fail(HttpBodyTooLarge), Fail(ConnectionClosed), Fail(Timeout)}
      ensures status == Fail(HttpMalformed) <==> !Chunked.Decode(Chunked.START, raw).ok
      ensures status == Fail(HttpBodyTooLarge) ==> |body| > maxResponseBody
      ensures status in {Fail(ConnectionClosed), Fail(Timeout)} ==>
                Chunked.Decode(Chunked.START, raw).state.mode != Chunked.Done
      ensures status == Fail(Timeout) ==> hasClock
      ensures peak <= old(peak) || peak <= maxResponseBody + recvBufferSize || peak <= |bodyIn| + |initial|
      ensures old(Calm()) && Ready(Chunks, initial + old(conn.inbound), maxResponseBody) && bodyIn == "" ==>
                status == Ok && conn.open
    {
      hide Ready, Unchunked, BodyOf, Chunked.StepByte, Chunked.HexValue, Chunked.Decode;
      var decoder := new Chunked.ChunkedDecoder();
      var done;
      raw := initial;
      ghost var ready := Calm() && Ready(Chunks, initial + conn.inbound, maxResponseBody) && bodyIn == "";
      UnchunkedStart(bodyIn);
      EmptyPrefix(initial);
      status, body, done := FeedDecoder(decoder, initial, bodyIn, "", bodyIn);
      if ready { ChunksAhead(initial, conn.inbound, maxResponseBody); }
      if status != Ok { return; }
      while !done
        invariant fresh(decoder) && decoder.Valid()
        invariant raw + conn.inbound == initial + old(conn.inbound) && |conn.inbound| <= |old(conn.inbound)|
        invariant Unchunked(raw, decoder.Regs(), bodyIn, body) && done == (decoder.mode == Chunked.Done)
        invariant ready ==> Calm() && bodyIn == ""
        invariant conn.open ==> old(conn.open)
        invariant peak <= old(peak) || peak <= maxResponseBody + recvBufferSize || peak <= |bodyIn| + |initial|
        decreases |conn.inbound| + conn.stalls
      {
        UnchunkedSoFar(raw, decoder.Regs(), bodyIn, body);
        if ready { ChunksAhead(raw, conn.inbound, maxResponseBody); }
        if |body| > maxResponseBody { return Fail(HttpBodyTooLarge), body, raw; }
        status, body, done, raw := ReadChunk(decoder, body, startMs, raw, bodyIn);
        if status != Ok { return; }
      }
      UnchunkedSoFar(raw, decoder.Regs(), bodyIn, body);
      if ready { ChunksAhead(raw, conn.inbound, maxResponseBody); }
      UnchunkedEnd(raw, decoder.Regs(), bodyIn, body);
      status := if |body| > maxResponseBody then Fail(HttpBodyTooLarge) else Ok;
    }

    /** One turn of the loop: a read, and the decoder on what it brought. */
    method ReadChunk(decoder: Chunked.ChunkedDecoder, bodyIn: string, startMs: nat, ghost before: string,
                     ghost start: string)
      returns (status: Status, body: string, done: bool, ghost raw: string)
      requires recvBufferSize > 0 && decoder.Valid() && decoder.mode != Chunked.Done
      requires Unchunked(before, decoder.Regs(), start, bodyIn)
      modifies decoder, this`peak, conn`open, conn`stalls, conn`inbound
      ensures decoder.Valid() && (conn.open ==> old(conn.open))
      ensures raw + conn.inbound == before + old(conn.inbound) && |conn.inbound| <= |old(conn.inbound)|
      ensures status in {Ok, Fail(HttpMalformed), Fail(ConnectionClosed), Fail(Timeout)}
      ensures status == Fail(HttpMalformed) <==> !Chunked.Decode(Chunked.START, raw).ok
      ensures status in {Fail(ConnectionClosed), Fail(Timeout)} ==>
                Chunked.Decode(Chunked.START, raw).state.mode != Chunked.Done
      ensures status == Fail(Timeout) ==> hasClock
      ensures status == Ok ==>
                && Unchunked(raw, decoder.Regs(), start, body) && done == (decoder.mode == Chunked.Done)
                && |conn.inbound| + conn.stalls < old(|conn.inbound| + conn.stalls)
      ensures peak <= old(peak) || peak <= |bodyIn| + recvBufferSize
      ensures old(Calm()) && Ready(Chunks, before + old(conn.inbound), maxResponseBody) ==> status == Ok && conn.open
    {
      hide Ready, Unchunked, Chunked.Decode;
      ghost var ready := Calm() && Ready(Chunks, before + conn.inbound, maxResponseBody);
      UnchunkedSoFar(before, decoder.Regs(), start, bodyIn);
      if ready { ChunksAhead(before, conn.inbound, maxResponseBody); }
      body, done, raw := bodyIn, false, before;
      var bytes;
      status, bytes := ReadPiece(startMs);
      ConcatAssociates(before, bytes, conn.inbound);
      EmptySuffix(before);
      if status != Ok || bytes == "" { return; }
      raw := before + bytes;
      if ready { ChunksAhead(raw, conn.inbound, maxResponseBody); }
      status, body, done := FeedDecoder(decoder, bytes, bodyIn, before, start);
    }

    /** Feeds the decoder what was read; `raw` went into it before. */
    method FeedDecoder(decoder: Chunked.ChunkedDecoder, bytes: string, bodyIn: string, ghost raw: string,
                       ghost before: string)
      returns (status: Status, body: string, done: bool)
      requires decoder.Valid() && Unchunked(raw, decoder.Regs(), before, bodyIn)
      modifies decoder, this`peak
      ensures decoder.Valid()
      ensures status == (if Chunked.Decode(Chunked.START, raw + bytes).ok then Ok else Fail(HttpMalformed))
      ensures status == Ok ==>
                Unchunked(raw + bytes, decoder.Regs(), before, body) && done == (decoder.mode == Chunked.Done)
      ensures |body| <= |bodyIn| + |bytes|
      ensures peak == if old(peak) < |body| then |body| else old(peak)
    {
      hide Unchunked, Chunked.Decode;
      UnchunkedMore(raw, decoder.Regs(), before, bodyIn, bytes);
      status, body, done := decoder.Feed(bytes, bodyIn, false);
      NotePeak(|body|);
    }

    /** Without framing, all that comes before the close is the body. */
    method ReadUntilClose(initial: string, startMs: nat) returns (status: Status, body: string)
      requires Valid() && pending == ""
      modifies this`peak, conn`open, conn`stalls, conn`inbound
      ensures conn.open ==> old(conn.open)
      ensures status == Ok ==> |body| <= maxResponseBody
      ensures body + conn.inbound == initial + old(conn.inbound) && |conn.inbound| <= |old(conn.inbound)|
      ensures status in {Ok, Fail(HttpBodyTooLarge), Fail(Timeout)} && (status == Fail(Timeout) ==> hasClock)
      ensures status == Fail(HttpBodyTooLarge) <==> |body| > maxResponseBody
      ensures old(Calm()) && status == Ok ==> conn.inbound == ""
      ensures peak <= old(peak) || peak <= maxResponseBody + recvBufferSize || peak <= |initial|
    {
      body := initial;
      NotePeak(|body|);
      while true
        invariant body + conn.inbound == initial + old(conn.inbound) && |conn.inbound| <= |old(conn.inbound)|
        invariant old(Calm()) ==> conn.open || conn.inbound == ""
        invariant conn.open ==> old(conn.open)
        invariant peak <= old(peak) || peak <= maxResponseBody + recvBufferSize || peak <= |initial|
        decreases |conn.inbound| + conn.stalls
      {
        if |body| > maxResponseBody { return Fail(HttpBodyTooLarge), body; }
        var n, bytes := conn.Read(recvBufferSize);
        ConcatAssociates(body, bytes, conn.inbound);
        assert n <= 0 ==> body + bytes == body;
        if n > 0 {
          body := body + bytes;
          NotePeak(|body|);
        } else if n < 0 {
          return Ok, body;
        } else {
          var dead := Drained();
          if dead { return Ok, body; }
          var late := TimedOut(startMs);
          if late { return Fail(Timeout), body; }
        }
      }
    }

    ghost method NotePeak(size: nat)
      modifies this`peak
      ensures peak == if old(peak) < size then size else old(peak)
    {
      peak := if peak < size then size else peak;
    }

    method ReadBody(initial: string, outIn: HttpResponse, startMs: nat)
      returns (status: Status, out: HttpResponse, ghost raw: string)
      requires Valid() && pending == "" && |initial| <= HeadLimit()
      modifies this`pending, this`peak, conn`open, conn`stalls, conn`inbound
      ensures Valid()
      ensures conn.open ==> old(conn.open)
      ensures status == Ok ==>
                BodyOf(FramingOf(outIn.headers), raw, outIn.body, out.body) && |out.body| <= maxResponseBody
      ensures raw + Stream() == initial + old(conn.inbound)
      ensures out == outIn.(body := out.body)
      ensures status != Ok || !FramingOf(outIn.headers).Sized? ==> pending == ""
      ensures |conn.inbound| <= |old(conn.inbound)|
      ensures status in {Ok, Fail(HttpMalformed), Fail(HttpBodyTooLarge), Fail(ConnectionClosed), Fail(Timeout)}
      ensures status == Fail(Timeout) ==> hasClock
      ensures peak <= old(peak) || peak <= maxResponseBody + recvBufferSize || peak <= |outIn.body| + |initial|
      ensures old(Calm()) && outIn.body == ""
              && Ready(FramingOf(outIn.headers), initial + old(conn.inbound), maxResponseBody) ==>
                status == Ok && conn.open
      ensures old(Calm()) && FramingOf(outIn.headers).UntilClose? ==>
                && (status == Ok <==> |initial + old(conn.inbound)| <= maxResponseBody)
                && (status == Ok ==> out.body == initial + old(conn.inbound))
      ensures FramingOf(outIn.headers).Sized? && FramingOf(outIn.headers).want > maxResponseBody ==>
                && status == Fail(HttpBodyTooLarge)
                && conn.open == old(conn.open) && conn.inbound == old(conn.inbound)
    {
      out, raw := outIn, initial;
      EmptyPrefix(conn.inbound);
      var framing := ReadFraming(outIn.headers);
      var body;
      match framing {
        case Chunks =>
          status, body, raw := ReadChunked(initial, outIn.body, startMs);
        case Sized(want) =>
          if want > maxResponseBody { return Fail(HttpBodyTooLarge), out, raw; }
          status, body := ReadSized(initial, want, startMs);
          raw := body;
        case UntilClose =>
          status, body := ReadUntilClose(initial, startMs);
          raw := body;
      }
      EmptyPrefix(conn.inbound);
      out := outIn.(body := body);
    }

    static method ReadFraming(headers: seq<Header>) returns (framing: Framing)
      ensures framing == FramingOf(headers)
    {
      var te := FindHeader(headers, TRANSFER_ENCODING);
      if te.Some? && ContainsIgnoreCase(te.value, "chunked") { return Chunks; }
      var cl := FindHeader(headers, CONTENT_LENGTH);
      if cl.None? { return UntilClose; }
      var want := ReadLength(cl.value);
      framing := Sized(want);
    }

    /** The digit loop on a Content-Length value. */
    static method ReadLength(s: string) returns (want: nat)
      ensures want == LengthValue(0, s)
    {
      want := 0;
      for i := 0 to |s|
        invariant LengthValue(0, s) == LengthValue(want, s[i..])
      {
        var c := s[i];
        assert s[i..][0] == c && s[i..][1..] == s[i + 1..];
        if c >= '0' && c <= '9' { want := (want * 10 + (c as int - '0' as int)) % TWO_32; }
      }
    }

    /** The caller's expectation: `stream` starts with the response `next`, whose
        end is settled by its head, and nothing will interfere. */
    ghost predicate Expecting(next: WireResponse, stream: string, outIn: HttpResponse)
      reads this, conn
    {
      Calm() && keepAlive && outIn == EMPTY_RESPONSE && Foreseeable(next, maxResponseBody) && next.Bytes() <= stream
    }

    /** The head of the next response was read ahead already. */
    ghost predicate HeadAtHand()
      reads this
    {
      Find(pending, BLANK, 0).Some?
    }

    /** Uses the connection if it is up, or makes a new one; then nothing that was
        read ahead on the old one is left. */
    method Open(req: HttpRequest) returns (status: Status, ghost reused: bool, ghost base: string)
      requires Valid() && InSync()
      modifies this`pending, conn
      ensures Valid() && InSync() && conn.outbound == old(conn.outbound)
      ensures if reused then
                && status == Ok && old(conn.open) && conn.open && base == Stream() == old(Stream())
                && pending == old(pending)
                && unchanged(conn`inbound, conn`whole, conn`epoch, conn`stalls, conn`steady)
              else pending == ""
      ensures Called(!reused, old(conn.dialled), conn.dialled, (req.host, req.port))
      ensures !reused && status == Ok ==>
                conn.open && conn.epoch == old(conn.epoch) + 1 && base == Stream() == conn.inbound == conn.whole
      ensures status.Fail? ==>
                && !reused && IsConnectError(status.error) && status.error != Timeout
                && unchanged(conn`inbound, conn`whole, conn`epoch, conn`stalls, conn`steady)
      ensures old(Calm()) ==> reused
    {
      hide IsSuffix;
      var up := conn.Connected();
      status, reused, base := Ok, up, Stream();
      if !up {
        pending := "";
        SuffixOfSuffix(old(pending), conn.inbound, conn.whole);
        EmptyPrefix(conn.inbound);
        status := conn.Connect(req.host, req.port);
        if status == Ok {
          WholeIsSuffix(conn.inbound);
          EmptyPrefix(conn.inbound);
          base := conn.whole;
        }
      }
    }

    /** One attempt. On success `head` and `raw` are the wire bytes of the
        response, read off the front of `base`. */
    method SendOnce(req: HttpRequest, outIn: HttpResponse, ghost next: WireResponse)
      returns (status: Status, out: HttpResponse, ghost reused: bool, ghost base: string, ghost head: string,
               ghost raw: string)
      requires Valid() && InSync() && |req.body| < TWO_32
      modifies this, conn
      ensures Valid() && InSync()
      ensures conn.epoch == old(conn.epoch) ==> conn.steady == old(conn.steady) && conn.whole == old(conn.whole)
      // an attempt either uses the connection it found, or makes its own
      ensures reused ==> old(conn.open) && conn.epoch == old(conn.epoch) && base == old(Stream())
      ensures !reused ==>
                || (conn.epoch == old(conn.epoch) + 1 && base == conn.whole)
                || (conn.epoch == old(conn.epoch) && status.Fail? && IsConnectError(status.error))
      ensures Called(!reused, old(conn.dialled), conn.dialled, (req.host, req.port))
      ensures old(attempts) < attempts && |attempts| == |old(attempts)| + 1
      ensures var a := attempts[|old(attempts)|];
        && a == Attempt(reused, sawResponseBytes, status, a.wire)
        && SentAsTold(a, RequestBytes(req, keepAlive)) && conn.outbound == old(conn.outbound) + a.wire
      ensures (status == Fail(Timeout) ==> hasClock) && (reusable ==> status == Ok && keepAlive)
      // an attempt that saw nothing has taken nothing off the connection
      ensures !sawResponseBytes ==> status != Ok
      ensures !sawResponseBytes ==>
                conn.inbound == if conn.epoch == old(conn.epoch) then old(conn.inbound) else conn.whole
      ensures status == Ok ==> IsSuffix(base, conn.whole)
      ensures status == Ok ==> Exchanged(base, head, raw, Stream(), outIn, out)
      ensures conn.epoch == old(conn.epoch) ==> |conn.inbound| <= |old(conn.inbound)|
      ensures status == Ok && !KeepsSurplus(out) ==> pending == ""
      ensures status == Ok ==> IsSuffix(RequestBytes(req, keepAlive), conn.outbound)
      ensures status == Ok ==> |out.body| <= maxResponseBody || (Bodiless(out.status) && out.body == outIn.body)
      ensures status == Ok && keepAlive ==>
                reusable == conn.open && (conn.open ==> PermitsReuse(out.headers, !Bodiless(out.status)))
      ensures peak <= |outIn.body| + HeadLimit() || peak <= maxResponseBody + recvBufferSize
      ensures old(Expecting(next, Stream(), outIn)) ==>
                reused && status == FateOf(next, maxResponseBody) && conn.open
      ensures old(Expecting(next, Stream(), outIn) && HeadAtHand()) && (status == Ok ==> Bodiless(out.status)) ==>
                Stream() == old(conn.inbound)
    {
      hide Exchanged, Foreseeable, FateOf, PermitsReuse, Bodiless, IsSuffix, RequestBytes, KeepsSurplus, Find,
           OccursAt, TooLarge, SentAsTold, IsConnectError, Called;
      peak := |outIn.body|;
      out, head, raw := outIn, "", "";
      var start := Now();
      sawResponseBytes, reusable := false, false;
      status, reused, base := Open(req);
      if status != Ok {
        EmptySuffix(conn.outbound);
        ConnectErrorTells(Attempt(reused, sawResponseBytes, status, ""), RequestBytes(req, keepAlive));
        RecordAttempt(reused, status, "");
        return;
      }
      var wire := SerializeRequest(req, keepAlive);
      ghost var before := conn.outbound;
      ghost var sent;
      status, out, head, raw, sent := Exchange(wire, outIn, start, base, next);
      EndsWith(before, wire);
      EndTells(Attempt(reused, sawResponseBytes, status, wire[..sent]), wire, sent);
      RecordAttempt(reused, status, wire[..sent]);
    }

    /** Sends a request. If the socket was found open and the attempt ended stale,
        it is repeated once on a new connection; a response is always read off a
        single connection's stream. */
    method Send(req: HttpRequest, outIn: HttpResponse, ghost next: WireResponse)
      returns (status: Status, out: HttpResponse, ghost base: string, ghost head: string, ghost raw: string,
               ghost foundOpen: bool)
      requires Valid() && InSync() && |req.body| < TWO_32
      modifies this, conn
      ensures Valid() && InSync()
      // one attempt, or two: the second exactly if the socket was found open at first and the first
      // attempt ended stale and unanswered, whether it used that socket or made its own connection
      ensures old(attempts) < attempts && |attempts| <= |old(attempts)| + 2
      ensures attempts[|attempts| - 1].status == status
      ensures (status == Fail(Timeout) ==> hasClock) && (reusable ==> status == Ok && keepAlive)
      ensures |attempts| == |old(attempts)| + 2 <==> Replays(foundOpen, attempts[|old(attempts)|])
      ensures (foundOpen ==> old(conn.open)) && (attempts[|old(attempts)|].reused ==> foundOpen)
      ensures |attempts| == |old(attempts)| + 2 ==> !attempts[|old(attempts)| + 1].reused
      // each new connection is made to the request's own host and port
      ensures CalledOnly(old(conn.dialled), conn.dialled, (req.host, req.port))
      // what each of them put on the wire
      ensures forall i | |old(attempts)| <= i < |attempts| ::
                SentAsTold(attempts[i], RequestBytes(req, keepAlive))
      ensures conn.outbound == old(conn.outbound) + attempts[|old(attempts)|].wire
                               + (if Replayed(old(attempts)) then attempts[|old(attempts)| + 1].wire else "")
      // the response is one exchange on one connection: the bytes left over from
      // before, if the connection survived, or the stream of a new one
      ensures status == Ok ==>
                && Exchanged(base, head, raw, Stream(), if Replayed(old(attempts)) then EMPTY_RESPONSE else outIn, out)
                && IsSuffix(base, conn.whole)
                && base == if attempts[|attempts| - 1].reused then old(Stream()) else conn.whole
      // a new connection shows, and only one exchange fits between two of them
      ensures old(conn.epoch) <= conn.epoch && (conn.epoch == old(conn.epoch) ==> conn.whole == old(conn.whole))
      ensures status == Ok ==>
                (conn.epoch == old(conn.epoch) <==> attempts[|attempts| - 1].reused && !Replayed(old(attempts)))
      // behind any other than a Content-Length body, what was read ahead is lost
      ensures status == Ok && conn.epoch == old(conn.epoch) && !KeepsSurplus(out) ==> |Stream()| <= |old(conn.inbound)|
      ensures status == Ok ==> IsSuffix(RequestBytes(req, keepAlive), conn.outbound)
      ensures status == Ok && outIn.body == "" ==> |out.body| <= maxResponseBody
      ensures status == Ok && keepAlive ==>
                reusable == conn.open && (conn.open ==> PermitsReuse(out.headers, !Bodiless(out.status)))
      ensures peak <= |outIn.body| + HeadLimit() || peak <= maxResponseBody + recvBufferSize
      // a calm connection whose stream starts with a response that is settled by its head
      ensures old(Expecting(next, Stream(), outIn)) ==>
                && status == FateOf(next, maxResponseBody)
                && Calm() && conn.epoch == old(conn.epoch) && |attempts| == |old(attempts)| + 1
      ensures old(Expecting(next, Stream(), outIn)) && WellFormed(next, maxResponseBody) ==>
                status == Ok && out == Meaning(next) && old(Stream()) == next.Bytes() + Stream()
      ensures old(Expecting(next, Stream(), outIn) && HeadAtHand()) && (status == Ok ==> Bodiless(out.status)) ==>
                Stream() == old(conn.inbound)
    {
      hide Exchanged, WellFormed, Foreseeable, PermitsReuse, Bodiless, RequestBytes, IsConnectError, IsSuffix, Meaning,
           KeepsSurplus, SentAsTold, Find, OccursAt, FateOf, TooLarge, CalledOnly, Called;
      ghost var reused;
      ghost var expecting, stream := Expecting(next, Stream(), outIn), Stream();
      var wasOpen := conn.Connected();
      foundOpen := wasOpen;
      status, out, reused, base, head, raw := SendOnce(req, outIn, next);
      EmptySuffix(conn.outbound);
      NowCalled(!reused, old(conn.dialled), conn.dialled, (req.host, req.port));
      ghost var called := conn.dialled;
      if status.Fail? && wasOpen && !sawResponseBytes && IsStaleError(status.error) {
        conn.Stop();
        out := EMPTY_RESPONSE;
        status, out, reused, base, head, raw := SendOnce(req, out, next);
        CalledAgain(!reused, old(conn.dialled), called, conn.dialled, (req.host, req.port));
      } else if expecting && WellFormed(next, maxResponseBody) {
        WellFormedForeseen(next, maxResponseBody);
        TakenExactly(next, stream, maxResponseBody, head, raw, Stream(), out);
      }
    }

    /** The last call of `Send` needed a second attempt. */
    ghost predicate Replayed(before: seq<Attempt>)
      reads this
    {
      |attempts| == |before| + 2
    }

    ghost method RecordAttempt(reused: bool, status: Status, wire: string)
      modifies this`attempts
      ensures attempts == old(attempts) + [Attempt(reused, sawResponseBytes, status, wire)]
    {
      attempts := attempts + [Attempt(reused, sawResponseBytes, status, wire)];
    }

    /** The part of an attempt that has a connection: write, read, settle. */
    method Exchange(wire: string, outIn: HttpResponse, start: nat, ghost base: string, ghost next: WireResponse)
      returns (status: Status, out: HttpResponse, ghost head: string, ghost raw: string, ghost sent: nat)
      requires Valid() && InSync() && base == Stream() && !sawResponseBytes && !reusable
      modifies this`pending, this`sawResponseBytes, this`peak, this`reusable
      modifies conn`open, conn`stalls, conn`inbound, conn`outbound
      ensures Valid() && InSync()
      ensures !sawResponseBytes ==> status != Ok && conn.inbound == old(conn.inbound)
      ensures conn.open ==> old(conn.open)
      ensures status == Ok ==> Exchanged(base, head, raw, Stream(), outIn, out)
      ensures |conn.inbound| <= |old(conn.inbound)|
      ensures status == Ok && !KeepsSurplus(out) ==> pending == ""
      ensures sent <= |wire| && conn.outbound == old(conn.outbound) + wire[..sent]
      ensures status == Ok || status == Fail(HttpMalformed) ==> sent == |wire|
      ensures status == Fail(WriteFailed) ==> sent < |wire|
      ensures status == Fail(ConnectionClosed) ==> sawResponseBytes
      ensures (status == Fail(Timeout) ==> hasClock) && (reusable ==> status == Ok && keepAlive)
      ensures status == Ok ==> |out.body| <= maxResponseBody || (Bodiless(out.status) && out.body == outIn.body)
      ensures status == Ok && keepAlive ==>
                reusable == conn.open && (conn.open ==> PermitsReuse(out.headers, !Bodiless(out.status)))
      ensures peak <= old(peak) || peak <= |outIn.body| + HeadLimit() || peak <= maxResponseBody + recvBufferSize
      ensures old(Expecting(next, base, outIn)) ==> status == FateOf(next, maxResponseBody) && conn.open
      ensures old(Expecting(next, base, outIn) && HeadAtHand()) && (status == Ok ==> Bodiless(out.status)) ==>
                Stream() == old(conn.inbound)
    {
      hide Exchanged, Foreseeable, PermitsReuse, Bodiless, KeepsSurplus, Find;
      out, head, raw := outIn, "", "";
      status, sent := WriteAll(wire, start);
      if status != Ok { return; }
      status, out, head, raw := ReadResponse(outIn, start, base, next);
      if status != Ok { return; }
      if keepAlive {
        var hasBody := !Bodiless(out.status);
        var permitted := MayReuse(out.headers, hasBody);
        Settle(permitted);
      }
    }

    method ReadResponse(outIn: HttpResponse, start: nat, ghost base: string, ghost next: WireResponse)
      returns (status: Status, out: HttpResponse, ghost head: string, ghost raw: string)
      requires Valid() && InSync() && base == Stream() && !sawResponseBytes
      modifies this`pending, this`sawResponseBytes, this`peak, conn`open, conn`stalls, conn`inbound
      ensures Valid() && InSync()
      ensures !sawResponseBytes ==> status != Ok && conn.inbound == old(conn.inbound)
      ensures conn.open ==> old(conn.open)
      ensures status == Ok ==> Exchanged(base, head, raw, Stream(), outIn, out)
      ensures |conn.inbound| <= |old(conn.inbound)|
      ensures status == Ok && !KeepsSurplus(out) ==> pending == ""
      ensures status == Ok ==> |out.body| <= maxResponseBody || (Bodiless(out.status) && out.body == outIn.body)
      ensures peak <= old(peak) || peak <= |outIn.body| + HeadLimit() || peak <= maxResponseBody + recvBufferSize
      ensures status in {Ok, Fail(HttpMalformed), Fail(HttpBodyTooLarge), Fail(ConnectionClosed), Fail(Timeout)}
      ensures status == Fail(Timeout) ==> hasClock
      ensures status == Fail(ConnectionClosed) ==> sawResponseBytes
      ensures old(Expecting(next, base, outIn)) ==>
                && status == FateOf(next, maxResponseBody) && conn.open
                && (status == Ok ==> PermitsReuse(out.headers, !Bodiless(out.status)))
      ensures old(Expecting(next, base, outIn) && HeadAtHand()) && (status == Ok ==> Bodiless(out.status)) ==>
                Stream() == old(conn.inbound)
    {
      hide Exchanged, PermitsReuse, FramingOf, HeadApplied, BodyOf, Find, IsSuffix, Bodiless, Foreseeable, OccursAt,
           ParseHead, TooLarge, KeepsSurplus, Ready, WholeBody;
      raw := "";
      var leftover;
      ghost var acc;
      status, leftover, out, head, acc := ReadHead(outIn, start, base, next);
      EmptyPrefix(conn.inbound);
      if status != Ok { return; }
      ghost var inbound, mid := conn.inbound, out;
      SurplusByFraming(mid);
      status, out, raw := ReadRest(leftover, out, start);
      EmptyPrefix(conn.inbound);
      SuffixKept(conn.whole, base, acc, inbound, |head| + 4, raw, Stream());
      HeadIgnoresBody(head, outIn, mid, out);
      SurplusByHead(mid, out);
      if status != Ok { return; }
      ExchangeMade(base, acc, inbound, raw, Stream(), outIn, out);
    }

    /** The head of a response, and what it says of the rest. */
    method ReadHead(outIn: HttpResponse, start: nat, ghost base: string, ghost next: WireResponse)
      returns (status: Status, leftover: string, mid: HttpResponse, ghost head: string, ghost acc: string)
      requires Valid() && InSync() && base == Stream() && !sawResponseBytes
      modifies this`pending, this`sawResponseBytes, conn`open, conn`stalls, conn`inbound
      ensures Valid() && InSync() && pending == "" && |acc| <= HeadLimit()
      ensures !sawResponseBytes ==> status != Ok && conn.inbound == old(conn.inbound)
      ensures conn.open ==> old(conn.open)
      ensures base == acc + conn.inbound && |conn.inbound| <= |old(conn.inbound)|
      ensures status in {Ok, Fail(HttpMalformed), Fail(Timeout)} && (status == Fail(Timeout) ==> hasClock)
      ensures status == Ok ==>
                && Find(acc, BLANK, 0) == Some(|head|) && |head| + 4 <= |acc|
                && head == acc[..|head|] && leftover == acc[|head| + 4..]
                && HeadApplied(head, outIn, mid) && mid.body == outIn.body
      ensures old(HeadAtHand()) && status == Ok ==> conn.inbound == old(conn.inbound)
      ensures old(Expecting(next, base, outIn)) ==>
                && status == Ok && conn.open && PermitsReuse(mid.headers, !Bodiless(mid.status))
                && (TooLarge(next, maxResponseBody) ==>
                      !Bodiless(mid.status) && FramingOf(mid.headers).Sized?
                      && FramingOf(mid.headers).want > maxResponseBody)
                && (!TooLarge(next, maxResponseBody) && !Bodiless(mid.status) ==>
                      Ready(FramingOf(mid.headers), leftover + conn.inbound, maxResponseBody))
    {
      hide PermitsReuse, FramingOf, HeadApplied, Find, IsSuffix, Bodiless, Foreseeable, OccursAt, ParseHead, TooLarge,
           HeadLoop, Parts, Joined, Ready, WholeBody;
      ghost var expecting := Expecting(next, base, outIn);
      if expecting { NextHead(next, base, maxResponseBody); }
      head := "";
      ghost var parts;
      status, leftover, mid, acc, parts := ReadHeaders(outIn, start);
      SuffixOfSuffix(acc, conn.inbound, conn.whole);
      EmptyPrefix(conn.inbound);
      if status != Ok { return; }
      FirstBlankExtends(acc, conn.inbound);
      if acc == old(pending) { SplitUnique(acc, conn.inbound, acc, old(conn.inbound)); }
      if expecting { NextBody(next, base, maxResponseBody, acc, conn.inbound, mid); }
      head := acc[..Find(acc, BLANK, 0).value];
    }

    /** What follows the head: nothing if there is no body. */
    method ReadRest(leftover: string, mid: HttpResponse, startMs: nat)
      returns (status: Status, out: HttpResponse, ghost raw: string)
      requires Valid() && pending == "" && |leftover| <= HeadLimit()
      modifies this`pending, this`peak, conn`open, conn`stalls, conn`inbound
      ensures Valid()
      ensures conn.open ==> old(conn.open)
      ensures out == mid.(body := out.body)
      ensures raw + Stream() == leftover + old(conn.inbound) && |conn.inbound| <= |old(conn.inbound)|
      ensures status == Ok && Bodiless(mid.status) ==> out == mid
      ensures status == Ok && !Bodiless(mid.status) ==>
                BodyOf(FramingOf(mid.headers), raw, mid.body, out.body) && |out.body| <= maxResponseBody
      ensures status != Ok || !KeepsSurplus(mid) ==> pending == ""
      ensures status in {Ok, Fail(HttpMalformed), Fail(HttpBodyTooLarge), Fail(ConnectionClosed), Fail(Timeout)}
      ensures status == Fail(Timeout) ==> hasClock
      ensures peak <= old(peak) || peak <= maxResponseBody + recvBufferSize || peak <= |mid.body| + |leftover|
      // where the head settles it
      ensures Bodiless(mid.status) ==> status == Ok && conn.open == old(conn.open) && conn.inbound == old(conn.inbound)
      ensures KeepsSurplus(mid) && FramingOf(mid.headers).want > maxResponseBody ==>
                && status == Fail(HttpBodyTooLarge)
                && conn.open == old(conn.open) && conn.inbound == old(conn.inbound)
      ensures old(Calm()) && !Bodiless(mid.status) && mid.body == ""
              && Ready(FramingOf(mid.headers), leftover + old(conn.inbound), maxResponseBody) ==>
                status == Ok && conn.open
    {
      hide FramingOf, BodyOf, Bodiless;
      status, out, raw := Ok, mid, leftover;
      EmptyPrefix(conn.inbound);
      if !Bodiless(mid.status) {
        status, out, raw := ReadBody(leftover, mid, startMs);
      }
    }

    method MayReuse(headers: seq<Header>, hasBody: bool) returns (b: bool)
      ensures b == PermitsReuse(headers, hasBody)
    {
      var framing := ReadFraming(headers);
      b := !AnnouncesClose(headers) && (!hasBody || !framing.UntilClose?);
    }

    /** The socket stays open for more only if the response permits it. */
    method Settle(permitted: bool)
      modifies this`reusable, conn`open
      ensures reusable == conn.open
      ensures conn.open ==> old(conn.open) && permitted
      ensures old(conn.open) && conn.steady && permitted ==> conn.open
    {
      reusable := false;
      if permitted { reusable := conn.Connected(); }
      if !reusable { conn.Stop(); }
    }
  }

  /** The bytes taken so far have been decoded to what was added to `before`. */
  ghost predicate Unchunked(raw: string, regs: Chunked.Registers, before: string, body: string) {
    var r := Chunked.Decode(Chunked.START, raw);
    r.ok && r.state == regs && body == before + r.out
  }

  lemma {:induction false} UnchunkedStart(before: string)
    ensures Unchunked("", Chunked.START, before, before)
  {
    EmptySuffix(before);
  }

  lemma {:induction false} UnchunkedMore(raw: string, regs: Chunked.State, before: string, body: string, bytes: string)
    requires Unchunked(raw, regs, before, body)
    ensures var r := Chunked.Decode(regs, bytes);
      && (r.ok ==> Unchunked(raw + bytes, r.state, before, body + r.out)) && |r.out| <= |bytes|
      && (r.ok <==> Chunked.Decode(Chunked.START, raw + bytes).ok)
  {
    Chunked.DecodeConcat(Chunked.START, raw, bytes);
    Chunked.OutputBounded(regs, bytes);
    hide Chunked.Decode;
    var soFar := Chunked.Decode(Chunked.START, raw).out;
    ConcatAssociates(before, soFar, Chunked.Decode(regs, bytes).out);
  }

  lemma {:induction false} UnchunkedSoFar(raw: string, regs: Chunked.Registers, before: string, body: string)
    requires Unchunked(raw, regs, before, body)
    ensures var r := Chunked.Decode(Chunked.START, raw);
      r.ok && r.state == regs && (before == "" ==> |body| == |r.out|)
  {
    hide Chunked.Decode;
  }

  /** As long as a whole chunked body is not read, there is more of it to come. */
  lemma {:induction false} ChunksAhead(raw: string, inbound: string, maxBody: nat)
    requires Ready(Chunks, raw + inbound, maxBody)
    ensures var r := Chunked.Decode(Chunked.START, raw);
      r.ok && |r.out| <= maxBody && (r.state.mode != Chunked.Done ==> inbound != "")
  {
    Chunked.DecodeConcat(Chunked.START, raw, inbound);
    EmptySuffix(raw);
    hide Chunked.Decode;
  }

  lemma {:induction false} UnchunkedEnd(raw: string, regs: Chunked.Registers, before: string, body: string)
    requires Unchunked(raw, regs, before, body) && regs.mode == Chunked.Done
    ensures BodyOf(Chunks, raw, before, body)
  {
    hide Chunked.Decode;
  }

  lemma {:induction false} SuffixKept(whole: string, base: string, acc: string, inbound: string, k: nat, raw: string,
                                      rest: string)
    requires IsSuffix(base, whole) && base == acc + inbound && k <= |acc|
    requires raw + rest == acc[k..] + inbound
    ensures IsSuffix(rest, whole)
  {
    assert acc == acc[..k] + acc[k..];
    ConcatAssociates(acc[..k], acc[k..], inbound);
    SuffixOfSuffix(acc[..k], raw + rest, whole);
    SuffixOfSuffix(raw, rest, whole);
  }

  lemma {:induction false} TakenExactly(w: WireResponse, stream: string, maxBody: nat,
                                        head: string, raw: string, rest: string, after: HttpResponse)
    requires WellFormed(w, maxBody) && w.Bytes() <= stream
    requires Exchanged(stream, head, raw, rest, EMPTY_RESPONSE, after)
    ensures after == Meaning(w) && stream == w.Bytes() + rest
  {
    hide WellFormed, Exchanged, ParseHead;
    var more := stream[|w.Bytes()|..];
    assert stream == w.Bytes() + more;
    ExchangeIsDetermined(w, more, maxBody, head, raw, rest, after);
  }

  lemma {:induction false} HeadIgnoresBody(head: string, before: HttpResponse, mid: HttpResponse, after: HttpResponse)
    requires HeadApplied(head, before, mid) && after == mid.(body := after.body)
    ensures HeadApplied(head, before, after)
  {
    hide ParseHead;
  }

  lemma {:induction false} EndsWith(a: string, b: string)
    ensures IsSuffix(b, a + b)
  {
  }

  lemma {:induction false} WholeIsSuffix(s: string)
    ensures "" + s == s && IsSuffix(s, s)
  {
  }

  /** The block handed to the head parser is the head with its last CRLF. */
  lemma {:induction false} HeadOfPrefix(acc: string, rest: string, e: nat)
    requires Find(acc, BLANK, 0) == Some(e)
    ensures acc[..e + 2] == acc[..e] + CRLF
    ensures (acc + rest)[..e] == acc[..e]
  {
    assert acc[e..e + 4] == BLANK;
    assert acc[e..e + 4][..2] == acc[e..e + 2];
  }

  /** A caller that sends one request after another on a calm keep-alive
      connection gets exactly the responses in the stream, in order, however
      the bytes arrive; what is read ahead and what is unread together are the
      responses not yet returned. */
  method SendAll(client: HttpClient, reqs: seq<HttpRequest>, ghost ws: seq<WireResponse>, ghost more: string)
    returns (outs: seq<HttpResponse>)
    requires client.Valid() && client.InSync() && client.Calm() && client.keepAlive
    requires |reqs| == |ws|
    requires forall k | 0 <= k < |ws| :: WellFormed(ws[k], client.maxResponseBody) && |reqs[k].body| < TWO_32
    requires client.Stream() == AllBytes(ws) + more
    modifies client, client.conn
    ensures |outs| == |ws| && forall k | 0 <= k < |ws| :: outs[k] == Meaning(ws[k])
    ensures client.Stream() == more
    ensures client.conn.epoch == old(client.conn.epoch)
    ensures |client.attempts| == |old(client.attempts)| + |reqs|
  {
    hide WellFormed, Foreseeable, Exchanged, PermitsReuse, RequestBytes, ParseHead, Meaning, IsSuffix, Bodiless,
         IsStaleError, KeepsSurplus, SentAsTold, Replays, Find;
    outs := [];
    for i := 0 to |reqs|
      invariant client.Valid() && client.InSync() && client.Calm()
      invariant |outs| == i && forall k | 0 <= k < i :: outs[k] == Meaning(ws[k])
      invariant client.Stream() == AllBytes(ws[i..]) + more
      invariant client.conn.epoch == old(client.conn.epoch)
      invariant |client.attempts| == |old(client.attempts)| + i
    {
      ghost var rest := AllBytes(ws[i + 1..]) + more;
      assert ws[i..][0] == ws[i] && ws[i..][1..] == ws[i + 1..];
      ConcatAssociates(ws[i].Bytes(), AllBytes(ws[i + 1..]), more);
      WellFormedForeseen(ws[i], client.maxResponseBody);
      ghost var b, h, r, found;
      var status, out;
      status, out, b, h, r, found := client.Send(reqs[i], EMPTY_RESPONSE, ws[i]);
      SplitUnique(ws[i].Bytes(), rest, ws[i].Bytes(), client.Stream());
      outs := outs + [out];
    }
  }

  /** The same for any clock and any connection: requests sent one after the
      other until one fails. As long as the connection they started on has not
      been replaced, the responses are those in the stream, in order. */
  method SendEach(client: HttpClient, reqs: seq<HttpRequest>, ghost ws: seq<WireResponse>, ghost more: string)
    returns (outs: seq<HttpResponse>, ok: bool)
    requires client.Valid() && client.InSync()
    requires |reqs| == |ws|
    requires forall k | 0 <= k < |ws| :: WellFormed(ws[k], client.maxResponseBody) && |reqs[k].body| < TWO_32
    requires client.Stream() == AllBytes(ws) + more
    modifies client, client.conn
    ensures client.Valid() && client.InSync() && old(client.conn.epoch) <= client.conn.epoch
    ensures |outs| <= |ws| && (ok <==> |outs| == |ws|)
    ensures client.conn.epoch == old(client.conn.epoch) ==> forall k | 0 <= k < |outs| :: outs[k] == Meaning(ws[k])
    ensures client.conn.epoch == old(client.conn.epoch) && ok ==> client.Stream() == more
  {
    hide WellFormed, Foreseeable, Exchanged, PermitsReuse, RequestBytes, ParseHead, Meaning, IsSuffix, Bodiless,
         IsStaleError, KeepsSurplus, SentAsTold, Replays, Find;
    outs, ok := [], true;
    for i := 0 to |reqs|
      invariant client.Valid() && client.InSync() && old(client.conn.epoch) <= client.conn.epoch
      invariant |outs| == i && ok
      invariant client.conn.epoch == old(client.conn.epoch) ==>
                  && client.Stream() == AllBytes(ws[i..]) + more
                  && forall k | 0 <= k < i :: outs[k] == Meaning(ws[k])
    {
      ghost var stream, epoch, rest := client.Stream(), client.conn.epoch, AllBytes(ws[i + 1..]) + more;
      assert ws[i..][0] == ws[i] && ws[i..][1..] == ws[i + 1..];
      ConcatAssociates(ws[i].Bytes(), AllBytes(ws[i + 1..]), more);
      ghost var base, head, raw, found;
      var status, out;
      status, out, base, head, raw, found := client.Send(reqs[i], EMPTY_RESPONSE, ws[i]);
      if status != Ok { return outs, false; }
      if client.conn.epoch == old(client.conn.epoch) {
        ExchangeIsDetermined(ws[i], rest, client.maxResponseBody, head, raw, client.Stream(), out);
      }
      outs := outs + [out];
    }
  }

  // ---- What is lost, and what gets out of step ----

  /** A response without a body, and behind it, read ahead already, the next
      one: the next one is lost, for any clock and connection if the request
      succeeds, and on a calm connection it does. */
  method SurplusIsLost(client: HttpClient, req: HttpRequest, ghost w: WireResponse, ghost next: string)
    returns (status: Status, out: HttpResponse)
    requires client.Valid() && client.InSync() && |req.body| < TWO_32
    requires WithoutBody(w) && client.pending == w.Bytes() + next
    modifies client, client.conn
    ensures status == Ok && client.conn.epoch == old(client.conn.epoch) ==>
              Bodiless(out.status) && |client.Stream()| <= |old(client.conn.inbound)|
    ensures old(client.Calm()) && client.keepAlive && Foreseeable(w, client.maxResponseBody) ==>
              && status == Ok && client.conn.epoch == old(client.conn.epoch)
              && client.Calm() && client.Stream() == old(client.conn.inbound)
  {
    hide Exchanged, PermitsReuse, RequestBytes, ParseHead, IsSuffix, IsStaleError, Bodiless, SentAsTold, Replays,
         Foreseeable, Find, OccursAt;
    ghost var base, head, raw, found;
    ghost var inbound := client.conn.inbound;
    ConcatAssociates(w.Bytes(), next, inbound);
    BlankAtHand(w, next);
    NotTooLarge(w, client.maxResponseBody);
    status, out, base, head, raw, found := client.Send(req, EMPTY_RESPONSE, w);
    if status == Ok && client.conn.epoch == old(client.conn.epoch) {
      BodilessRead(w, next + inbound, head, raw, client.Stream(), out);
    }
  }

  /** A complete response without a body. */
  ghost predicate WithoutBody(w: WireResponse) {
    && w.body == "" && Find(w.head + BLANK, BLANK, 0) == Some(|w.head|)
    && ParseHead(w.head + CRLF).Some? && Bodiless(ParseHead(w.head + CRLF).value.status)
  }

  lemma {:induction false} BlankAtHand(w: WireResponse, more: string)
    requires Find(w.head + BLANK, BLANK, 0).Some?
    ensures Find(w.Bytes() + more, BLANK, 0).Some?
  {
    FirstBlankExtends(w.head + BLANK, w.body + more);
    ConcatAssociates(w.head + BLANK, w.body, more);
    hide Find, OccursAt;
  }

  lemma {:induction false} NotTooLarge(w: WireResponse, maxBody: nat)
    requires WithoutBody(w)
    ensures FateOf(w, maxBody) == Ok
  {
    hide ParseHead, Bodiless, Find, FramingOf;
  }

  lemma {:induction false} BodilessRead(w: WireResponse, more: string, head: string, raw: string, rest: string,
                                        after: HttpResponse)
    requires WithoutBody(w) && Exchanged(w.Bytes() + more, head, raw, rest, EMPTY_RESPONSE, after)
    ensures Bodiless(after.status)
  {
    hide ParseHead, Bodiless, Find;
    FirstBlankExtends(w.head + BLANK, more);
    EmptySuffix(w.head + BLANK);
    ConcatAssociates(head + BLANK, raw, rest);
    SplitUnique(w.head + BLANK, more, head + BLANK, raw + rest);
    SplitUnique(w.head, BLANK, head, BLANK);
  }

  /** Every interim response is one, and every 204 and 304, whatever its headers
      say of a length. */
  lemma {:induction false} RenderedWithoutBody(code: nat, reason: string, headers: seq<Header>, maxBody: nat)
    requires 100 <= code < 200 || code in {204, 304}
    requires CleanText(reason) && Trim(reason) == reason && CleanHeaders(headers) && !AnnouncesClose(headers)
    requires |LinesText(ResponseLines(code, reason, headers))| < MAX_HEADER_SECTION
    ensures var w := Rendered(code, reason, headers, ""); WithoutBody(w) && Foreseeable(w, maxBody)
  {
    var w := Rendered(code, reason, headers, "");
    RenderedHeadEnds(code, reason, headers, "");
    RenderedHeadRead(code, reason, headers);
    RenderedBody(code, reason, headers, "");
    assert |w.head + CRLF| == |w.head| + 2;
    hide Find, OccursAt, ParseHead, StatusLine, LinesText, CleanHeaders, AnnouncesClose, FramingOf, HeaderTexts,
         Rendered, WholeBody, ResponseLines, CleanText, Trim;
    EndsAtOnce(w, maxBody);
  }

  lemma {:induction false} EndsAtOnce(w: WireResponse, maxBody: nat)
    requires Find(w.head + BLANK, BLANK, 0) == Some(|w.head|) && |w.head| + 3 <= MAX_HEADER_SECTION && w.body == ""
    requires match ParseHead(w.head + CRLF)
             case None => false
             case Some(h) => Bodiless(h.status) && !AnnouncesClose(h.headers)
    ensures WithoutBody(w) && Foreseeable(w, maxBody)
  {
    hide Find, OccursAt, ParseHead, AnnouncesClose, FramingOf, WholeBody, Bodiless;
  }

  /** So such responses exist. */
  lemma {:induction false} NoContent(maxBody: nat) returns (w: WireResponse)
    ensures WithoutBody(w) && Foreseeable(w, maxBody)
  {
    ReasonlessClean();
    StatusLineLength(204, "");
    OnlyStatusLine(204, "");
    hide Find, ParseHead, StatusLine, LinesText;
    RenderedWithoutBody(204, "", [], maxBody);
    w := Rendered(204, "", [], "");
  }

  lemma {:induction false} OnlyStatusLine(code: nat, reason: string)
    ensures LinesText(ResponseLines(code, reason, [])) == StatusLine(code, reason) + CRLF
    ensures !AnnouncesClose([])
  {
    FirstLine(StatusLine(code, reason), []);
    EmptySuffix(StatusLine(code, reason) + CRLF);
    hide StatusLine;
  }

  /** A request that fails leaves its connection where it stopped reading. If
      what is left starts like a response, the next request takes it for its own.
      It happens: on a calm connection, with the head of a response `big` at hand
      whose body is too large and starts like that. */
  method SendAfterFailure(client: HttpClient, first: HttpRequest, second: HttpRequest, ghost big: WireResponse,
                          ghost x: WireResponse, ghost more: string)
    returns (failed: Status, status: Status, out: HttpResponse, ghost left: string)
    requires client.Valid() && client.InSync() && |first.body| < TWO_32 && |second.body| < TWO_32
    requires WellFormed(x, client.maxResponseBody)
    modifies client, client.conn
    ensures client.conn.epoch == old(client.conn.epoch) ==> IsSuffix(left, old(client.conn.whole))
    ensures failed.Fail? && status == Ok && client.conn.epoch == old(client.conn.epoch) && left == x.Bytes() + more ==>
              out == Meaning(x) && client.Stream() == more
    ensures old(client.Calm() && client.keepAlive)
            && old(client.pending) == big.Bytes() && old(client.conn.inbound) == x.Bytes() + more
            && Foreseeable(big, client.maxResponseBody) && TooLarge(big, client.maxResponseBody) ==>
              && failed == Fail(HttpBodyTooLarge) && status == Ok && client.conn.epoch == old(client.conn.epoch)
              && left == x.Bytes() + more && out == Meaning(x)
  {
    hide WellFormed, Foreseeable, TooLarge, Exchanged, PermitsReuse, RequestBytes, ParseHead, Meaning, Bodiless,
         IsStaleError, KeepsSurplus, SentAsTold, Replays, Find, OccursAt;
    ghost var base, head, raw, found;
    ghost var oversized := Foreseeable(big, client.maxResponseBody) && TooLarge(big, client.maxResponseBody);
    if oversized { HeadInPlace(big, client.maxResponseBody); }
    WellFormedForeseen(x, client.maxResponseBody);
    failed, out, base, head, raw, found := client.Send(first, EMPTY_RESPONSE, big);
    left := client.Stream();
    status, out, base, head, raw, found := client.Send(second, EMPTY_RESPONSE, x);
    if status == Ok && client.conn.epoch == old(client.conn.epoch) && left == x.Bytes() + more {
      ExchangeIsDetermined(x, more, client.maxResponseBody, head, raw, client.Stream(), out);
    }
  }

  lemma {:induction false} HeadInPlace(w: WireResponse, maxBody: nat)
    requires Foreseeable(w, maxBody)
    ensures Find(w.Bytes(), BLANK, 0).Some?
  {
    BlankAtHand(w, "");
    EmptySuffix(w.Bytes());
    hide Find, OccursAt, ParseHead, TooLarge;
  }

  /** Such heads exist for every cap. */
  lemma {:induction false} OversizedHead(maxBody: nat) returns (big: WireResponse)
    requires maxBody + 1 < TWO_32
    ensures Foreseeable(big, maxBody) && TooLarge(big, maxBody) && big.body == ""
  {
    var body := seq(maxBody + 1, _ => 'a');
    ReasonlessClean();
    hide CleanText, Trim, Rendered, WellFormed, Decimal, Foreseeable, TooLarge, Spells, CONTENT_LENGTH;
    ProperSpelling();
    EveryBodyCanBeSent(200, "", CONTENT_LENGTH, body, maxBody + 1);
    var w := Rendered(200, "", [Header(CONTENT_LENGTH, Decimal(|body|))], body);
    RenderedBody(200, "", [Header(CONTENT_LENGTH, Decimal(|body|))], body);
    big := WireResponse(w.head, "");
    LargerThanAllowed(w, maxBody);
  }

  lemma {:induction false} ProperSpelling()
    ensures Spells(CONTENT_LENGTH, "Content-Length")
  {
  }

  lemma {:induction false} ReasonlessClean()
    ensures CleanText("") && Trim("") == ""
  {
  }

  lemma {:induction false} LargerThanAllowed(w: WireResponse, maxBody: nat)
    requires WellFormed(w, maxBody + 1) && |w.body| == maxBody + 1
    ensures Foreseeable(WireResponse(w.head, ""), maxBody) && TooLarge(WireResponse(w.head, ""), maxBody)
  {
    hide Find, OccursAt, ParseHead, FramingOf, AnnouncesClose, Bodiless;
  }

  /** The body of one well-formed response may end with another one; a failure
      just before it leaves exactly that. */
  lemma {:induction false} BodyHoldsResponse(x: WireResponse, maxBody: nat) returns (w: WireResponse)
    requires |x.Bytes()| < maxBody < TWO_32
    ensures WellFormed(w, maxBody) && IsSuffix(x.Bytes(), w.Bytes()) && |x.body| < |w.body|
  {
    var body := "a" + x.Bytes();
    ReasonlessClean();
    ProperSpelling();
    EveryBodyCanBeSent(200, "", CONTENT_LENGTH, body, maxBody);
    hide WellFormed, Rendered;
    w := WireResponse(Rendered(200, "", [Header(CONTENT_LENGTH, Decimal(|body|))], body).head, body);
    RenderedBody(200, "", [Header(CONTENT_LENGTH, Decimal(|body|))], body);
    ConcatAssociates(w.head + BLANK, "a", x.Bytes());
    EndsWith(w.head + BLANK + "a", x.Bytes());
  }

  lemma {:induction false} RenderedBody(code: nat, reason: string, headers: seq<Header>, body: string)
    ensures Rendered(code, reason, headers, body).body == body
  {
  }
}
