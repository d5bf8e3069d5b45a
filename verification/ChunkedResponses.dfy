/** Chunked responses: what a client that has read one has got. */
module ChunkedResponses {
  import opened Core
  import opened Text
  import opened HttpTypes
  import opened HttpHead
  import opened RequestBuilder
  import opened HttpExchange
  import Chunked = ChunkedDecoderModel
  import opened ChunkedEncoding
  import opened Connections
  import opened HttpClientModel

  /** A response whose head announces chunks, and behind it any spelling of its
      chunks and any bytes more: whoever has read it off the stream has exactly
      the payload, and has read all of it. */
  lemma {:induction false} ChunkedExchange(head: string, raw: string, rest: string, after: HttpResponse,
                                           cs: seq<Chunk>, e: Ending, tail: string)
    requires forall k | 0 <= k < |cs| :: WellFormedChunk(cs[k])
    requires WellFormedEnding(e)
    requires Exchanged(head + BLANK + Encode(cs, e) + tail, head, raw, rest, EMPTY_RESPONSE, after)
    requires !Bodiless(after.status) && FramingOf(after.headers) == Chunks
    ensures after.body == Payload(cs) && Encode(cs, e) <= raw
  {
    ConcatAssociates(head + BLANK, raw, rest);
    ConcatAssociates(head + BLANK, Encode(cs, e), tail);
    SplitUnique(head + BLANK, raw + rest, head + BLANK, Encode(cs, e) + tail);
    hide Encode, Chunked.Decode, Payload, HeadApplied, FramingOf, Bodiless, WellFormedChunk, WellFormedEnding, Find;
    EmptyPrefix(Payload(cs));
    PayloadRead(raw, rest, cs, e, tail);
  }

  /** What takes the decoder to its end holds the whole encoding, and no more
      than the payload comes out of it. */
  lemma {:induction false} PayloadRead(raw: string, rest: string, cs: seq<Chunk>, e: Ending, tail: string)
    requires forall k | 0 <= k < |cs| :: WellFormedChunk(cs[k])
    requires WellFormedEnding(e) && raw + rest == Encode(cs, e) + tail
    requires var r := Chunked.Decode(Chunked.START, raw); r.ok && r.state.mode == Chunked.Done
    ensures Encode(cs, e) <= raw && Chunked.Decode(Chunked.START, raw).out == Payload(cs)
  {
    hide *;
    var all := Encode(cs, e);
    ShorterOrLonger(raw, rest, all, tail);
    RoundTrip(cs, e, if |raw| < |all| then "" else raw[|all|..]);
  }

  lemma {:induction false} ShorterOrLonger(a: string, b: string, c: string, d: string)
    requires a + b == c + d
    ensures if |a| < |c| then a == c[..|a|] else a == c + a[|c|..]
  {
    assert a == (a + b)[..|a|] && c == (c + d)[..|c|];
    if |a| < |c| { assert (c + d)[..|a|] == c[..|a|]; } else { assert (a + b)[..|c|] == a[..|c|]; }
  }

  /** A head that announces chunks, on a connection that stays open. */
  ghost predicate AnnouncesChunks(head: string) {
    && Find(head + BLANK, BLANK, 0) == Some(|head|) && |head| + 3 <= MAX_HEADER_SECTION
    && match ParseHead(head + CRLF)
       case None => false
       case Some(h) => !Bodiless(h.status) && !AnnouncesClose(h.headers) && FramingOf(h.headers) == Chunks
  }

  lemma {:induction false} EncodingIsWhole(cs: seq<Chunk>, e: Ending, maxBody: nat)
    requires |Payload(cs)| <= maxBody
    requires forall k | 0 <= k < |cs| :: WellFormedChunk(cs[k])
    requires WellFormedEnding(e)
    ensures WholeBody(Chunks, Encode(cs, e), maxBody)
  {
    RoundTrip(cs, e, "");
    EmptySuffix(Encode(cs, e));
    hide Encode, Chunked.Decode, Payload, WellFormedChunk, WellFormedEnding;
  }

  lemma {:induction false} ChunksForeseen(head: string, body: string, maxBody: nat)
    requires AnnouncesChunks(head) && WholeBody(Chunks, body, maxBody)
    ensures Foreseeable(WireResponse(head, body), maxBody) && FateOf(WireResponse(head, body), maxBody) == Ok
  {
    hide WholeBody, FramingOf, AnnouncesClose, Bodiless, ParseHead, Find, OccursAt;
  }

  /** On a calm connection a request whose response comes in chunks gets exactly
      the payload, however the bytes arrive, whatever the spelling of the chunks
      and whatever comes behind them. */
  method SendForChunks(client: HttpClient, req: HttpRequest, ghost head: string, ghost cs: seq<Chunk>,
                       ghost e: Ending, ghost tail: string)
    returns (status: Status, out: HttpResponse)
    requires client.Valid() && client.InSync() && client.Calm() && client.keepAlive && |req.body| < TWO_32
    requires AnnouncesChunks(head) && |Payload(cs)| <= client.maxResponseBody
    requires forall k | 0 <= k < |cs| :: WellFormedChunk(cs[k])
    requires WellFormedEnding(e)
    requires client.Stream() == head + BLANK + Encode(cs, e) + tail
    modifies client, client.conn
    ensures status == Ok && client.conn.epoch == old(client.conn.epoch) && client.Calm()
    ensures var h := ParseHead(head + CRLF).value;
      out == HttpResponse(h.status, h.reason, h.headers, Payload(cs))
  {
    hide WellFormed, Foreseeable, Exchanged, PermitsReuse, RequestBytes, ParseHead, Meaning, IsSuffix, Bodiless,
         IsStaleError, SentAsTold, Replays, Find, FateOf, Encode, Payload, WellFormedChunk, WellFormedEnding,
         AnnouncesChunks;
    ghost var w := WireResponse(head, Encode(cs, e));
    EncodingIsWhole(cs, e, client.maxResponseBody);
    ChunksForeseen(head, w.body, client.maxResponseBody);
    ghost var base, h, raw, found;
    status, out, base, h, raw, found := client.Send(req, EMPTY_RESPONSE, w);
    ChunksGot(head, cs, e, tail, h, raw, client.Stream(), out);
  }

  lemma {:induction false} ChunksGot(head: string, cs: seq<Chunk>, e: Ending, tail: string, h: string, raw: string,
                                     rest: string, out: HttpResponse)
    requires AnnouncesChunks(head)
    requires forall k | 0 <= k < |cs| :: WellFormedChunk(cs[k])
    requires WellFormedEnding(e)
    requires Exchanged(head + BLANK + Encode(cs, e) + tail, h, raw, rest, EMPTY_RESPONSE, out)
    ensures var read := ParseHead(head + CRLF).value;
      out == HttpResponse(read.status, read.reason, read.headers, Payload(cs))
  {
    hide Encode, Payload, WellFormedChunk, WellFormedEnding, ParseHead, FramingOf, Bodiless, AnnouncesClose, OccursAt;
    var base := head + BLANK + Encode(cs, e) + tail;
    FirstBlankExtends(head + BLANK, Encode(cs, e) + tail);
    ConcatAssociates(head + BLANK, Encode(cs, e), tail);
    ConcatAssociates(h + BLANK, raw, rest);
    SplitUnique(head + BLANK, Encode(cs, e) + tail, h + BLANK, raw + rest);
    SplitUnique(head, BLANK, h, BLANK);
    NoHeadersBefore(ParseHead(head + CRLF).value.headers);
    hide Find, BodyOf;
    ChunkedExchange(head, raw, rest, out, cs, e, tail);
  }
}
