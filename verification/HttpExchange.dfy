/** What one HTTP exchange takes from the byte stream, and what it returns. */
module HttpExchange {
  import opened Core
  import opened Text
  import opened HttpTypes
  import opened HttpHead
  import opened RequestBuilder
  import Chunked = ChunkedDecoderModel

  const MAX_HEADER_SECTION: nat := 8192

  const CHUNKED: string := "chunked"
  const CLOSE: string := "close"

  datatype Framing = Chunks | Sized(want: nat) | UntilClose

  predicate IsChunked(headers: seq<Header>) {
    var te := FindHeader(headers, TRANSFER_ENCODING);
    te.Some? && ContainsIgnoreCase(te.value, CHUNKED)
  }

  predicate AnnouncesClose(headers: seq<Header>) {
    var c := FindHeader(headers, CONNECTION);
    c.Some? && ContainsIgnoreCase(c.value, CLOSE)
  }

  /** How the end of the body is found. */
  function FramingOf(headers: seq<Header>): Framing {
    if IsChunked(headers) then Chunks
    else
      var cl := FindHeader(headers, CONTENT_LENGTH);
      if cl.Some? then Sized(LengthValue(0, cl.value)) else UntilClose
  }

  /** The server lets the connection serve another request. */
  predicate PermitsReuse(headers: seq<Header>, hasBody: bool) {
    !AnnouncesClose(headers) && (!hasBody || !FramingOf(headers).UntilClose?)
  }

  /** No body follows the head of an interim response, nor a 204 or 304. */
  predicate Bodiless(status: int) {
    status == 204 || status == 304 || 100 <= status < 200
  }

  // ---- The same in words: header names in any case, the first one counts ----

  /** The first header of that name holds the word. */
  ghost predicate Announces(headers: seq<Header>, name: string, word: string) {
    exists v :: FirstNamed(headers, name, v) && HoldsSpelling(v, word)
  }

  lemma {:induction false} AnnouncesExactly(headers: seq<Header>, name: string, word: string)
    requires LowerCase(word) == word
    ensures var h := FindHeader(headers, name);
      Announces(headers, name, word) <==> h.Some? && ContainsIgnoreCase(h.value, word)
  {
    hide FindHeader, ContainsIgnoreCase, HoldsSpelling, FirstNamed, LowerCase;
    FindHeaderExactly(headers, name);
    var h := FindHeader(headers, name);
    forall v ensures ContainsIgnoreCase(v, word) <==> HoldsSpelling(v, word) {
      ContainsIgnoreCaseExactly(v, word);
    }
    if h.Some? { assert FirstNamed(headers, name, h.value); }
  }

  lemma {:induction false} WordsAreSmall()
    ensures LowerCase(CHUNKED) == CHUNKED && LowerCase(CLOSE) == CLOSE
  {
  }

  function DigitsOnly(s: string): (r: string)
    ensures AllDigits(r)
  {
    if s == "" then ""
    else if '0' <= s[0] <= '9' then [s[0]] + DigitsOnly(s[1..])
    else DigitsOnly(s[1..])
  }

  /** The length read from a value is the number its digits spell, whatever
      stands between them, modulo 2^32. */
  lemma {:induction false} LengthExactly(acc: nat, s: string)
    ensures LengthValue(acc % TWO_32, s) == DigitsValue(acc, DigitsOnly(s)) % TWO_32
    decreases |s|
  {
    if s != "" {
      if '0' <= s[0] <= '9' {
        var d := s[0] as int - '0' as int;
        TenTimes(acc, d);
        LengthExactly(acc * 10 + d, s[1..]);
        assert DigitsOnly(s)[1..] == DigitsOnly(s[1..]);
      } else {
        LengthExactly(acc, s[1..]);
      }
    }
  }

  lemma {:induction false} TenTimes(n: nat, d: nat)
    ensures (n % TWO_32 * 10 + d) % TWO_32 == (n * 10 + d) % TWO_32
  {
    var q, r := n / TWO_32, n % TWO_32;
    assert n == q * TWO_32 + r;
    assert n * 10 + d == (q * 10) * TWO_32 + (r * 10 + d);
    Periods(r * 10 + d, q * 10);
  }

  lemma {:induction false} Periods(x: nat, k: nat)
    ensures (k * TWO_32 + x) % TWO_32 == x % TWO_32
    decreases k
  {
    if k > 0 { Periods(x, k - 1); }
  }

  /** Chunks come before a length, a length before the close; a connection is
      used again unless the server said otherwise or its close ends the body. */
  lemma {:induction false} FramingExactly(headers: seq<Header>)
    ensures FramingOf(headers) == Chunks <==> Announces(headers, "Transfer-Encoding", "chunked")
    ensures forall v | FirstNamed(headers, "Content-Length", v) && FramingOf(headers) != Chunks ::
              FramingOf(headers) == Sized(DigitsValue(0, DigitsOnly(v)) % TWO_32)
    ensures FramingOf(headers) == UntilClose <==>
              !Announces(headers, "Transfer-Encoding", "chunked") && NoneNamed(headers, "Content-Length")
    ensures forall hasBody :: PermitsReuse(headers, hasBody) <==>
              !Announces(headers, "Connection", "close") && !(hasBody && FramingOf(headers) == UntilClose)
  {
    assert TRANSFER_ENCODING == "Transfer-Encoding" && CONTENT_LENGTH == "Content-Length";
    assert CONNECTION == "Connection" && CHUNKED == "chunked" && CLOSE == "close";
    WordsAreSmall();
    FramingByName(headers);
  }

  lemma {:induction false} FramingByName(headers: seq<Header>)
    requires LowerCase(CHUNKED) == CHUNKED && LowerCase(CLOSE) == CLOSE
    ensures FramingOf(headers) == Chunks <==> Announces(headers, TRANSFER_ENCODING, CHUNKED)
    ensures forall v | FirstNamed(headers, CONTENT_LENGTH, v) && FramingOf(headers) != Chunks ::
              FramingOf(headers) == Sized(DigitsValue(0, DigitsOnly(v)) % TWO_32)
    ensures FramingOf(headers) == UntilClose <==>
              !Announces(headers, TRANSFER_ENCODING, CHUNKED) && NoneNamed(headers, CONTENT_LENGTH)
    ensures AnnouncesClose(headers) <==> Announces(headers, CONNECTION, CLOSE)
  {
    var length := FindHeader(headers, CONTENT_LENGTH);
    if length.Some? { LengthExactly(0, length.value); }
    hide LowerCase, FindHeader, ContainsIgnoreCase, Announces, FirstNamed, NoneNamed, LengthValue, DigitsValue,
         DigitsOnly, CHUNKED, CLOSE, TRANSFER_ENCODING, CONTENT_LENGTH, CONNECTION;
    AnnouncesExactly(headers, TRANSFER_ENCODING, CHUNKED);
    AnnouncesExactly(headers, CONNECTION, CLOSE);
    FindHeaderExactly(headers, CONTENT_LENGTH);
  }

  /** A spelling of a name made of letters and hyphens has nothing to strip. */
  lemma {:induction false} SpelledClean(n: string, name: string)
    requires Spells(n, name) && name != ""
    requires forall k | 0 <= k < |name| :: 'A' <= name[k] <= 'Z' || 'a' <= name[k] <= 'z' || name[k] == '-'
    ensures CleanText(n) && ':' !in n && Trim(n) == n
  {
    forall k | 0 <= k < |n| ensures n[k] !in {'\r', '\n', ':', ' ', '\t'} {
      assert SameLetter(n[k], name[k]);
    }
    TrimNothing(n);
  }

  lemma {:induction false} OtherName(h: Header, name: string)
    requires |h.name| != |name|
    ensures NoneNamed([h], name) && !Announces([h], name, CHUNKED) && !Announces([h], name, CLOSE)
  {
    hide CHUNKED, CLOSE, HoldsSpelling;
  }

  lemma {:induction false} OnlyName(n: string, name: string, value: string)
    requires Spells(n, name)
    ensures FirstNamed([Header(n, value)], name, value)
  {
    assert FirstNamedAt([Header(n, value)], name, 0);
  }

  /** One header is enough, in any spelling: a length frames the body, chunks
      do, and a close is heard. */
  lemma {:induction false} AnySpelling(n: string, value: string, k: nat)
    ensures Spells(n, "Content-Length") && k < TWO_32 ==> FramingOf([Header(n, Decimal(k))]) == Sized(k)
    ensures Spells(n, "Transfer-Encoding") && HoldsSpelling(value, "chunked") ==>
              FramingOf([Header(n, value)]) == Chunks
    ensures Spells(n, "Connection") && HoldsSpelling(value, "close") ==>
              forall hasBody :: !PermitsReuse([Header(n, value)], hasBody)
  {
    FramingExactly([Header(n, value)]);
    FramingExactly([Header(n, Decimal(k))]);
    if Spells(n, "Content-Length") && k < TWO_32 {
      LengthRoundTrip(k);
      LengthExactly(0, Decimal(k));
      OnlyName(n, "Content-Length", Decimal(k));
      OtherName(Header(n, Decimal(k)), "Transfer-Encoding");
    }
    if Spells(n, "Transfer-Encoding") { OnlyName(n, "Transfer-Encoding", value); }
    if Spells(n, "Connection") { OnlyName(n, "Connection", value); }
    hide FramingOf, PermitsReuse, Spells, HoldsSpelling, FirstNamed, NoneNamed, LengthValue, Decimal, DigitsOnly,
         DigitsValue;
  }

  ghost predicate IsSuffix(a: string, b: string) {
    |a| <= |b| && b[|b| - |a|..] == a
  }

  lemma {:induction false} SuffixOfSuffix(a: string, b: string, c: string)
    requires IsSuffix(a + b, c)
    ensures IsSuffix(b, c)
  {
    assert c[|c| - |b|..] == c[|c| - |a + b|..][|a|..];
  }

  /** `body` is what the raw bytes behind the head mean, given the body the
      caller passed in. */
  ghost predicate BodyOf(framing: Framing, raw: string, before: string, body: string) {
    match framing
    case Chunks =>
      var r := Chunked.Decode(Chunked.START, raw);
      r.ok && r.state.mode == Chunked.Done && body == before + r.out
    case Sized(want) => body == raw && |raw| == want
    case UntilClose => body == raw
  }

  /** A response was read off the front of `base`: its head, then `raw`, which
      is the body on the wire; `rest` is left for the next response. */
  ghost predicate Exchanged(base: string, head: string, raw: string, rest: string,
                            before: HttpResponse, after: HttpResponse)
  {
    && base == head + BLANK + raw + rest
    && Find(base, BLANK, 0) == Some(|head|)
    && HeadApplied(head, before, after)
    && if Bodiless(after.status) then after.body == before.body
       else BodyOf(FramingOf(after.headers), raw, before.body, after.body)
  }

  ghost predicate HeadApplied(head: string, before: HttpResponse, after: HttpResponse) {
    match ParseHead(head + CRLF)
    case None => false
    case Some(h) => after.status == h.status && after.reason == h.reason && after.headers == before.headers + h.headers
  }

  // ---- Well-formed Content-Length responses ----

  datatype WireResponse = WireResponse(head: string, body: string)
  {
    function Bytes(): string { head + BLANK + body }
  }

  /** A complete response with a body of announced length, on a connection that
      stays open, within the client's limits. */
  ghost predicate WellFormed(w: WireResponse, maxBody: nat) {
    && Find(w.head + BLANK, BLANK, 0) == Some(|w.head|)
    && |w.head| + 3 <= MAX_HEADER_SECTION
    && |w.body| <= maxBody
    && match ParseHead(w.head + CRLF)
       case None => false
       case Some(h) =>
         !Bodiless(h.status) && !AnnouncesClose(h.headers) && FramingOf(h.headers) == Sized(|w.body|)
  }

  /** The body announced is longer than the client allows. */
  ghost predicate TooLarge(w: WireResponse, maxBody: nat) {
    match ParseHead(w.head + CRLF)
    case None => false
    case Some(h) => !Bodiless(h.status) && FramingOf(h.headers).Sized? && FramingOf(h.headers).want > maxBody
  }

  /** The body on the wire is all there, as the framing tells its end. */
  ghost predicate WholeBody(framing: Framing, raw: string, maxBody: nat) {
    match framing
    case Chunks =>
      var r := Chunked.Decode(Chunked.START, raw);
      r.ok && r.state.mode == Chunked.Done && |r.out| <= maxBody
    case Sized(want) => |raw| == want
    case UntilClose => false
  }

  /** What is to come holds a body that the client takes. */
  ghost predicate Ready(framing: Framing, text: string, maxBody: nat) {
    match framing
    case Chunks => WholeBody(Chunks, text, maxBody)
    case Sized(want) => want <= maxBody && want <= |text|
    case UntilClose => false
  }

  lemma {:induction false} WholeIsReady(framing: Framing, raw: string, more: string, maxBody: nat)
    requires WholeBody(framing, raw, maxBody) && (framing.Sized? ==> framing.want <= maxBody)
    ensures Ready(framing, raw + more, maxBody)
  {
    if framing.Chunks? {
      Chunked.DecodeConcat(Chunked.START, raw, more);
      var r := Chunked.Decode(Chunked.START, raw);
      Chunked.DoneAbsorbs(r.state, more);
      EmptySuffix(r.out);
    }
    hide Chunked.Decode;
  }

  /** A response whose end can be told, on a connection that stays open:
      complete, with a body of announced length, in chunks, or without one, or
      too large; then nothing is said of what follows the head. */
  ghost predicate Foreseeable(w: WireResponse, maxBody: nat) {
    && Find(w.head + BLANK, BLANK, 0) == Some(|w.head|)
    && |w.head| + 3 <= MAX_HEADER_SECTION
    && match ParseHead(w.head + CRLF)
       case None => false
       case Some(h) =>
         && !AnnouncesClose(h.headers)
         && (Bodiless(h.status) || TooLarge(w, maxBody) || WholeBody(FramingOf(h.headers), w.body, maxBody))
  }

  /** How the client's attempt at it ends. */
  ghost function FateOf(w: WireResponse, maxBody: nat): (s: Status)
    ensures s == Ok || s == Fail(HttpBodyTooLarge)
  {
    if TooLarge(w, maxBody) then Fail(HttpBodyTooLarge) else Ok
  }

  lemma {:induction false} WellFormedForeseen(w: WireResponse, maxBody: nat)
    requires WellFormed(w, maxBody)
    ensures Foreseeable(w, maxBody) && FateOf(w, maxBody) == Ok
  {
    hide ParseHead, Find, OccursAt, FramingOf;
  }

  /** The value such a response stands for. */
  ghost function Meaning(w: WireResponse): HttpResponse {
    match ParseHead(w.head + CRLF)
    case None => EMPTY_RESPONSE
    case Some(h) => HttpResponse(h.status, h.reason, h.headers, w.body)
  }

  function AllBytes(ws: seq<WireResponse>): string {
    if ws == [] then "" else ws[0].Bytes() + AllBytes(ws[1..])
  }

  /** The first blank line of a prefix is that of the whole. */
  lemma {:induction false} FirstBlankExtends(a: string, b: string)
    ensures Find(a, BLANK, 0).Some? ==> Find(a + b, BLANK, 0) == Find(a, BLANK, 0)
    ensures forall e: nat | Find(a + b, BLANK, 0) == Some(e) && e + 4 <= |a| :: Find(a, BLANK, 0) == Some(e)
  {
    var t := a + b;
    OccursInSlice(t, BLANK, 0, |a|);
    assert t[0..|a|] == a;
    var f, g := Find(t, BLANK, 0), Find(a, BLANK, 0);
    if g.Some? { assert OccursAt(t, BLANK, g.value); }
    if f.Some? && f.value + 4 <= |a| { assert OccursAt(a, BLANK, f.value); }
  }

  /** In a stream that starts with a well-formed response, the first blank line
      ends that response's head. */
  lemma {:induction false} ResponseHeadEnds(w: WireResponse, rest: string, maxBody: nat)
    requires WellFormed(w, maxBody)
    ensures Find(w.Bytes() + rest, BLANK, 0) == Some(|w.head|)
  {
    FirstBlankExtends(w.head + BLANK, w.body + rest);
    ConcatAssociates(w.head + BLANK, w.body, rest);
  }

  /** Reading a response off the front of a stream that starts with a
      well-formed one takes exactly that one. */
  lemma {:induction false} ExchangeIsDetermined(w: WireResponse, more: string, maxBody: nat,
                                                head: string, raw: string, rest: string, after: HttpResponse)
    requires WellFormed(w, maxBody)
    requires Exchanged(w.Bytes() + more, head, raw, rest, EMPTY_RESPONSE, after)
    ensures after == Meaning(w) && rest == more
  {
    ResponseHeadEnds(w, more, maxBody);
    ConcatAssociates(w.head + BLANK, w.body, more);
    ConcatAssociates(head + BLANK, raw, rest);
    SplitUnique(w.head + BLANK, w.body + more, head + BLANK, raw + rest);
    SplitUnique(w.head, BLANK, head, BLANK);
    NoHeadersBefore(ParseHead(w.head + CRLF).value.headers);
    SplitUnique(w.body, more, raw, rest);
  }

  lemma {:induction false} NoHeadersBefore(hs: seq<Header>)
    ensures EMPTY_RESPONSE.headers + hs == hs
  {
  }

  lemma {:induction false} SplitUnique(a: string, b: string, c: string, d: string)
    requires |a| == |c| && a + b == c + d
    ensures a == c && b == d
  {
    assert a == (a + b)[..|a|] && c == (c + d)[..|c|];
    assert b == (a + b)[|a|..] && d == (c + d)[|c|..];
  }

  /** A stream that starts with such a response has its head in reach. */
  lemma {:induction false} NextHead(w: WireResponse, base: string, maxBody: nat)
    requires Foreseeable(w, maxBody) && w.Bytes() <= base
    ensures Find(base, BLANK, 0) == Some(|w.head|) && |w.head| + 3 <= MAX_HEADER_SECTION
    ensures base[..|w.head|] == w.head && ParseHead(base[..|w.head|] + CRLF).Some?
  {
    hide FramingOf, AnnouncesClose, Bodiless, TooLarge, ParseHead, OccursAt, Find;
    var rest := base[|w.Bytes()|..];
    assert base == w.Bytes() + rest;
    FirstBlankExtends(w.head + BLANK, w.body + rest);
    ConcatAssociates(w.head + BLANK, w.body, rest);
    PrefixParts(w.head, BLANK, w.body, base);
  }

  lemma {:induction false} PrefixParts(head: string, sep: string, body: string, base: string)
    requires head + sep + body <= base
    ensures |head| <= |base| && base[..|head|] == head
  {
  }

  /** ... and once that head is read, the rest of the response is known. */
  lemma {:induction false} NextBody(w: WireResponse, base: string, maxBody: nat, acc: string, inbound: string,
                                    mid: HttpResponse)
    requires Foreseeable(w, maxBody) && w.Bytes() <= base
    requires base == acc + inbound && Find(acc, BLANK, 0) == Some(|w.head|)
    requires HeadApplied(acc[..|w.head|], EMPTY_RESPONSE, mid)
    ensures PermitsReuse(mid.headers, !Bodiless(mid.status))
    ensures TooLarge(w, maxBody) ==>
              !Bodiless(mid.status) && FramingOf(mid.headers).Sized? && FramingOf(mid.headers).want > maxBody
    ensures !TooLarge(w, maxBody) && !Bodiless(mid.status) ==>
              Ready(FramingOf(mid.headers), acc[|w.head| + 4..] + inbound, maxBody)
  {
    hide FramingOf, AnnouncesClose, Bodiless, ParseHead, OccursAt, Find, Ready, WholeBody;
    PrefixParts(w.head, BLANK, w.body, base);
    var h := ParseHead(w.head + CRLF).value;
    SamePrefix(w.head, acc, inbound, base);
    NoHeadersBefore(h.headers);
    BehindHead(w, base, acc, inbound);
    if !TooLarge(w, maxBody) && !Bodiless(mid.status) {
      WholeEnds(FramingOf(mid.headers), w.body, maxBody);
      WholeIsReady(FramingOf(mid.headers), w.body, base[|w.Bytes()|..], maxBody);
    }
  }

  lemma {:induction false} WholeEnds(framing: Framing, raw: string, maxBody: nat)
    ensures WholeBody(framing, raw, maxBody) ==> !framing.UntilClose?
  {
  }

  lemma {:induction false} BehindHead(w: WireResponse, base: string, acc: string, inbound: string)
    requires base == acc + inbound && w.Bytes() <= base && |w.head| + 4 <= |acc|
    ensures acc[|w.head| + 4..] + inbound == w.body + base[|w.Bytes()|..]
  {
    assert acc[|w.head| + 4..] + inbound == base[|w.head| + 4..];
    assert w.Bytes()[|w.head| + 4..] == w.body;
    assert base == w.Bytes() + base[|w.Bytes()|..];
  }

  lemma {:induction false} SamePrefix(head: string, acc: string, inbound: string, base: string)
    requires base == acc + inbound && |head| <= |acc| && base[..|head|] == head
    ensures acc[..|head|] == head
  {
  }

  /** Head and body, read one after the other, make an exchange. */
  lemma {:induction false} ExchangeMade(base: string, acc: string, inbound: string, raw: string, rest: string,
                                        before: HttpResponse, after: HttpResponse)
    requires base == acc + inbound && Find(acc, BLANK, 0).Some?
    requires var e := Find(acc, BLANK, 0).value;
      HeadApplied(acc[..e], before, after) && raw + rest == acc[e + 4..] + inbound
    requires if Bodiless(after.status) then after.body == before.body
             else BodyOf(FramingOf(after.headers), raw, before.body, after.body)
    ensures Exchanged(base, acc[..Find(acc, BLANK, 0).value], raw, rest, before, after)
  {
    hide FramingOf, HeadApplied, BodyOf, Bodiless;
    var e := Find(acc, BLANK, 0).value;
    FirstBlankExtends(acc, inbound);
    SplitAtBlank(acc, inbound, e);
    hide Find, OccursAt;
    ConcatAssociates(acc[..e] + BLANK, raw, rest);
  }

  lemma {:induction false} SplitAtBlank(acc: string, inbound: string, e: nat)
    requires OccursAt(acc, BLANK, e)
    ensures acc + inbound == acc[..e] + BLANK + (acc[e + 4..] + inbound)
  {
    assert acc == acc[..e] + acc[e..e + 4] + acc[e + 4..];
  }

  // ---- Such responses exist: any clean head written out is one ----

  /** A response as a server writes it. */
  function StatusLine(code: nat, reason: string): string {
    "HTTP/1.1" + [' '] + Decimal(code) + [' '] + reason
  }

  function ResponseLines(code: nat, reason: string, headers: seq<Header>): seq<string> {
    [StatusLine(code, reason)] + HeaderTexts(headers)
  }

  function Rendered(code: nat, reason: string, headers: seq<Header>, body: string): WireResponse {
    var text := LinesText(ResponseLines(code, reason, headers));
    WireResponse(if |text| >= 2 then text[..|text| - 2] else "", body)
  }

  lemma {:induction false} DigitsValueConcat(acc: nat, a: string, b: string)
    requires AllDigits(a) && AllDigits(b) && AllDigits(a + b)
    ensures DigitsValue(acc, a + b) == DigitsValue(DigitsValue(acc, a), b)
    decreases |a|
  {
    if a == "" {
      assert a + b == b;
    } else {
      assert (a + b)[1..] == a[1..] + b;
      DigitsValueConcat(acc * 10 + (a[0] as int - '0' as int), a[1..], b);
    }
  }

  lemma {:induction false} DecimalRead(n: nat)
    ensures AllDigits(Decimal(n)) && DigitsValue(0, Decimal(n)) == n && ' ' !in Decimal(n)
    ensures n >= 100 ==> |Decimal(n)| >= 3
    decreases n
  {
    DecimalClean(n);
    if n >= 10 {
      var d := [Digit(n % 10)];
      DecimalRead(n / 10);
      DecimalClean(n / 10);
      assert d[1..] == "" && AllDigits(d);
      DigitsValueConcat(0, Decimal(n / 10), d);
    }
  }

  lemma {:induction false} SplitAtSpace(a: string, b: string)
    requires ' ' !in a
    ensures IndexOf(a + [' '] + b, ' ') == Some(|a|)
    ensures (a + [' '] + b)[..|a|] == a && (a + [' '] + b)[|a| + 1..] == b
  {
    var t := a + [' '] + b;
    assert t[..|a|] == a && t[|a|] == ' ';
    IndexOfFirst(t, ' ', |a|);
  }

  lemma {:induction false} StatusLineRead(code: nat, reason: string)
    requires code >= 100 && Trim(reason) == reason
    ensures ParseStatusLine(StatusLine(code, reason)) == Some((code, reason))
  {
    var rest := Decimal(code) + [' '] + reason;
    DecimalRead(code);
    SplitAtSpace(Decimal(code), reason);
    StatusLineParts("HTTP/1.1", Decimal(code), reason);
    SplitAtSpace("HTTP/1.1", rest);
  }

  lemma {:induction false} StatusLineParts(version: string, code: string, reason: string)
    ensures version + [' '] + code + [' '] + reason == version + [' '] + (code + [' '] + reason)
  {
  }

  /** The status code is the digits between the first two spaces, at least
      three, and the reason what follows, if anything does; otherwise the line is
      refused. */
  lemma {:induction false} StatusLineExactly(version: string, code: string, reason: Option<string>)
    requires ' ' !in version && ' ' !in code
    ensures ParseStatusLine(version) == None
    ensures ParseStatusLine(version + [' '] + code + if reason.Some? then [' '] + reason.value else "") ==
            if |code| >= 3 && forall k | 0 <= k < |code| :: '0' <= code[k] <= '9'
            then Some((DigitsValue(0, code), if reason.Some? then Trim(reason.value) else "")) else None
  {
    hide DigitsValue, Trim, AllDigits;
    if reason.Some? {
      SplitAtSpace(code, reason.value);
      BehindVersion(version, code + [' '] + reason.value);
      StatusLineParts(version, code, reason.value);
      ConcatAssociates(version + [' '] + code, [' '], reason.value);
    } else {
      BehindVersion(version, code);
      EmptySuffix(version + [' '] + code);
    }
    assert AllDigits(code) <==> forall k | 0 <= k < |code| :: '0' <= code[k] <= '9' by { DigitsMean(code); }
  }

  lemma {:induction false} DigitsMean(s: string)
    ensures AllDigits(s) <==> forall k | 0 <= k < |s| :: '0' <= s[k] <= '9'
  {
  }

  lemma {:induction false} BehindVersion(version: string, rest: string)
    requires ' ' !in version
    ensures var sp, line := IndexOf(rest, ' '), version + [' '] + rest;
      var code := if sp.Some? then rest[..sp.value] else rest;
      ParseStatusLine(line) ==
        if |code| < 3 || !AllDigits(code) then None
        else Some((DigitsValue(0, code), if sp.Some? then Trim(rest[sp.value + 1..]) else ""))
  {
    SplitAtSpace(version, rest);
    hide DigitsValue, Trim, AllDigits, IndexOf;
  }

  /** Digits count by their place. */
  lemma {:induction false} DigitsByPlace(s: string, last: char)
    requires AllDigits(s) && 48 <= last as int <= 57
    ensures AllDigits(s + [last]) && DigitsValue(0, s + [last]) == 10 * DigitsValue(0, s) + (last as int - 48)
  {
    assert [last][1..] == "" && AllDigits([last]);
    DigitsValueConcat(0, s, [last]);
  }

  lemma {:induction false} StatusLineClean(code: nat, reason: string)
    requires CleanText(reason)
    ensures StatusLine(code, reason) != "" && CleanText(StatusLine(code, reason))
  {
    DecimalClean(code);
  }

  /** A written head ends at its first blank line. */
  lemma {:induction false} RenderedHeadEnds(code: nat, reason: string, headers: seq<Header>, body: string)
    requires CleanText(reason) && Sendable(headers)
    ensures var head := Rendered(code, reason, headers, body).head;
      && head + CRLF == LinesText(ResponseLines(code, reason, headers))
      && Find(head + BLANK, BLANK, 0) == Some(|head|)
  {
    var lines := ResponseLines(code, reason, headers);
    StatusLineClean(code, reason);
    HeaderTextsClean(headers);
    LinesCleanAfter(StatusLine(code, reason), HeaderTexts(headers));
    BlankEndsHead(lines, "");
    EndsWithCrlf(lines);
    HeadAndBlank(LinesText(lines));
  }

  /** Any clean head written by a server is read back exactly. */
  lemma {:induction false} RenderedHeadRead(code: nat, reason: string, headers: seq<Header>)
    requires code >= 100 && CleanText(reason) && Trim(reason) == reason && CleanHeaders(headers)
    ensures ParseHead(LinesText(ResponseLines(code, reason, headers))) == Some(Head(code, reason, headers))
  {
    var first, below := StatusLine(code, reason), LinesText(HeaderTexts(headers));
    StatusLineClean(code, reason);
    FirstLine(first, HeaderTexts(headers));
    CrlfEndsLine(first + CRLF + below, first, below);
    StatusLineRead(code, reason);
    HeadersRecovered(headers);
    CleanHeadersUntouched(headers);
  }

  /** Whatever else stands in its lines, a head is its status line and the
      headers of the lines that have a colon. */
  lemma {:induction false} HeadExactly(first: string, lines: seq<string>)
    requires CleanText(first) && CleanLines(lines)
    ensures ParseHead(LinesText([first] + lines)) ==
            match ParseStatusLine(first)
            case None => None
            case Some((code, reason)) => Some(Head(code, reason, AllHeaders(lines)))
  {
    hide ParseStatusLine, AllHeaders;
    FirstLine(first, lines);
    CrlfEndsLine(first + CRLF + LinesText(lines), first, LinesText(lines));
    LinesRead(lines);
  }

  /** Any clean response a server writes is well-formed if its Content-Length
      is right, and stands for exactly what the server meant. */
  lemma {:induction false} RenderedIsWellFormed(code: nat, reason: string, headers: seq<Header>, body: string,
                                                maxBody: nat)
    requires code >= 100 && !Bodiless(code)
    requires CleanText(reason) && Trim(reason) == reason && CleanHeaders(headers)
    requires !IsChunked(headers) && !AnnouncesClose(headers)
    requires FindHeader(headers, CONTENT_LENGTH) == Some(Decimal(|body|))
    requires |LinesText(ResponseLines(code, reason, headers))| < MAX_HEADER_SECTION
    requires |body| <= maxBody < TWO_32
    ensures var w := Rendered(code, reason, headers, body);
      WellFormed(w, maxBody) && Meaning(w) == HttpResponse(code, reason, headers, body)
  {
    RenderedHeadEnds(code, reason, headers, body);
    RenderedHeadRead(code, reason, headers);
    LengthRoundTrip(|body|);
  }

  lemma {:induction false} LengthOnly(n: string, value: string)
    requires Spells(n, CONTENT_LENGTH) && CleanText(value) && Trim(value) == value
    ensures var headers := [Header(n, value)];
      && CleanHeaders(headers) && !IsChunked(headers) && !AnnouncesClose(headers)
      && FindHeader(headers, CONTENT_LENGTH) == Some(value)
  {
    SpelledClean(n, CONTENT_LENGTH);
    CleanHeaderAlone(n, value);
    OnlyName(n, CONTENT_LENGTH, value);
    FindHeaderExactly([Header(n, value)], CONTENT_LENGTH);
    OtherLengthOtherName(Header(n, value), TRANSFER_ENCODING);
    OtherLengthOtherName(Header(n, value), CONNECTION);
    hide CleanHeaders, FindHeader, FirstNamed;
  }

  lemma {:induction false} StatusLineLength(code: nat, reason: string)
    requires code < 1000
    ensures |StatusLine(code, reason)| <= 13 + |reason|
  {
    DecimalLength(code, 3);
  }

  lemma {:induction false} ShortHead(code: nat, reason: string, h: Header)
    requires code < 1000
    ensures |LinesText(ResponseLines(code, reason, [h]))| <= 19 + |reason| + |h.name| + |h.value|
  {
    StatusLineLength(code, reason);
    FirstLine(StatusLine(code, reason), HeaderTexts([h]));
    OneHeader(h);
    hide LinesText, StatusLine, HeaderTexts;
  }

  /** Any body within the client's limit can be sent in such a response, its
      length under any spelling of the name. */
  lemma {:induction false} EveryBodyCanBeSent(code: nat, reason: string, n: string, body: string, maxBody: nat)
    requires 200 <= code < 1000 && code !in {204, 304} && |body| <= maxBody < TWO_32
    requires CleanText(reason) && Trim(reason) == reason && |reason| < 8000
    requires Spells(n, "Content-Length")
    ensures var headers := [Header(n, Decimal(|body|))];
      var w := Rendered(code, reason, headers, body);
      WellFormed(w, maxBody) && Meaning(w) == HttpResponse(code, reason, headers, body)
  {
    var h := Header(n, Decimal(|body|));
    assert CONTENT_LENGTH == "Content-Length" && !Bodiless(code);
    DecimalClean(|body|);
    DecimalLength(|body|, 10);
    LengthOnly(n, Decimal(|body|));
    ShortHead(code, reason, h);
    assert |n| == 14;
    hide *;
    RenderedIsWellFormed(code, reason, [h], body, maxBody);
  }

  lemma {:induction false} EndsWithCrlf(lines: seq<string>)
    requires lines != []
    ensures |LinesText(lines)| >= 2 && LinesText(lines)[|LinesText(lines)| - 2..] == CRLF
    decreases |lines|
  {
    if |lines| > 1 {
      EndsWithCrlf(lines[1..]);
      var t, u := LinesText(lines), LinesText(lines[1..]);
      assert t[|t| - 2..] == u[|u| - 2..];
    }
  }

  lemma {:induction false} HeadAndBlank(text: string)
    requires |text| >= 2 && text[|text| - 2..] == CRLF
    ensures text[..|text| - 2] + CRLF == text
    ensures text[..|text| - 2] + BLANK == text + CRLF + ""
  {
  }
}
