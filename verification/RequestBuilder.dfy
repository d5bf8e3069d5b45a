/** Serialising a request: section 3 of RFC 7230. */
module RequestBuilder {
  import opened Core
  import opened Text
  import opened HttpTypes
  import opened HttpHead

  /** `s` without its CR and LF bytes. */
  function Stripped(s: string): (r: string)
    ensures CleanText(r)
    ensures CleanText(s) ==> r == s
  {
    if s == "" then ""
    else if s[0] == '\r' || s[0] == '\n' then Stripped(s[1..])
    else [s[0]] + Stripped(s[1..])
  }

  method StripCrlf(s: string) returns (out: string)
    ensures out == Stripped(s)
  {
    if Find(s, "\r", 0).None? && Find(s, "\n", 0).None? {
      ShowsNoCrlf(s);
      return s;
    }
    out := "";
    for i := 0 to |s|
      invariant out + Stripped(s[i..]) == Stripped(s)
    {
      assert s[i..][0] == s[i] && s[i..][1..] == s[i + 1..];
      if s[i] != '\r' && s[i] != '\n' {
        ConcatAssociates(out, [s[i]], Stripped(s[i + 1..]));
        out := out + [s[i]];
      }
    }
    assert out + "" == out;
  }

  lemma {:induction false} ShowsNoCrlf(s: string)
    requires Find(s, "\r", 0).None? && Find(s, "\n", 0).None?
    ensures CleanText(s)
  {
    forall i | 0 <= i < |s| ensures s[i] != '\r' && s[i] != '\n' {
      assert !OccursAt(s, "\r", i) && !OccursAt(s, "\n", i);
      assert s[i..i + 1] == [s[i]];
    }
  }

  function Digit(d: nat): char
    requires d < 10
  {
    (d + '0' as int) as char
  }

  /** A number in decimal. */
  function Decimal(n: nat): (r: string)
    ensures r != ""
  {
    if n < 10 then [Digit(n)] else Decimal(n / 10) + [Digit(n % 10)]
  }

  function Pow10(k: nat): nat { if k == 0 then 1 else 10 * Pow10(k - 1) }

  lemma {:induction false} DecimalLength(n: nat, k: nat)
    requires 0 < k && n < Pow10(k)
    ensures |Decimal(n)| <= k
    decreases k
  {
    if n >= 10 { DecimalLength(n / 10, k - 1); }
  }

  /** The digits are filled in from the end of a fixed buffer. */
  method ToDecimal(size: nat) returns (r: string)
    requires size < TWO_32
    ensures r == Decimal(size)
  {
    if size == 0 { return "0"; }
    var value := size;
    var buf := new char[20];
    var i := buf.Length;
    DecimalLength(size, 10);
    while value > 0 && i > 0
      invariant 0 <= i <= buf.Length == 20
      invariant Decimal(size) == (if value > 0 then Decimal(value) else "") + buf[i..]
      decreases value
    {
      ghost var tail := buf[i..];
      i := i - 1;
      buf[i] := ((value % 10) + '0' as int) as char;
      assert buf[i..] == [Digit(value % 10)] + tail;
      if value >= 10 { ConcatAssociates(Decimal(value / 10), [Digit(value % 10)], tail); }
      value := value / 10;
    }
    r := buf[i..];
  }

  /** The length the client's digit loop reads: other characters are skipped
      and the arithmetic is 32-bit. */
  function LengthValue(acc: nat, s: string): nat
    decreases |s|
  {
    if s == "" then acc
    else LengthValue(if '0' <= s[0] <= '9' then (acc * 10 + (s[0] as int - '0' as int)) % TWO_32 else acc, s[1..])
  }

  lemma {:induction false} LengthValueConcat(acc: nat, a: string, b: string)
    ensures LengthValue(acc, a + b) == LengthValue(LengthValue(acc, a), b)
    decreases |a|
  {
    if a == "" {
      assert a + b == b;
    } else {
      assert (a + b)[1..] == a[1..] + b;
      var next := if '0' <= a[0] <= '9' then (acc * 10 + (a[0] as int - '0' as int)) % TWO_32 else acc;
      LengthValueConcat(next, a[1..], b);
    }
  }

  /** A written length is read back exactly. */
  lemma {:induction false} LengthRoundTrip(n: nat)
    requires n < TWO_32
    ensures LengthValue(0, Decimal(n)) == n
    decreases n
  {
    var q, r := n / 10, n % 10;
    OneDigit(q, r);
    OneDigit(0, r);
    if n >= 10 {
      assert Decimal(n) == Decimal(q) + [Digit(r)];
      hide *;
      LengthRoundTrip(q);
      LengthValueConcat(0, Decimal(q), [Digit(r)]);
    }
  }

  lemma {:induction false} OneDigit(acc: nat, r: nat)
    requires r < 10 && acc * 10 + r < TWO_32
    ensures LengthValue(acc, [Digit(r)]) == acc * 10 + r
  {
    assert [Digit(r)][1..] == "";
  }

  // ---- The request ----

  predicate HasHeader(req: HttpRequest, name: string) {
    FindHeader(req.headers, name).Some?
  }

  function RequestLine(req: HttpRequest): string {
    Stripped(req.verb) + " " + (if req.path == "" then "/" else Stripped(req.path)) + " HTTP/1.1"
  }

  function StrippedHeaders(hs: seq<Header>): seq<Header> {
    if hs == [] then [] else [Header(Stripped(hs[0].name), Stripped(hs[0].value))] + StrippedHeaders(hs[1..])
  }

  predicate NeedsLength(req: HttpRequest) {
    req.body != "" && !HasHeader(req, CONTENT_LENGTH) && !HasHeader(req, TRANSFER_ENCODING)
  }

  function HostHeader(req: HttpRequest): seq<Header> {
    if HasHeader(req, HOST) then [] else [Header(HOST, Stripped(req.host))]
  }

  function LengthHeader(req: HttpRequest): seq<Header> {
    if NeedsLength(req) then [Header(CONTENT_LENGTH, Decimal(|req.body|))] else []
  }

  function ConnectionHeader(req: HttpRequest, keepAlive: bool): seq<Header> {
    if HasHeader(req, CONNECTION) then []
    else [Header(CONNECTION, if keepAlive then "keep-alive" else "close")]
  }

  /** The headers on the wire: the caller's, and the ones added around them. */
  function WireHeaders(req: HttpRequest, keepAlive: bool): seq<Header> {
    HostHeader(req) + StrippedHeaders(req.headers) + LengthHeader(req) + ConnectionHeader(req, keepAlive)
  }

  function RequestLines(req: HttpRequest, keepAlive: bool): seq<string> {
    [RequestLine(req)] + HeaderTexts(WireHeaders(req, keepAlive))
  }

  function RequestBytes(req: HttpRequest, keepAlive: bool): string {
    LinesText(RequestLines(req, keepAlive)) + CRLF + req.body
  }

  lemma {:induction false} HeaderTextsConcat(a: seq<Header>, b: seq<Header>)
    ensures HeaderTexts(a + b) == HeaderTexts(a) + HeaderTexts(b)
    decreases |a|
  {
    if a == [] {
      assert a + b == b;
    } else {
      assert (a + b)[1..] == a[1..] + b;
      HeaderTextsConcat(a[1..], b);
    }
  }

  lemma {:induction false} LinesTextConcat(a: seq<string>, b: seq<string>)
    ensures LinesText(a + b) == LinesText(a) + LinesText(b)
    decreases |a|
  {
    if a == [] {
      assert a + b == b;
    } else {
      assert (a + b)[1..] == a[1..] + b;
      LinesTextConcat(a[1..], b);
      ConcatAssociates(a[0] + CRLF, LinesText(a[1..]), LinesText(b));
    }
  }

  /** Header lines appended one list after another. */
  lemma {:induction false} HeadGrows(a: seq<Header>, b: seq<Header>)
    ensures LinesText(HeaderTexts(a + b)) == LinesText(HeaderTexts(a)) + LinesText(HeaderTexts(b))
  {
    HeaderTextsConcat(a, b);
    LinesTextConcat(HeaderTexts(a), HeaderTexts(b));
  }

  lemma {:induction false} OneHeader(h: Header)
    ensures LinesText(HeaderTexts([h])) == h.name + ": " + h.value + CRLF
  {
    assert HeaderTexts([h]) == [HeaderLine(h)];
    assert LinesText([HeaderLine(h)]) == HeaderLine(h) + CRLF + "";
  }

  lemma {:induction false} HeadersGrow(out: string, sent: seq<Header>, h: Header)
    requires out == LinesText(HeaderTexts(sent))
    ensures out + (h.name + ": " + h.value + CRLF) == LinesText(HeaderTexts(sent + [h]))
  {
    HeadGrows(sent, [h]);
    OneHeader(h);
  }

  /** Appends one header line. */
  method AddHeaderLine(out: string, name: string, value: string, ghost first: string, ghost sent: seq<Header>)
    returns (r: string, ghost sent': seq<Header>)
    requires out == first + LinesText(HeaderTexts(sent))
    ensures sent' == sent + [Header(name, value)]
    ensures r == first + LinesText(HeaderTexts(sent'))
  {
    HeadersGrow(LinesText(HeaderTexts(sent)), sent, Header(name, value));
    ConcatAssociates(first, LinesText(HeaderTexts(sent)), name + ": " + value + CRLF);
    sent' := sent + [Header(name, value)];
    r := out + (name + ": " + value + CRLF);
  }

  /** The caller's headers, each one stripped. */
  method AddCallerHeaders(out: string, headers: seq<Header>, ghost first: string, ghost sent: seq<Header>)
    returns (r: string, ghost sent': seq<Header>)
    requires out == first + LinesText(HeaderTexts(sent))
    ensures sent' == sent + StrippedHeaders(headers)
    ensures r == first + LinesText(HeaderTexts(sent'))
  {
    r, sent' := out, sent;
    for k := 0 to |headers|
      invariant r == first + LinesText(HeaderTexts(sent'))
      invariant sent' + StrippedHeaders(headers[k..]) == sent + StrippedHeaders(headers)
    {
      var name := StripCrlf(headers[k].name);
      var value := StripCrlf(headers[k].value);
      assert headers[k..][1..] == headers[k + 1..];
      ConcatAssociates(sent', [Header(name, value)], StrippedHeaders(headers[k + 1..]));
      r, sent' := AddHeaderLine(r, name, value, first, sent');
    }
    assert sent' + [] == sent';
  }

  method WriteRequestLine(req: HttpRequest) returns (out: string)
    ensures out == RequestLine(req) + CRLF
  {
    out := StripCrlf(req.verb);
    out := out + " ";
    var path := "/";
    if req.path != "" { path := StripCrlf(req.path); }
    out := out + path;
    out := out + " HTTP/1.1";
    out := out + CRLF;
  }

  method AddHostHeader(out: string, req: HttpRequest, ghost first: string) returns (r: string)
    requires out == first
    ensures r == first + LinesText(HeaderTexts(HostHeader(req)))
  {
    r := out;
    EmptySuffix(first);
    if !HasHeader(req, HOST) {
      var host := StripCrlf(req.host);
      ghost var sent: seq<Header>;
      r, sent := AddHeaderLine(r, HOST, host, first, []);
    }
  }

  method AddFramingHeaders(out: string, req: HttpRequest, keepAlive: bool, ghost first: string, ghost sent: seq<Header>)
    returns (r: string)
    requires |req.body| < TWO_32
    requires out == first + LinesText(HeaderTexts(sent))
    ensures r == first + LinesText(HeaderTexts(sent + LengthHeader(req) + ConnectionHeader(req, keepAlive)))
  {
    r := out;
    ghost var s := sent;
    EmptySuffix(sent);
    if req.body != "" && !HasHeader(req, CONTENT_LENGTH) && !HasHeader(req, TRANSFER_ENCODING) {
      var length := ToDecimal(|req.body|);
      r, s := AddHeaderLine(r, CONTENT_LENGTH, length, first, s);
    }
    assert s == sent + LengthHeader(req);
    EmptySuffix(s);
    if !HasHeader(req, CONNECTION) {
      r, s := AddHeaderLine(r, CONNECTION, if keepAlive then "keep-alive" else "close", first, s);
    }
  }

  method SerializeRequest(req: HttpRequest, keepAlive: bool) returns (out: string)
    requires |req.body| < TWO_32
    ensures out == RequestBytes(req, keepAlive)
  {
    out := WriteRequestLine(req);
    ghost var first, sent := out, HostHeader(req);
    out := AddHostHeader(out, req, first);
    out, sent := AddCallerHeaders(out, req.headers, first, sent);
    out := AddFramingHeaders(out, req, keepAlive, first, sent);
    RequestLinesText(req, keepAlive);
    out := out + CRLF;
    out := out + req.body;
  }

  lemma {:induction false} RequestLinesText(req: HttpRequest, keepAlive: bool)
    ensures LinesText(RequestLines(req, keepAlive))
         == RequestLine(req) + CRLF + LinesText(HeaderTexts(WireHeaders(req, keepAlive)))
  {
    FirstLine(RequestLine(req), HeaderTexts(WireHeaders(req, keepAlive)));
  }

  lemma {:induction false} FirstLine(line: string, rest: seq<string>)
    ensures LinesText([line] + rest) == line + CRLF + LinesText(rest)
  {
    assert ([line] + rest)[1..] == rest;
  }

  // ---- What it guarantees ----

  lemma {:induction false} StrippedHeadersClean(hs: seq<Header>)
    ensures |StrippedHeaders(hs)| == |hs|
    ensures forall k | 0 <= k < |hs| ::
              StrippedHeaders(hs)[k] == Header(Stripped(hs[k].name), Stripped(hs[k].value))
    decreases |hs|
  {
    if hs != [] { StrippedHeadersClean(hs[1..]); }
  }

  lemma {:induction false} StrippedAddsNothing(s: string, c: char)
    requires c !in s
    ensures c !in Stripped(s)
    decreases |s|
  {
    if s != "" {
      assert s[0] in s && forall x | x in s[1..] :: x in s;
      StrippedAddsNothing(s[1..], c);
    }
  }

  lemma {:induction false} TrimNothing(s: string)
    requires s != "" && s[0] != ' ' && s[0] != '\t' && s[|s| - 1] !in {' ', '\t', '\r'}
    ensures Trim(s) == s
  {
  }

  lemma {:induction false} DecimalClean(n: nat)
    ensures AllDigits(Decimal(n)) && CleanText(Decimal(n)) && Trim(Decimal(n)) == Decimal(n)
    decreases n
  {
    if n >= 10 {
      DecimalClean(n / 10);
      TrimNothing(Decimal(n));
    }
  }

  lemma {:induction false} CleanHeaderAlone(name: string, value: string)
    requires CleanText(name) && CleanText(value) && ':' !in name && Trim(name) == name && Trim(value) == value
    ensures CleanHeaders([Header(name, value)])
  {
  }

  lemma {:induction false} HostHeaderClean(req: HttpRequest)
    ensures Sendable(HostHeader(req))
    ensures CleanHeaders([Header(HOST, req.host)]) ==> CleanHeaders(HostHeader(req))
  {
    assert [Header(HOST, req.host)][0] == Header(HOST, req.host);
  }

  lemma {:induction false} LengthNameClean()
    ensures CleanText(CONTENT_LENGTH) && ':' !in CONTENT_LENGTH && Trim(CONTENT_LENGTH) == CONTENT_LENGTH
  {
    TrimNothing(CONTENT_LENGTH);
  }

  lemma {:induction false} LengthHeaderClean(req: HttpRequest)
    ensures CleanHeaders(LengthHeader(req))
  {
    LengthNameClean();
    DecimalClean(|req.body|);
    CleanHeaderAlone(CONTENT_LENGTH, Decimal(|req.body|));
  }

  lemma {:induction false} ConnectionNameClean()
    ensures CleanText(CONNECTION) && ':' !in CONNECTION && Trim(CONNECTION) == CONNECTION
  {
    TrimNothing(CONNECTION);
  }

  lemma {:induction false} ConnectionValueClean(keepAlive: bool)
    ensures var v := if keepAlive then "keep-alive" else "close"; CleanText(v) && Trim(v) == v
  {
    TrimNothing(if keepAlive then "keep-alive" else "close");
  }

  lemma {:induction false} ConnectionHeaderClean(req: HttpRequest, keepAlive: bool)
    ensures CleanHeaders(ConnectionHeader(req, keepAlive))
  {
    ConnectionNameClean();
    ConnectionValueClean(keepAlive);
    CleanHeaderAlone(CONNECTION, if keepAlive then "keep-alive" else "close");
  }

  lemma {:induction false} SendableConcat(a: seq<Header>, b: seq<Header>, c: seq<Header>, d: seq<Header>)
    requires Sendable(a) && Sendable(b) && Sendable(c) && Sendable(d)
    ensures Sendable(a + b + c + d)
    ensures CleanHeaders(a) && CleanHeaders(b) && CleanHeaders(c) && CleanHeaders(d) ==> CleanHeaders(a + b + c + d)
  {
  }

  lemma {:induction false} StrippedHeadersSendable(hs: seq<Header>)
    requires forall k | 0 <= k < |hs| :: ':' !in hs[k].name
    ensures Sendable(StrippedHeaders(hs))
    ensures CleanHeaders(hs) ==> StrippedHeaders(hs) == hs
  {
    StrippedHeadersClean(hs);
    forall k | 0 <= k < |hs| ensures ':' !in Stripped(hs[k].name) {
      StrippedAddsNothing(hs[k].name, ':');
    }
  }

  /** Without colons in the caller's names everything on the wire is sendable. */
  lemma {:induction false} WireHeadersSendable(req: HttpRequest, keepAlive: bool)
    requires forall k | 0 <= k < |req.headers| :: ':' !in req.headers[k].name
    ensures Sendable(WireHeaders(req, keepAlive))
    ensures CleanHeaders(req.headers) && CleanHeaders([Header(HOST, req.host)]) ==>
              CleanHeaders(WireHeaders(req, keepAlive))
  {
    HostHeaderClean(req);
    StrippedHeadersSendable(req.headers);
    LengthHeaderClean(req);
    ConnectionHeaderClean(req, keepAlive);
    SendableConcat(HostHeader(req), StrippedHeaders(req.headers), LengthHeader(req), ConnectionHeader(req, keepAlive));
  }

  lemma {:induction false} WireTextsClean(req: HttpRequest, keepAlive: bool)
    ensures forall k | 0 <= k < |WireHeaders(req, keepAlive)| ::
              CleanText(WireHeaders(req, keepAlive)[k].name) && CleanText(WireHeaders(req, keepAlive)[k].value)
  {
    HostHeaderClean(req);
    StrippedHeadersClean(req.headers);
    LengthHeaderClean(req);
    ConnectionHeaderClean(req, keepAlive);
    var a, b, c, d := HostHeader(req), StrippedHeaders(req.headers), LengthHeader(req),
        ConnectionHeader(req, keepAlive);
    BreakFree(a, b, c, d);
  }

  lemma {:induction false} WireLinesClean(req: HttpRequest, keepAlive: bool)
    ensures CleanLines(HeaderTexts(WireHeaders(req, keepAlive)))
  {
    WireTextsClean(req, keepAlive);
    HeaderTextsClean(WireHeaders(req, keepAlive));
    hide WireHeaders, CleanText;
  }

  lemma {:induction false} BreakFree(a: seq<Header>, b: seq<Header>, c: seq<Header>, d: seq<Header>)
    requires Sendable(a) && Sendable(c) && Sendable(d)
    requires forall k | 0 <= k < |b| :: CleanText(b[k].name) && CleanText(b[k].value)
    ensures forall k | 0 <= k < |a + b + c + d| ::
              CleanText((a + b + c + d)[k].name) && CleanText((a + b + c + d)[k].value)
  {
  }

  lemma {:induction false} RequestLinesClean(req: HttpRequest, keepAlive: bool)
    ensures CleanLines(RequestLines(req, keepAlive))
  {
    WireLinesClean(req, keepAlive);
    RequestLineClean(req);
    LinesCleanAfter(RequestLine(req), HeaderTexts(WireHeaders(req, keepAlive)));
  }

  lemma {:induction false} LinesCleanAfter(line: string, rest: seq<string>)
    requires line != "" && CleanText(line) && CleanLines(rest)
    ensures CleanLines([line] + rest)
  {
  }

  lemma {:induction false} RequestLineClean(req: HttpRequest)
    ensures RequestLine(req) != "" && CleanText(RequestLine(req))
  {
  }

  /** For every request, whatever its fields hold, the first blank line in the
      wire bytes ends the head and exactly the body follows. */
  lemma {:induction false} HeadEndIsUnambiguous(req: HttpRequest, keepAlive: bool)
    ensures var wire, block := RequestBytes(req, keepAlive), LinesText(RequestLines(req, keepAlive));
      && Find(wire, BLANK, 0) == Some(|block| - 2)
      && wire[..|block|] == block && wire[|block| + 2..] == req.body
  {
    hide *;
    RequestLinesClean(req, keepAlive);
    RequestShape(req, keepAlive);
    BlankEndsHead(RequestLines(req, keepAlive), req.body);
    JoinParts(LinesText(RequestLines(req, keepAlive)), CRLF, req.body);
  }

  lemma {:induction false} RequestShape(req: HttpRequest, keepAlive: bool)
    ensures RequestLines(req, keepAlive) != [] && |CRLF| == 2
    ensures RequestBytes(req, keepAlive) == LinesText(RequestLines(req, keepAlive)) + CRLF + req.body
  {
    hide RequestLine, WireHeaders, LinesText, HeaderTexts;
  }

  lemma {:induction false} JoinParts(a: string, sep: string, b: string)
    ensures (a + sep + b)[..|a|] == a && (a + sep + b)[|a| + |sep|..] == b
  {
  }

  /** The line loop of the head parser, run on any request's own head, reads
      exactly the lines of the wire headers. */
  lemma {:induction false} HeadersRead(req: HttpRequest, keepAlive: bool)
    ensures HeadersBelow(LinesText(RequestLines(req, keepAlive))) == Reread(WireHeaders(req, keepAlive))
  {
    var ws := WireHeaders(req, keepAlive);
    RequestLinesText(req, keepAlive);
    RequestLineClean(req);
    CrlfEndsLine(LinesText(RequestLines(req, keepAlive)), RequestLine(req), LinesText(HeaderTexts(ws)));
    WireTextsClean(req, keepAlive);
    HeadersReread(ws);
    hide LinesText, RequestLine, WireHeaders, HeaderTexts, HeaderLines, Reread, CleanText;
  }

  /** Without colons in the names it finds every header that was sent, trimmed;
      clean ones come back unchanged. */
  lemma {:induction false} HeadersRoundTrip(req: HttpRequest, keepAlive: bool)
    requires forall k | 0 <= k < |req.headers| :: ':' !in req.headers[k].name
    ensures HeadersBelow(LinesText(RequestLines(req, keepAlive))) == Trimmed(WireHeaders(req, keepAlive))
    ensures CleanHeaders(req.headers) && CleanHeaders([Header(HOST, req.host)]) ==>
              HeadersBelow(LinesText(RequestLines(req, keepAlive))) == WireHeaders(req, keepAlive)
  {
    var ws := WireHeaders(req, keepAlive);
    HeadersRead(req, keepAlive);
    WireHeadersSendable(req, keepAlive);
    RereadTrimmed(ws);
    if CleanHeaders(ws) { CleanHeadersUntouched(ws); }
    hide LinesText, RequestLines, WireHeaders, HeadersBelow, Reread, Trimmed;
  }

  // ---- The automatic Content-Length ----

  lemma {:induction false} RereadParts(a: seq<Header>, b: seq<Header>, c: seq<Header>, d: seq<Header>, name: string)
    requires FindHeader(Reread(a), name).None? && FindHeader(Reread(c), name).Some?
    ensures FindHeader(Reread(a + b + c + d), name) ==
            if FindHeader(Reread(b), name).Some? then FindHeader(Reread(b), name) else FindHeader(Reread(c), name)
  {
    RereadConcat(a, b);
    RereadConcat(a + b, c);
    RereadConcat(a + b + c, d);
    hide Reread, FindHeader;
    FindHeaderConcat(Reread(a), Reread(b), name);
    FindHeaderConcat(Reread(a) + Reread(b), Reread(c), name);
    FindHeaderConcat(Reread(a) + Reread(b) + Reread(c), Reread(d), name);
  }

  lemma {:induction false} HostIsNotLength(req: HttpRequest)
    ensures FindHeader(Reread(HostHeader(req)), CONTENT_LENGTH).None?
  {
    if !HasHeader(req, HOST) {
      var h := Header(HOST, Stripped(req.host));
      HostName();
      RereadOne(h);
      OtherLengthOtherName(Header(HOST, Trim(h.value)), CONTENT_LENGTH);
    }
  }

  lemma {:induction false} HostName()
    ensures ':' !in HOST && Trim(HOST) == HOST
  {
    TrimNothing(HOST);
  }

  lemma {:induction false} RereadOne(h: Header)
    requires ':' !in h.name
    ensures Reread([h]) == [Header(Trim(h.name), Trim(h.value))]
  {
    HeaderLineRecovered(h);
    assert [h][1..] == [];
    hide LineHeaders;
  }

  lemma {:induction false} LengthReread(req: HttpRequest)
    requires NeedsLength(req)
    ensures FindHeader(Reread(LengthHeader(req)), CONTENT_LENGTH) == Some(Decimal(|req.body|))
  {
    LengthNameClean();
    DecimalClean(|req.body|);
    RereadOne(Header(CONTENT_LENGTH, Decimal(|req.body|)));
    OneHeaderFound(CONTENT_LENGTH, Decimal(|req.body|));
    hide Decimal, FindHeader, Reread;
  }

  /** The Content-Length that is read back from the caller's own headers. */
  function OwnLength(req: HttpRequest): Option<string> {
    FindHeader(Reread(StrippedHeaders(req.headers)), CONTENT_LENGTH)
  }

  /** Where a Content-Length is added, the one the client's parser finds on the
      wire is the length of the body exactly if no header of the caller reads
      back as another one. */
  lemma {:induction false} AutoLengthIsBodyLength(req: HttpRequest, keepAlive: bool)
    requires |req.body| < TWO_32
    ensures var cl := FindHeader(HeadersBelow(LinesText(RequestLines(req, keepAlive))), CONTENT_LENGTH);
      NeedsLength(req) ==>
        && cl.Some?
        && (LengthValue(0, cl.value) == |req.body| <==>
              OwnLength(req).None? || LengthValue(0, OwnLength(req).value) == |req.body|)
  {
    HeadersRead(req, keepAlive);
    if NeedsLength(req) {
      HostIsNotLength(req);
      LengthReread(req);
      LengthRoundTrip(|req.body|);
      hide Decimal, LengthValue, FindHeader, Reread, StrippedHeaders, HostHeader, LengthHeader, ConnectionHeader,
           HeadersBelow, RequestLines, LinesText, CONTENT_LENGTH, NeedsLength;
      RereadParts(HostHeader(req), StrippedHeaders(req.headers), LengthHeader(req),
                  ConnectionHeader(req, keepAlive), CONTENT_LENGTH);
    }
  }

  /** In particular if the caller's headers are clean. */
  lemma {:induction false} CleanAutoLength(req: HttpRequest, keepAlive: bool)
    requires |req.body| < TWO_32 && CleanHeaders(req.headers)
    ensures var cl := FindHeader(HeadersBelow(LinesText(RequestLines(req, keepAlive))), CONTENT_LENGTH);
      NeedsLength(req) ==> cl.Some? && LengthValue(0, cl.value) == |req.body|
  {
    AutoLengthIsBodyLength(req, keepAlive);
    StrippedHeadersSendable(req.headers);
    RereadTrimmed(req.headers);
    CleanHeadersUntouched(req.headers);
    hide LengthValue, FindHeader, Reread, StrippedHeaders, HeadersBelow, RequestLines, LinesText, CONTENT_LENGTH,
         CleanHeaders;
  }

  /** A caller's header whose name ends in a space is not taken for a
      Content-Length when the request is written, but when it is read. */
  lemma {:induction false} SpacedNameMisleads(keepAlive: bool)
    ensures var req := HttpRequest("POST", "h", 443, "/", [Header(CONTENT_LENGTH + " ", "5")], "abc");
      && NeedsLength(req) && OwnLength(req) == Some("5")
      && FindHeader(HeadersBelow(LinesText(RequestLines(req, keepAlive))), CONTENT_LENGTH) == Some("5")
  {
    var h := Header(CONTENT_LENGTH + " ", "5");
    var req := HttpRequest("POST", "h", 443, "/", [h], "abc");
    SpacedName(h);
    HeadersRead(req, keepAlive);
    HostIsNotLength(req);
    LengthReread(req);
    hide *;
    RereadParts(HostHeader(req), StrippedHeaders([h]), LengthHeader(req), ConnectionHeader(req, keepAlive),
                CONTENT_LENGTH);
    WireParts(req, keepAlive);
  }

  lemma {:induction false} WireParts(req: HttpRequest, keepAlive: bool)
    ensures WireHeaders(req, keepAlive) ==
            HostHeader(req) + StrippedHeaders(req.headers) + LengthHeader(req) + ConnectionHeader(req, keepAlive)
    ensures OwnLength(req) == FindHeader(Reread(StrippedHeaders(req.headers)), CONTENT_LENGTH)
  {
  }

  lemma {:induction false} SpacedName(h: Header)
    requires h == Header(CONTENT_LENGTH + " ", "5")
    ensures FindHeader([h], CONTENT_LENGTH).None? && FindHeader([h], TRANSFER_ENCODING).None?
    ensures FindHeader(Reread(StrippedHeaders([h])), CONTENT_LENGTH) == Some("5")
  {
    OtherLengthOtherName(h, CONTENT_LENGTH);
    OtherLengthOtherName(h, TRANSFER_ENCODING);
    LengthNameClean();
    assert CleanText(h.name) && CleanText(h.value);
    assert StrippedHeaders([h]) == [h];
    RereadOne(h);
    TrimSpace(CONTENT_LENGTH);
    TrimNothing("5");
    OneHeaderFound(CONTENT_LENGTH, "5");
  }

  lemma {:induction false} TrimSpace(s: string)
    requires s != "" && s[0] != ' ' && s[0] != '\t' && s[|s| - 1] !in {' ', '\t', '\r'}
    ensures Trim(s + " ") == s
  {
    assert TrimLeft(s + " ") == s + " ";
    assert (s + " ")[..|s|] == s;
    TrimNothing(s);
  }

  lemma {:induction false} OneHeaderFound(name: string, value: string)
    ensures FindHeader([Header(name, value)], name) == Some(value)
  {
  }

  lemma {:induction false} OtherLengthOtherName(h: Header, name: string)
    requires |h.name| != |name|
    ensures FindHeader([h], name).None?
  {
    assert [h][1..] == [];
  }
}
