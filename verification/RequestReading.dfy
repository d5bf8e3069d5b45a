/** What a server reads in a serialised request. */
module RequestReading {
  import opened Core
  import opened Text
  import opened HttpTypes
  import opened HttpHead
  import opened RequestBuilder

  datatype Received = Received(verb: string, target: string, version: string, headers: seq<Header>, body: string)

  /** The three words of a request line. */
  function ReadRequestLine(line: string): Option<(string, string, string)> {
    match IndexOf(line, ' ')
    case None => None
    case Some(a) =>
      var rest := line[a + 1..];
      match IndexOf(rest, ' ')
      case None => None
      case Some(b) => Some((line[..a], rest[..b], rest[b + 1..]))
  }

  /** A request off the front of a stream; what follows its head is its body. */
  function ReadRequest(wire: string): Option<Received> {
    match Find(wire, BLANK, 0)
    case None => None
    case Some(e) =>
      match Find(wire[..e + 2], CRLF, 0)
      case None => None
      case Some(l) =>
        match ReadRequestLine(wire[..l])
        case None => None
        case Some((verb, target, version)) =>
          Some(Received(verb, target, version, HeadersBelow(wire[..e + 2]), wire[e + 4..]))
  }

  // ---- Stripping ----

  /** Stripping drops every CR and LF, keeps every other character, and keeps
      the order. */
  lemma {:induction false} StrippedExactly(a: string, c: char, b: string)
    ensures Stripped("") == ""
    ensures Stripped(a + [c] + b) == Stripped(a) + (if c == '\r' || c == '\n' then "" else [c]) + Stripped(b)
    decreases |a|
  {
    var t := a + [c] + b;
    if a == "" {
      assert t[0] == c && t[1..] == b;
    } else {
      assert t[0] == a[0] && t[1..] == a[1..] + [c] + b;
      StrippedExactly(a[1..], c, b);
    }
  }

  // ---- The request line ----

  lemma {:induction false} ThreeWords(a: string, b: string, c: string)
    requires ' ' !in a && ' ' !in b
    ensures ReadRequestLine(a + " " + b + " " + c) == Some((a, b, c))
  {
    var line := a + " " + b + " " + c;
    assert line[..|a|] == a && line[|a|] == ' ' && line[|a| + 1..] == b + " " + c;
    IndexOfFirst(line, ' ', |a|);
    var rest := b + " " + c;
    assert rest[..|b|] == b && rest[|b|] == ' ' && rest[|b| + 1..] == c;
    IndexOfFirst(rest, ' ', |b|);
  }

  lemma {:induction false} RequestLineRead(req: HttpRequest)
    requires ' ' !in req.verb && ' ' !in req.path
    ensures ReadRequestLine(RequestLine(req)) ==
            Some((Stripped(req.verb), if req.path == "" then "/" else Stripped(req.path), "HTTP/1.1"))
  {
    StrippedAddsNothing(req.verb, ' ');
    StrippedAddsNothing(req.path, ' ');
    var target := if req.path == "" then "/" else Stripped(req.path);
    assert RequestLine(req) == Stripped(req.verb) + " " + target + " HTTP/1.1";
    assert " HTTP/1.1" == " " + "HTTP/1.1";
    hide *;
    LastWord(Stripped(req.verb), target, "HTTP/1.1", " HTTP/1.1");
    ThreeWords(Stripped(req.verb), target, "HTTP/1.1");
  }

  lemma {:induction false} LastWord(a: string, b: string, c: string, end: string)
    requires end == " " + c
    ensures a + " " + b + end == a + " " + b + " " + c
  {
  }

  lemma {:induction false} ReadParts(wire: string, block: string, line: string, verb: string, target: string,
                                     version: string, body: string)
    requires |block| >= 2 && Find(wire, BLANK, 0) == Some(|block| - 2)
    requires |block| + 2 <= |wire| && wire[..|block|] == block && wire[|block| + 2..] == body
    requires Find(block, CRLF, 0) == Some(|line|) && |line| <= |block| && block[..|line|] == line
    requires ReadRequestLine(line) == Some((verb, target, version))
    ensures ReadRequest(wire) == Some(Received(verb, target, version, HeadersBelow(block), body))
  {
    hide Find, OccursAt, ReadRequestLine, HeadersBelow, BLANK, CRLF;
    PrefixOfPrefix(wire, block, line);
  }

  lemma {:induction false} PrefixOfPrefix(wire: string, block: string, line: string)
    requires |line| <= |block| <= |wire| && wire[..|block|] == block && block[..|line|] == line
    ensures wire[..|line|] == line
  {
  }

  /** The server gets the caller's method and path, without line breaks, an
      empty path as the root, and exactly the body, whatever the headers hold. */
  lemma {:induction false} RequestRead(req: HttpRequest, keepAlive: bool)
    requires ' ' !in req.verb && ' ' !in req.path
    ensures ReadRequest(RequestBytes(req, keepAlive)) ==
            Some(Received(Stripped(req.verb), if req.path == "" then "/" else Stripped(req.path), "HTTP/1.1",
                          HeadersBelow(LinesText(RequestLines(req, keepAlive))), req.body))
  {
    RequestLineRead(req);
    hide *;
    ReadAs(req, keepAlive, Stripped(req.verb), if req.path == "" then "/" else Stripped(req.path), "HTTP/1.1");
  }

  lemma {:induction false} ReadAs(req: HttpRequest, keepAlive: bool, verb: string, target: string, version: string)
    requires ReadRequestLine(RequestLine(req)) == Some((verb, target, version))
    ensures ReadRequest(RequestBytes(req, keepAlive)) ==
            Some(Received(verb, target, version, HeadersBelow(LinesText(RequestLines(req, keepAlive))), req.body))
  {
    hide *;
    HeadEndIsUnambiguous(req, keepAlive);
    FirstIsRequestLine(req, keepAlive);
    WireIsLonger(req, keepAlive);
    ReadParts(RequestBytes(req, keepAlive), LinesText(RequestLines(req, keepAlive)), RequestLine(req), verb, target,
              version, req.body);
  }

  lemma {:induction false} WireIsLonger(req: HttpRequest, keepAlive: bool)
    ensures |LinesText(RequestLines(req, keepAlive))| + 2 <= |RequestBytes(req, keepAlive)|
  {
    RequestShape(req, keepAlive);
    hide LinesText, RequestLines, RequestBytes;
  }

  lemma {:induction false} FirstIsRequestLine(req: HttpRequest, keepAlive: bool)
    ensures var block := LinesText(RequestLines(req, keepAlive));
      && |block| >= 2 && Find(block, CRLF, 0) == Some(|RequestLine(req)|)
      && block[..|RequestLine(req)|] == RequestLine(req)
  {
    var rest := LinesText(HeaderTexts(WireHeaders(req, keepAlive)));
    RequestLinesText(req, keepAlive);
    RequestLineClean(req);
    hide RequestLine, RequestLines, LinesText, HeaderTexts, WireHeaders;
    CrlfEndsLine(LinesText(RequestLines(req, keepAlive)), RequestLine(req), rest);
  }

  // ---- The headers ----

  lemma {:induction false} SpelledAlike(headers: seq<Header>, a: string, b: string)
    requires NamesEqual(a, b)
    ensures FindHeader(headers, a) == FindHeader(headers, b)
    decreases |headers|
  {
    hide LowerCase;
    if headers != [] { SpelledAlike(headers[1..], a, b); }
  }

  lemma {:induction false} OneHeaderGives(name: string, value: string, wanted: string)
    ensures FindHeader([Header(name, value)], wanted) == if NamesEqual(name, wanted) then Some(value) else None
  {
    hide NamesEqual;
    assert [Header(name, value)][1..] == [];
  }

  /** The lookup in the headers as written. */
  lemma {:induction false} WireFind(req: HttpRequest, keepAlive: bool, name: string)
    requires CleanHeaders(req.headers)
    ensures FindHeader(WireHeaders(req, keepAlive), name) ==
            var own, length := FindHeader(req.headers, name), FindHeader(LengthHeader(req), name);
            if FindHeader(HostHeader(req), name).Some? then FindHeader(HostHeader(req), name)
            else if own.Some? then own
            else if length.Some? then length
            else FindHeader(ConnectionHeader(req, keepAlive), name)
  {
    StrippedHeadersSendable(req.headers);
    hide CleanHeaders, FindHeader, HostHeader, LengthHeader, ConnectionHeader, StrippedHeaders;
    var a, b, c, d := HostHeader(req), req.headers, LengthHeader(req), ConnectionHeader(req, keepAlive);
    FindHeaderConcat(a, b, name);
    FindHeaderConcat(a + b, c, name);
    FindHeaderConcat(a + b + c, d, name);
  }

  lemma {:induction false} HostGives(req: HttpRequest, name: string)
    ensures var own := FindHeader(req.headers, HOST);
      FindHeader(HostHeader(req), name) ==
        if own.None? && NamesEqual(HOST, name) then Some(Stripped(req.host)) else None
  {
    hide NamesEqual, HOST, Stripped;
    OneHeaderGives(HOST, Stripped(req.host), name);
  }

  lemma {:induction false} LengthGives(req: HttpRequest, name: string)
    ensures FindHeader(LengthHeader(req), name) ==
            if NeedsLength(req) && NamesEqual(CONTENT_LENGTH, name) then Some(Decimal(|req.body|)) else None
  {
    hide NamesEqual, CONTENT_LENGTH, Decimal, NeedsLength;
    OneHeaderGives(CONTENT_LENGTH, Decimal(|req.body|), name);
  }

  lemma {:induction false} ConnectionGives(req: HttpRequest, keepAlive: bool, name: string)
    ensures FindHeader(ConnectionHeader(req, keepAlive), name) ==
            if FindHeader(req.headers, CONNECTION).None? && NamesEqual(CONNECTION, name)
            then Some(if keepAlive then "keep-alive" else "close") else None
  {
    hide NamesEqual, CONNECTION;
    OneHeaderGives(CONNECTION, if keepAlive then "keep-alive" else "close", name);
  }

  lemma {:induction false} OwnNames()
    ensures HOST == "Host" && CONTENT_LENGTH == "Content-Length" && TRANSFER_ENCODING == "Transfer-Encoding"
    ensures CONNECTION == "Connection"
    ensures |HOST| == 4 && |CONTENT_LENGTH| == 14 && |TRANSFER_ENCODING| == 17 && |CONNECTION| == 10
  {
  }

  lemma {:induction false} DifferentLengths(a: string, b: string)
    ensures |a| != |b| ==> !NamesEqual(a, b)
    ensures NamesEqual(a, a)
  {
  }

  /** What the server finds under any name: the caller's value where there is one. */
  lemma {:induction false} OwnFound(req: HttpRequest, keepAlive: bool, name: string)
    requires CleanHeaders(req.headers) && FindHeader(req.headers, name).Some?
    ensures FindHeader(WireHeaders(req, keepAlive), name) == FindHeader(req.headers, name)
  {
    hide CleanHeaders, FindHeader, WireHeaders, NamesEqual, HOST;
    WireFind(req, keepAlive, name);
    HostGives(req, name);
    if NamesEqual(HOST, name) { SpelledAlike(req.headers, HOST, name); }
  }

  lemma {:induction false} AddedFound(req: HttpRequest, keepAlive: bool)
    requires CleanHeaders(req.headers)
    ensures var ws := WireHeaders(req, keepAlive);
      && (FindHeader(req.headers, HOST).None? ==> FindHeader(ws, HOST) == Some(Stripped(req.host)))
      && (FindHeader(req.headers, CONNECTION).None? ==>
            FindHeader(ws, CONNECTION) == Some(if keepAlive then "keep-alive" else "close"))
      && (FindHeader(req.headers, CONTENT_LENGTH).None? ==>
            FindHeader(ws, CONTENT_LENGTH) == if NeedsLength(req) then Some(Decimal(|req.body|)) else None)
  {
    OwnNames();
    hide CleanHeaders, FindHeader, WireHeaders, NamesEqual, HOST, CONNECTION, CONTENT_LENGTH, TRANSFER_ENCODING,
         NeedsLength, Stripped, Decimal;
    if FindHeader(req.headers, HOST).None? { AddedUnder(req, keepAlive, HOST); }
    if FindHeader(req.headers, CONNECTION).None? { AddedUnder(req, keepAlive, CONNECTION); }
    if FindHeader(req.headers, CONTENT_LENGTH).None? { AddedUnder(req, keepAlive, CONTENT_LENGTH); }
    DifferentLengths(HOST, HOST);
    DifferentLengths(HOST, CONNECTION);
    DifferentLengths(HOST, CONTENT_LENGTH);
    DifferentLengths(CONNECTION, CONNECTION);
    DifferentLengths(CONNECTION, CONTENT_LENGTH);
    DifferentLengths(CONTENT_LENGTH, CONNECTION);
    DifferentLengths(CONTENT_LENGTH, CONTENT_LENGTH);
  }

  lemma {:induction false} AddedUnder(req: HttpRequest, keepAlive: bool, name: string)
    requires CleanHeaders(req.headers) && FindHeader(req.headers, name).None?
    ensures FindHeader(WireHeaders(req, keepAlive), name) ==
            if FindHeader(req.headers, HOST).None? && NamesEqual(HOST, name) then Some(Stripped(req.host))
            else if NeedsLength(req) && NamesEqual(CONTENT_LENGTH, name) then Some(Decimal(|req.body|))
            else if FindHeader(req.headers, CONNECTION).None? && NamesEqual(CONNECTION, name)
            then Some(if keepAlive then "keep-alive" else "close")
            else None
  {
    hide CleanHeaders, FindHeader, WireHeaders, NamesEqual, HOST, CONNECTION, CONTENT_LENGTH, NeedsLength, Stripped,
         Decimal;
    WireFind(req, keepAlive, name);
    HostGives(req, name);
    LengthGives(req, name);
    ConnectionGives(req, keepAlive, name);
  }

  lemma {:induction false} OwnNamesFound(req: HttpRequest, keepAlive: bool, name: string, v: string)
    requires CleanHeaders(req.headers) && FirstNamed(req.headers, name, v)
    ensures FirstNamed(WireHeaders(req, keepAlive), name, v)
  {
    hide CleanHeaders, FindHeader, WireHeaders, FirstNamed, NoneNamed;
    FindHeaderExactly(req.headers, name);
    FindHeaderExactly(WireHeaders(req, keepAlive), name);
    OwnFound(req, keepAlive, name);
  }

  lemma {:induction false} AddedNamesFound(req: HttpRequest, keepAlive: bool)
    requires CleanHeaders(req.headers)
    ensures var own, ws := req.headers, WireHeaders(req, keepAlive);
      && (NoneNamed(own, HOST) ==> FirstNamed(ws, HOST, Stripped(req.host)))
      && (NoneNamed(own, CONNECTION) ==> FirstNamed(ws, CONNECTION, if keepAlive then "keep-alive" else "close"))
      && (NoneNamed(own, CONTENT_LENGTH) ==>
            if req.body != "" && NoneNamed(own, TRANSFER_ENCODING)
            then FirstNamed(ws, CONTENT_LENGTH, Decimal(|req.body|)) else NoneNamed(ws, CONTENT_LENGTH))
  {
    hide CleanHeaders, FindHeader, WireHeaders, FirstNamed, NoneNamed, HOST, CONNECTION, CONTENT_LENGTH,
         TRANSFER_ENCODING, Stripped, Decimal;
    AddedFound(req, keepAlive);
    FoundNames(req.headers);
    FoundNames(WireHeaders(req, keepAlive));
  }

  /** The server finds the caller's headers, and where the caller left them out
      the host, the chosen kind of connection, and the length of a body that is
      not otherwise framed; names in any case. */
  lemma {:induction false} HeadersFound(req: HttpRequest, keepAlive: bool)
    requires CleanHeaders(req.headers) && CleanHeaders([Header("Host", req.host)])
    ensures var own, hs := req.headers, HeadersBelow(LinesText(RequestLines(req, keepAlive)));
      && (forall name, v | FirstNamed(own, name, v) :: FirstNamed(hs, name, v))
      && (NoneNamed(own, "Host") ==> FirstNamed(hs, "Host", req.host))
      && (NoneNamed(own, "Connection") ==> FirstNamed(hs, "Connection", if keepAlive then "keep-alive" else "close"))
      && (NoneNamed(own, "Content-Length") ==>
            if req.body != "" && NoneNamed(own, "Transfer-Encoding")
            then FirstNamed(hs, "Content-Length", Decimal(|req.body|)) else NoneNamed(hs, "Content-Length"))
  {
    OwnNames();
    CleanHost(req);
    HeadersRoundTrip(req, keepAlive);
    AddedNamesFound(req, keepAlive);
    forall name, v | FirstNamed(req.headers, name, v) ensures FirstNamed(WireHeaders(req, keepAlive), name, v) {
      OwnNamesFound(req, keepAlive, name, v);
    }
    hide *;
  }

  lemma {:induction false} CleanHost(req: HttpRequest)
    requires CleanHeaders(req.headers) && CleanHeaders([Header("Host", req.host)])
    ensures CleanHeaders([Header(HOST, req.host)]) && Stripped(req.host) == req.host
    ensures forall k | 0 <= k < |req.headers| :: ':' !in req.headers[k].name
  {
    assert [Header("Host", req.host)][0].value == req.host;
  }

  lemma {:induction false} FoundNames(headers: seq<Header>)
    ensures FindHeader(headers, HOST).None? <==> NoneNamed(headers, HOST)
    ensures FindHeader(headers, CONNECTION).None? <==> NoneNamed(headers, CONNECTION)
    ensures FindHeader(headers, CONTENT_LENGTH).None? <==> NoneNamed(headers, CONTENT_LENGTH)
    ensures FindHeader(headers, TRANSFER_ENCODING).None? <==> NoneNamed(headers, TRANSFER_ENCODING)
    ensures forall v :: FindHeader(headers, HOST) == Some(v) <==> FirstNamed(headers, HOST, v)
    ensures forall v :: FindHeader(headers, CONNECTION) == Some(v) <==> FirstNamed(headers, CONNECTION, v)
    ensures forall v :: FindHeader(headers, CONTENT_LENGTH) == Some(v) <==> FirstNamed(headers, CONTENT_LENGTH, v)
  {
    hide *;
    FindHeaderExactly(headers, HOST);
    FindHeaderExactly(headers, CONNECTION);
    FindHeaderExactly(headers, CONTENT_LENGTH);
    FindHeaderExactly(headers, TRANSFER_ENCODING);
  }
}
