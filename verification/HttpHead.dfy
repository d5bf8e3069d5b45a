/** The head of an HTTP message: CRLF-terminated lines up to a blank one. */
module HttpHead {
  import opened Core
  import opened Text
  import opened HttpTypes

  const CRLF: string := "\r\n"
  const BLANK: string := "\r\n\r\n"

  // ---- What the client makes of a head ----

  function TrimLeft(s: string): string {
    if s != "" && (s[0] == ' ' || s[0] == '\t') then TrimLeft(s[1..]) else s
  }

  function TrimRight(s: string): string {
    if s != "" && s[|s| - 1] in {' ', '\t', '\r'} then TrimRight(s[..|s| - 1]) else s
  }

  function Trim(s: string): string { TrimRight(TrimLeft(s)) }

  ghost predicate Blank(s: string) {
    forall k | 0 <= k < |s| :: s[k] in {' ', '\t', '\r'}
  }

  /** Trimming takes blanks away on both sides, CRs on the right only, and leaves
      none there. */
  lemma {:induction false} TrimExactly(s: string) returns (before: string, after: string)
    ensures s == before + Trim(s) + after && Blank(before) && '\r' !in before && Blank(after)
    ensures Trim(s) != "" ==> Trim(s)[0] !in {' ', '\t'} && Trim(s)[|Trim(s)| - 1] !in {' ', '\t', '\r'}
  {
    var left := TrimLeft(s);
    before := TrimmedLeft(s);
    after := TrimmedRight(left);
    ConcatAssociates(before, Trim(s), after);
    if Trim(s) != "" { assert Trim(s)[0] == left[0]; }
  }

  lemma {:induction false} TrimmedLeft(s: string) returns (before: string)
    ensures s == before + TrimLeft(s) && Blank(before) && '\r' !in before
    ensures TrimLeft(s) != "" ==> TrimLeft(s)[0] !in {' ', '\t'}
    decreases |s|
  {
    before := "";
    if s != "" && (s[0] == ' ' || s[0] == '\t') {
      var more := TrimmedLeft(s[1..]);
      before := [s[0]] + more;
      ConcatAssociates([s[0]], more, TrimLeft(s));
      assert s == [s[0]] + s[1..];
    }
  }

  lemma {:induction false} TrimmedRight(s: string) returns (after: string)
    ensures s == TrimRight(s) + after && Blank(after)
    ensures TrimRight(s) != "" ==> TrimRight(s)[|TrimRight(s)| - 1] !in {' ', '\t', '\r'}
    decreases |s|
  {
    after := "";
    if s != "" && s[|s| - 1] in {' ', '\t', '\r'} {
      var more := TrimmedRight(s[..|s| - 1]);
      after := more + [s[|s| - 1]];
      ConcatAssociates(TrimRight(s), more, [s[|s| - 1]]);
      assert s == s[..|s| - 1] + [s[|s| - 1]];
    }
  }

  predicate AllDigits(s: string) {
    forall k | 0 <= k < |s| :: '0' <= s[k] <= '9'
  }

  function DigitsValue(acc: nat, s: string): nat
    requires AllDigits(s)
    decreases |s|
  {
    if s == "" then acc else DigitsValue(acc * 10 + (s[0] as int - '0' as int), s[1..])
  }

  datatype Head = Head(status: int, reason: string, headers: seq<Header>)

  /** Status code and reason of a status line. */
  function ParseStatusLine(line: string): Option<(int, string)> {
    match IndexOf(line, ' ')
    case None => None
    case Some(sp1) =>
      var rest := line[sp1 + 1..];
      var sp2 := IndexOf(rest, ' ');
      var code := if sp2.Some? then rest[..sp2.value] else rest;
      if |code| < 3 || !AllDigits(code) then None
      else Some((DigitsValue(0, code), if sp2.Some? then Trim(rest[sp2.value + 1..]) else ""))
  }

  /** The headers on a line: none if it has no colon. */
  function LineHeaders(line: string): seq<Header> {
    match IndexOf(line, ':')
    case None => []
    case Some(c) => [Header(Trim(line[..c]), Trim(line[c + 1..]))]
  }

  /** The headers of the lines of `text`, up to an empty line. */
  function HeaderLines(text: string): seq<Header>
    decreases |text|
  {
    if text == "" then []
    else
      match Find(text, CRLF, 0)
      case None => LineHeaders(text)
      case Some(e) => if e == 0 then [] else LineHeaders(text[..e]) + HeaderLines(text[e + 2..])
  }

  /** A response head, as the client reads it. */
  function ParseHead(block: string): Option<Head> {
    match Find(block, CRLF, 0)
    case None => None
    case Some(e) =>
      match ParseStatusLine(block[..e])
      case None => None
      case Some((code, reason)) => Some(Head(code, reason, HeadersBelow(block)))
  }

  /** The headers below the first line of a block. */
  function HeadersBelow(block: string): seq<Header> {
    match Find(block, CRLF, 0)
    case None => []
    case Some(e) => HeaderLines(block[e + 2..])
  }

  /** The line loop of the head parser, from an offset. */
  method ParseHeaderLines(block: string, from: nat) returns (headers: seq<Header>)
    requires from <= |block|
    ensures headers == HeaderLines(block[from..])
  {
    hide *;
    headers := [];
    var lineStart := from;
    ghost var all := HeaderLines(From(block, from));
    EmptyPrefix(all);
    AtOffset(block, from);
    while lineStart < |block|
      invariant all == headers + HeaderLines(From(block, lineStart))
      decreases |block| - lineStart
    {
      var nl := Find(block, CRLF, lineStart);
      var lineEnd := if nl.Some? then nl.value else |block|;
      var line := block[lineStart..lineEnd];
      LineLoopStep(headers, block, lineStart, lineEnd);
      lineStart := lineEnd + 2;
      if line == "" {
        EmptySuffix(headers);
        return;
      }
      headers := AddLine(headers, line);
    }
    AtOffset(block, lineStart);
    EmptySuffix(headers);
  }

  /** What is left of a block; the loop's offset may run past its end. */
  ghost function From(block: string, i: nat): string {
    if i < |block| then block[i..] else ""
  }

  lemma {:induction false} AtOffset(block: string, i: nat)
    ensures i <= |block| ==> From(block, i) == block[i..]
    ensures |block| <= i ==> HeaderLines(From(block, i)) == []
  {
  }

  /** A line without a colon is tolerated and skipped. */
  method AddLine(headers: seq<Header>, line: string) returns (r: seq<Header>)
    ensures r == headers + LineHeaders(line)
  {
    r := headers;
    var colon := IndexOf(line, ':');
    if colon.Some? {
      r := r + [Header(Trim(line[..colon.value]), Trim(line[colon.value + 1..]))];
    }
  }

  lemma {:induction false} SuffixLine(block: string, lo: nat, hi: nat)
    requires lo <= hi <= |block|
    ensures block[lo..][..hi - lo] == block[lo..hi]
    ensures hi + 2 <= |block| ==> block[lo..][hi - lo + 2..] == block[hi + 2..]
  {
  }

  lemma {:induction false} LineLoopStep(headers: seq<Header>, block: string, lineStart: nat, lineEnd: nat)
    requires lineStart < |block|
    requires lineEnd == (var nl := Find(block, CRLF, lineStart); if nl.Some? then nl.value else |block|)
    ensures lineStart <= lineEnd <= |block|
    ensures var line := block[lineStart..lineEnd];
      var before, after := HeaderLines(From(block, lineStart)), HeaderLines(From(block, lineEnd + 2));
      if line == "" then before == []
      else headers + before == (headers + LineHeaders(line)) + after
  {
    hide OccursAt, LineHeaders;
    var text, line, rest := block[lineStart..], block[lineStart..lineEnd], From(block, lineEnd + 2);
    FindInSuffix(block, CRLF, lineStart);
    SuffixLine(block, lineStart, lineEnd);
    match Find(text, CRLF, 0)
    case None =>
      assert text == line && HeaderLines(rest) == [];
      EmptySuffix(headers + LineHeaders(line));
    case Some(e) =>
      assert text[e + 2..] == rest && text[..e] == line;
      ConcatAssociates(headers, LineHeaders(line), HeaderLines(rest));
  }

  method ParseCode(codeStr: string) returns (code: Option<nat>)
    ensures code == if AllDigits(codeStr) then Some(DigitsValue(0, codeStr)) else None
  {
    var n: nat := 0;
    for i := 0 to |codeStr|
      invariant AllDigits(codeStr[..i])
      invariant AllDigits(codeStr[i..]) ==>
                AllDigits(codeStr) && DigitsValue(0, codeStr) == DigitsValue(n, codeStr[i..])
    {
      var c := codeStr[i];
      if c < '0' || c > '9' { return None; }
      assert codeStr[i..][0] == c && codeStr[i..][1..] == codeStr[i + 1..];
      n := n * 10 + (c as int - '0' as int);
    }
    code := Some(n);
  }

  /** Status line: version, code of at least three digits, reason. */
  method ReadStatusLine(statusLine: string) returns (r: Option<(int, string)>)
    ensures r == ParseStatusLine(statusLine)
  {
    hide IndexOf, Trim, AllDigits, DigitsValue;
    var sp1 := IndexOf(statusLine, ' ');
    if sp1.None? { return None; }
    var rest := statusLine[sp1.value + 1..];
    var sp2 := IndexOf(rest, ' ');
    var codeStr := if sp2.Some? then rest[..sp2.value] else rest;
    if |codeStr| < 3 { return None; }
    var code := ParseCode(codeStr);
    if code.None? { return None; }
    var reason := if sp2.Some? then Trim(rest[sp2.value + 1..]) else "";
    r := Some((code.value, reason));
  }

  /** Parses a head into `out`, appending to the headers already there. */
  method ParseHeaderBlock(block: string, outIn: HttpResponse) returns (status: Status, out: HttpResponse)
    ensures match ParseHead(block)
            case None => status == Fail(HttpMalformed) && out == outIn
            case Some(h) =>
              && status == Ok
              && out == HttpResponse(h.status, h.reason, outIn.headers + h.headers, outIn.body)
  {
    out := outIn;
    status := Fail(HttpMalformed);
    var pos := Find(block, CRLF, 0);
    if pos.None? { return; }
    var line := ReadStatusLine(block[..pos.value]);
    if line.None? { return; }
    var headers := ParseHeaderLines(block, pos.value + 2);
    out := HttpResponse(line.value.0, line.value.1, outIn.headers + headers, outIn.body);
    status := Ok;
  }

  // ---- How a head is written ----

  predicate CleanText(s: string) { '\r' !in s && '\n' !in s }

  /** Lines a sender may put on the wire: not empty, without CR and LF. */
  ghost predicate CleanLines(lines: seq<string>) {
    forall k | 0 <= k < |lines| :: lines[k] != "" && CleanText(lines[k])
  }

  /** Each line with its CRLF. */
  function LinesText(lines: seq<string>): string {
    if lines == [] then "" else lines[0] + CRLF + LinesText(lines[1..])
  }

  function HeaderLine(h: Header): string { h.name + ": " + h.value }

  function HeaderTexts(hs: seq<Header>): seq<string> {
    if hs == [] then [] else [HeaderLine(hs[0])] + HeaderTexts(hs[1..])
  }

  /** Headers that can be sent: nothing in them breaks a line or the name. */
  ghost predicate Sendable(hs: seq<Header>) {
    forall k | 0 <= k < |hs| :: CleanText(hs[k].name) && CleanText(hs[k].value) && ':' !in hs[k].name
  }

  /** Headers that come back unchanged from a line loop. */
  ghost predicate CleanHeaders(hs: seq<Header>) {
    && Sendable(hs)
    && forall k | 0 <= k < |hs| :: Trim(hs[k].name) == hs[k].name && Trim(hs[k].value) == hs[k].value
  }

  /** Searching on past a prefix without occurrences. */
  lemma {:induction false} FindSkips(t: string, n: string, k: nat)
    requires k <= |t|
    requires forall i | 0 <= i < k :: !OccursAt(t, n, i)
    ensures Find(t, n, 0).None? <==> Find(t[k..], n, 0).None?
    ensures Find(t, n, 0).Some? ==> Find(t, n, 0).value == k + Find(t[k..], n, 0).value
  {
    FindInSuffix(t, n, k);
    var a, b := Find(t, n, 0), Find(t, n, k);
    assert a.Some? ==> a.value >= k && OccursAt(t, n, a.value);
    assert b.Some? ==> OccursAt(t, n, b.value);
  }

  /** The first CRLF behind a clean line is its own. */
  lemma {:induction false} CrlfEndsLine(t: string, line: string, rest: string)
    requires CleanText(line) && t == line + CRLF + rest
    ensures Find(t, CRLF, 0) == Some(|line|)
    ensures t[..|line|] == line && t[|line| + 2..] == rest
  {
    NoEarlierCr(t, line, CRLF);
    assert t[|line|..|line| + 2] == CRLF;
    assert OccursAt(t, CRLF, |line|);
  }

  /** Nothing that starts with CR occurs inside a line without CR. */
  lemma {:induction false} NoEarlierCr(t: string, line: string, n: string)
    requires '\r' !in line && line <= t && n != "" && n[0] == '\r'
    ensures forall i | 0 <= i < |line| :: !OccursAt(t, n, i)
  {
    forall i | 0 <= i < |line| ensures !OccursAt(t, n, i) {
      OccursAtChar(t, n, i, 0);
      assert line[i] in line && t[i] == line[i];
    }
  }

  /** The first blank line is the one that ends the head, whatever follows. */
  lemma {:induction false} BlankEndsHead(lines: seq<string>, rest: string)
    requires lines != [] && CleanLines(lines)
    ensures |LinesText(lines)| >= 2
    ensures Find(LinesText(lines) + CRLF + rest, BLANK, 0) == Some(|LinesText(lines)| - 2)
    decreases |lines|
  {
    var line, more := lines[0], lines[1..];
    if more == [] {
      OneLineHead(line, rest);
    } else {
      BlankEndsHead(more, rest);
      StartsClean(more);
      LongerHead(line, LinesText(more), rest);
    }
  }

  lemma {:induction false} StartsClean(lines: seq<string>)
    requires lines != [] && CleanLines(lines)
    ensures LinesText(lines)[0] != '\r'
  {
    assert lines[0][0] in lines[0];
  }

  lemma {:induction false} OneLineHead(line: string, rest: string)
    requires CleanText(line)
    ensures Find(line + CRLF + LinesText([]) + CRLF + rest, BLANK, 0) == Some(|line|)
  {
    var t := line + CRLF + LinesText([]) + CRLF + rest;
    HeadSplits(line, LinesText([]), rest, t);
    BlankAfterLastLine(t, line);
  }

  lemma {:induction false} LongerHead(line: string, more: string, rest: string)
    requires CleanText(line) && |more| >= 2 && more[0] != '\r'
    requires Find(more + CRLF + rest, BLANK, 0) == Some(|more| - 2)
    ensures Find(line + CRLF + more + CRLF + rest, BLANK, 0) == Some(|line + CRLF + more| - 2)
  {
    var t := line + CRLF + more + CRLF + rest;
    HeadSplits(line, more, rest, t);
    BlankIsFurtherOn(t, line);
  }

  lemma {:induction false} HeadSplits(line: string, more: string, rest: string, t: string)
    requires t == line + CRLF + more + CRLF + rest
    ensures line <= t && |line| + 2 <= |t| && t[|line|] == '\r' && t[|line| + 1] == '\n'
    ensures t[|line| + 2..] == more + CRLF + rest
  {
  }

  lemma {:induction false} BlankAfterLastLine(t: string, line: string)
    requires CleanText(line) && line <= t && |line| + 4 <= |t|
    requires t[|line|] == '\r' && t[|line| + 1] == '\n' && t[|line| + 2..|line| + 4] == CRLF
    ensures Find(t, BLANK, 0) == Some(|line|)
  {
    NoEarlierCr(t, line, BLANK);
    assert t[|line|..|line| + 4] == BLANK;
    assert OccursAt(t, BLANK, |line|);
  }

  lemma {:induction false} BlankIsFurtherOn(t: string, line: string)
    requires CleanText(line) && line <= t && |line| + 2 < |t|
    requires t[|line| + 1] == '\n' && t[|line| + 2] != '\r'
    ensures Find(t, BLANK, 0).None? <==> Find(t[|line| + 2..], BLANK, 0).None?
    ensures Find(t, BLANK, 0).Some? ==>
              Find(t, BLANK, 0).value == |line| + 2 + Find(t[|line| + 2..], BLANK, 0).value
  {
    NoEarlierCr(t, line, BLANK);
    OccursAtChar(t, BLANK, |line|, 2);
    OccursAtChar(t, BLANK, |line| + 1, 0);
    FindSkips(t, BLANK, |line| + 2);
  }

  // ---- What the line loop makes of any lines ----

  function AllHeaders(lines: seq<string>): seq<Header> {
    if lines == [] then [] else LineHeaders(lines[0]) + AllHeaders(lines[1..])
  }

  /** A line is split at its first colon; without one it is skipped. */
  lemma {:induction false} LineExactly(name: string, value: string)
    requires ':' !in name
    ensures LineHeaders(name + [':'] + value) == [Header(Trim(name), Trim(value))]
    ensures LineHeaders(name) == []
  {
    var line := name + [':'] + value;
    assert line[..|name|] == name && line[|name|] == ':' && line[|name| + 1..] == value;
    IndexOfFirst(line, ':', |name|);
  }

  /** Every line gives its header, in order, whatever the lines hold. */
  lemma {:induction false} LinesRead(lines: seq<string>)
    requires CleanLines(lines)
    ensures HeaderLines(LinesText(lines)) == AllHeaders(lines)
    decreases |lines|
  {
    hide LineHeaders;
    if lines != [] {
      var line, rest := lines[0], LinesText(lines[1..]);
      CrlfEndsLine(line + CRLF + rest, line, rest);
      LinesRead(lines[1..]);
    }
  }

  /** A written header line reads back as that header. */
  lemma {:induction false} HeaderLineRecovered(h: Header)
    requires ':' !in h.name
    ensures LineHeaders(HeaderLine(h)) == [Header(Trim(h.name), Trim(h.value))]
  {
    var line, k := HeaderLine(h), |h.name|;
    assert line[..k] == h.name && line[k] == ':';
    IndexOfFirst(line, ':', k);
    assert line[k + 1..] == [' '] + h.value;
    assert ([' '] + h.value)[1..] == h.value;
  }

  function Trimmed(hs: seq<Header>): seq<Header> {
    if hs == [] then [] else [Header(Trim(hs[0].name), Trim(hs[0].value))] + Trimmed(hs[1..])
  }

  /** What is read back of written headers, colons in their names or not. */
  function Reread(hs: seq<Header>): seq<Header> {
    if hs == [] then [] else LineHeaders(HeaderLine(hs[0])) + Reread(hs[1..])
  }

  /** The line loop reads every written header line. */
  lemma {:induction false} HeadersReread(hs: seq<Header>)
    requires forall k | 0 <= k < |hs| :: CleanText(hs[k].name) && CleanText(hs[k].value)
    ensures HeaderLines(LinesText(HeaderTexts(hs))) == Reread(hs)
    decreases |hs|
  {
    hide LineHeaders;
    if hs != [] {
      var line, rest := HeaderLine(hs[0]), LinesText(HeaderTexts(hs[1..]));
      assert HeaderTexts(hs)[1..] == HeaderTexts(hs[1..]);
      CrlfEndsLine(line + CRLF + rest, line, rest);
      HeadersReread(hs[1..]);
    }
  }

  lemma {:induction false} RereadTrimmed(hs: seq<Header>)
    requires forall k | 0 <= k < |hs| :: ':' !in hs[k].name
    ensures Reread(hs) == Trimmed(hs)
    decreases |hs|
  {
    hide LineHeaders;
    if hs != [] {
      HeaderLineRecovered(hs[0]);
      RereadTrimmed(hs[1..]);
    }
  }

  lemma {:induction false} RereadConcat(a: seq<Header>, b: seq<Header>)
    ensures Reread(a + b) == Reread(a) + Reread(b)
    decreases |a|
  {
    hide LineHeaders;
    if a == [] {
      assert a + b == b;
    } else {
      assert (a + b)[1..] == a[1..] + b;
      RereadConcat(a[1..], b);
    }
  }

  /** The line loop recovers every written header, trimmed. */
  lemma {:induction false} HeadersRecovered(hs: seq<Header>)
    requires Sendable(hs)
    ensures HeaderLines(LinesText(HeaderTexts(hs))) == Trimmed(hs)
  {
    HeadersReread(hs);
    RereadTrimmed(hs);
    hide HeaderLines, LinesText, HeaderTexts, Reread, Trimmed;
  }

  lemma {:induction false} CleanHeadersUntouched(hs: seq<Header>)
    requires CleanHeaders(hs)
    ensures Trimmed(hs) == hs
    decreases |hs|
  {
    if hs != [] { CleanHeadersUntouched(hs[1..]); }
  }

  lemma {:induction false} HeaderTextsClean(hs: seq<Header>)
    requires forall k | 0 <= k < |hs| :: CleanText(hs[k].name) && CleanText(hs[k].value)
    ensures CleanLines(HeaderTexts(hs))
    decreases |hs|
  {
    if hs != [] {
      HeaderTextsClean(hs[1..]);
      assert CleanText(HeaderLine(hs[0]));
    }
  }
}
