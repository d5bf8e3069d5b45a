/** Section 9.2.6 of the WHATWG HTML Standard for every kind of line: what any
    list of lines before a blank one means, and that the parser reads it so. */
module SseBlocks {
  import opened Core
  import opened Text
  import opened SseParserModel
  import opened SseWriter

  /** A field, with a space behind its colon or not; a name without a colon; or
      a comment. */
  datatype WireLine =
    | Field(name: string, value: string, space: bool, crlf: bool)
    | Bare(name: string, crlf: bool)
    | Comment(text: string, crlf: bool)
  {
    function Text(): string {
      match this
      case Field(name, value, space, _) => name + (if space then ": " else ":") + value
      case Bare(name, _) => name
      case Comment(text, _) => ":" + text
    }

    /** Nothing in it ends the line, the name, or the space early. */
    ghost predicate WellFormed() {
      && '\n' !in Text() && (crlf || Text() == "" || Text()[|Text()| - 1] != '\r')
      && match this
         case Field(name, value, space, _) =>
           name != "" && ':' !in name && (space || value == "" || value[0] != ' ')
         case Bare(name, _) => name != "" && ':' !in name
         case Comment(_, _) => true
    }
  }

  /** The lines before a blank line, and how that one ends. */
  datatype Block = Block(lines: seq<WireLine>, crlf: bool)

  function LinesText(lines: seq<WireLine>): string {
    if lines == [] then ""
    else
      var l := lines[|lines| - 1];
      LinesText(lines[..|lines| - 1]) + (l.Text() + Eol(l.crlf))
  }

  function BlockText(b: Block): string { LinesText(b.lines) + Eol(b.crlf) }

  // ---- What a block means ----

  /** The values given under a name, in order. */
  function Values(lines: seq<WireLine>, name: string): seq<string> {
    if lines == [] then []
    else
      var l := lines[|lines| - 1];
      Values(lines[..|lines| - 1], name) +
      match l
      case Field(n, v, _, _) => if n == name then [v] else []
      case Bare(n, _) => if n == name then [""] else []
      case Comment(_, _) => []
  }

  function LastOr(ss: seq<string>, otherwise: string): string {
    if ss == [] then otherwise else ss[|ss| - 1]
  }

  function WithoutNul(ss: seq<string>): seq<string> {
    if ss == [] then []
    else WithoutNul(ss[..|ss| - 1]) + if '\0' in ss[|ss| - 1] then [] else [ss[|ss| - 1]]
  }

  /** The values with a newline behind each. */
  function Ended(ss: seq<string>): string {
    if ss == [] then "" else Ended(ss[..|ss| - 1]) + ss[|ss| - 1] + "\n"
  }

  /** The values with a newline between each two. */
  function Joined(ss: seq<string>): string {
    if ss == [] then ""
    else if |ss| == 1 then ss[0]
    else Joined(ss[..|ss| - 1]) + "\n" + ss[|ss| - 1]
  }

  /** The last id that holds no NUL; without one, the id stays. */
  function IdBehind(lines: seq<WireLine>, lastId: string): string {
    LastOr(WithoutNul(Values(lines, "id")), lastId)
  }

  /** One event if there are data: of the last type given, or a message. */
  function EventsOf(lines: seq<WireLine>, lastId: string): seq<Event> {
    var data, typ := Values(lines, "data"), LastOr(Values(lines, "event"), "");
    if data == [] then []
    else [Event(if typ == "" then "message" else typ, Joined(data), IdBehind(lines, lastId))]
  }

  function StreamText(bs: seq<Block>): string {
    if bs == [] then "" else BlockText(bs[0]) + StreamText(bs[1..])
  }

  function StreamEvents(bs: seq<Block>, lastId: string): seq<Event> {
    if bs == [] then [] else EventsOf(bs[0].lines, lastId) + StreamEvents(bs[1..], IdBehind(bs[0].lines, lastId))
  }

  function StreamId(bs: seq<Block>, lastId: string): string {
    if bs == [] then lastId else StreamId(bs[1..], IdBehind(bs[0].lines, lastId))
  }

  // ---- The parser reads it so ----

  /** The parser after some lines of a block. */
  function After(lines: seq<WireLine>, lastId: string): State {
    var data := Values(lines, "data");
    State("", LastOr(Values(lines, "event"), ""), Ended(data), IdBehind(lines, lastId), data != [])
  }

  function ApplyLine(s: State, l: WireLine): State {
    match l
    case Field(name, value, _, _) => ApplyField(s, name, value)
    case Bare(name, _) => ApplyField(s, name, "")
    case Comment(_, _) => s
  }

  lemma {:induction false} ColonFound(name: string, rest: string)
    requires ':' !in name && name != ""
    ensures var line := name + ":" + rest;
      line != "" && line[0] != ':' && FieldName(line) == name
      && FieldValue(line) == if rest != "" && rest[0] == ' ' then rest[1..] else rest
  {
    var line, k := name + ":" + rest, |name|;
    assert line[..k] == name && line[k] == ':' && line[k + 1..] == rest;
    IndexOfFirst(line, ':', k);
    assert line[0] == name[0] && name[0] in name;
    if rest != "" { assert line[k + 1] == rest[0] && line[k + 2..] == rest[1..]; }
  }

  lemma {:induction false} NoColon(name: string)
    requires ':' !in name && name != ""
    ensures name[0] != ':' && FieldName(name) == name && FieldValue(name) == ""
  {
    assert name[0] in name;
  }

  lemma {:induction false} LineMeans(s: State, l: WireLine)
    requires l.WellFormed()
    ensures ProcessLine(s, l.Text()) == (ApplyLine(s, l), [])
  {
    match l
    case Field(name, value, space, _) => FieldMeans(s, name, value, space);
    case Bare(name, _) =>
      NoColon(name);
      hide ApplyField, FieldName, FieldValue;
    case Comment(text, _) =>
      assert (":" + text)[0] == ':';
      hide ApplyField, FieldName, FieldValue;
  }

  lemma {:induction false} FieldMeans(s: State, name: string, value: string, space: bool)
    requires name != "" && ':' !in name && (space || value == "" || value[0] != ' ')
    ensures ProcessLine(s, name + (if space then ": " else ":") + value) == (ApplyField(s, name, value), [])
  {
    var rest := if space then " " + value else value;
    ColonFound(name, rest);
    hide ApplyField, FieldName, FieldValue;
    assert name + (if space then ": " else ":") + value == name + ":" + rest;
    assert space ==> rest[1..] == value;
  }

  lemma {:induction false} LineRead(s: State, l: WireLine)
    requires s.line == "" && l.WellFormed()
    ensures Leads(s, l.Text() + Eol(l.crlf), ApplyLine(s, l), []) && ApplyLine(s, l).line == ""
  {
    hide Parse, Eol, ProcessLine;
    LineProcessed(s, l.Text(), l.crlf);
    LineMeans(s.(line := l.Text()), l);
    hide Leads;
  }

  lemma {:induction false} ValueAdded(front: seq<WireLine>, l: WireLine, k: string)
    ensures Values(front + [l], k) ==
            match l
            case Field(n, v, _, _) => if n == k then Values(front, k) + [v] else Values(front, k)
            case Bare(n, _) => if n == k then Values(front, k) + [""] else Values(front, k)
            case Comment(_, _) => Values(front, k)
  {
    assert (front + [l])[..|front|] == front;
    EmptySuffix(Values(front, k));
  }

  lemma {:induction false} LastAdded(ss: seq<string>, s: string)
    ensures forall d :: LastOr(ss + [s], d) == s
    ensures Ended(ss + [s]) == Ended(ss) + s + "\n"
    ensures WithoutNul(ss + [s]) == if '\0' in s then WithoutNul(ss) else WithoutNul(ss) + [s]
  {
    assert (ss + [s])[..|ss|] == ss;
    EmptySuffix(WithoutNul(ss));
  }

  /** The fields of the parser's state, one by one. */
  lemma {:induction false} FieldByField(s: State, name: string, value: string)
    ensures var t := ApplyField(s, name, value);
      && t.line == s.line && t.eventType == (if name == "event" then value else s.eventType)
      && t.dataBuf == (if name == "data" then s.dataBuf + value + "\n" else s.dataBuf)
      && t.sawData == (s.sawData || name == "data")
      && t.lastId == if name == "id" && '\0' !in value then value else s.lastId
  {
    assert "event" != "data" && "event" != "id" && "data" != "id";
  }

  lemma {:induction false} AfterValue(front: seq<WireLine>, lines: seq<WireLine>, lastId: string, name: string,
                                      value: string)
    requires forall k | k in {"event", "data", "id"} ::
               Values(lines, k) == if name == k then Values(front, k) + [value] else Values(front, k)
    ensures After(lines, lastId) == ApplyField(After(front, lastId), name, value)
  {
    FieldByField(After(front, lastId), name, value);
    LastAdded(Values(front, "event"), value);
    LastAdded(Values(front, "data"), value);
    LastAdded(Values(front, "id"), value);
    hide Values, Ended, WithoutNul, ApplyField;
  }

  lemma {:induction false} OneMoreLine(front: seq<WireLine>, l: WireLine, lastId: string)
    ensures After(front + [l], lastId) == ApplyLine(After(front, lastId), l)
  {
    ValueAdded(front, l, "event");
    ValueAdded(front, l, "data");
    ValueAdded(front, l, "id");
    hide Values, ApplyField;
    match l
    case Field(name, value, _, _) => AfterValue(front, front + [l], lastId, name, value);
    case Bare(name, _) => AfterValue(front, front + [l], lastId, name, "");
    case Comment(_, _) =>
  }

  lemma {:induction false} LinesRead(lines: seq<WireLine>, lastId: string)
    requires forall k | 0 <= k < |lines| :: lines[k].WellFormed()
    ensures Leads(Idle(lastId), LinesText(lines), After(lines, lastId), [])
    decreases |lines|
  {
    if lines != [] {
      var l, front := lines[|lines| - 1], lines[..|lines| - 1];
      assert lines == front + [l];
      LinesRead(front, lastId);
      OneMoreLine(front, l, lastId);
      LineRead(After(front, lastId), l);
      hide Leads, After, ApplyLine;
      LeadsSilently(Idle(lastId), LinesText(front), After(front, lastId), l.Text() + Eol(l.crlf), After(lines, lastId));
    }
  }

  lemma {:induction false} EndedIsJoined(ss: seq<string>)
    requires ss != []
    ensures Ended(ss) == Joined(ss) + "\n"
    decreases |ss|
  {
    var front := ss[..|ss| - 1];
    if |ss| > 1 {
      EndedIsJoined(front);
    } else {
      assert Ended(front) == "" && "" + ss[0] == ss[0];
    }
  }

  lemma {:induction false} BlankMeans(lines: seq<WireLine>, lastId: string)
    ensures ProcessLine(After(lines, lastId), "") == (Idle(IdBehind(lines, lastId)), EventsOf(lines, lastId))
  {
    var data := Values(lines, "data");
    hide Values, IdBehind;
    if data != [] {
      EndedIsJoined(data);
      assert (Joined(data) + "\n")[..|Joined(data)|] == Joined(data);
    }
  }

  /** Any lines and a blank one give what they mean: at most one event, and the
      parser is ready for the next block, whatever the lines were. */
  lemma {:induction false} BlockRead(b: Block, lastId: string)
    requires forall k | 0 <= k < |b.lines| :: b.lines[k].WellFormed()
    ensures Leads(Idle(lastId), BlockText(b), Idle(IdBehind(b.lines, lastId)), EventsOf(b.lines, lastId))
  {
    LinesRead(b.lines, lastId);
    BlankMeans(b.lines, lastId);
    var s := After(b.lines, lastId);
    LineProcessed(s, "", b.crlf);
    EmptyPrefix(Eol(b.crlf));
    EmptyPrefix(EventsOf(b.lines, lastId));
    hide Leads, After, EventsOf, IdBehind, LinesText, ProcessLine, Eol;
    assert s.(line := "") == s by { BlankBuffer(b.lines, lastId); }
    LeadsConcat(Idle(lastId), LinesText(b.lines), s, [], Eol(b.crlf), Idle(IdBehind(b.lines, lastId)),
                EventsOf(b.lines, lastId));
  }

  lemma {:induction false} BlankBuffer(lines: seq<WireLine>, lastId: string)
    ensures After(lines, lastId).line == ""
    ensures After(lines, lastId).(line := "") == After(lines, lastId)
  {
  }

  /** So does a whole stream of blocks, however it is cut. */
  lemma {:induction false} StreamRead(bs: seq<Block>, lastId: string)
    requires forall i | 0 <= i < |bs| :: forall k | 0 <= k < |bs[i].lines| :: bs[i].lines[k].WellFormed()
    ensures Leads(Idle(lastId), StreamText(bs), Idle(StreamId(bs, lastId)), StreamEvents(bs, lastId))
    decreases |bs|
  {
    if bs != [] {
      var id := IdBehind(bs[0].lines, lastId);
      BlockRead(bs[0], lastId);
      hide Leads, EventsOf, IdBehind, BlockText;
      StreamRead(bs[1..], id);
      LeadsConcat(Idle(lastId), BlockText(bs[0]), Idle(id), EventsOf(bs[0].lines, lastId),
                  StreamText(bs[1..]), Idle(StreamId(bs, lastId)), StreamEvents(bs[1..], id));
    }
  }

  lemma {:induction false} FragmentedStreamRead(bs: seq<Block>, pieces: seq<string>)
    requires forall i | 0 <= i < |bs| :: forall k | 0 <= k < |bs[i].lines| :: bs[i].lines[k].WellFormed()
    requires Text.Joined(pieces) == StreamText(bs)
    ensures ParseAll(START, pieces) == (Idle(StreamId(bs, "")), StreamEvents(bs, ""))
  {
    FragmentationIndependence(START, pieces);
    StreamRead(bs, "");
  }

  // ---- Every byte stream is one of these ----

  ghost predicate AllWellFormed(lines: seq<WireLine>) {
    forall k | 0 <= k < |lines| :: lines[k].WellFormed()
  }

  ghost predicate AllBlocks(bs: seq<Block>) {
    forall i | 0 <= i < |bs| :: AllWellFormed(bs[i].lines)
  }

  /** Any line that is not blank is a field, a bare name, or a comment. */
  lemma {:induction false} LineOf(t: string) returns (l: WireLine)
    requires '\n' !in t && DropLastCr(t) != ""
    ensures l.WellFormed() && l.Text() + Eol(l.crlf) == t + "\n"
  {
    var body, crlf := DropLastCr(t), t[|t| - 1] == '\r';
    assert body + Eol(crlf) == t + "\n" by { CrOrNone(t); }
    assert forall c | c in body :: c in t;
    if body[0] == ':' {
      l := Comment(body[1..], crlf);
      assert ":" + body[1..] == body;
    } else {
      match IndexOf(body, ':')
      case None => l := Bare(body, crlf);
      case Some(k) => l := FieldOf(body, k, crlf);
    }
    assert l.Text() == body;
  }

  lemma {:induction false} CrOrNone(t: string)
    requires t != ""
    ensures DropLastCr(t) + Eol(t[|t| - 1] == '\r') == t + "\n"
  {
    if t[|t| - 1] == '\r' { assert t == t[..|t| - 1] + "\r"; }
  }

  lemma {:induction false} FieldOf(body: string, k: nat, crlf: bool) returns (l: WireLine)
    requires 0 < k < |body| && body[k] == ':' && ':' !in body[..k]
    ensures l.Field? && l.Text() == body && l.crlf == crlf && l.name != "" && ':' !in l.name
    ensures l.space || l.value == "" || l.value[0] != ' '
  {
    var name, rest := body[..k], body[k + 1..];
    ColonBetween(body, k);
    if rest != "" && rest[0] == ' ' {
      l := Field(name, rest[1..], true, crlf);
      SpaceBehind(name, rest);
    } else {
      l := Field(name, rest, false, crlf);
    }
  }

  lemma {:induction false} ColonBetween(body: string, k: nat)
    requires k < |body| && body[k] == ':'
    ensures body == body[..k] + ":" + body[k + 1..]
  {
  }

  lemma {:induction false} SpaceBehind(name: string, rest: string)
    requires rest != "" && rest[0] == ' '
    ensures name + ": " + rest[1..] == name + ":" + rest
  {
  }

  lemma {:induction false} LinesPush(lines: seq<WireLine>, l: WireLine)
    ensures LinesText(lines + [l]) == LinesText(lines) + (l.Text() + Eol(l.crlf))
    ensures AllWellFormed(lines) && l.WellFormed() ==> AllWellFormed(lines + [l])
  {
    assert (lines + [l])[..|lines|] == lines;
  }

  lemma {:induction false} BlankEnds(t: string)
    requires DropLastCr(t) == ""
    ensures Eol(t != "") == t + "\n"
  {
    if t != "" { assert t == t[..|t| - 1] + [t[|t| - 1]]; }
  }

  lemma {:induction false} TextAtBreak(text: string, k: nat)
    requires k < |text| && text[k] == '\n'
    ensures text == text[..k] + "\n" + text[k + 1..]
  {
  }

  /** Every text is a stream of blocks, then lines of one not ended yet, then
      what has come of a line. */
  lemma {:induction false} BlocksOf(text: string, begun: seq<WireLine>)
    returns (bs: seq<Block>, lines: seq<WireLine>, rest: string)
    requires AllWellFormed(begun)
    ensures LinesText(begun) + text == StreamText(bs) + LinesText(lines) + rest
    ensures AllBlocks(bs) && AllWellFormed(lines) && '\n' !in rest
    decreases |text|
  {
    hide AllWellFormed, LinesText, DropLastCr;
    match IndexOf(text, '\n')
    case None =>
      bs, lines, rest := [], begun, text;
      EmptyPrefix(LinesText(begun));
    case Some(k) =>
      var t, more := text[..k], text[k + 1..];
      TextAtBreak(text, k);
      if DropLastCr(t) == "" {
        NoLines(more);
        bs, lines, rest := BlocksOf(more, []);
        BlankEnds(t);
        BlockFirst(begun, text, t, more, bs, lines, rest);
        bs := [Block(begun, t != "")] + bs;
      } else {
        var l := LineOf(t);
        LinesPush(begun, l);
        bs, lines, rest := BlocksOf(more, begun + [l]);
        LineFirst(LinesText(begun), text, t + "\n", more);
      }
  }

  lemma {:induction false} NoLines(more: string)
    ensures AllWellFormed([]) && LinesText([]) + more == more
  {
  }

  lemma {:induction false} LineFirst(a: string, text: string, line: string, more: string)
    requires text == line + more
    ensures a + text == a + line + more
  {
  }

  lemma {:induction false} BlockFirst(begun: seq<WireLine>, text: string, t: string, more: string, bs: seq<Block>,
                                      lines: seq<WireLine>, rest: string)
    requires text == t + "\n" + more && more == StreamText(bs) + LinesText(lines) + rest && Eol(t != "") == t + "\n"
    requires AllWellFormed(begun) && AllBlocks(bs)
    ensures var all := [Block(begun, t != "")] + bs;
      AllBlocks(all) && LinesText(begun) + text == StreamText(all) + LinesText(lines) + rest
  {
    hide AllWellFormed, LinesText;
    var b := Block(begun, t != "");
    assert ([b] + bs)[1..] == bs;
    assert StreamText([b] + bs) == LinesText(begun) + (t + "\n") + StreamText(bs);
    hide StreamText, AllBlocks;
    Regroup(LinesText(begun), t + "\n", StreamText(bs), LinesText(lines), rest);
  }

  lemma {:induction false} Regroup(a: string, b: string, c: string, d: string, e: string)
    ensures a + (b + (c + d + e)) == a + b + c + d + e
  {
  }

  /** The main result, for every byte stream: the parser emits exactly the events
      of its blocks, and keeps what the lines behind them have said so far. */
  lemma {:induction false} EveryStreamRead(text: string) returns (bs: seq<Block>, lines: seq<WireLine>, rest: string)
    ensures text == StreamText(bs) + LinesText(lines) + rest
    ensures AllBlocks(bs) && AllWellFormed(lines) && '\n' !in rest
    ensures Parse(START, text) == (After(lines, StreamId(bs, "")).(line := rest), StreamEvents(bs, ""))
  {
    NoLines(text);
    bs, lines, rest := BlocksOf(text, []);
    var id := StreamId(bs, "");
    var s := After(lines, id);
    StreamRead(bs, "");
    LinesRead(lines, id);
    Buffered(s, rest);
    BlankBuffer(lines, id);
    EmptyPrefix(rest);
    hide After, StreamEvents, StreamText, LinesText, StreamId, Parse, AllBlocks, AllWellFormed;
    EmptySuffix(StreamEvents(bs, ""));
    LeadsConcat(START, StreamText(bs), Idle(id), StreamEvents(bs, ""), LinesText(lines), s, []);
    LeadsConcat(START, StreamText(bs) + LinesText(lines), s, StreamEvents(bs, ""), rest, s.(line := rest), []);
  }
}
