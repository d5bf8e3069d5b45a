/** The incremental parser of server-sent events. */
module SseParserModel {
  import opened Core
  import opened Text

  datatype Event = Event(event: string, data: string, id: string)

  datatype State = State(line: string, eventType: string, dataBuf: string, lastId: string, sawData: bool)

  const START := State("", "", "", "", false)

  /** The field of a line; without a colon the whole line is the name. */
  function FieldName(line: string): string {
    match IndexOf(line, ':')
    case None => line
    case Some(k) => line[..k]
  }

  /** The value of a line, less one leading space. */
  function FieldValue(line: string): string {
    match IndexOf(line, ':')
    case None => ""
    case Some(k) => if k + 1 < |line| && line[k + 1] == ' ' then line[k + 2..] else line[k + 1..]
  }

  function ApplyField(s: State, name: string, value: string): State {
    if name == "event" then s.(eventType := value)
    else if name == "data" then s.(dataBuf := s.dataBuf + value + "\n", sawData := true)
    else if name == "id" && '\0' !in value then s.(lastId := value)
    else s
  }

  /** The state and the event, if any, that a blank line leads to. */
  function Dispatch(s: State): (State, seq<Event>) {
    if !s.sawData then (s.(eventType := ""), [])
    else
      (s.(eventType := "", dataBuf := "", sawData := false),
       [Event(if s.eventType == "" then "message" else s.eventType, DropLastNewline(s.dataBuf), s.lastId)])
  }

  function DropLastNewline(s: string): string {
    if s != "" && s[|s| - 1] == '\n' then s[..|s| - 1] else s
  }

  function ProcessLine(s: State, line: string): (State, seq<Event>) {
    if line == "" then Dispatch(s)
    else if line[0] == ':' then (s, [])
    else (ApplyField(s, FieldName(line), FieldValue(line)), [])
  }

  function DropLastCr(s: string): string {
    if s != "" && s[|s| - 1] == '\r' then s[..|s| - 1] else s
  }

  function StepByte(s: State, c: char): (State, seq<Event>) {
    if c != '\n' then (s.(line := s.line + [c]), [])
    else
      var (t, es) := ProcessLine(s, DropLastCr(s.line));
      (t.(line := ""), es)
  }

  /** The state and the events after reading `data`. */
  function Parse(s: State, data: string): (State, seq<Event>)
    decreases |data|
  {
    if data == "" then (s, [])
    else
      var (t, e1) := StepByte(s, data[0]);
      var (u, e2) := Parse(t, data[1..]);
      (u, e1 + e2)
  }

  /** Feeding the pieces of a fragmented stream one after the other. */
  function ParseAll(s: State, pieces: seq<string>): (State, seq<Event>)
    decreases |pieces|
  {
    if pieces == [] then (s, [])
    else
      var (t, e1) := Parse(s, pieces[0]);
      var (u, e2) := ParseAll(t, pieces[1..]);
      (u, e1 + e2)
  }

  lemma {:induction false} ParseConcat(s: State, a: string, b: string)
    ensures var (t, e1) := Parse(s, a);
      var (u, e2) := Parse(t, b);
      Parse(s, a + b) == (u, e1 + e2)
    decreases |a|
  {
    if a == "" {
      assert a + b == b;
      assert [] + Parse(s, b).1 == Parse(s, b).1;
    } else {
      assert (a + b)[0] == a[0] && (a + b)[1..] == a[1..] + b;
      var (s', e0) := StepByte(s, a[0]);
      ParseConcat(s', a[1..], b);
      var (t, e1) := Parse(s', a[1..]);
      ConcatAssociates(e0, e1, Parse(t, b).1);
    }
  }

  /** The events do not depend on how the stream was cut into pieces. */
  lemma {:induction false} FragmentationIndependence(s: State, pieces: seq<string>)
    ensures ParseAll(s, pieces) == Parse(s, Joined(pieces))
    decreases |pieces|
  {
    if pieces != [] {
      ParseConcat(s, pieces[0], Joined(pieces[1..]));
      FragmentationIndependence(Parse(s, pieces[0]).0, pieces[1..]);
    }
  }

  /** The result of reading `data` after `events` were emitted already. */
  ghost function Going(s: State, events: seq<Event>, data: string): (State, seq<Event>) {
    var (t, es) := Parse(s, data);
    (t, events + es)
  }

  lemma {:induction false} Advance(s: State, events: seq<Event>, data: string, i: nat)
    requires i < |data|
    ensures var (t, es) := StepByte(s, data[i]);
      Going(s, events, data[i..]) == Going(t, events + es, data[i + 1..])
  {
    assert data[i..][0] == data[i] && data[i..][1..] == data[i + 1..];
    var (t, es) := StepByte(s, data[i]);
    ConcatAssociates(events, es, Parse(t, data[i + 1..]).1);
  }

  /** Processing a line does not look at the line buffer. */
  lemma {:induction false} ProcessIgnoresBuffer(s: State, line: string)
    ensures var (t, e1) := ProcessLine(s, line);
      var (u, e2) := ProcessLine(s.(line := line), line);
      t.(line := "") == u.(line := "") && e1 == e2
  {
    hide FieldName, FieldValue, DropLastNewline;
  }

  class SseParser {
    var lineBuf: string
    var eventType: string
    var dataBuf: string
    var lastId: string
    var sawData: bool

    ghost function Abs(): State
      reads this
    {
      State(lineBuf, eventType, dataBuf, lastId, sawData)
    }

    constructor ()
      ensures Abs() == START
    {
      lineBuf, eventType, dataBuf, lastId, sawData := "", "", "", "", false;
    }

    method Reset()
      modifies this
      ensures Abs() == START
    {
      lineBuf, eventType, dataBuf, lastId, sawData := "", "", "", "", false;
    }

    /** Reads `data`; `events` are the handler calls, in order. */
    method Feed(data: string) returns (events: seq<Event>)
      modifies this
      ensures (Abs(), events) == Parse(old(Abs()), data)
    {
      events := [];
      ghost var all := Parse(Abs(), data);
      assert data[0..] == data;
      assert [] + all.1 == all.1;
      for i := 0 to |data|
        invariant all == Going(Abs(), events, data[i..])
      {
        Advance(Abs(), events, data, i);
        var emitted := ConsumeByte(data[i]);
        events := events + emitted;
      }
      assert events + [] == events;
    }

    method ConsumeByte(c: char) returns (events: seq<Event>)
      modifies this
      ensures (Abs(), events) == StepByte(old(Abs()), c)
    {
      events := [];
      if c == '\n' {
        if lineBuf != "" && lineBuf[|lineBuf| - 1] == '\r' {
          lineBuf := lineBuf[..|lineBuf| - 1];
        }
        ProcessIgnoresBuffer(old(Abs()), lineBuf);
        events := HandleLine(lineBuf);
        lineBuf := "";
      } else {
        lineBuf := lineBuf + [c];
      }
    }

    method HandleLine(line: string) returns (events: seq<Event>)
      modifies this
      ensures (Abs(), events) == ProcessLine(old(Abs()), line)
    {
      events := [];
      if line == "" {
        events := HandleBlank();
        return;
      }
      if line[0] == ':' { return; }
      var field, value := line, "";
      var colon := IndexOf(line, ':');
      if colon.Some? {
        field, value := line[..colon.value], line[colon.value + 1..];
        if value != "" && value[0] == ' ' { value := value[1..]; }
      }
      assert value == FieldValue(line);
      if field == "event" {
        eventType := value;
      } else if field == "data" {
        dataBuf := dataBuf + value;
        dataBuf := dataBuf + "\n";
        sawData := true;
      } else if field == "id" {
        if IndexOf(value, '\0').None? { lastId := value; }
      }
    }

    method HandleBlank() returns (events: seq<Event>)
      modifies this
      ensures (Abs(), events) == Dispatch(old(Abs()))
    {
      if !sawData {
        eventType := "";
        return [];
      }
      var name := if eventType == "" then "message" else eventType;
      var text := dataBuf;
      if text != "" && text[|text| - 1] == '\n' { text := text[..|text| - 1]; }
      events := [Event(name, text, lastId)];
      eventType, dataBuf, sawData := "", "", false;
    }
  }
}
