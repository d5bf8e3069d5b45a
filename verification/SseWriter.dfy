/** Section 9.2.6 of the WHATWG HTML Standard from the sender's side, and the
    proof that the parser reads back exactly the events that were written. */
module SseWriter {
  import opened Core
  import opened Text
  import opened SseParserModel

  /** What a sender writes: an event type, a payload whose lines go out as
      separate data lines, and an id if it changes. */
  datatype Record = Record(event: string, data: string, id: Option<string>, crlf: bool)

  ghost predicate WellFormed(r: Record) {
    && r.event != "" && '\r' !in r.event && '\n' !in r.event
    && '\r' !in r.data
    && (r.id.Some? ==> '\0' !in r.id.value && '\r' !in r.id.value && '\n' !in r.id.value)
  }

  function Line(name: string, value: string, crlf: bool): string {
    name + ": " + value + Eol(crlf)
  }

  /** One data line per line of the payload. */
  function DataLines(data: string, crlf: bool): string
    decreases |data|
  {
    match IndexOf(data, '\n')
    case None => Line("data", data, crlf)
    case Some(k) => Line("data", data[..k], crlf) + DataLines(data[k + 1..], crlf)
  }

  function IdLine(id: Option<string>, crlf: bool): string {
    if id.Some? then Line("id", id.value, crlf) else ""
  }

  function Write(r: Record): string {
    Line("event", r.event, r.crlf) + IdLine(r.id, r.crlf) + DataLines(r.data, r.crlf) + Eol(r.crlf)
  }

  function WriteAll(rs: seq<Record>): string {
    if rs == [] then "" else Write(rs[0]) + WriteAll(rs[1..])
  }

  /** The id an event carries: its own, or the last one seen. */
  function IdAfter(r: Record, lastId: string): string {
    if r.id.Some? then r.id.value else lastId
  }

  function Expected(rs: seq<Record>, lastId: string): seq<Event> {
    if rs == [] then []
    else
      var id := IdAfter(rs[0], lastId);
      [Event(rs[0].event, rs[0].data, id)] + Expected(rs[1..], id)
  }

  function LastId(rs: seq<Record>, lastId: string): string {
    if rs == [] then lastId else LastId(rs[1..], IdAfter(rs[0], lastId))
  }

  /** Between two events. */
  function Idle(lastId: string): State {
    State("", "", "", lastId, false)
  }

  ghost predicate Leads(s: State, data: string, t: State, events: seq<Event>) {
    Parse(s, data) == (t, events)
  }

  lemma {:induction false} LeadsConcat(s: State, a: string, t: State, e1: seq<Event>, b: string, u: State,
                                       e2: seq<Event>)
    requires Leads(s, a, t, e1) && Leads(t, b, u, e2)
    ensures Leads(s, a + b, u, e1 + e2)
  {
    ParseConcat(s, a, b);
  }

  lemma {:induction false} LeadsSilently(s: State, a: string, t: State, b: string, u: State)
    requires Leads(s, a, t, []) && Leads(t, b, u, [])
    ensures Leads(s, a + b, u, [])
  {
    LeadsConcat(s, a, t, [], b, u, []);
  }

  /** Bytes other than LF pile up in the line buffer. */
  lemma {:induction false} Buffered(s: State, text: string)
    requires '\n' !in text
    ensures Leads(s, text, s.(line := s.line + text), [])
    decreases |text|
  {
    if text == "" {
      assert s.line + text == s.line;
    } else {
      assert text[0] in text && forall c | c in text[1..] :: c in text;
      var t := s.(line := s.line + [text[0]]);
      Buffered(t, text[1..]);
      assert StepByte(s, text[0]) == (t, []) && [] + Parse(t, text[1..]).1 == [];
      assert s.line + [text[0]] + text[1..] == s.line + text;
    }
  }

  /** A terminated line is processed whole, whichever way it ends; a CR of its
      own at its end must be followed by one. */
  lemma {:induction false} LineProcessed(s: State, text: string, crlf: bool)
    requires s.line == "" && '\n' !in text && (crlf || text == "" || text[|text| - 1] != '\r')
    ensures var (t, es) := ProcessLine(s.(line := text), text);
      Leads(s, text + Eol(crlf), t.(line := ""), es)
  {
    var cr := if crlf then "\r" else "";
    var full := text + cr;
    Buffered(s, full);
    assert "" + full == full;
    assert DropLastCr(full) == text by { OwnCrDropped(text, crlf); }
    var m := s.(line := full);
    var (t, es) := ProcessLine(s.(line := text), text);
    ProcessIgnoresBuffer(m, text);
    var (t', _) := ProcessLine(m, text);
    assert StepByte(m, '\n') == (t.(line := ""), es);
    assert "\n"[1..] == "" && es + [] == es;
    assert Parse(t.(line := ""), "") == (t.(line := ""), []);
    assert Leads(m, "\n", t.(line := ""), es);
    LeadsConcat(s, full, m, [], "\n", t.(line := ""), es);
    assert [] + es == es;
    assert full + "\n" == text + Eol(crlf);
  }

  lemma {:induction false} OwnCrDropped(text: string, crlf: bool)
    requires crlf || text == "" || text[|text| - 1] != '\r'
    ensures DropLastCr(text + if crlf then "\r" else "") == text
  {
    EmptySuffix(text);
    if crlf { assert (text + "\r")[..|text|] == text; }
  }

  /** A written field line is split at its first colon. */
  lemma {:induction false} FieldRecovered(name: string, value: string)
    requires ':' !in name && name != ""
    ensures var line := name + ": " + value;
      line != "" && line[0] != ':' && FieldName(line) == name && FieldValue(line) == value
  {
    var line := name + ": " + value;
    var k := |name|;
    assert line[..k] == name && line[k] == ':' && line[k + 1] == ' ';
    IndexOfFirst(line, ':', k);
    assert line[k + 2..] == value;
    assert line[0] == name[0] && name[0] in name;
  }

  lemma {:induction false} FieldLine(s: State, name: string, value: string, crlf: bool)
    requires s.line == "" && name in {"event", "data", "id"}
    requires '\n' !in value && '\r' !in value
    ensures Leads(s, Line(name, value, crlf), ApplyField(s, name, value), [])
  {
    var line := name + ": " + value;
    FieldRecovered(name, value);
    LineProcessed(s, line, crlf);
  }

  lemma {:induction false} OnePayload(was: string, first: string, rest: string)
    ensures was + first + "\n" + (rest + "\n") == was + (first + "\n" + rest + "\n")
  {
  }

  /** The data lines put the payload, with a final newline, into the buffer. */
  lemma {:induction false} DataRecovered(s: State, data: string, crlf: bool)
    requires s.line == "" && '\r' !in data
    ensures Leads(s, DataLines(data, crlf), s.(dataBuf := s.dataBuf + (data + "\n"), sawData := true), [])
    decreases |data|
  {
    hide Parse, Eol, Line;
    match IndexOf(data, '\n')
    case None =>
      FieldLine(s, "data", data, crlf);
      ConcatAssociates(s.dataBuf, data, "\n");
    case Some(k) =>
      var first, rest := data[..k], data[k + 1..];
      assert data == first + "\n" + rest;
      FieldLine(s, "data", first, crlf);
      hide Leads;
      var t := ApplyField(s, "data", first);
      DataRecovered(t, rest, crlf);
      OnePayload(s.dataBuf, first, rest);
      LeadsSilently(s, Line("data", first, crlf), t, DataLines(rest, crlf),
                    s.(dataBuf := s.dataBuf + (data + "\n"), sawData := true));
  }

  lemma {:induction false} RecordRecovered(r: Record, lastId: string)
    requires WellFormed(r)
    ensures var id := IdAfter(r, lastId);
      Leads(Idle(lastId), Write(r), Idle(id), [Event(r.event, r.data, id)])
  {
    var id := IdAfter(r, lastId);
    var s0 := Idle(lastId);
    var s1 := s0.(eventType := r.event);
    var s2 := s1.(lastId := id);
    var s3 := s2.(dataBuf := r.data + "\n", sawData := true);
    var es := [Event(r.event, r.data, id)];
    FieldLine(s0, "event", r.event, r.crlf);
    if r.id.Some? { FieldLine(s1, "id", id, r.crlf); }
    LeadsSilently(s0, Line("event", r.event, r.crlf), s1, IdLine(r.id, r.crlf), s2);
    DataRecovered(s2, r.data, r.crlf);
    assert "" + (r.data + "\n") == r.data + "\n";
    var head := Line("event", r.event, r.crlf) + IdLine(r.id, r.crlf);
    LeadsSilently(s0, head, s2, DataLines(r.data, r.crlf), s3);
    LineProcessed(s3, "", r.crlf);
    assert (r.data + "\n")[..|r.data|] == r.data;
    assert ProcessLine(s3, "") == (Idle(id), es);
    assert "" + Eol(r.crlf) == Eol(r.crlf);
    LeadsConcat(s0, head + DataLines(r.data, r.crlf), s3, [], Eol(r.crlf), Idle(id), es);
    assert [] + es == es;
  }

  /** Round trip: a written stream parses to exactly its events, in order, and
      an event without an id carries the last one written before it. */
  lemma {:induction false} RoundTrip(rs: seq<Record>, lastId: string)
    requires forall k | 0 <= k < |rs| :: WellFormed(rs[k])
    ensures Leads(Idle(lastId), WriteAll(rs), Idle(LastId(rs, lastId)), Expected(rs, lastId))
    decreases |rs|
  {
    if rs != [] {
      var id := IdAfter(rs[0], lastId);
      RecordRecovered(rs[0], lastId);
      RoundTrip(rs[1..], id);
      LeadsConcat(Idle(lastId), Write(rs[0]), Idle(id), [Event(rs[0].event, rs[0].data, id)],
                  WriteAll(rs[1..]), Idle(LastId(rs, lastId)), Expected(rs[1..], id));
    }
  }

  /** The same for a stream that arrives in any pieces. */
  lemma {:induction false} FragmentedRoundTrip(rs: seq<Record>, pieces: seq<string>)
    requires forall k | 0 <= k < |rs| :: WellFormed(rs[k])
    requires Joined(pieces) == WriteAll(rs)
    ensures ParseAll(START, pieces) == (Idle(LastId(rs, "")), Expected(rs, ""))
  {
    FragmentationIndependence(START, pieces);
    RoundTrip(rs, "");
  }
}
