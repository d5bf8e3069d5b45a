/** Which byte streams the chunked decoder takes, line by line and without its
    registers: the size lines, the data between them and the trailer. */
module ChunkedGrammar {
  import opened Core
  import opened Text
  import opened ChunkedDecoderModel
  import opened ChunkedEncoding

  const LOWER_HEX: string := "0123456789abcdef"
  const UPPER_HEX: string := "0123456789ABCDEF"

  /** A hex digit is worth its place in the alphabet, and nothing else is one. */
  lemma {:induction false} HexValueExactly(c: char)
    ensures forall k | 0 <= k < 16 :: HexValue(LOWER_HEX[k]) == k && HexValue(UPPER_HEX[k]) == k
    ensures HexValue(c) >= 0 ==> LOWER_HEX[HexValue(c)] == c || UPPER_HEX[HexValue(c)] == c
  {
  }

  /** A stream is complete, can still become complete, or never will. */
  datatype Verdict = Complete(payload: string) | Incomplete | Bad

  function VerdictOf(r: Run): Verdict {
    if !r.ok then Bad else if r.state.mode == Done then Complete(r.out) else Incomplete
  }

  /** A size line without its extension. */
  function SizePart(line: string): string {
    match IndexOf(line, ';')
    case None => line
    case Some(k) => line[..k]
  }

  predicate SizeChars(part: string) {
    forall k | 0 <= k < |part| :: HexValue(part[k]) >= 0 || part[k] == '\r'
  }

  /** The hex digits among the characters. */
  function Digits(part: string): (r: string)
    ensures forall k | 0 <= k < |r| :: HexValue(r[k]) >= 0
  {
    if part == "" then ""
    else if HexValue(part[0]) >= 0 then [part[0]] + Digits(part[1..])
    else Digits(part[1..])
  }

  /** Digits, CRs allowed among them, and at least one digit. */
  predicate GoodSizeLine(line: string) {
    SizeChars(SizePart(line)) && Digits(SizePart(line)) != ""
  }

  function SizeOf(line: string): (n: nat)
    ensures n < TWO_32
  {
    HexNumber(0, Digits(SizePart(line))) % TWO_32
  }

  /** The chunks of a body, read line by line. */
  function ReadChunks(text: string, payload: string): Verdict
    decreases |text|
  {
    match IndexOf(text, '\n')
    case None => if SizeChars(SizePart(text)) then Incomplete else Bad
    case Some(e) =>
      var n, rest := SizeOf(text[..e]), text[e + 1..];
      if !GoodSizeLine(text[..e]) then Bad
      else if n == 0 then ReadTrailer(rest, payload)
      else if |rest| <= n then Incomplete
      else if rest[n] == '\n' then ReadChunks(rest[n + 1..], payload + rest[..n])
      else if rest[n] != '\r' then Bad
      else if |rest| == n + 1 then Incomplete
      else if rest[n + 1] == '\n' then ReadChunks(rest[n + 2..], payload + rest[..n])
      else Bad
  }

  /** The trailer ends with its first blank line; any other bytes will do. */
  function ReadTrailer(text: string, payload: string): Verdict
    decreases |text|
  {
    match IndexOf(text, '\n')
    case None => Incomplete
    case Some(e) =>
      if NonCrCount(text[..e]) % TWO_32 == 0 then Complete(payload) else ReadTrailer(text[e + 1..], payload)
  }

  // ---- Size lines ----

  lemma {:induction false} PartRun(acc: nat, saw: bool, part: string, s: State)
    requires SizeChars(part) && (saw || acc == 0)
    requires s.mode == Size && s.chunkSize == acc % TWO_32 && s.sawDigit == saw
    ensures Leads(s, part, Registers(Size, s.remaining, HexNumber(acc, Digits(part)) % TWO_32,
                                     saw || Digits(part) != "", s.trailerLen), "")
    decreases |part|
  {
    if part != "" {
      var d := HexValue(part[0]);
      if d >= 0 {
        ShiftReduced(acc, d);
        PartRun(acc * 16 + d, true, part[1..], s.(chunkSize := ShiftIn(s.chunkSize, d), sawDigit := true));
        assert ([part[0]] + Digits(part[1..]))[1..] == Digits(part[1..]);
      } else {
        PartRun(acc, saw, part[1..], s);
      }
    }
  }

  lemma {:induction false} NotAllBelow(part: string)
    requires !SizeChars(part) && (HexValue(part[0]) >= 0 || part[0] == '\r')
    ensures !SizeChars(part[1..])
  {
    var k :| 0 <= k < |part| && !(HexValue(part[k]) >= 0 || part[k] == '\r');
    assert part[1..][k - 1] == part[k];
  }

  /** Any other character before the extension is refused where it stands. */
  lemma {:induction false} BadPart(s: State, part: string)
    requires s.mode == Size && !SizeChars(part) && ';' !in part && '\n' !in part
    ensures !Decode(s, part).ok
    decreases |part|
  {
    var c, rest := part[0], part[1..];
    assert c in part && c != ';' && c != '\n';
    if HexValue(c) >= 0 || c == '\r' {
      assert forall k | 0 <= k < |rest| :: part[k + 1] == rest[k];
      assert forall x | x in rest :: x in part;
      NotAllBelow(part);
      match StepByte(s, c) case Next(s', o) => BadPart(s', rest);
    }
  }

  /** The decoder at a chunk boundary. */
  function Boundary(t0: nat): State
    requires t0 < TWO_32
  {
    Registers(Size, 0, 0, false, t0)
  }

  /** Where a size line has led before its line feed. */
  function LineState(line: string, t0: nat): State
    requires t0 < TWO_32
  {
    Registers(if ';' in line then SizeExt else Size, 0, SizeOf(line), Digits(SizePart(line)) != "", t0)
  }

  lemma {:induction false} LineRun(line: string, t0: nat)
    requires '\n' !in line && t0 < TWO_32
    ensures SizeChars(SizePart(line)) ==> Leads(Boundary(t0), line, LineState(line, t0), "")
    ensures !SizeChars(SizePart(line)) ==> !Decode(Boundary(t0), line).ok
  {
    var part := SizePart(line);
    var below := line[|part|..];
    assert line == part + below && '\n' !in part && ';' !in part && '\n' !in below;
    DecodeConcat(Boundary(t0), part, below);
    if SizeChars(part) {
      PartRun(0, false, part, Boundary(t0));
      if below != "" {
        ExtensionRun(LineState(line, t0), below);
      }
    } else {
      BadPart(Boundary(t0), part);
    }
  }

  lemma {:induction false} ExtensionRun(t: State, below: string)
    requires t.mode == SizeExt && below != "" && below[0] == ';' && '\n' !in below
    ensures Leads(t.(mode := Size), below, t, "")
  {
    assert below[1..] == below[1..|below|] && forall k | 0 <= k < |below| - 1 :: below[1..][k] in below;
    Skipped(t, below[1..]);
    LeadsByByte(t.(mode := Size), ';', t);
    LeadsSilently(t.(mode := Size), [';'], t, below[1..], t);
    assert below == [';'] + below[1..];
  }

  /** A size line is taken exactly if it is a good one, whatever its extension,
      and the size is that of its digits in 32 bits. */
  lemma {:induction false} SizeLineExactly(line: string, t0: nat)
    requires '\n' !in line && t0 < TWO_32
    ensures Decode(Boundary(t0), line + "\n").ok <==> GoodSizeLine(line)
    ensures GoodSizeLine(line) ==>
              Leads(Boundary(t0), line + "\n",
                    if SizeOf(line) == 0 then Registers(Trailer, 0, 0, false, 0)
                    else Registers(Data, SizeOf(line), 0, false, t0), "")
  {
    LineRun(line, t0);
    DecodeConcat(Boundary(t0), line, "\n");
    if SizeChars(SizePart(line)) {
      var s := LineState(line, t0);
      hide SizePart, Digits, HexNumber, SizeOf, SizeChars;
      if s.sawDigit {
        LeadsByByte(s, '\n', EndSizeLine(s));
      } else {
        assert StepByte(s, '\n') == Malformed;
      }
    }
  }

  // ---- Whole streams ----

  /** A run so far, and what it still has to read. */
  lemma {:induction false} LedOn(s: State, a: string, t: State, o: string, text: string, payload: string)
    requires Leads(s, a, t, o) && |a| <= |text| && text[..|a|] == a
    ensures Then(Run(s, payload, true), text) == Then(Run(t, payload + o, true), text[|a|..])
  {
    hide Decode;
    assert text == a + text[|a|..];
    ThenJoins(Run(s, payload, true), a, text[|a|..]);
  }

  lemma {:induction false} Stopped(s: State, a: string, text: string, payload: string)
    requires !Decode(s, a).ok && |a| <= |text| && text[..|a|] == a
    ensures VerdictOf(Then(Run(s, payload, true), text)) == Bad
  {
    assert text == a + text[|a|..];
    DecodeConcat(s, a, text[|a|..]);
  }

  /** A blank trailer line ends the stream, any other one is skipped. */
  lemma {:induction false} TrailerLine(line: string)
    requires '\n' !in line
    ensures var t: State := Registers(Trailer, 0, 0, false, 0);
      Leads(t, line + "\n", if NonCrCount(line) % TWO_32 == 0 then t.(mode := Done) else t, "")
  {
    var t: State := Registers(Trailer, 0, 0, false, 0);
    TrailerBytes(0, line);
    hide NonCrCount;
    var u: State := Registers(Trailer, 0, 0, false, NonCrCount(line) % TWO_32);
    var v := if u.trailerLen == 0 then t.(mode := Done) else t;
    LeadsByByte(u, '\n', v);
    LeadsSilently(t, line, u, "\n", v);
  }

  lemma {:induction false} TrailerMeansGrammar(text: string, payload: string)
    ensures VerdictOf(Then(Run(Registers(Trailer, 0, 0, false, 0), payload, true), text)) == ReadTrailer(text, payload)
    decreases |text|
  {
    var t: State := Registers(Trailer, 0, 0, false, 0);
    match IndexOf(text, '\n')
    case None => TrailerBytes(0, text);
    case Some(e) =>
      var line := text[..e];
      TrailerLine(line);
      hide NonCrCount, Leads, Decode;
      var v := if NonCrCount(line) % TWO_32 == 0 then t.(mode := Done) else t;
      assert text[..e + 1] == line + "\n";
      LedOn(t, line + "\n", v, "", text, payload);
      EmptySuffix(payload);
      if v.mode == Done {
        DoneAbsorbs(v, text[e + 1..]);
      } else {
        TrailerMeansGrammar(text[e + 1..], payload);
      }
  }

  /** The data of a chunk and the line end behind it. */
  lemma {:induction false} DataMeansGrammar(n: nat, t0: nat, rest: string, payload: string)
    requires 0 < n < TWO_32 && t0 < TWO_32
    ensures var q := Then(Run(Registers(Data, n, 0, false, t0), payload, true), rest);
      if |rest| <= n then VerdictOf(q) == Incomplete
      else if rest[n] == '\n' then q == Then(Run(Boundary(t0), payload + rest[..n], true), rest[n + 1..])
      else if rest[n] != '\r' then VerdictOf(q) == Bad
      else if |rest| == n + 1 then VerdictOf(q) == Incomplete
      else if rest[n + 1] == '\n' then q == Then(Run(Boundary(t0), payload + rest[..n], true), rest[n + 2..])
      else VerdictOf(q) == Bad
  {
    var s: State, d: State := Registers(Data, n, 0, false, t0), Registers(DataCr, 0, 0, false, t0);
    if |rest| <= n {
      BulkCopy(s, rest);
    } else {
      var block, tail, p := rest[..n], rest[n..], payload + rest[..n];
      BulkCopy(s, block);
      LedOn(s, block, d, block, rest, payload);
      LineEndRun(t0, tail, p);
      assert tail[0] == rest[n] && tail[1..] == rest[n + 1..];
      if |tail| > 1 { assert tail[1] == rest[n + 1] && tail[2..] == rest[n + 2..]; }
    }
  }

  /** Behind the data nothing but a line feed, with a CR or without one. */
  lemma {:induction false} LineEndRun(t0: nat, tail: string, payload: string)
    requires tail != "" && t0 < TWO_32
    ensures var q := Then(Run(Registers(DataCr, 0, 0, false, t0), payload, true), tail);
      if tail[0] == '\n' then q == Then(Run(Boundary(t0), payload, true), tail[1..])
      else if tail[0] != '\r' then VerdictOf(q) == Bad
      else if |tail| == 1 then VerdictOf(q) == Incomplete
      else if tail[1] == '\n' then q == Then(Run(Boundary(t0), payload, true), tail[2..])
      else VerdictOf(q) == Bad
  {
    EmptySuffix(payload);
    var d: State, m: State := Registers(DataCr, 0, 0, false, t0), Registers(DataLf, 0, 0, false, t0);
    if tail[0] == '\n' {
      LeadsByByte(d, '\n', Boundary(t0));
      LedOn(d, ['\n'], Boundary(t0), "", tail, payload);
    } else if tail[0] == '\r' {
      LeadsByByte(d, '\r', m);
      LedOn(d, ['\r'], m, "", tail, payload);
      if |tail| > 1 && tail[1] == '\n' {
        LeadsByByte(m, '\n', Boundary(t0));
        LedOn(m, ['\n'], Boundary(t0), "", tail[1..], payload);
        assert tail[1..][1..] == tail[2..];
      }
    }
  }

  /** The byte machine decides and decodes every stream as the grammar does: it
      fails exactly on a bad one, is done exactly on a complete one, and then
      has put out its payload. */
  lemma {:induction false} DecoderMeansGrammar(text: string)
    ensures VerdictOf(Decode(START, text)) == ReadChunks(text, "")
  {
    ChunksMeanGrammar(text, 0, "");
    EmptyPrefix(Decode(START, text).out);
  }

  lemma {:induction false} ChunksMeanGrammar(text: string, t0: nat, payload: string)
    requires t0 < TWO_32
    ensures VerdictOf(Then(Run(Boundary(t0), payload, true), text)) == ReadChunks(text, payload)
    decreases |text|
  {
    hide GoodSizeLine, SizeChars, SizePart, SizeOf, IndexOf, VerdictOf, Then, ReadTrailer, Boundary;
    match IndexOf(text, '\n')
    case None => OpenLine(text, t0, payload);
    case Some(e) =>
      var n, rest := SizeOf(text[..e]), text[e + 1..];
      AtSizeLine(text, e, t0, payload);
      if GoodSizeLine(text[..e]) && n > 0 {
        DataMeansGrammar(n, t0, rest, payload);
        var skip := if |rest| > n && rest[n] == '\n' then n + 1 else n + 2;
        if skip <= |rest| { ChunksMeanGrammar(rest[skip..], t0, payload + rest[..n]); }
      }
  }

  /** Where the first line of a text leads from a chunk boundary. */
  lemma {:induction false} AtSizeLine(text: string, e: nat, t0: nat, payload: string)
    requires e < |text| && text[e] == '\n' && '\n' !in text[..e] && t0 < TWO_32
    ensures var n, rest, q := SizeOf(text[..e]), text[e + 1..], Then(Run(Boundary(t0), payload, true), text);
      if !GoodSizeLine(text[..e]) then VerdictOf(q) == Bad
      else if n == 0 then VerdictOf(q) == ReadTrailer(rest, payload)
      else q == Then(Run(Registers(Data, n, 0, false, t0), payload, true), rest)
  {
    var s, line, rest := Boundary(t0), text[..e], text[e + 1..];
    assert text[..e + 1] == line + "\n";
    SizeLineExactly(line, t0);
    hide GoodSizeLine, SizeOf, Leads, Decode, VerdictOf, Then, ReadTrailer;
    EmptySuffix(payload);
    if !GoodSizeLine(line) {
      Stopped(s, line + "\n", text, payload);
    } else if SizeOf(line) == 0 {
      LedOn(s, line + "\n", Registers(Trailer, 0, 0, false, 0), "", text, payload);
      TrailerMeansGrammar(rest, payload);
    } else {
      LedOn(s, line + "\n", Registers(Data, SizeOf(line), 0, false, t0), "", text, payload);
    }
  }

  lemma {:induction false} OpenLine(line: string, t0: nat, payload: string)
    requires '\n' !in line && t0 < TWO_32
    ensures VerdictOf(Then(Run(Boundary(t0), payload, true), line)) ==
            if SizeChars(SizePart(line)) then Incomplete else Bad
  {
    hide SizeChars, SizePart, SizeOf;
    LineRun(line, t0);
  }
}
