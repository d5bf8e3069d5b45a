/** Section 4.1 of RFC 7230 from the sender's side: what a chunked body is,
    and that decoding one gives back the payload. */
module ChunkedEncoding {
  import opened Core
  import opened Text
  import opened ChunkedDecoderModel

  /** One chunk as a sender may write it: any hex spelling of the size, an
      optional extension, and CRLF or bare LF line ends. */
  datatype Chunk = Chunk(size: SizeSpelling, payload: string)

  datatype SizeSpelling = SizeSpelling(digits: string, ext: Option<string>, crlf: bool)

  /** The last chunk's size line, the trailer lines and the final blank line. */
  datatype Ending = Ending(size: SizeSpelling, trailers: seq<string>, crlf: bool)

  /** The number a string of hex digits spells. */
  function HexNumber(acc: nat, digits: string): nat
    requires forall k | 0 <= k < |digits| :: HexValue(digits[k]) >= 0
    decreases |digits|
  {
    if digits == "" then acc else HexNumber(acc * 16 + HexValue(digits[0]), digits[1..])
  }

  function NonCrCount(line: string): nat {
    if line == "" then 0 else (if line[0] == '\r' then 0 else 1) + NonCrCount(line[1..])
  }

  ghost predicate WellFormedSize(z: SizeSpelling, value: nat) {
    && z.digits != ""
    && (forall k | 0 <= k < |z.digits| :: HexValue(z.digits[k]) >= 0)
    && HexNumber(0, z.digits) == value < TWO_32
    && (z.ext.Some? ==> '\n' !in z.ext.value)
  }

  ghost predicate WellFormedChunk(c: Chunk) {
    c.payload != "" && WellFormedSize(c.size, |c.payload|)
  }

  /** A trailer line must not read as blank: the decoder counts its bytes other
      than CR in 32 bits. */
  ghost predicate WellFormedTrailer(line: string) {
    '\n' !in line && NonCrCount(line) % TWO_32 != 0
  }

  ghost predicate WellFormedEnding(e: Ending) {
    && WellFormedSize(e.size, 0)
    && forall k | 0 <= k < |e.trailers| :: WellFormedTrailer(e.trailers[k])
  }

  function ExtPart(ext: Option<string>): string {
    match ext
    case None => ""
    case Some(x) => ";" + x
  }

  function SizeLine(z: SizeSpelling): string {
    z.digits + ExtPart(z.ext) + Eol(z.crlf)
  }

  function EncodeChunk(c: Chunk): string {
    SizeLine(c.size) + c.payload + Eol(c.size.crlf)
  }

  function EncodeChunks(cs: seq<Chunk>): string {
    if cs == [] then "" else EncodeChunk(cs[0]) + EncodeChunks(cs[1..])
  }

  function EncodeTrailers(lines: seq<string>): string {
    if lines == [] then "" else lines[0] + "\n" + EncodeTrailers(lines[1..])
  }

  /** Everything up to the line feed that ends the message. */
  function AllButLastByte(cs: seq<Chunk>, e: Ending): string {
    EncodeChunks(cs) + SizeLine(e.size) + EncodeTrailers(e.trailers) + (if e.crlf then "\r" else "")
  }

  function Encode(cs: seq<Chunk>, e: Ending): string {
    AllButLastByte(cs, e) + "\n"
  }

  function Payload(cs: seq<Chunk>): string {
    if cs == [] then "" else cs[0].payload + Payload(cs[1..])
  }

  /** `data` takes the decoder from `s` to `t` and yields `out`. */
  ghost predicate Leads(s: State, data: string, t: State, out: string) {
    Decode(s, data) == Run(t, out, true)
  }

  lemma {:induction false} LeadsConcat(s: State, a: string, t: State, o1: string, b: string, u: State, o2: string)
    requires Leads(s, a, t, o1) && Leads(t, b, u, o2)
    ensures Leads(s, a + b, u, o1 + o2)
  {
    DecodeConcat(s, a, b);
  }

  lemma {:induction false} LeadsSilently(s: State, a: string, t: State, b: string, u: State)
    requires Leads(s, a, t, "") && Leads(t, b, u, "")
    ensures Leads(s, a + b, u, "")
  {
    LeadsConcat(s, a, t, "", b, u, "");
  }

  lemma {:induction false} LeadsByByte(s: State, c: char, t: State)
    requires StepByte(s, c) == Next(t, "")
    ensures Leads(s, [c], t, "")
  {
    assert [c][1..] == "";
    assert Decode(t, "") == Run(t, "", true);
  }

  /** Shifting in 32 bits is shifting, then reducing. */
  lemma {:induction false} ShiftReduced(n: nat, digit: nat)
    requires digit < 16
    ensures ShiftIn(n % TWO_32, digit) == (n * 16 + digit) % TWO_32
  {
    var q, r := n / TWO_32, n % TWO_32;
    assert n == q * TWO_32 + r;
    assert n * 16 + digit == (q * 16) * TWO_32 + (r * 16 + digit);
    AddMultiple(r * 16 + digit, q * 16);
  }

  lemma {:induction false} AddMultiple(x: nat, k: nat)
    ensures (k * TWO_32 + x) % TWO_32 == x % TWO_32
    decreases k
  {
    if k > 0 { AddMultiple(x, k - 1); }
  }

  /** The size register after any run of digits: the number reduced to 32 bits. */
  lemma {:induction false} DigitsDecode(acc: nat, saw: bool, digits: string, s: State)
    requires forall k | 0 <= k < |digits| :: HexValue(digits[k]) >= 0
    requires saw || acc == 0
    requires s.mode == Size && s.chunkSize == acc % TWO_32 && s.sawDigit == saw
    ensures Leads(s, digits,
                  Registers(Size, s.remaining, HexNumber(acc, digits) % TWO_32, saw || digits != "", s.trailerLen), "")
    decreases |digits|
  {
    if digits != "" {
      var d := HexValue(digits[0]);
      ShiftReduced(acc, d);
      DigitsDecode(acc * 16 + d, true, digits[1..], s.(chunkSize := ShiftIn(s.chunkSize, d), sawDigit := true));
    }
  }

  /** The chunk size is read exactly when it is below 2^32. */
  lemma {:induction false} SizeExactBelowLimit(digits: string)
    requires forall k | 0 <= k < |digits| :: HexValue(digits[k]) >= 0
    ensures Decode(START, digits).ok
    ensures Decode(START, digits).state.chunkSize == HexNumber(0, digits) <==> HexNumber(0, digits) < TWO_32
  {
    DigitsDecode(0, false, digits, START);
  }

  /** The size 2^32, a one and eight zeros, is read as zero, so that its chunk
      passes for the last one. */
  lemma {:induction false} SizeWraps(digits: string)
    requires |digits| == 9 && digits[0] == '1' && forall k | 1 <= k < 9 :: digits[k] == '0'
    ensures HexNumber(0, digits) == TWO_32
    ensures Leads(START, digits + "\n", Registers(Trailer, 0, 0, false, 0), "")
  {
    FirstDigit(digits);
    hide HexNumber, StepByte, Decode;
    ZerosShift(1, digits[1..]);
    EightZeros();
    DigitsDecode(0, false, digits, START);
    var s: State := Registers(Size, 0, 0, true, 0);
    SizeLineEnd(s, false);
    hide Leads;
    LeadsSilently(START, digits, s, "\n", Registers(Trailer, 0, 0, false, 0));
  }

  lemma {:induction false} FirstDigit(digits: string)
    requires |digits| == 9 && digits[0] == '1' && forall k | 1 <= k < 9 :: digits[k] == '0'
    ensures HexNumber(0, digits) == HexNumber(1, digits[1..])
  {
  }

  lemma {:induction false} EightZeros()
    ensures Pow16(8) == TWO_32
  {
    assert Pow16(4) == 65536 && Pow16(6) == 0x100_0000;
  }

  lemma {:induction false} ZerosShift(acc: nat, zeros: string)
    requires forall k | 0 <= k < |zeros| :: zeros[k] == '0'
    ensures HexNumber(acc, zeros) == acc * Pow16(|zeros|)
    decreases |zeros|
  {
    if zeros != "" { ZerosShift(acc * 16, zeros[1..]); }
  }

  function Pow16(n: nat): nat { if n == 0 then 1 else 16 * Pow16(n - 1) }

  /** A state that ignores every byte of `data` stays where it is. */
  lemma {:induction false} Skipped(s: State, data: string)
    requires forall k | 0 <= k < |data| :: StepByte(s, data[k]) == Next(s, "")
    ensures Leads(s, data, s, "")
    decreases |data|
  {
    if data != "" {
      assert data[1..] == data[1..|data|];
      Skipped(s, data[1..]);
    }
  }

  /** The line end of a size line, with its optional CR. */
  lemma {:induction false} SizeLineEnd(s: State, crlf: bool)
    requires s.mode == Size || s.mode == SizeExt
    requires s.sawDigit
    ensures Leads(s, Eol(crlf), EndSizeLine(s), "")
  {
    LeadsByByte(s, '\n', EndSizeLine(s));
    if crlf {
      LeadsByByte(s, '\r', s);
      LeadsSilently(s, "\r", s, "\n", EndSizeLine(s));
    }
  }

  lemma {:induction false} SizeLineDecodes(z: SizeSpelling, value: nat, t0: nat)
    requires WellFormedSize(z, value) && t0 < TWO_32
    ensures Leads(Registers(Size, 0, 0, false, t0), SizeLine(z),
                  EndSizeLine(Registers(Size, 0, value, true, t0)), "")
  {
    var s0: State := Registers(Size, 0, 0, false, t0);
    var s1: State := Registers(Size, 0, value, true, t0);
    DigitsDecode(0, false, z.digits, s0);
    var s2 := s1;
    if z.ext.Some? {
      s2 := s1.(mode := SizeExt);
      LeadsByByte(s1, ';', s2);
      Skipped(s2, z.ext.value);
      LeadsSilently(s1, ";", s2, z.ext.value, s2);
    }
    assert Leads(s1, ExtPart(z.ext), s2, "");
    LeadsSilently(s0, z.digits, s1, ExtPart(z.ext), s2);
    SizeLineEnd(s2, z.crlf);
    LeadsSilently(s0, z.digits + ExtPart(z.ext), s2, Eol(z.crlf), EndSizeLine(s2));
  }

  /** The line end behind a chunk's data. */
  lemma {:induction false} DataEnd(t0: nat, crlf: bool)
    requires t0 < TWO_32
    ensures Leads(Registers(DataCr, 0, 0, false, t0), Eol(crlf), Registers(Size, 0, 0, false, t0), "")
  {
    var a: State, b: State := Registers(DataCr, 0, 0, false, t0), Registers(Size, 0, 0, false, t0);
    if crlf {
      var m: State := a.(mode := DataLf);
      LeadsByByte(a, '\r', m);
      LeadsByByte(m, '\n', b);
      LeadsSilently(a, "\r", m, "\n", b);
    } else {
      LeadsByByte(a, '\n', b);
    }
  }

  lemma {:induction false} ChunkDecodes(c: Chunk, t0: nat)
    requires WellFormedChunk(c) && t0 < TWO_32
    ensures Leads(Registers(Size, 0, 0, false, t0), EncodeChunk(c), Registers(Size, 0, 0, false, t0), c.payload)
  {
    var s0: State := Registers(Size, 0, 0, false, t0);
    var s1: State := Registers(Data, |c.payload|, 0, false, t0);
    var s2: State := Registers(DataCr, 0, 0, false, t0);
    SizeLineDecodes(c.size, |c.payload|, t0);
    BulkCopy(s1, c.payload);
    LeadsConcat(s0, SizeLine(c.size), s1, "", c.payload, s2, c.payload);
    DataEnd(t0, c.size.crlf);
    LeadsConcat(s0, SizeLine(c.size) + c.payload, s2, "" + c.payload, Eol(c.size.crlf), s0, "");
    assert "" + c.payload + "" == c.payload;
  }

  lemma {:induction false} ChunksDecode(cs: seq<Chunk>, t0: nat)
    requires forall k | 0 <= k < |cs| :: WellFormedChunk(cs[k])
    requires t0 < TWO_32
    ensures Leads(Registers(Size, 0, 0, false, t0), EncodeChunks(cs), Registers(Size, 0, 0, false, t0), Payload(cs))
    decreases |cs|
  {
    if cs != [] {
      var s: State := Registers(Size, 0, 0, false, t0);
      ChunkDecodes(cs[0], t0);
      ChunksDecode(cs[1..], t0);
      LeadsConcat(s, EncodeChunk(cs[0]), s, cs[0].payload, EncodeChunks(cs[1..]), s, Payload(cs[1..]));
    }
  }

  lemma {:induction false} TrailerBytes(n: nat, line: string)
    requires '\n' !in line
    ensures Leads(Registers(Trailer, 0, 0, false, n % TWO_32), line,
                  Registers(Trailer, 0, 0, false, (n + NonCrCount(line)) % TWO_32), "")
    decreases |line|
  {
    if line != "" {
      assert line[0] in line && forall c | c in line[1..] :: c in line;
      var m := if line[0] == '\r' then n else n + 1;
      var s: State := Registers(Trailer, 0, 0, false, n % TWO_32);
      TrailerStep(n, line[0]);
      TrailerBytes(m, line[1..]);
      hide StepByte, NonCrCount;
      LeadsByByte(s, line[0], Registers(Trailer, 0, 0, false, m % TWO_32));
      assert [line[0]] + line[1..] == line;
      LeadsSilently(s, [line[0]], Registers(Trailer, 0, 0, false, m % TWO_32), line[1..],
                    Registers(Trailer, 0, 0, false, (m + NonCrCount(line[1..])) % TWO_32));
      CountStep(line);
    }
  }

  lemma {:induction false} CountStep(line: string)
    requires line != ""
    ensures NonCrCount(line) == (if line[0] == '\r' then 0 else 1) + NonCrCount(line[1..])
  {
  }

  lemma {:induction false} TrailerStep(n: nat, c: char)
    requires c != '\n'
    ensures StepByte(Registers(Trailer, 0, 0, false, n % TWO_32), c)
         == Next(Registers(Trailer, 0, 0, false, (if c == '\r' then n else n + 1) % TWO_32), "")
  {
  }

  lemma {:induction false} TrailersDecode(lines: seq<string>)
    requires forall k | 0 <= k < |lines| :: WellFormedTrailer(lines[k])
    ensures Leads(Registers(Trailer, 0, 0, false, 0), EncodeTrailers(lines), Registers(Trailer, 0, 0, false, 0), "")
    decreases |lines|
  {
    if lines != [] {
      var s: State := Registers(Trailer, 0, 0, false, 0);
      var line := lines[0];
      var m: State := Registers(Trailer, 0, 0, false, NonCrCount(line) % TWO_32);
      TrailerBytes(0, line);
      LeadsByByte(m, '\n', s);
      LeadsSilently(s, line, m, "\n", s);
      TrailersDecode(lines[1..]);
      LeadsSilently(s, line + "\n", s, EncodeTrailers(lines[1..]), s);
    }
  }

  /** All but the last byte of an encoding has been decoded, and the decoder is
      still waiting for the blank line. */
  lemma {:induction false} BeforeTheLastByte(cs: seq<Chunk>, e: Ending)
    requires forall k | 0 <= k < |cs| :: WellFormedChunk(cs[k])
    requires WellFormedEnding(e)
    ensures Leads(START, AllButLastByte(cs, e), Registers(Trailer, 0, 0, false, 0), Payload(cs))
  {
    var t: State := Registers(Trailer, 0, 0, false, 0);
    var payload := Payload(cs);
    ChunksDecode(cs, 0);
    SizeLineDecodes(e.size, 0, 0);
    LeadsConcat(START, EncodeChunks(cs), START, payload, SizeLine(e.size), t, "");
    assert payload + "" == payload;
    TrailersDecode(e.trailers);
    var head := EncodeChunks(cs) + SizeLine(e.size);
    LeadsConcat(START, head, t, payload, EncodeTrailers(e.trailers), t, "");
    var cr := if e.crlf then "\r" else "";
    if e.crlf { LeadsByByte(t, '\r', t); }
    LeadsConcat(START, head + EncodeTrailers(e.trailers), t, payload, cr, t, "");
  }

  /** Round trip: decoding an encoding followed by anything yields the payload
      and ends in Done; no proper prefix of the encoding gets there. */
  lemma {:induction false} RoundTrip(cs: seq<Chunk>, e: Ending, tail: string)
    requires forall k | 0 <= k < |cs| :: WellFormedChunk(cs[k])
    requires WellFormedEnding(e)
    ensures var r := Decode(START, Encode(cs, e) + tail);
      r.ok && r.state.mode == Done && r.out == Payload(cs)
    ensures forall n | 0 <= n < |Encode(cs, e)| ::
              var r := Decode(START, Encode(cs, e)[..n]); r.ok && r.state.mode != Done
  {
    var t: State := Registers(Trailer, 0, 0, false, 0);
    var head, whole, payload := AllButLastByte(cs, e), Encode(cs, e), Payload(cs);
    BeforeTheLastByte(cs, e);
    LeadsByByte(t, '\n', t.(mode := Done));
    LeadsConcat(START, head, t, payload, "\n", t.(mode := Done), "");
    DoneAbsorbs(t.(mode := Done), tail);
    LeadsConcat(START, whole, t.(mode := Done), payload + "", tail, t.(mode := Done), "");
    assert payload + "" + "" == payload;
    forall n | 0 <= n < |whole|
      ensures var r := Decode(START, whole[..n]); r.ok && r.state.mode != Done
    {
      assert whole[..n] == head[..n] && head == head[..n] + head[n..];
      StillRunning(START, head[..n], head[n..]);
    }
  }

  /** A prefix of a run that is not finished is not finished. */
  lemma {:induction false} StillRunning(s: State, a: string, b: string)
    requires Decode(s, a + b).ok && Decode(s, a + b).state.mode != Done
    ensures Decode(s, a).ok && Decode(s, a).state.mode != Done
  {
    DecodeConcat(s, a, b);
    var r := Decode(s, a);
    if r.state.mode == Done { DoneAbsorbs(r.state, b); }
  }
}
