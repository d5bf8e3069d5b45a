/** The incremental decoder of chunked transfer encoding. */
module ChunkedDecoderModel {
  import opened Core
  import opened Text

  datatype Mode = Size | SizeExt | Data | DataCr | DataLf | Trailer | Done

  /** The decoder's registers. `remaining`, `chunkSize` and `trailerLen` are
      32-bit; the first two invariants keep the bulk copy from standing still
      and an empty size line from passing as a zero. */
  datatype Registers = Registers(mode: Mode, remaining: nat, chunkSize: nat, sawDigit: bool, trailerLen: nat)
  {
    ghost predicate Consistent() {
      && (mode == Data <==> remaining > 0)
      && (!sawDigit ==> chunkSize == 0)
      && chunkSize < TWO_32
      && trailerLen < TWO_32
    }
  }

  type State = r: Registers | r.Consistent() witness START

  const START := Registers(Size, 0, 0, false, 0)

  function HexValue(c: char): (v: int)
    ensures -1 <= v < 16
  {
    if '0' <= c <= '9' then c as int - '0' as int
    else if 'a' <= c <= 'f' then c as int - 'a' as int + 10
    else if 'A' <= c <= 'F' then c as int - 'A' as int + 10
    else -1
  }

  /** `(size << 4) | digit` in 32 bits. */
  function ShiftIn(size: nat, digit: nat): (r: nat)
    requires digit < 16
    ensures r == (size * 16 + digit) % TWO_32
    ensures r < TWO_32
  {
    (size * 16) % TWO_32 + digit
  }

  /** The line feed that ends a size line: the last chunk has size zero. */
  function EndSizeLine(s: State): State
    requires s.mode == Size || s.mode == SizeExt
  {
    if s.chunkSize == 0 then Registers(Trailer, s.remaining, 0, false, 0)
    else Registers(Data, s.chunkSize, 0, false, s.trailerLen)
  }

  datatype Step = Next(state: State, out: string) | Malformed

  /** What one byte does. */
  function StepByte(s: State, c: char): Step {
    match s.mode
    case Size =>
      var hv := HexValue(c);
      if hv >= 0 then Next(s.(chunkSize := ShiftIn(s.chunkSize, hv), sawDigit := true), "")
      else if c == ';' then Next(s.(mode := SizeExt), "")
      else if c == '\r' then Next(s, "")
      else if c == '\n' && s.sawDigit then Next(EndSizeLine(s), "")
      else Malformed
    case SizeExt =>
      if c != '\n' then Next(s, "")
      else if s.chunkSize == 0 && !s.sawDigit then Malformed
      else Next(EndSizeLine(s), "")
    case Data => Next(Copied(s, 1), [c])
    case DataCr =>
      if c == '\n' then Next(s.(mode := Size), "")
      else if c == '\r' then Next(s.(mode := DataLf), "")
      else Malformed
    case DataLf =>
      if c == '\n' then Next(s.(mode := Size), "") else Malformed
    case Trailer =>
      if c == '\n' then Next(if s.trailerLen == 0 then s.(mode := Done) else s.(trailerLen := 0), "")
      else if c == '\r' then Next(s, "")
      else Next(s.(trailerLen := (s.trailerLen + 1) % TWO_32), "")
    case Done => Next(s, "")
  }

  /** The state after copying `n` bytes of the current chunk. */
  function Copied(s: State, n: nat): State
    requires n <= s.remaining && s.mode == Data
  {
    s.(remaining := s.remaining - n, mode := if n == s.remaining then DataCr else Data)
  }

  datatype Run = Run(state: State, out: string, ok: bool)

  /** Feeding `data` one byte at a time, up to the first malformed byte. */
  function Decode(s: State, data: string): Run
    decreases |data|
  {
    if data == "" then Run(s, "", true)
    else
      match StepByte(s, data[0])
      case Malformed => Run(s, "", false)
      case Next(s', o) =>
        var r := Decode(s', data[1..]);
        Run(r.state, o + r.out, r.ok)
  }

  /** A run followed by more data; after an error nothing more is read. */
  function Then(r: Run, data: string): Run {
    if !r.ok then r
    else
      var q := Decode(r.state, data);
      Run(q.state, r.out + q.out, q.ok)
  }

  /** Feeding the pieces of a fragmented stream one after the other. */
  function FeedAll(r: Run, pieces: seq<string>): Run
    decreases |pieces|
  {
    if pieces == [] then r else FeedAll(Then(r, pieces[0]), pieces[1..])
  }

  /** Where a stream is cut does not matter. */
  lemma {:induction false} DecodeConcat(s: State, a: string, b: string)
    ensures Decode(s, a + b) == Then(Decode(s, a), b)
    decreases |a|
  {
    if a == "" {
      assert a + b == b;
      assert "" + Decode(s, b).out == Decode(s, b).out;
    } else {
      assert (a + b)[0] == a[0] && (a + b)[1..] == a[1..] + b;
      match StepByte(s, a[0])
      case Malformed =>
      case Next(s', o) =>
        DecodeConcat(s', a[1..], b);
        var r := Decode(s', a[1..]);
        ConcatAssociates(o, r.out, Decode(r.state, b).out);
    }
  }

  lemma {:induction false} ThenJoins(r: Run, a: string, b: string)
    ensures Then(Then(r, a), b) == Then(r, a + b)
  {
    if r.ok {
      DecodeConcat(r.state, a, b);
      var q := Decode(r.state, a);
      ConcatAssociates(r.out, q.out, Decode(q.state, b).out);
    }
  }

  /** Fragmentation independence: output, state and first error depend only on
      the bytes, not on how they were split into calls. */
  lemma {:induction false} FragmentationIndependence(r: Run, pieces: seq<string>)
    ensures FeedAll(r, pieces) == Then(r, Joined(pieces))
    decreases |pieces|
  {
    if pieces == [] {
      assert r.out + "" == r.out;
    } else {
      FragmentationIndependence(Then(r, pieces[0]), pieces[1..]);
      ThenJoins(r, pieces[0], Joined(pieces[1..]));
    }
  }

  /** The bulk copy does what so many single-byte steps do. */
  lemma {:induction false} BulkCopy(s: State, block: string)
    requires s.mode == Data && |block| <= s.remaining
    ensures Decode(s, block) == Run(Copied(s, |block|), block, true)
    decreases |block|
  {
    if block != "" {
      var s' := Copied(s, 1);
      if s'.mode == Data {
        BulkCopy(s', block[1..]);
      }
      assert [block[0]] + block[1..] == block;
    }
  }

  /** Nothing leads out of the terminal state. */
  lemma {:induction false} DoneAbsorbs(s: State, data: string)
    requires s.mode == Done
    ensures Decode(s, data) == Run(s, "", true)
    decreases |data|
  {
    if data != "" {
      DoneAbsorbs(s, data[1..]);
    }
  }

  /** The decoder never produces more bytes than it consumes. */
  lemma {:induction false} OutputBounded(s: State, data: string)
    ensures |Decode(s, data).out| <= |data|
    decreases |data|
  {
    if data != "" {
      match StepByte(s, data[0])
      case Malformed =>
      case Next(s', o) => OutputBounded(s', data[1..]);
    }
  }

  class ChunkedDecoder {
    var mode: Mode
    var remaining: nat
    var chunkSize: nat
    var sawSizeDigit: bool
    var trailerLineLen: nat

    ghost function Regs(): Registers
      reads this
    {
      Registers(mode, remaining, chunkSize, sawSizeDigit, trailerLineLen)
    }

    ghost predicate Valid()
      reads this
    {
      Regs().Consistent()
    }

    constructor ()
      ensures Valid() && Regs() == START
    {
      mode, remaining, chunkSize, sawSizeDigit, trailerLineLen := Size, 0, 0, false, 0;
    }

    method Reset()
      modifies this
      ensures Valid() && Regs() == START
    {
      mode, remaining, chunkSize, sawSizeDigit, trailerLineLen := Size, 0, 0, false, 0;
    }

    /** Decodes `data`, appending to `outIn`; `doneIn` is the caller's flag,
        which an error leaves alone. */
    method Feed(data: string, outIn: string, doneIn: bool) returns (status: Status, out: string, done: bool)
      requires Valid()
      modifies this
      ensures Valid()
      ensures var r := Decode(old(Regs()), data);
        && Regs() == r.state
        && out == outIn + r.out
        && status == (if r.ok then Ok else Fail(HttpMalformed))
        && done == if r.ok then r.state.mode == Done else doneIn
    {
      var i := 0;
      out, done := outIn, doneIn;
      ghost var emitted := "";
      ghost var all := Decode(Regs(), data);
      StillStart(Regs(), data);
      EmptySuffix(outIn);
      hide StepByte, Decode, Still;
      while i < |data|
        invariant 0 <= i <= |data| && Valid() && done == doneIn
        invariant out == outIn + emitted
        invariant Still(all, Regs(), emitted, data[i..])
        decreases |data| - i
      {
        ghost var s: State, rest := Regs(), data[i..];
        if mode == Data {
          var block := CopyData(data, i);
          CopyBlock(all, s, emitted, rest, |block|);
          SplitRest(data, i, |block|);
          out := out + block;
          ConcatAssociates(outIn, emitted, block);
          emitted := emitted + block;
          i := i + |block|;
        } else {
          status := ConsumeByte(data[i]);
          SilentStep(all, s, emitted, rest);
          SplitRest(data, i, 1);
          if status != Ok { return; }
          i := i + 1;
          if mode == Done {
            StillDone(all, Regs(), emitted, data[i..]);
            done := true;
            return;
          }
        }
      }
      StillEnd(all, Regs(), emitted, data[i..]);
      done := mode == Done;
      status := Ok;
    }

    /** In one go, what is at hand of the chunk. */
    method CopyData(data: string, i: nat) returns (block: string)
      requires Valid() && mode == Data && i < |data|
      modifies this
      ensures Valid() && 0 < |block| <= |data| - i && block == data[i..i + |block|]
      ensures |block| <= old(remaining) && Regs() == Copied(old(Regs()), |block|)
    {
      var avail := |data| - i;
      var take := if avail < remaining then avail else remaining;
      block := data[i..i + take];
      remaining := remaining - take;
      if remaining == 0 { mode := DataCr; }
    }

    /** One byte in any state but Data. */
    method ConsumeByte(c: char) returns (status: Status)
      requires Valid() && mode != Data
      modifies this
      ensures Valid()
      ensures status == (if StepByte(old(Regs()), c).Malformed? then Fail(HttpMalformed) else Ok)
      ensures Regs() == if status == Ok then StepByte(old(Regs()), c).state else old(Regs())
    {
      status := Ok;
      match mode {
        case Size =>
          var hv := HexValue(c);
          if hv >= 0 {
            chunkSize := ShiftIn(chunkSize, hv);
            sawSizeDigit := true;
          } else if c == ';' {
            mode := SizeExt;
          } else if c == '\r' {
            // wait for the line feed
          } else if c == '\n' {
            if !sawSizeDigit { return Fail(HttpMalformed); }
            FinishSizeLine();
          } else {
            return Fail(HttpMalformed);
          }
        case SizeExt =>
          if c == '\n' {
            if chunkSize == 0 && !sawSizeDigit { return Fail(HttpMalformed); }
            FinishSizeLine();
          }
        case DataCr =>
          if c == '\n' {
            mode := Size;
          } else if c == '\r' {
            mode := DataLf;
          } else {
            return Fail(HttpMalformed);
          }
        case DataLf =>
          if c != '\n' { return Fail(HttpMalformed); }
          mode := Size;
        case Trailer =>
          if c == '\n' {
            if trailerLineLen == 0 {
              mode := Done;
              return;
            }
            trailerLineLen := 0;
          } else if c != '\r' {
            trailerLineLen := (trailerLineLen + 1) % TWO_32;
          }
        case Done =>
      }
    }

    /** The common tail of both size-line states. */
    method FinishSizeLine()
      requires Valid() && mode in {Size, SizeExt}
      modifies this
      ensures Valid() && Regs() == EndSizeLine(old(Regs()))
    {
      if chunkSize == 0 {
        mode := Trailer;
        trailerLineLen := 0;
      } else {
        remaining := chunkSize;
        mode := Data;
      }
      chunkSize := 0;
      sawSizeDigit := false;
    }
  }

  lemma {:induction false} SplitRest(data: string, i: nat, n: nat)
    requires i + n <= |data|
    ensures data[i..][..n] == data[i..i + n]
    ensures data[i..][n..] == data[i + n..]
  {
  }

  /** `all` is what comes of `rest` after `emitted`. */
  ghost predicate Still(all: Run, s: State, emitted: string, rest: string) {
    all == Then(Run(s, emitted, true), rest)
  }

  lemma {:induction false} StillStart(s: State, data: string)
    ensures Still(Decode(s, data), s, "", data[0..])
  {
    assert data[0..] == data;
    EmptyPrefix(Decode(s, data).out);
    hide Decode;
  }

  lemma {:induction false} StillEnd(all: Run, s: State, emitted: string, rest: string)
    requires Still(all, s, emitted, rest) && rest == ""
    ensures all == Run(s, emitted, true)
  {
    EmptySuffix(emitted);
  }

  lemma {:induction false} StillDone(all: Run, s: State, emitted: string, rest: string)
    requires Still(all, s, emitted, rest) && s.mode == Done
    ensures all == Run(s, emitted, true)
  {
    DoneAbsorbs(s, rest);
    EmptySuffix(emitted);
    hide Decode;
  }

  lemma {:induction false} SilentStep(all: Run, s: State, emitted: string, rest: string)
    requires Still(all, s, emitted, rest) && rest != "" && s.mode != Data
    ensures match StepByte(s, rest[0])
            case Malformed => all == Run(s, emitted, false)
            case Next(s', _) => Still(all, s', emitted, rest[1..])
  {
    EmptySuffix(emitted);
    match StepByte(s, rest[0])
    case Malformed =>
    case Next(s', _) => EmptyPrefix(Decode(s', rest[1..]).out);
  }

  lemma {:induction false} CopyBlock(all: Run, s: State, emitted: string, rest: string, take: nat)
    requires Still(all, s, emitted, rest) && s.mode == Data && take <= |rest| && take <= s.remaining
    ensures Still(all, Copied(s, take), emitted + rest[..take], rest[take..])
  {
    var block := rest[..take];
    assert rest == block + rest[take..];
    BulkCopy(s, block);
    hide Decode, Copied;
    ThenJoins(Run(s, emitted, true), block, rest[take..]);
  }
}
