/** The key/value store as a transition system: what each operation does to the
    RAM map, the expiry map, the backend and the change log. */
module EdgeStoreSpec {
  import opened Core
  import opened KeyOrder

  const MANIFEST: Bytes := "__edgestore_manifest__"
  const NEWLINE: Byte := '\n'

  datatype Caps = Caps(maxKeys: nat, maxValueLen: nat, maxKeyLen: nat)

  /** A call of the change hook. */
  datatype Change = Change(key: Bytes, removed: bool)

  type Entries = map<Bytes, Bytes>

  /** `expiry` holds 32-bit deadlines; `backend` is what is persisted, if a
      backend is attached. */
  datatype State = State(data: Entries, expiry: map<Bytes, nat>, backend: Option<Entries>, changes: seq<Change>)

  // ---- Newline-joined key lists ----

  /** Appends keys to a text, with newlines between. */
  function JoinOnto(joined: Bytes, ks: seq<Bytes>): Bytes
    decreases |ks|
  {
    if ks == [] then joined
    else JoinOnto((if joined == [] then [] else joined + [NEWLINE]) + ks[0], ks[1..])
  }

  /** The length of the first line of `s`. */
  function LineLength(s: Bytes): (n: nat)
    ensures n <= |s| && NEWLINE !in s[..n]
    ensures n < |s| ==> s[n] == NEWLINE
  {
    if s == [] || s[0] == NEWLINE then 0
    else
      assert s[..1 + LineLength(s[1..])] == [s[0]] + s[1..][..LineLength(s[1..])];
      1 + LineLength(s[1..])
  }

  /** The non-empty lines of a text. */
  function Lines(s: Bytes): seq<Bytes>
    decreases |s|
  {
    var n := LineLength(s);
    var first := if n > 0 then [s[..n]] else [];
    if n == |s| then first else first + Lines(s[n + 1..])
  }

  // ---- Operations ----

  /** The wrap-safe comparison: the difference, read as a signed 32-bit number,
      is not negative. */
  predicate Expired(deadline: nat, now: nat) {
    (now - deadline) % TWO_32 < TWO_31
  }

  function DeadKeys(expiry: map<Bytes, nat>, clock: Option<nat>): set<Bytes> {
    if clock.None? then {} else set k | k in expiry && Expired(expiry[k], clock.value)
  }

  function Removals(ks: seq<Bytes>): seq<Change> {
    if ks == [] then [] else [Change(ks[0], true)] + Removals(ks[1..])
  }

  /** Every operation that may change the store sweeps expired entries first. */
  ghost function Evict(s: State, clock: Option<nat>): State {
    var dead := DeadKeys(s.expiry, clock);
    s.(data := s.data - dead, expiry := s.expiry - dead, changes := s.changes + Removals(Sorted(dead)))
  }

  predicate ValidKey(k: Bytes, caps: Caps) {
    k != [] && |k| <= caps.maxKeyLen && NEWLINE !in k && k != MANIFEST
  }

  /** Whether an entry may be stored into `data`. */
  function Admission(data: Entries, k: Bytes, v: Bytes, caps: Caps): Status {
    if !ValidKey(k, caps) then Fail(InvalidArgument)
    else if |v| > caps.maxValueLen then Fail(Capacity)
    else if k !in data && |data| >= caps.maxKeys then Fail(Capacity)
    else Ok
  }

  /** The entries that belong into the backend: those without a deadline. */
  function Durable(s: State): Entries {
    s.data - s.expiry.Keys
  }

  ghost function ManifestText(durable: Entries): Bytes {
    JoinOnto([], Sorted(durable.Keys))
  }

  /** Rewrites the manifest in the backend. */
  ghost function Persisted(s: State): State {
    match s.backend
    case None => s
    case Some(items) => s.(backend := Some(items[MANIFEST := ManifestText(Durable(s))]))
  }

  function Written(s: State, k: Bytes, v: Bytes): State {
    if s.backend.None? then s else s.(backend := Some(s.backend.value[k := v]))
  }

  function Unwritten(s: State, k: Bytes): State {
    if s.backend.None? then s else s.(backend := Some(s.backend.value - {k}))
  }

  function Notified(s: State, k: Bytes, removed: bool): State {
    s.(changes := s.changes + [Change(k, removed)])
  }

  ghost function SetOp(s0: State, clock: Option<nat>, caps: Caps, k: Bytes, v: Bytes): (State, Status) {
    var s := Evict(s0, clock);
    var admission := Admission(s.data, k, v, caps);
    if admission != Ok then (s, admission)
    else
      var t := Written(s.(data := s.data[k := v], expiry := s.expiry - {k}), k, v);
      var u := if k !in s.data || k in s.expiry then Persisted(t) else t;
      (Notified(u, k, false), Ok)
  }

  ghost function SetTtlOp(s0: State, clock: Option<nat>, caps: Caps, k: Bytes, v: Bytes, ttl: nat): (State, Status) {
    if clock.None? then (s0, Fail(InvalidState))
    else
      var s := Evict(s0, clock);
      var admission := Admission(s.data, k, v, caps);
      if admission != Ok then (s, admission)
      else
        var t := s.(data := s.data[k := v], expiry := s.expiry[k := (clock.value + ttl) % TWO_32]);
        var u := if k in s.data && k !in s.expiry then Persisted(Unwritten(t, k)) else t;
        (Notified(u, k, false), Ok)
  }

  ghost function GetOp(s0: State, clock: Option<nat>, k: Bytes): (State, Result<Bytes>) {
    var s := Evict(s0, clock);
    (s, if k in s.data then Success(s.data[k]) else Failure(NotFound))
  }

  ghost function RemoveOp(s0: State, clock: Option<nat>, k: Bytes): State {
    if k == MANIFEST then s0
    else
      var s := Evict(s0, clock);
      if k !in s.data then s
      else Notified(Persisted(Unwritten(s.(data := s.data - {k}, expiry := s.expiry - {k}), k)), k, true)
  }

  /** The entries a non-evicting query sees. */
  function Visible(s: State, clock: Option<nat>): Entries {
    s.data - DeadKeys(s.expiry, clock)
  }

  /** Loading the keys of a manifest, up to the cap. */
  function LoadKeys(data: Entries, ks: seq<Bytes>, items: Entries, caps: Caps): Entries
    decreases |ks|
  {
    if ks == [] then data
    else
      var d := if ks[0] in items && |data| < caps.maxKeys then data[ks[0] := items[ks[0]]] else data;
      LoadKeys(d, ks[1..], items, caps)
  }

  /** What attaching a backend with these items loads. */
  function Load(data: Entries, items: Entries, caps: Caps): Entries {
    if MANIFEST in items then LoadKeys(data, Lines(items[MANIFEST]), items, caps) else data
  }

  // ---- Join and split are inverse ----

  ghost predicate GoodNames(ks: seq<Bytes>) {
    forall i | 0 <= i < |ks| :: ks[i] != [] && NEWLINE !in ks[i]
  }

  lemma {:induction false} LineLengthIs(line: Bytes, tail: Bytes)
    requires NEWLINE !in line && (tail == [] || tail[0] == NEWLINE)
    ensures LineLength(line + tail) == |line|
    decreases |line|
  {
    if line == [] {
      assert line + tail == tail;
    } else {
      assert line[0] in line && (line + tail)[1..] == line[1..] + tail;
      assert forall c | c in line[1..] :: c in line;
      LineLengthIs(line[1..], tail);
    }
  }

  /** Everything joined onto a first key comes after a newline. */
  lemma {:induction false} JoinOntoExtends(joined: Bytes, ks: seq<Bytes>)
    requires joined != [] && GoodNames(ks) && ks != []
    ensures JoinOnto(joined, ks) == joined + [NEWLINE] + JoinOnto([], ks)
    decreases |ks|
  {
    var first, rest := ks[0], ks[1..];
    assert [] + first == first;
    if rest != [] {
      JoinOntoExtends(joined + [NEWLINE] + first, rest);
      JoinOntoExtends(first, rest);
      FourParts(joined + [NEWLINE], first, [NEWLINE], JoinOnto([], rest));
    }
  }

  lemma {:induction false} FourParts(a: Bytes, b: Bytes, c: Bytes, d: Bytes)
    ensures a + b + c + d == a + (b + c + d)
  {
  }

  lemma {:induction false} OneLine(line: Bytes)
    requires line != [] && NEWLINE !in line
    ensures Lines(line) == [line]
  {
    assert line + [] == line;
    LineLengthIs(line, []);
    assert line[..|line|] == line;
  }

  lemma {:induction false} FirstLine(line: Bytes, tail: Bytes)
    requires line != [] && NEWLINE !in line
    ensures Lines(line + [NEWLINE] + tail) == [line] + Lines(tail)
  {
    var s := line + [NEWLINE] + tail;
    assert s == line + ([NEWLINE] + tail);
    LineLengthIs(line, [NEWLINE] + tail);
    assert s[..|line|] == line && s[|line| + 1..] == tail;
  }

  /** Any text is split line by line; empty lines count for nothing. */
  lemma {:induction false} LinesExactly(line: Bytes, tail: Bytes)
    requires NEWLINE !in line
    ensures Lines(line) == if line == [] then [] else [line]
    ensures Lines(line + [NEWLINE] + tail) == (if line == [] then [] else [line]) + Lines(tail)
  {
    if line != [] {
      OneLine(line);
      FirstLine(line, tail);
    } else {
      assert ([] + [NEWLINE] + tail)[1..] == tail && [] + Lines(tail) == Lines(tail);
    }
  }

  /** Splitting a joined key list gives the keys back. */
  lemma {:induction false} JoinSplit(ks: seq<Bytes>)
    requires GoodNames(ks)
    ensures Lines(JoinOnto([], ks)) == ks
    decreases |ks|
  {
    if ks != [] {
      var first, rest := ks[0], ks[1..];
      assert [] + first == first;
      hide LineLength, Lines;
      if rest == [] {
        OneLine(first);
        assert [first] == ks;
      } else {
        JoinOntoExtends(first, rest);
        FirstLine(first, JoinOnto([], rest));
        JoinSplit(rest);
        assert [first] + rest == ks;
      }
    }
  }
}
