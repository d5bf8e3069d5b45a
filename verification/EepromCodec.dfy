/** The binary layout of the EEPROM store: magic, version, entry count, then
    per entry a key with a one-byte length and a value with a two-byte length. */
module EepromCodec {
  import opened Core
  import opened Text
  import opened KeyOrder

  type Store = map<Bytes, Bytes>

  const MAGIC: Bytes := ['E', 'L', 'K', 'V']
  const VERSION: Byte := 1 as char
  const HEADER_SIZE: nat := 7
  const MAX_KEY_LEN: nat := 255
  const MAX_VAL_LEN: nat := 65535

  /** Two bytes, low first. */
  function PutU16(v: nat): (r: Bytes)
    requires v <= 0xFFFF
    ensures |r| == 2 && GetU16(r[0], r[1]) == v
  {
    [(v % 256) as char, (v / 256) as char]
  }

  function GetU16(lo: Byte, hi: Byte): (v: nat)
    ensures v <= 0xFFFF
  {
    lo as int + hi as int * 256
  }

  predicate FieldsFit(kv: Store) {
    |kv| <= 0xFFFF && forall k | k in kv :: |k| <= MAX_KEY_LEN && |kv[k]| <= MAX_VAL_LEN
  }

  function EncodeEntry(key: Bytes, val: Bytes): Bytes
    requires |key| <= MAX_KEY_LEN && |val| <= MAX_VAL_LEN
  {
    [|key| as char] + key + PutU16(|val|) + val
  }

  /** The entries of the given keys, one after the other. */
  ghost function EncodeEntries(ks: seq<Bytes>, kv: Store): Bytes
    requires FieldsFit(kv) && forall i | 0 <= i < |ks| :: ks[i] in kv
  {
    if ks == [] then [] else EncodeEntry(ks[0], kv[ks[0]]) + EncodeEntries(ks[1..], kv)
  }

  function Header(count: nat): Bytes
    requires count <= 0xFFFF
  {
    MAGIC + [VERSION] + PutU16(count)
  }

  /** The keys of a store in the order of a `std::map`. */
  ghost function Keys(kv: Store): (ks: seq<Bytes>)
    ensures |ks| == |kv| && (forall k :: k in ks <==> k in kv)
    ensures forall i | 0 <= i < |ks| :: ks[i] in kv
    ensures forall i, j | 0 <= i < j < |ks| :: ks[i] != ks[j]
  {
    SortedKeys(kv.Keys);
    Sorted(kv.Keys)
  }

  /** The blob that holds a store. */
  ghost function Encoding(kv: Store): Bytes
    requires FieldsFit(kv)
  {
    Header(|kv|) + EncodeEntries(Keys(kv), kv)
  }

  method EncodeKv(kv: Store, maxBytes: nat) returns (ok: bool, out: Bytes)
    ensures ok <==> FieldsFit(kv) && |Encoding(kv)| <= maxBytes
    ensures out == if ok then Encoding(kv) else []
  {
    out := [];
    if |kv| > 0xFFFF { return false, []; }
    var keys := KeysInOrder(kv);
    var fit := CheckFields(kv, keys);
    if !fit { return false, []; }
    hide Keys, EncodeEntry, Header, EncodeEntries;
    ok, out := BuildBlob(kv, keys, maxBytes);
  }

  /** Appends entry after entry, and gives up as soon as the blob is too big. */
  method BuildBlob(kv: Store, keys: seq<Bytes>, maxBytes: nat) returns (ok: bool, out: Bytes)
    requires FieldsFit(kv) && forall j | 0 <= j < |keys| :: keys[j] in kv
    ensures ok <==> |Header(|kv|) + EncodeEntries(keys, kv)| <= maxBytes
    ensures out == if ok then Header(|kv|) + EncodeEntries(keys, kv) else []
  {
    var buf := Header(|kv|);
    ghost var all := buf + EncodeEntries(keys, kv);
    assert keys[0..] == keys;
    hide EncodeEntry, Header, EncodeEntries;
    for i := 0 to |keys|
      invariant buf + EncodeEntries(keys[i..], kv) == all
    {
      EntriesStep(keys, kv, i);
      var entry := EncodeEntry(keys[i], kv[keys[i]]);
      ConcatAssociates(buf, entry, EncodeEntries(keys[i + 1..], kv));
      buf := buf + entry;
      if |buf| > maxBytes { return false, []; }
    }
    EntriesEnd(keys, kv, buf);
    if |buf| > maxBytes { return false, []; }
    ok, out := true, buf;
  }

  /** Oversized fields are rejected up front. */
  method CheckFields(kv: Store, keys: seq<Bytes>) returns (fit: bool)
    requires |kv| <= 0xFFFF && forall k :: k in keys <==> k in kv
    ensures fit <==> FieldsFit(kv)
  {
    for i := 0 to |keys|
      invariant forall j | 0 <= j < i :: |keys[j]| <= MAX_KEY_LEN && |kv[keys[j]]| <= MAX_VAL_LEN
    {
      assert keys[i] in keys;
      if |keys[i]| > MAX_KEY_LEN || |kv[keys[i]]| > MAX_VAL_LEN { return false; }
    }
    forall k | k in kv ensures |k| <= MAX_KEY_LEN && |kv[k]| <= MAX_VAL_LEN { assert k in keys; }
    fit := true;
  }

  lemma {:induction false} EntriesStep(ks: seq<Bytes>, kv: Store, i: nat)
    requires FieldsFit(kv) && (forall j | 0 <= j < |ks| :: ks[j] in kv) && i < |ks|
    ensures EncodeEntries(ks[i..], kv) == EncodeEntry(ks[i], kv[ks[i]]) + EncodeEntries(ks[i + 1..], kv)
  {
    assert ks[i..][0] == ks[i] && ks[i..][1..] == ks[i + 1..];
    hide EncodeEntry;
  }

  lemma {:induction false} EntriesEnd(ks: seq<Bytes>, kv: Store, buf: Bytes)
    requires FieldsFit(kv) && (forall j | 0 <= j < |ks| :: ks[j] in kv)
    ensures buf + EncodeEntries(ks[|ks|..], kv) == buf
  {
  }

  method KeysInOrder(kv: Store) returns (keys: seq<Bytes>)
    ensures keys == Keys(kv)
  {
    keys := InOrder(kv.Keys);
  }

  // ---- Decoding ----

  datatype Parsed = Short | Entry(key: Bytes, val: Bytes, rest: Bytes)

  /** One entry off the front of `data`, if it is all there. */
  function TakeEntry(data: Bytes): Parsed {
    if |data| < 1 then Short
    else
      var keyLen := data[0] as int;
      if 1 + keyLen + 2 > |data| then Short
      else
        var valLen := GetU16(data[1 + keyLen], data[2 + keyLen]);
        if 3 + keyLen + valLen > |data| then Short
        else Entry(data[1..1 + keyLen], data[3 + keyLen..3 + keyLen + valLen], data[3 + keyLen + valLen..])
  }

  /** Up to `count` entries, added to `acc`; stops at the first incomplete one. */
  function DecodeEntries(data: Bytes, count: nat, acc: Store): (bool, Store)
    decreases count
  {
    if count == 0 then (true, acc)
    else
      match TakeEntry(data)
      case Short => (false, acc)
      case Entry(k, v, rest) => DecodeEntries(rest, count - 1, acc[k := v])
  }

  predicate HeaderOk(data: Bytes) {
    |data| >= HEADER_SIZE && data[..4] == MAGIC && data[4] == VERSION
  }

  /** Whether the blob is valid, and the entries read from it: on failure, the
      entries before the incomplete one. */
  function Decoded(data: Bytes): (bool, Store) {
    if !HeaderOk(data) then (false, map[])
    else DecodeEntries(data[HEADER_SIZE..], GetU16(data[5], data[6]), map[])
  }

  method CheckHeader(data: Bytes) returns (ok: bool)
    ensures ok == HeaderOk(data)
  {
    if |data| < HEADER_SIZE { return false; }
    assert data[..4] == [data[0], data[1], data[2], data[3]];
    if data[0] != MAGIC[0] || data[1] != MAGIC[1] || data[2] != MAGIC[2] || data[3] != MAGIC[3] { return false; }
    ok := data[4] == VERSION;
  }

  method DecodeKv(data: Bytes) returns (ok: bool, out: Store)
    ensures (ok, out) == Decoded(data)
  {
    out := map[];
    var good := CheckHeader(data);
    if !good { return false, out; }
    var count := GetU16(data[5], data[6]);
    var pos := HEADER_SIZE;
    ghost var all := Decoded(data);
    hide HeaderOk, TakeEntry, GetU16, Decoded;
    for i := 0 to count
      invariant 0 <= pos <= |data|
      invariant all == DecodeEntries(data[pos..], count - i, out)
    {
      var good, key, val;
      good, key, val, pos := ReadEntry(data, pos);
      if !good { return false, out; }
      out := out[key := val];
    }
    ok := true;
  }

  /** One entry at the cursor; `next` is the cursor behind it. */
  method ReadEntry(data: Bytes, pos: nat) returns (ok: bool, key: Bytes, val: Bytes, next: nat)
    requires pos <= |data|
    ensures next <= |data|
    ensures TakeEntry(data[pos..]) == if ok then Entry(key, val, data[next..]) else Short
  {
    hide TakeEntry, GetU16;
    ok, key, val, next := false, [], [], pos;
    IncompleteAt(data, pos);
    if next + 1 > |data| { return; }
    var keyLen := data[next] as int;
    next := next + 1;
    if next + keyLen + 2 > |data| { return; }
    key := data[next..next + keyLen];
    next := next + keyLen;
    var valLen := GetU16(data[next], data[next + 1]);
    next := next + 2;
    EntryAt(data, pos, keyLen, valLen);
    if next + valLen > |data| { return; }
    val := data[next..next + valLen];
    next := next + valLen;
    ok := true;
  }

  lemma {:induction false} IncompleteAt(data: Bytes, pos: nat)
    requires pos <= |data|
    ensures pos + 1 > |data| ==> TakeEntry(data[pos..]) == Short
    ensures pos + 1 <= |data| && pos + 1 + data[pos] as int + 2 > |data| ==> TakeEntry(data[pos..]) == Short
  {
  }

  /** What the cursor sees is what is at the front of the rest. */
  lemma {:induction false} EntryAt(data: Bytes, pos: nat, keyLen: nat, valLen: nat)
    requires pos + 3 + keyLen <= |data| && keyLen == data[pos] as int
    requires valLen == GetU16(data[pos + 1 + keyLen], data[pos + 2 + keyLen])
    ensures TakeEntry(data[pos..]) ==
            if pos + 3 + keyLen + valLen > |data| then Short
            else Entry(data[pos + 1..pos + 1 + keyLen], data[pos + 3 + keyLen..pos + 3 + keyLen + valLen],
                       data[pos + 3 + keyLen + valLen..])
  {
    var rest := data[pos..];
    if pos + 3 + keyLen + valLen <= |data| {
      assert rest[1..1 + keyLen] == data[pos + 1..pos + 1 + keyLen];
      assert rest[3 + keyLen..3 + keyLen + valLen] == data[pos + 3 + keyLen..pos + 3 + keyLen + valLen];
      assert rest[3 + keyLen + valLen..] == data[pos + 3 + keyLen + valLen..];
    }
  }

  // ---- The two are inverse ----

  lemma {:induction false} EntryInverse(key: Bytes, val: Bytes, tail: Bytes)
    requires |key| <= MAX_KEY_LEN && |val| <= MAX_VAL_LEN
    ensures TakeEntry(EncodeEntry(key, val) + tail) == Entry(key, val, tail)
  {
    var n, data := |key|, EncodeEntry(key, val) + tail;
    assert data[0] == n as char;
    assert data[1..1 + n] == key;
    assert data[1 + n] == PutU16(|val|)[0] && data[2 + n] == PutU16(|val|)[1];
    assert data[3 + n..3 + n + |val|] == val;
    assert data[3 + n + |val|..] == tail;
    hide PutU16, EncodeEntry;
  }

  lemma {:induction false} EntryTruncated(key: Bytes, val: Bytes, n: nat)
    requires |key| <= MAX_KEY_LEN && |val| <= MAX_VAL_LEN && n < |EncodeEntry(key, val)|
    ensures TakeEntry(EncodeEntry(key, val)[..n]) == Short
  {
    var e := EncodeEntry(key, val);
    assert e[0] == |key| as char;
    assert e[1 + |key|] == PutU16(|val|)[0] && e[2 + |key|] == PutU16(|val|)[1];
    assert |e| == 3 + |key| + |val|;
    hide PutU16, EncodeEntry;
  }

  /** The entries of `ks` added to a store. */
  ghost function Adding(acc: Store, ks: seq<Bytes>, kv: Store): Store
    requires forall i | 0 <= i < |ks| :: ks[i] in kv
    decreases |ks|
  {
    if ks == [] then acc else Adding(acc[ks[0] := kv[ks[0]]], ks[1..], kv)
  }

  lemma {:induction false} AddingAll(acc: Store, ks: seq<Bytes>, kv: Store)
    requires forall i | 0 <= i < |ks| :: ks[i] in kv
    requires forall k | k in acc :: k in kv && acc[k] == kv[k]
    ensures forall k | k in Adding(acc, ks, kv) :: k in kv && Adding(acc, ks, kv)[k] == kv[k]
    ensures forall k :: k in Adding(acc, ks, kv) <==> k in acc || k in ks
    decreases |ks|
  {
    if ks != [] {
      assert ks[0] in kv;
      AddingAll(acc[ks[0] := kv[ks[0]]], ks[1..], kv);
      assert forall k :: k in ks <==> k == ks[0] || k in ks[1..];
    }
  }

  lemma {:induction false} EntriesInverse(ks: seq<Bytes>, kv: Store, tail: Bytes, acc: Store)
    requires FieldsFit(kv) && forall i | 0 <= i < |ks| :: ks[i] in kv
    ensures DecodeEntries(EncodeEntries(ks, kv) + tail, |ks|, acc) == (true, Adding(acc, ks, kv))
    decreases |ks|
  {
    hide TakeEntry, EncodeEntry;
    if ks != [] {
      var k, more := ks[0], EncodeEntries(ks[1..], kv) + tail;
      EntryInverse(k, kv[k], more);
      ConcatAssociates(EncodeEntry(k, kv[k]), EncodeEntries(ks[1..], kv), tail);
      EntriesInverse(ks[1..], kv, tail, acc[k := kv[k]]);
    }
  }

  lemma {:induction false} EntriesTruncated(ks: seq<Bytes>, kv: Store, n: nat, acc: Store)
    requires FieldsFit(kv) && forall i | 0 <= i < |ks| :: ks[i] in kv
    requires n < |EncodeEntries(ks, kv)|
    ensures !DecodeEntries(EncodeEntries(ks, kv)[..n], |ks|, acc).0
    decreases |ks|
  {
    hide TakeEntry, EncodeEntry;
    var k := ks[0];
    var e, more := EncodeEntry(k, kv[k]), EncodeEntries(ks[1..], kv);
    if n < |e| {
      assert (e + more)[..n] == e[..n];
      EntryTruncated(k, kv[k], n);
    } else {
      assert (e + more)[..n] == e + more[..n - |e|];
      EntryInverse(k, kv[k], more[..n - |e|]);
      EntriesTruncated(ks[1..], kv, n - |e|, acc[k := kv[k]]);
    }
  }

  lemma {:induction false} HeaderRead(count: nat, tail: Bytes)
    requires count <= 0xFFFF
    ensures var data := Header(count) + tail;
      HeaderOk(data) && GetU16(data[5], data[6]) == count && data[HEADER_SIZE..] == tail
  {
    var data := Header(count) + tail;
    assert data[..4] == MAGIC;
    assert data[5] == PutU16(count)[0] && data[6] == PutU16(count)[1];
  }

  /** Decoding an encoding gives the store back, whatever follows the blob. */
  lemma {:induction false} CodecInverse(kv: Store, tail: Bytes)
    requires FieldsFit(kv)
    ensures Decoded(Encoding(kv) + tail) == (true, kv)
  {
    var ks := Keys(kv);
    var entries := EncodeEntries(ks, kv);
    ConcatAssociates(Header(|kv|), entries, tail);
    HeaderRead(|kv|, entries + tail);
    EntriesInverse(ks, kv, tail, map[]);
    AddingAll(map[], ks, kv);
    hide HeaderOk, EncodeEntries, Keys, DecodeEntries, Header, Adding;
    assert Adding(map[], ks, kv) == kv;
  }

  lemma {:induction false} DecodedBehindHeader(count: nat, tail: Bytes)
    requires count <= 0xFFFF
    ensures Decoded(Header(count) + tail) == DecodeEntries(tail, count, map[])
  {
    HeaderRead(count, tail);
    hide HeaderOk, Header, DecodeEntries, GetU16;
  }

  lemma {:induction false} ShortRejected(data: Bytes)
    requires |data| < HEADER_SIZE
    ensures !Decoded(data).0
  {
  }

  lemma {:induction false} TakeOfConcat(a: Bytes, b: Bytes, n: nat)
    requires n <= |a + b|
    ensures |(a + b)[..n]| == n
    ensures |a| <= n ==> (a + b)[..n] == a + b[..n - |a|]
  {
  }

  lemma {:induction false} HeaderLength(count: nat)
    requires count <= 0xFFFF
    ensures |Header(count)| == HEADER_SIZE
  {
  }

  lemma {:induction false} EncodingParts(kv: Store)
    requires FieldsFit(kv)
    ensures |kv| <= 0xFFFF && |Keys(kv)| == |kv| && forall i | 0 <= i < |kv| :: Keys(kv)[i] in kv
    ensures Encoding(kv) == Header(|kv|) + EncodeEntries(Keys(kv), kv)
  {
    hide Keys, Header, EncodeEntries;
  }

  /** No proper prefix of an encoding is accepted. */
  lemma {:induction false} TruncationRejected(kv: Store, n: nat)
    requires FieldsFit(kv) && n < |Encoding(kv)|
    ensures !Decoded(Encoding(kv)[..n]).0
  {
    EncodingParts(kv);
    hide *;
    var ks := Keys(kv);
    var entries := EncodeEntries(ks, kv);
    HeaderLength(|kv|);
    TakeOfConcat(Header(|kv|), entries, n);
    if n < HEADER_SIZE {
      ShortRejected(Encoding(kv)[..n]);
    } else {
      DecodedBehindHeader(|kv|, entries[..n - HEADER_SIZE]);
      EntriesTruncated(ks, kv, n - HEADER_SIZE, map[]);
    }
  }

  // ---- What a failed decoding leaves behind ----

  lemma {:induction false} EntriesOnlyAdd(data: Bytes, count: nat, acc: Store)
    ensures forall k | k in acc :: k in DecodeEntries(data, count, acc).1
    decreases count
  {
    hide TakeEntry;
    if count > 0 {
      match TakeEntry(data)
      case Short =>
      case Entry(k, v, rest) => EntriesOnlyAdd(rest, count - 1, acc[k := v]);
    }
  }

  /** A failed decoding leaves its output empty exactly when it fails before
      the first entry: on the header, or because that entry is incomplete. */
  lemma {:induction false} FailureLeavesNothingExactly(data: Bytes)
    requires !Decoded(data).0
    ensures Decoded(data).1 == map[] <==> !HeaderOk(data) || TakeEntry(data[HEADER_SIZE..]).Short?
  {
    hide TakeEntry;
    if HeaderOk(data) {
      match TakeEntry(data[HEADER_SIZE..])
      case Short =>
      case Entry(k, v, rest) =>
        var count := GetU16(data[5], data[6]);
        EntriesOnlyAdd(rest, count - 1, map[][k := v]);
        assert k in DecodeEntries(rest, count - 1, map[][k := v]).1;
    }
  }

  /** A blob that announces two entries and holds one is refused, but that one
      entry is left in the output. */
  lemma {:induction false} DefectLeavesEntry(key: Bytes, val: Bytes)
    requires |key| <= MAX_KEY_LEN && |val| <= MAX_VAL_LEN
    ensures Decoded(Header(2) + EncodeEntry(key, val)) == (false, map[key := val])
  {
    var entry := EncodeEntry(key, val);
    HeaderRead(2, entry);
    EmptySuffix(entry);
    EntryInverse(key, val, []);
    NothingToTake();
    hide TakeEntry, HeaderOk, EncodeEntry, Header, GetU16;
    assert DecodeEntries([], 1, map[key := val]) == (false, map[key := val]);
    assert DecodeEntries(entry, 2, map[]) == DecodeEntries([], 1, map[][key := val]);
  }

  /** A blob that is too short for a header, or starts otherwise, is not taken
      for a store. */
  lemma {:induction false} ForeignRejected(data: Bytes)
    ensures |data| < 7 || data[..4] != "ELKV" || data[4] as int != 1 ==> Decoded(data) == (false, map[])
  {
    hide DecodeEntries;
  }

  /** The bytes of a store with one entry: counts and lengths low byte first. */
  lemma {:induction false} OneEntryLayout(key: Bytes, val: Bytes)
    requires |key| <= 255 && |val| <= 65535
    ensures Encoding(map[key := val]) ==
            "ELKV" + [1 as char, 1 as char, 0 as char, |key| as char] + key
            + [(|val| % 256) as char, (|val| / 256) as char] + val
  {
    var kv := map[key := val];
    assert kv.Keys == {key} && |kv.Keys| == |kv|;
    OneKey(kv, key);
    hide Keys, PutU16;
    assert [key][1..] == [];
    assert EncodeEntries([key], kv) == EncodeEntry(key, val);
    HeaderOfOne();
    hide Header;
    assert PutU16(|val|) == [(|val| % 256) as char, (|val| / 256) as char] by { TwoBytes(|val|); }
  }

  lemma {:induction false} OneKey(kv: Store, key: Bytes)
    requires kv.Keys == {key} && |kv| == 1
    ensures Keys(kv) == [key]
  {
    hide Sorted;
    assert Keys(kv)[0] in Keys(kv);
  }

  lemma {:induction false} TwoBytes(n: nat)
    requires n <= 0xFFFF
    ensures PutU16(n) == [(n % 256) as char, (n / 256) as char]
  {
  }

  lemma {:induction false} HeaderOfOne()
    ensures Header(1) == "ELKV" + [1 as char, 1 as char, 0 as char]
  {
  }

  lemma {:induction false} NothingToTake()
    ensures TakeEntry([]) == Short
  {
  }
}
