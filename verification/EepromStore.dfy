/** The EEPROM-backed store: a map in RAM, rewritten as one blob over the EEPROM
    cells on each change. */
module EepromStoreModel {
  import opened Core
  import opened Text
  import opened KeyOrder
  import opened EepromCodec

  /** The EEPROM's cells and the map in RAM. */
  datatype Device = Device(cells: Bytes, data: Store)

  datatype Op = Begin | Set(key: Bytes, value: Bytes) | Remove(rkey: Bytes) | Clear

  /** The cells after a blob was written over their beginning. */
  function Overwritten(cells: Bytes, blob: Bytes): Bytes
    requires |blob| <= |cells|
  {
    blob + cells[|blob|..]
  }

  ghost predicate Storable(kv: Store, cap: nat) {
    FieldsFit(kv) && |Encoding(kv)| <= cap
  }

  /** Rewrites the blob, or refuses and changes nothing. */
  ghost function Replace(d: Device, cap: nat, candidate: Store): (Device, Status)
    requires cap <= |d.cells|
  {
    if Storable(candidate, cap) then (Device(Overwritten(d.cells, Encoding(candidate)), candidate), Ok)
    else (d, Fail(Capacity))
  }

  /** What one operation does with `cap` bytes of EEPROM. */
  ghost function Step(d: Device, cap: nat, op: Op): (Device, Status)
    requires cap <= |d.cells|
  {
    match op
    case Begin => (d.(data := Decoded(d.cells[..cap]).1), Ok)
    case Set(key, value) =>
      if key == [] then (d, Fail(InvalidArgument)) else Replace(d, cap, d.data[key := value])
    case Remove(key) =>
      if key !in d.data then (d, Ok) else Replace(d, cap, d.data - {key})
    case Clear =>
      (Device(if Storable(map[], cap) then Overwritten(d.cells, Encoding(map[])) else d.cells, map[]), Ok)
  }

  lemma {:induction false} StepKeepsSize(d: Device, cap: nat, op: Op)
    requires cap <= |d.cells|
    ensures |Step(d, cap, op).0.cells| == |d.cells|
  {
    hide Encoding, FieldsFit, Decoded;
  }

  ghost function Run(d: Device, cap: nat, ops: seq<Op>): Device
    requires cap <= |d.cells|
    decreases |ops|
  {
    if ops == [] then d
    else
      StepKeepsSize(d, cap, ops[0]);
      Run(Step(d, cap, ops[0]).0, cap, ops[1..])
  }

  // ---- Sizes do not depend on the order of insertion ----

  ghost function EntriesSize(kv: Store): nat
    requires FieldsFit(kv)
  {
    |EncodeEntries(Keys(kv), kv)|
  }

  lemma {:induction false} EncodingSize(kv: Store)
    requires FieldsFit(kv)
    ensures |Encoding(kv)| == HEADER_SIZE + EntriesSize(kv)
  {
    hide EncodeEntries, Keys;
  }

  lemma {:induction false} EntrySize(key: Bytes, val: Bytes)
    requires |key| <= MAX_KEY_LEN && |val| <= MAX_VAL_LEN
    ensures |EncodeEntry(key, val)| == 3 + |key| + |val|
  {
  }

  /** A list of keys that are all in the store. */
  ghost predicate AllIn(ks: seq<Bytes>, kv: Store) {
    forall i | 0 <= i < |ks| :: ks[i] in kv
  }

  lemma {:induction false} AllInParts(a: seq<Bytes>, b: seq<Bytes>, kv: Store)
    ensures AllIn(a + b, kv) <==> AllIn(a, kv) && AllIn(b, kv)
  {
    if AllIn(a + b, kv) {
      assert forall i | 0 <= i < |a| :: a[i] == (a + b)[i];
      assert forall i | 0 <= i < |b| :: b[i] == (a + b)[|a| + i];
    }
  }

  ghost function SizeOf(ks: seq<Bytes>, kv: Store): nat
    requires FieldsFit(kv) && AllIn(ks, kv)
  {
    |EncodeEntries(ks, kv)|
  }

  lemma {:induction false} SizeStep(ks: seq<Bytes>, kv: Store)
    requires FieldsFit(kv) && AllIn(ks, kv) && ks != []
    ensures ks[0] in kv && AllIn(ks[1..], kv)
    ensures SizeOf(ks, kv) == 3 + |ks[0]| + |kv[ks[0]]| + SizeOf(ks[1..], kv)
  {
    EntrySize(ks[0], kv[ks[0]]);
    hide EncodeEntry;
  }

  lemma {:induction false} SizeConcat(a: seq<Bytes>, b: seq<Bytes>, kv: Store)
    requires FieldsFit(kv) && AllIn(a, kv) && AllIn(b, kv)
    ensures AllIn(a + b, kv) && SizeOf(a + b, kv) == SizeOf(a, kv) + SizeOf(b, kv)
    decreases |a|
  {
    hide *;
    AllInParts(a, b, kv);
    if a == [] {
      EmptyPrefix(b);
      NoSize(kv);
    } else {
      SizeStep(a, kv);
      SizeStep(a + b, kv);
      FirstOfConcat(a, b);
      SizeConcat(a[1..], b, kv);
    }
  }

  lemma {:induction false} FirstOfConcat(a: seq<Bytes>, b: seq<Bytes>)
    requires a != []
    ensures (a + b)[0] == a[0] && (a + b)[1..] == a[1..] + b
  {
  }

  lemma {:induction false} NoSize(kv: Store)
    requires FieldsFit(kv)
    ensures AllIn([], kv) && SizeOf([], kv) == 0
  {
  }

  lemma {:induction false} EntriesAgree(ks: seq<Bytes>, kv: Store, kw: Store)
    requires FieldsFit(kv) && FieldsFit(kw)
    requires forall i | 0 <= i < |ks| :: ks[i] in kv && ks[i] in kw && kv[ks[i]] == kw[ks[i]]
    ensures EncodeEntries(ks, kv) == EncodeEntries(ks, kw)
    decreases |ks|
  {
    hide EncodeEntry;
    if ks != [] {
      assert ks[0] in kv && kv[ks[0]] == kw[ks[0]];
      forall i | 0 <= i < |ks[1..]| ensures ks[1..][i] in kv && ks[1..][i] in kw && kv[ks[1..][i]] == kw[ks[1..][i]] {
        assert ks[1..][i] == ks[i + 1];
      }
      EntriesAgree(ks[1..], kv, kw);
    }
  }

  lemma {:induction false} SubstoreFits(kv: Store, k: Bytes)
    requires FieldsFit(kv)
    ensures FieldsFit(kv - {k})
    ensures k in kv ==> |kv - {k}| == |kv| - 1
    ensures k !in kv ==> kv - {k} == kv
  {
    assert (kv - {k}).Keys == kv.Keys - {k};
    assert |kv.Keys - {k}| <= |kv.Keys|;
    assert |(kv - {k}).Keys| == |kv - {k}| && |kv.Keys| == |kv|;
  }

  /** Taking an entry out makes the blob smaller by exactly that entry. */
  lemma {:induction false} WithoutEntry(kv: Store, k: Bytes)
    requires FieldsFit(kv) && k in kv
    ensures FieldsFit(kv - {k})
    ensures EntriesSize(kv) == EntriesSize(kv - {k}) + 3 + |k| + |kv[k]|
  {
    SubstoreFits(kv, k);
    var kw := kv - {k};
    assert kw.Keys == kv.Keys - {k};
    var a, b := SortedWithout(kv.Keys, k);
    KeysAre(kv);
    KeysAre(kw);
    hide *;
    MiddleEntry(a, k, b, kv);
    KeysInBoth(a + b, kw, kv, k);
    EntriesAgree(a + b, kw, kv);
    SizeIs(kv);
    SizeIs(kw);
  }

  lemma {:induction false} SizeIs(kv: Store)
    requires FieldsFit(kv)
    ensures EntriesSize(kv) == |EncodeEntries(Keys(kv), kv)|
  {
  }

  lemma {:induction false} KeysInBoth(ks: seq<Bytes>, kw: Store, kv: Store, k: Bytes)
    requires ks == Keys(kw) && kw == kv - {k}
    ensures forall i | 0 <= i < |ks| :: ks[i] in kv && ks[i] in kw && kw[ks[i]] == kv[ks[i]]
  {
    hide Sorted;
  }

  lemma {:induction false} MiddleEntry(a: seq<Bytes>, k: Bytes, b: seq<Bytes>, kv: Store)
    requires FieldsFit(kv) && Keys(kv) == a + [k] + b
    ensures k in kv && AllIn(a + b, kv)
    ensures |EncodeEntries(Keys(kv), kv)| == |EncodeEntries(a + b, kv)| + 3 + |k| + |kv[k]|
  {
    AllInParts(a + [k], b, kv);
    AllInParts(a, [k], kv);
    assert [k][0] == k;
    hide FieldsFit, Keys, EncodeEntries;
    SizeConcat(a + [k], b, kv);
    SizeConcat(a, b, kv);
    SizeConcat(a, [k], kv);
    OneEntry(k, kv);
  }

  lemma {:induction false} KeysAre(kv: Store)
    ensures Keys(kv) == Sorted(kv.Keys)
  {
  }

  lemma {:induction false} OneEntry(k: Bytes, kv: Store)
    requires FieldsFit(kv) && k in kv
    ensures |EncodeEntries([k], kv)| == 3 + |k| + |kv[k]|
  {
    assert [k][1..] == [];
    EntrySize(k, kv[k]);
    hide EncodeEntry;
  }

  /** Putting an entry in makes the blob bigger by at most that entry. */
  lemma {:induction false} WithEntry(kv: Store, k: Bytes, v: Bytes)
    requires FieldsFit(kv) && FieldsFit(kv[k := v])
    ensures EntriesSize(kv[k := v]) <= EntriesSize(kv) + 3 + |k| + |v|
  {
    hide EntriesSize;
    WithoutEntry(kv[k := v], k);
    assert kv[k := v] - {k} == kv - {k};
    if k in kv { WithoutEntry(kv, k); } else { assert kv - {k} == kv; }
  }

  // ---- What was decoded can be encoded again ----

  lemma {:induction false} EntryLimits(data: Bytes)
    ensures match TakeEntry(data)
            case Short => true
            case Entry(k, v, rest) => |k| <= MAX_KEY_LEN && |v| <= MAX_VAL_LEN && |data| == 3 + |k| + |v| + |rest|
  {
  }

  lemma {:induction false} EntriesFit(data: Bytes, count: nat, acc: Store)
    requires FieldsFit(acc) && |acc| + count <= 0xFFFF
    ensures var r := DecodeEntries(data, count, acc).1;
      FieldsFit(r) && EntriesSize(r) <= EntriesSize(acc) + |data|
    decreases count
  {
    hide TakeEntry, EntriesSize;
    if count > 0 {
      match TakeEntry(data)
      case Short =>
      case Entry(k, v, rest) =>
        EntryLimits(data);
        assert |acc[k := v]| <= |acc| + 1 by {
          assert acc[k := v].Keys == acc.Keys + {k};
          assert |acc.Keys + {k}| <= |acc.Keys| + 1;
          assert |acc[k := v].Keys| == |acc[k := v]|;
        }
        WithEntry(acc, k, v);
        EntriesFit(rest, count - 1, acc[k := v]);
    }
  }

  lemma {:induction false} EmptySize()
    ensures FieldsFit(map[]) && EntriesSize(map[]) == 0 && |Encoding(map[])| == HEADER_SIZE
  {
    EncodingSize(map[]);
  }

  /** Whatever the cells hold, what is decoded from them fits into them. */
  lemma {:induction false} DecodedFits(data: Bytes)
    ensures Decoded(data).1 == map[] || Storable(Decoded(data).1, |data|)
  {
    EmptySize();
    if HeaderOk(data) {
      EntriesFit(data[HEADER_SIZE..], GetU16(data[5], data[6]), map[]);
      EncodingSize(Decoded(data).1);
    }
  }

  // ---- Reboot ----

  /** Another `begin` on the same EEPROM would load exactly the current map. */
  ghost predicate Synced(d: Device, cap: nat)
    requires cap <= |d.cells|
  {
    Decoded(d.cells[..cap]).1 == d.data
  }

  ghost predicate Bounded(d: Device, cap: nat) {
    d.data == map[] || Storable(d.data, cap)
  }

  /** A freshly written blob is read back, however stale the cells behind it. */
  lemma {:induction false} WrittenIsRead(cells: Bytes, cap: nat, kv: Store)
    requires Storable(kv, cap) && cap <= |cells|
    ensures |Overwritten(cells, Encoding(kv))| == |cells|
    ensures Decoded(Overwritten(cells, Encoding(kv))[..cap]) == (true, kv)
  {
    var blob := Encoding(kv);
    assert Overwritten(cells, blob)[..cap] == blob + cells[|blob|..cap];
    CodecInverse(kv, cells[|blob|..cap]);
    hide Encoding, Decoded;
  }

  lemma {:induction false} WrittenIsSynced(cells: Bytes, cap: nat, kv: Store)
    requires Storable(kv, cap) && cap <= |cells|
    ensures Synced(Device(Overwritten(cells, Encoding(kv)), kv), cap)
  {
    hide Encoding, Decoded, Overwritten;
    WrittenIsRead(cells, cap, kv);
  }

  /** A store smaller than a store that fits, fits. */
  lemma {:induction false} SmallerFits(kv: Store, k: Bytes, cap: nat)
    requires Storable(kv, cap) && k in kv
    ensures Storable(kv - {k}, cap)
  {
    WithoutEntry(kv, k);
    EncodingSize(kv);
    EncodingSize(kv - {k});
    hide EntriesSize, Encoding;
  }

  /** No run ever fails to remove an entry for lack of capacity. */
  lemma {:induction false} RemoveNeverFails(d: Device, cap: nat, key: Bytes)
    requires cap <= |d.cells| && Bounded(d, cap)
    ensures Step(d, cap, Remove(key)).1 == Ok
    ensures Step(d, cap, Remove(key)).0.data == d.data - {key}
  {
    hide Encoding, FieldsFit;
    if key in d.data {
      SmallerFits(d.data, key, cap);
    } else {
      assert d.data - {key} == d.data;
    }
  }

  /** Only a `set` whose result would not fit is refused for capacity, and a
      refused operation changes neither RAM nor EEPROM. */
  lemma {:induction false} RefusedExactly(d: Device, cap: nat, op: Op)
    requires cap <= |d.cells| && Bounded(d, cap)
    ensures Step(d, cap, op).1 == Fail(Capacity) <==>
              op.Set? && op.key != [] && !Storable(d.data[op.key := op.value], cap)
    ensures Step(d, cap, op).1 != Ok ==> Step(d, cap, op).0 == d
  {
    hide Encoding, FieldsFit, Decoded;
    if op.Remove? && op.rkey in d.data { SmallerFits(d.data, op.rkey, cap); }
  }

  /** Every operation keeps RAM and EEPROM in agreement, for any capacity. */
  lemma {:induction false} StepKeepsSynced(d: Device, cap: nat, op: Op)
    requires cap <= |d.cells|
    requires op.Begin? || (Synced(d, cap) && Bounded(d, cap))
    ensures cap <= |Step(d, cap, op).0.cells|
    ensures Synced(Step(d, cap, op).0, cap) && Bounded(Step(d, cap, op).0, cap)
  {
    hide Encoding, FieldsFit, Decoded;
    match op
    case Begin => DecodedFits(d.cells[..cap]);
    case Set(key, value) =>
      if Storable(d.data[key := value], cap) { WrittenIsSynced(d.cells, cap, d.data[key := value]); }
    case Remove(key) =>
      if Storable(d.data - {key}, cap) { WrittenIsSynced(d.cells, cap, d.data - {key}); }
    case Clear =>
      EmptySize();
      if Storable(map[], cap) { WrittenIsSynced(d.cells, cap, map[]); } else { TooSmall(d.cells[..cap]); }
  }

  /** `clear` always succeeds and erases everything, in RAM and for whoever
      reads the cells, whatever was there before. */
  lemma {:induction false} ClearErases(d: Device, cap: nat)
    requires cap <= |d.cells|
    ensures var (e, r) := Step(d, cap, Clear);
      r == Ok && e.data == map[] && |e.cells| == |d.cells| && Decoded(e.cells[..cap]).1 == map[]
  {
    hide Encoding, FieldsFit, Decoded;
    EmptySize();
    if Storable(map[], cap) { WrittenIsSynced(d.cells, cap, map[]); } else { TooSmall(d.cells[..cap]); }
  }

  /** An accepted `set` has stored its entry among the others, in RAM and in the
      cells; any other one has stored nothing. */
  lemma {:induction false} SetStores(d: Device, cap: nat, key: Bytes, value: Bytes)
    requires cap <= |d.cells|
    ensures var (e, r) := Step(d, cap, Set(key, value));
      if r == Ok then
        e.data == d.data[key := value] && |e.cells| == |d.cells| && Decoded(e.cells[..cap]) == (true, e.data)
      else e == d && r in {Fail(InvalidArgument), Fail(Capacity)} && (r == Fail(InvalidArgument) <==> key == [])
  {
    hide Encoding, FieldsFit, Decoded;
    if Storable(d.data[key := value], cap) { WrittenIsRead(d.cells, cap, d.data[key := value]); }
  }

  /** So has a `remove` that took an entry away. */
  lemma {:induction false} RemoveStores(d: Device, cap: nat, key: Bytes)
    requires cap <= |d.cells|
    ensures var (e, r) := Step(d, cap, Remove(key));
      if key in d.data && r == Ok then
        e.data == d.data - {key} && |e.cells| == |d.cells| && Decoded(e.cells[..cap]) == (true, e.data)
      else e == d
  {
    hide Encoding, FieldsFit, Decoded;
    if Storable(d.data - {key}, cap) { WrittenIsRead(d.cells, cap, d.data - {key}); }
  }

  lemma {:induction false} TooSmall(data: Bytes)
    requires |data| < HEADER_SIZE
    ensures Decoded(data).1 == map[]
  {
  }

  /** Reboot refinement: after a `begin` on any cells and any run of operations,
      another `begin` on the same EEPROM changes nothing. */
  lemma {:induction false} RebootRefinement(cells: Bytes, stale: Store, cap: nat, ops: seq<Op>)
    requires cap <= |cells|
    ensures var d := Run(Device(cells, stale), cap, [Begin] + ops);
      && cap <= |d.cells| && Bounded(d, cap)
      && Step(d, cap, Begin).0 == d
  {
    hide Encoding, FieldsFit, Decoded, Step;
    var d0 := Device(cells, stale);
    StepKeepsSize(d0, cap, Begin);
    var d := Step(d0, cap, Begin).0;
    StepKeepsSynced(d0, cap, Begin);
    assert ([Begin] + ops)[0] == Begin && ([Begin] + ops)[1..] == ops;
    RunKeepsSynced(d, cap, ops);
    SyncedIsFixed(Run(d, cap, ops), cap);
  }

  lemma {:induction false} SyncedIsFixed(d: Device, cap: nat)
    requires cap <= |d.cells| && Synced(d, cap)
    ensures Step(d, cap, Begin).0 == d
  {
    hide Decoded;
  }

  lemma {:induction false} RunKeepsSynced(d: Device, cap: nat, ops: seq<Op>)
    requires cap <= |d.cells| && Synced(d, cap) && Bounded(d, cap)
    ensures cap <= |Run(d, cap, ops).cells|
    ensures Synced(Run(d, cap, ops), cap) && Bounded(Run(d, cap, ops), cap)
    decreases |ops|
  {
    hide Synced, Bounded, Step;
    if ops != [] {
      StepKeepsSize(d, cap, ops[0]);
      StepKeepsSynced(d, cap, ops[0]);
      RunKeepsSynced(Step(d, cap, ops[0]).0, cap, ops[1..]);
    }
  }

  // ---- A capacity too small for anything ----

  /** No store fits below the size of a header. */
  lemma {:induction false} NothingFits(kv: Store, cap: nat)
    requires cap < HEADER_SIZE
    ensures !Storable(kv, cap)
  {
    if FieldsFit(kv) { EncodingSize(kv); }
    hide Encoding, EntriesSize;
  }

  /** An empty store fits exactly from seven bytes on. */
  lemma {:induction false} EmptyFitsExactly(cap: nat)
    ensures Storable(map[], cap) <==> cap >= HEADER_SIZE
  {
    EmptySize();
    hide Encoding;
  }

  lemma {:induction false} TinyStep(d: Device, cap: nat, op: Op)
    requires cap < HEADER_SIZE && cap <= |d.cells|
    ensures Step(d, cap, op).0.cells == d.cells
    ensures op.Begin? || d.data == map[] ==> Step(d, cap, op).0.data == map[]
    ensures op.Set? && op.key != [] ==> Step(d, cap, op).1 == Fail(Capacity)
  {
    TooSmall(d.cells[..cap]);
    NothingFits(map[], cap);
    if op.Set? { NothingFits(d.data[op.key := op.value], cap); }
    if op.Remove? { NothingFits(d.data - {op.rkey}, cap); }
    hide Storable, Encoding, Decoded;
  }

  lemma {:induction false} TinyRun(d: Device, cap: nat, ops: seq<Op>)
    requires cap < HEADER_SIZE && cap <= |d.cells|
    ensures Run(d, cap, ops).cells == d.cells
    ensures d.data == map[] ==> Run(d, cap, ops).data == map[]
    decreases |ops|
  {
    hide Step;
    if ops != [] {
      StepKeepsSize(d, cap, ops[0]);
      TinyStep(d, cap, ops[0]);
      TinyRun(Step(d, cap, ops[0]).0, cap, ops[1..]);
    }
  }

  /** With a capacity below seven bytes no run ever changes a cell, and once the
      store has begun it is empty for good. */
  lemma {:induction false} TinyNeverStores(d: Device, cap: nat, ops: seq<Op>)
    requires cap < HEADER_SIZE && cap <= |d.cells|
    ensures Run(d, cap, ops).cells == d.cells
    ensures Run(d, cap, [Begin] + ops) == Device(d.cells, map[])
  {
    hide Step, Run;
    TinyRun(d, cap, ops);
    StepKeepsSize(d, cap, Begin);
    TinyStep(d, cap, Begin);
    TinyRun(Step(d, cap, Begin).0, cap, ops);
    BeginFirst(d, cap, ops);
  }

  lemma {:induction false} BeginFirst(d: Device, cap: nat, ops: seq<Op>)
    requires cap <= |d.cells|
    ensures cap <= |Step(d, cap, Begin).0.cells|
    ensures Run(d, cap, [Begin] + ops) == Run(Step(d, cap, Begin).0, cap, ops)
  {
    StepKeepsSize(d, cap, Begin);
    assert ([Begin] + ops)[0] == Begin && ([Begin] + ops)[1..] == ops;
    hide Step;
  }

  // ---- The store itself ----

  class EepromSecretStore {
    const eeprom: array<Byte>
    const capacity: nat
    var data: Store

    /** `capacity` 0 means the whole EEPROM. */
    constructor (eeprom: array<Byte>, capacity: nat)
      ensures this.eeprom == eeprom && this.capacity == capacity && data == map[]
    {
      this.eeprom, this.capacity := eeprom, capacity;
      data := map[];
    }

    function CapacityBytes(): (n: nat)
      ensures n <= eeprom.Length
      ensures n == eeprom.Length || 0 < n == capacity
    {
      if capacity == 0 then eeprom.Length
      else if capacity < eeprom.Length then capacity else eeprom.Length
    }

    ghost function Abs(): (d: Device)
      reads this, eeprom
      ensures CapacityBytes() <= |d.cells|
    {
      Device(eeprom[..], data)
    }

    method WriteBlob(blob: Bytes)
      requires |blob| <= eeprom.Length
      modifies eeprom
      ensures eeprom[..] == Overwritten(old(eeprom[..]), blob)
    {
      for i := 0 to |blob|
        invariant eeprom[..i] == blob[..i]
        invariant eeprom[i..] == old(eeprom[i..])
      {
        eeprom[i] := blob[i];
        assert eeprom[..i + 1] == eeprom[..i] + [blob[i]];
        assert eeprom[i + 1..] == old(eeprom[i..])[1..];
      }
      assert eeprom[..] == eeprom[..|blob|] + eeprom[|blob|..];
    }

    method Begin()
      modifies this
      ensures Abs() == Step(old(Abs()), CapacityBytes(), Op.Begin).0
    {
      var n := CapacityBytes();
      var blob: Bytes := [];
      for i := 0 to n
        invariant blob == eeprom[..i]
      {
        blob := blob + [eeprom[i]];
      }
      assert eeprom[..][..n] == eeprom[..n];
      hide Decoded;
      var ok;
      ok, data := DecodeKv(blob);
    }

    method Set(key: Bytes, value: Bytes) returns (status: Status)
      modifies this, eeprom
      ensures (Abs(), status) == Step(old(Abs()), CapacityBytes(), Op.Set(key, value))
      ensures status == Ok ==>
                data == old(data)[key := value] && Decoded(eeprom[..][..CapacityBytes()]) == (true, data)
    {
      SetStores(Abs(), CapacityBytes(), key, value);
      if key == [] { return Fail(InvalidArgument); }
      var candidate := data[key := value];
      status := Commit(candidate);
    }

    /** Encodes first; RAM and EEPROM change only if the blob fits. */
    method Commit(candidate: Store) returns (status: Status)
      modifies this, eeprom
      ensures (Abs(), status) == Replace(old(Abs()), CapacityBytes(), candidate)
    {
      hide FieldsFit, Encoding;
      var ok, blob := EncodeKv(candidate, CapacityBytes());
      if !ok { return Fail(Capacity); }
      data := candidate;
      WriteBlob(blob);
      status := Ok;
    }

    method Get(key: Bytes) returns (r: Result<Bytes>)
      ensures r == if key in data then Success(data[key]) else Failure(SecretNotFound)
    {
      if key !in data { return Failure(SecretNotFound); }
      r := Success(data[key]);
    }

    method Has(key: Bytes) returns (b: bool)
      ensures b <==> key in data
    {
      b := key in data;
    }

    method Remove(key: Bytes) returns (status: Status)
      modifies this, eeprom
      ensures (Abs(), status) == Step(old(Abs()), CapacityBytes(), Op.Remove(key))
    {
      if key !in data { return Ok; }
      status := Commit(data - {key});
    }

    method Clear() returns (status: Status)
      modifies this, eeprom
      ensures (Abs(), status) == Step(old(Abs()), CapacityBytes(), Op.Clear)
      ensures status == Ok && data == map[] && Decoded(eeprom[..][..CapacityBytes()]).1 == map[]
    {
      ClearErases(Abs(), CapacityBytes());
      hide FieldsFit, Encoding, Decoded;
      data := map[];
      var ok, blob := EncodeKv(data, CapacityBytes());
      WriteBlob(blob);
      assert !ok ==> [] + old(eeprom[..])[0..] == old(eeprom[..]);
      status := Ok;
    }
  }
}
