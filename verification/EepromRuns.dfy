/** The EEPROM-backed store as its callers see it: a map that keeps its entries
    through every reboot, as long as they fit. */
module EepromRuns {
  import opened Core
  import opened KeyOrder
  import opened EepromCodec
  import opened EepromStoreModel

  // ---- What fits ----

  /** Seven bytes, and three more than its key and value for each entry. */
  ghost function BlobSize(kv: Store): nat
    decreases |kv|
  {
    if kv == map[] then 7
    else
      var k :| k in kv;
      Fewer(kv, k);
      BlobSize(kv - {k}) + 3 + |k| + |kv[k]|
  }

  lemma {:induction false} Fewer(kv: Store, k: Bytes)
    requires k in kv
    ensures |kv - {k}| < |kv|
  {
    assert (kv - {k}).Keys == kv.Keys - {k};
    assert |(kv - {k}).Keys| == |kv - {k}| && |kv.Keys| == |kv|;
  }

  ghost predicate Fits(kv: Store, cap: nat) {
    && |kv| <= 65535 && BlobSize(kv) <= cap
    && forall k | k in kv :: |k| <= 255 && |kv[k]| <= 65535
  }

  lemma {:induction false} SizeExactly(kv: Store)
    requires FieldsFit(kv)
    ensures HEADER_SIZE + EntriesSize(kv) == BlobSize(kv)
    decreases |kv|
  {
    hide EntriesSize, FieldsFit;
    if kv == map[] {
      EmptySize();
    } else {
      var k :| k in kv && BlobSize(kv) == BlobSize(kv - {k}) + 3 + |k| + |kv[k]|;
      WithoutEntry(kv, k);
      Fewer(kv, k);
      SizeExactly(kv - {k});
    }
  }

  lemma {:induction false} FitsExactly(kv: Store, cap: nat)
    ensures Storable(kv, cap) <==> Fits(kv, cap)
  {
    if FieldsFit(kv) {
      EncodingSize(kv);
      SizeExactly(kv);
    }
    hide Encoding, EntriesSize, BlobSize;
  }

  // ---- The map behind it ----

  ghost function MapStep(data: Store, cap: nat, op: Op): (Store, Status) {
    match op
    case Begin => (data, Ok)
    case Set(key, value) =>
      if key == [] then (data, Fail(InvalidArgument))
      else if Fits(data[key := value], cap) then (data[key := value], Ok)
      else (data, Fail(Capacity))
    case Remove(key) => (data - {key}, Ok)
    case Clear => (map[], Ok)
  }

  ghost function MapReplies(data: Store, cap: nat, ops: seq<Op>): seq<Status>
    decreases |ops|
  {
    if ops == [] then []
    else
      var (after, r) := MapStep(data, cap, ops[0]);
      [r] + MapReplies(after, cap, ops[1..])
  }

  ghost function MapRun(data: Store, cap: nat, ops: seq<Op>): Store
    decreases |ops|
  {
    if ops == [] then data else MapRun(MapStep(data, cap, ops[0]).0, cap, ops[1..])
  }

  ghost function Replies(d: Device, cap: nat, ops: seq<Op>): seq<Status>
    requires cap <= |d.cells|
    decreases |ops|
  {
    if ops == [] then []
    else
      StepKeepsSize(d, cap, ops[0]);
      var (after, r) := Step(d, cap, ops[0]);
      [r] + Replies(after, cap, ops[1..])
  }

  /** One step of the device is one step of the map; a `begin` in between, be it
      after a loss of power, is no step at all. */
  lemma {:induction false} StepIsMapStep(d: Device, cap: nat, op: Op)
    requires cap <= |d.cells| && Synced(d, cap) && Bounded(d, cap)
    ensures (Step(d, cap, op).0.data, Step(d, cap, op).1) == MapStep(d.data, cap, op)
  {
    match op
    case Begin => SyncedIsFixed(d, cap);
    case Set(key, value) =>
      FitsExactly(d.data[key := value], cap);
      hide Storable, Fits, Synced, Bounded, Encoding;
    case Remove(key) => RemoveNeverFails(d, cap, key);
    case Clear => ClearErases(d, cap);
  }

  lemma {:induction false} RunIsMapRun(d: Device, cap: nat, ops: seq<Op>)
    requires cap <= |d.cells| && Synced(d, cap) && Bounded(d, cap)
    ensures Run(d, cap, ops).data == MapRun(d.data, cap, ops) && Replies(d, cap, ops) == MapReplies(d.data, cap, ops)
    decreases |ops|
  {
    hide Synced, Bounded, Step, MapStep;
    if ops != [] {
      StepKeepsSize(d, cap, ops[0]);
      StepIsMapStep(d, cap, ops[0]);
      StepKeepsSynced(d, cap, ops[0]);
      RunIsMapRun(Step(d, cap, ops[0]).0, cap, ops[1..]);
    }
  }

  /** Map refinement: begun on any cells, the store answers every run as a map
      with those first entries does, and whenever it is begun again it has what
      that map has. */
  lemma {:induction false} MapRefinement(cells: Bytes, stale: Store, cap: nat, ops: seq<Op>)
    requires cap <= |cells|
    ensures var start, d := Decoded(cells[..cap]).1, Run(Device(cells, stale), cap, [Begin] + ops);
      && d.data == MapRun(start, cap, ops)
      && Replies(Device(cells, stale), cap, [Begin] + ops) == [Ok] + MapReplies(start, cap, ops)
      && cap <= |d.cells| && Decoded(d.cells[..cap]).1 == MapRun(start, cap, ops)
  {
    var d0 := Device(cells, stale);
    StepKeepsSize(d0, cap, Begin);
    StepKeepsSynced(d0, cap, Begin);
    BeginLoads(d0, cap);
    hide Step, Decoded, MapStep, Synced, Bounded;
    var d := Step(d0, cap, Begin).0;
    assert ([Begin] + ops)[0] == Begin && ([Begin] + ops)[1..] == ops;
    RunIsMapRun(d, cap, ops);
    RunKeepsSynced(d, cap, ops);
    SyncedLoads(Run(d, cap, ops), cap);
  }

  lemma {:induction false} BeginLoads(d: Device, cap: nat)
    requires cap <= |d.cells|
    ensures Step(d, cap, Begin).0.data == Decoded(d.cells[..cap]).1 && Step(d, cap, Begin).1 == Ok
  {
  }

  lemma {:induction false} SyncedLoads(d: Device, cap: nat)
    requires cap <= |d.cells| && Synced(d, cap)
    ensures Decoded(d.cells[..cap]).1 == d.data
  {
  }
}
