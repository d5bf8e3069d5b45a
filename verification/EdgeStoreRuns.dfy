/** Whole runs of the key/value store: what survives a restart, and that its
    32-bit clock does not show. */
module EdgeStoreRuns {
  import opened Core
  import opened KeyOrder
  import opened EdgeStoreSpec

  datatype Op =
    | Set(key: Bytes, value: Bytes)
    | SetWithTtl(tkey: Bytes, tvalue: Bytes, ttlMs: nat)
    | Get(gkey: Bytes)
    | Remove(rkey: Bytes)
    | Has(hkey: Bytes)
    | Keys
    | Size
    | Tick(ms: nat)

  datatype Reply =
    | Outcome(status: Status)
    | Found(result: Result<Bytes>)
    | Flag(b: bool)
    | Names(ks: seq<Bytes>)
    | Count(n: nat)
    | Silence

  /** A store, its clock if it has one, and the true time. */
  datatype World = World(store: State, time: nat, hasClock: bool)

  function ClockOf(w: World): Option<nat> {
    if w.hasClock then Some(w.time % TWO_32) else None
  }

  ghost function Step(w: World, caps: Caps, op: Op): (World, Reply) {
    var clock := ClockOf(w);
    match op
    case Set(k, v) => var (s, r) := SetOp(w.store, clock, caps, k, v); (w.(store := s), Outcome(r))
    case SetWithTtl(k, v, ttl) => var (s, r) := SetTtlOp(w.store, clock, caps, k, v, ttl); (w.(store := s), Outcome(r))
    case Get(k) => var (s, r) := GetOp(w.store, clock, k); (w.(store := s), Found(r))
    case Remove(k) => (w.(store := RemoveOp(w.store, clock, k)), Outcome(Ok))
    case Has(k) => (w, Flag(k in Visible(w.store, clock)))
    case Keys => (w, Names(Sorted(Visible(w.store, clock).Keys)))
    case Size => (w, Count(|Visible(w.store, clock)|))
    case Tick(ms) => (w.(time := w.time + ms), Silence)
  }

  ghost function Run(w: World, caps: Caps, ops: seq<Op>): World
    decreases |ops|
  {
    if ops == [] then w else Run(Step(w, caps, ops[0]).0, caps, ops[1..])
  }

  ghost function Replies(w: World, caps: Caps, ops: seq<Op>): seq<Reply>
    decreases |ops|
  {
    if ops == [] then []
    else
      var (w', r) := Step(w, caps, ops[0]);
      [r] + Replies(w', caps, ops[1..])
  }

  /** Queries that do not sweep report what a sweeping `get` would find at the
      same instant, and a `get` does not change what they report. */
  lemma {:induction false} QueriesAgreeWithGet(s: State, clock: Option<nat>, k: Bytes)
    ensures var (t, r) := GetOp(s, clock, k);
      && (r.Success? <==> k in Visible(s, clock))
      && (r.Success? ==> r.value == Visible(s, clock)[k])
      && Visible(t, clock) == Visible(s, clock)
  {
    var dead := DeadKeys(s.expiry, clock);
    assert DeadKeys(s.expiry - dead, clock) == {};
    assert s.data - dead - {} == s.data - dead;
  }

  // ---- Restart ----

  /** The backend holds exactly the durable entries, and a manifest naming them;
      the manifest may be missing as long as there is nothing to name. */
  ghost predicate Mirrors(items: Entries, durable: Entries) {
    && items - {MANIFEST} == durable
    && if MANIFEST in items then items[MANIFEST] == ManifestText(durable) else durable == map[]
  }

  ghost predicate Limits(data: Entries, expiry: map<Bytes, nat>, caps: Caps) {
    && expiry.Keys <= data.Keys
    && |data| <= caps.maxKeys
    && forall k | k in data :: ValidKey(k, caps) && |data[k]| <= caps.maxValueLen
  }

  ghost predicate Mirrored(s: State) {
    s.backend.Some? ==> Mirrors(s.backend.value, Durable(s))
  }

  ghost predicate WellKept(s: State, caps: Caps) {
    Limits(s.data, s.expiry, caps) && Mirrored(s)
  }

  lemma {:induction false} SmallerMap(m: Entries, ks: set<Bytes>)
    ensures |m - ks| <= |m|
  {
    assert (m - ks).Keys == m.Keys - ks;
    assert |m.Keys - ks| <= |m.Keys|;
    assert |(m - ks).Keys| == |m - ks| && |m.Keys| == |m|;
  }

  lemma {:induction false} LargerMap(m: Entries, k: Bytes, v: Bytes)
    ensures |m[k := v]| == if k in m then |m| else |m| + 1
  {
    assert m[k := v].Keys == m.Keys + {k};
    if k in m { assert m.Keys + {k} == m.Keys; }
    assert |m[k := v].Keys| == |m[k := v]| && |m.Keys| == |m|;
  }

  /** A sweep drops only entries that are not durable. */
  lemma {:induction false} EvictKeepsDurable(s: State, clock: Option<nat>, caps: Caps)
    requires WellKept(s, caps)
    ensures Durable(Evict(s, clock)) == Durable(s) && WellKept(Evict(s, clock), caps)
    ensures Evict(s, clock).backend == s.backend
  {
    hide Limits, Mirrors, WellKept, Durable, Expired, Sorted, Removals;
    var dead := DeadKeys(s.expiry, clock);
    MapMinus(s.data, s.expiry, dead);
    DurableAndKept(s, caps);
    DurableAndKept(Evict(s, clock), caps);
    LimitsAfter(s.data, s.expiry, caps, dead);
  }

  lemma {:induction false} MapMinus(data: Entries, expiry: map<Bytes, nat>, dead: set<Bytes>)
    requires dead <= expiry.Keys
    ensures (expiry - dead).Keys == expiry.Keys - dead
    ensures (data - dead) - (expiry - dead).Keys == data - expiry.Keys
  {
    assert (expiry - dead).Keys == expiry.Keys - dead;
  }

  lemma {:induction false} LimitsAfter(data: Entries, expiry: map<Bytes, nat>, caps: Caps, dead: set<Bytes>)
    requires Limits(data, expiry, caps)
    ensures Limits(data - dead, expiry - dead, caps)
  {
    SmallerMap(data, dead);
    hide ValidKey;
  }

  lemma {:induction false} DurableAndKept(s: State, caps: Caps)
    ensures Durable(s) == s.data - s.expiry.Keys
    ensures WellKept(s, caps) <==>
              Limits(s.data, s.expiry, caps) && (s.backend.Some? ==> Mirrors(s.backend.value, Durable(s)))
  {
    hide Limits, Mirrors;
  }

  lemma {:induction false} LimitsGrow(data: Entries, expiry: map<Bytes, nat>, caps: Caps, k: Bytes, v: Bytes,
                                      expiry': map<Bytes, nat>)
    requires Limits(data, expiry, caps) && Admission(data, k, v, caps) == Ok && expiry'.Keys <= expiry.Keys + {k}
    ensures Limits(data[k := v], expiry', caps)
  {
    LargerMap(data, k, v);
    hide ValidKey;
  }

  lemma {:induction false} LimitsShrink(data: Entries, expiry: map<Bytes, nat>, caps: Caps, k: Bytes)
    requires Limits(data, expiry, caps)
    ensures Limits(data - {k}, expiry - {k}, caps)
  {
    SmallerMap(data, {k});
    hide ValidKey;
  }

  lemma {:induction false} SameKeysSameManifest(a: Entries, b: Entries)
    requires a.Keys == b.Keys
    ensures ManifestText(a) == ManifestText(b)
  {
    hide JoinOnto, Sorted;
  }

  /** Writing an entry through, with or without a new manifest. */
  lemma {:induction false} MirrorPut(items: Entries, durable: Entries, k: Bytes, v: Bytes, rewrite: bool)
    requires Mirrors(items, durable) && k != MANIFEST && (rewrite || k in durable)
    ensures var put := items[k := v];
      Mirrors(if rewrite then put[MANIFEST := ManifestText(durable[k := v])] else put, durable[k := v])
  {
    hide ManifestText;
    var put, after := items[k := v], durable[k := v];
    assert put - {MANIFEST} == (items - {MANIFEST})[k := v];
    if rewrite {
      assert put[MANIFEST := ManifestText(after)] - {MANIFEST} == put - {MANIFEST};
    } else {
      assert after.Keys == durable.Keys;
      SameKeysSameManifest(durable, after);
    }
  }

  /** Dropping an entry, with a new manifest. */
  lemma {:induction false} MirrorDrop(items: Entries, durable: Entries, k: Bytes)
    requires Mirrors(items, durable) && k != MANIFEST
    ensures Mirrors((items - {k})[MANIFEST := ManifestText(durable - {k})], durable - {k})
  {
    hide ManifestText;
    assert (items - {k})[MANIFEST := ManifestText(durable - {k})] - {MANIFEST} == items - {MANIFEST} - {k};
  }

  lemma {:induction false} AdmittedKey(data: Entries, k: Bytes, v: Bytes, caps: Caps)
    ensures Admission(data, k, v, caps) == Ok ==> k != MANIFEST
  {
  }

  lemma {:induction false} SetKeepsWell(s0: State, clock: Option<nat>, caps: Caps, k: Bytes, v: Bytes)
    requires WellKept(s0, caps)
    ensures WellKept(SetOp(s0, clock, caps, k, v).0, caps)
  {
    hide Evict, SetOp, SetTtlOp, RemoveOp, Mirrors, Limits, ManifestText, Admission, ValidKey, DeadKeys, Sorted,
         JoinOnto;
    EvictKeepsDurable(s0, clock, caps);
    var s, t := Evict(s0, clock), SetOp(s0, clock, caps, k, v).0;
    SetShape(s0, clock, caps, k, v);
    AdmittedKey(s.data, k, v, caps);
    if Admission(s.data, k, v, caps) == Ok {
      assert (s.expiry - {k}).Keys == s.expiry.Keys - {k};
      LimitsGrow(s.data, s.expiry, caps, k, v, s.expiry - {k});
      assert Durable(t) == Durable(s)[k := v];
      if s.backend.Some? {
        MirrorPut(s.backend.value, Durable(s), k, v, k !in s.data || k in s.expiry);
      }
    }
  }

  lemma {:induction false} SetTtlKeepsWell(s0: State, clock: Option<nat>, caps: Caps, k: Bytes, v: Bytes, ttl: nat)
    requires WellKept(s0, caps)
    ensures WellKept(SetTtlOp(s0, clock, caps, k, v, ttl).0, caps)
  {
    hide Evict, SetOp, SetTtlOp, RemoveOp, Mirrors, Limits, ManifestText, Admission, ValidKey, DeadKeys, Sorted,
         JoinOnto;
    EvictKeepsDurable(s0, clock, caps);
    var s, t := Evict(s0, clock), SetTtlOp(s0, clock, caps, k, v, ttl).0;
    if clock.None? {
      NoClockNoTtl(s0, caps, k, v, ttl);
    } else {
      SetTtlShape(s0, clock, caps, k, v, ttl);
      AdmittedKey(s.data, k, v, caps);
      if Admission(s.data, k, v, caps) == Ok {
        assert t.expiry.Keys == s.expiry.Keys + {k};
        LimitsGrow(s.data, s.expiry, caps, k, v, t.expiry);
        assert Durable(t) == Durable(s) - {k};
        if k in s.data && k !in s.expiry && s.backend.Some? {
          MirrorDrop(s.backend.value, Durable(s), k);
        } else if !(k in s.data && k !in s.expiry) {
          assert Durable(s) - {k} == Durable(s);
        }
      }
    }
  }

  lemma {:induction false} NoClockNoTtl(s: State, caps: Caps, k: Bytes, v: Bytes, ttl: nat)
    ensures SetTtlOp(s, None, caps, k, v, ttl) == (s, Fail(InvalidState))
  {
    hide Evict;
  }

  lemma {:induction false} RemoveKeepsWell(s0: State, clock: Option<nat>, caps: Caps, k: Bytes)
    requires WellKept(s0, caps)
    ensures WellKept(RemoveOp(s0, clock, k), caps)
  {
    hide Evict, SetOp, SetTtlOp, RemoveOp, Mirrors, Limits, ManifestText, Admission, ValidKey, DeadKeys, Sorted,
         JoinOnto;
    EvictKeepsDurable(s0, clock, caps);
    var s, t := Evict(s0, clock), RemoveOp(s0, clock, k);
    if k == MANIFEST {
      ReservedUntouched(s0, clock);
    } else {
      RemoveShape(s0, clock, k);
      if k in s.data {
        LimitsShrink(s.data, s.expiry, caps, k);
        assert (s.expiry - {k}).Keys == s.expiry.Keys - {k};
        assert Durable(t) == Durable(s) - {k};
        if s.backend.Some? { MirrorDrop(s.backend.value, Durable(s), k); }
      }
    }
  }

  lemma {:induction false} StepKeepsWell(w: World, caps: Caps, op: Op)
    requires WellKept(w.store, caps)
    ensures WellKept(Step(w, caps, op).0.store, caps)
  {
    hide WellKept, Sorted, SetOp, SetTtlOp, RemoveOp, Evict;
    match op
    case Set(k, v) => SetKeepsWell(w.store, ClockOf(w), caps, k, v);
    case SetWithTtl(k, v, ttl) => SetTtlKeepsWell(w.store, ClockOf(w), caps, k, v, ttl);
    case Get(k) => EvictKeepsDurable(w.store, ClockOf(w), caps);
    case Remove(k) => RemoveKeepsWell(w.store, ClockOf(w), caps, k);
    case _ =>
  }

  lemma {:induction false} RunKeepsWell(w: World, caps: Caps, ops: seq<Op>)
    requires WellKept(w.store, caps)
    ensures WellKept(Run(w, caps, ops).store, caps)
    decreases |ops|
  {
    hide WellKept, Step;
    if ops != [] {
      StepKeepsWell(w, caps, ops[0]);
      RunKeepsWell(Step(w, caps, ops[0]).0, caps, ops[1..]);
    }
  }

  /** Loading distinct keys that all fit loads all of them. */
  lemma {:induction false} LoadsAll(data: Entries, ks: seq<Bytes>, items: Entries, caps: Caps)
    requires forall i | 0 <= i < |ks| :: ks[i] in items && ks[i] !in data
    requires forall i, j | 0 <= i < j < |ks| :: ks[i] != ks[j]
    requires |data| + |ks| <= caps.maxKeys
    ensures forall k :: k in LoadKeys(data, ks, items, caps) <==> k in data || k in ks
    ensures forall k | k in data :: LoadKeys(data, ks, items, caps)[k] == data[k]
    ensures forall k | k in ks :: LoadKeys(data, ks, items, caps)[k] == items[k]
    decreases |ks|
  {
    if ks != [] {
      LargerMap(data, ks[0], items[ks[0]]);
      var d := data[ks[0] := items[ks[0]]];
      LoadsAll(d, ks[1..], items, caps);
      assert forall k :: k in ks <==> k == ks[0] || k in ks[1..];
      assert d[ks[0]] == items[ks[0]];
    }
  }

  /** Loading never goes beyond the cap, stops at nothing else, and gives what
      the backend holds: of keys that are all there, the first ones that fit. */
  lemma {:induction false} LoadsFirst(data: Entries, ks: seq<Bytes>, items: Entries, caps: Caps)
    requires forall i | 0 <= i < |ks| :: ks[i] in items && ks[i] !in data
    requires forall i, j | 0 <= i < j < |ks| :: ks[i] != ks[j]
    requires |data| <= caps.maxKeys
    ensures var room := caps.maxKeys - |data|;
      LoadKeys(data, ks, items, caps) == LoadKeys(data, if |ks| <= room then ks else ks[..room], items, caps)
    ensures |LoadKeys(data, ks, items, caps)| <= caps.maxKeys
    decreases |ks|
  {
    if ks != [] && |data| < caps.maxKeys {
      LargerMap(data, ks[0], items[ks[0]]);
      var d, room := data[ks[0] := items[ks[0]]], caps.maxKeys - |data|;
      LoadsFirst(d, ks[1..], items, caps);
      if |ks| > room { assert ks[..room][1..] == ks[1..][..room - 1]; }
    } else {
      FullLoadsNothing(data, ks, items, caps);
      if |ks| > 0 { assert ks[..0] == []; }
    }
  }

  lemma {:induction false} FullLoadsNothing(data: Entries, ks: seq<Bytes>, items: Entries, caps: Caps)
    requires ks == [] || |data| >= caps.maxKeys
    ensures LoadKeys(data, ks, items, caps) == data
    decreases |ks|
  {
    if ks != [] { FullLoadsNothing(data, ks[1..], items, caps); }
  }

  lemma {:induction false} DurableNamesGood(s: State, caps: Caps)
    requires WellKept(s, caps)
    ensures GoodNames(Sorted(Durable(s).Keys)) && |Durable(s)| <= caps.maxKeys && MANIFEST !in Durable(s)
  {
    SortedKeys(Durable(s).Keys);
    SmallerMap(s.data, s.expiry.Keys);
    hide Sorted, Mirrors;
    forall i | 0 <= i < |Sorted(Durable(s).Keys)|
      ensures Sorted(Durable(s).Keys)[i] != [] && NEWLINE !in Sorted(Durable(s).Keys)[i]
    {
      assert Sorted(Durable(s).Keys)[i] in Durable(s).Keys;
    }
  }

  /** A fresh store with the same caps, attached to the backend, loads exactly
      the durable entries. */
  lemma {:induction false} RestartLoadsDurable(s: State, caps: Caps)
    requires WellKept(s, caps) && s.backend.Some?
    ensures Load(map[], s.backend.value, caps) == Durable(s)
    ensures WellKept(State(Durable(s), map[], s.backend, []), caps)
  {
    var items, durable := s.backend.value, Durable(s);
    var ks := Sorted(durable.Keys);
    DurableNamesGood(s, caps);
    DurableIsWellKept(s, caps);
    SortedKeys(durable.Keys);
    JoinSplit(ks);
    assert |durable.Keys| == |durable|;
    hide Sorted, Lines, JoinOnto, ValidKey, Limits, LoadKeys, Durable;
    if MANIFEST in items {
      forall i | 0 <= i < |ks| ensures ks[i] in items {
        assert ks[i] in ks && ks[i] in durable && ks[i] in items - {MANIFEST};
      }
      LoadsAll(map[], ks, items, caps);
      SameEntries(LoadKeys(map[], ks, items, caps), ks, items, durable);
    }
  }

  lemma {:induction false} DurableIsWellKept(s: State, caps: Caps)
    requires WellKept(s, caps) && s.backend.Some?
    ensures WellKept(State(Durable(s), map[], s.backend, []), caps)
  {
    hide Mirrors, ValidKey;
    SmallerMap(s.data, s.expiry.Keys);
    assert Durable(State(Durable(s), map[], s.backend, [])) == Durable(s);
  }

  lemma {:induction false} SameEntries(loaded: Entries, ks: seq<Bytes>, items: Entries, durable: Entries)
    requires forall k :: k in loaded <==> k in ks
    requires forall k :: k in ks <==> k in durable
    requires forall k | k in ks :: k in items && loaded[k] == items[k]
    requires items - {MANIFEST} == durable
    ensures loaded == durable
  {
    forall k | k in durable ensures k in loaded && loaded[k] == durable[k] {
      assert k in ks && durable[k] == (items - {MANIFEST})[k];
    }
  }

  /** Restart refinement: after any run from an empty store on an empty backend,
      the backend holds the durable entries and a manifest naming them, nothing
      with a deadline is in it, and a restart loads exactly the durable entries. */
  lemma {:induction false} RestartRefinement(caps: Caps, hasClock: bool, time: nat, ops: seq<Op>)
    ensures var s := Run(World(State(map[], map[], Some(map[]), []), time, hasClock), caps, ops).store;
      && s.backend.Some?
      && Mirrors(s.backend.value, Durable(s))
      && (forall k | k in s.expiry :: k !in s.backend.value)
      && Load(map[], s.backend.value, caps) == map k | k in s.data && k !in s.expiry :: s.data[k]
  {
    var w := World(State(map[], map[], Some(map[]), []), time, hasClock);
    var s := Run(w, caps, ops).store;
    EmptyIsWellKept(caps);
    RunKeepsWell(w, caps, ops);
    RunKeepsBackend(w, caps, ops);
    RestartLoadsDurable(s, caps);
    hide Run, ManifestText, Sorted, Load;
    DurableExactly(s);
    OnlyDurableStored(s, caps);
  }

  lemma {:induction false} DurableExactly(s: State)
    ensures Durable(s) == map k | k in s.data && k !in s.expiry :: s.data[k]
  {
  }

  lemma {:induction false} OnlyDurableStored(s: State, caps: Caps)
    requires WellKept(s, caps) && s.backend.Some?
    ensures forall k | k in s.expiry :: k !in s.backend.value
  {
    hide ManifestText, ValidKey;
    forall k | k in s.expiry ensures k !in s.backend.value {
      assert k in s.data && k !in Durable(s) && k !in s.backend.value - {MANIFEST};
      assert ValidKey(k, caps) ==> k != MANIFEST by { UsableName(k, caps); }
    }
  }

  lemma {:induction false} UsableName(k: Bytes, caps: Caps)
    ensures ValidKey(k, caps) ==> k != MANIFEST
  {
  }

  lemma {:induction false} EmptyIsWellKept(caps: Caps)
    ensures WellKept(State(map[], map[], Some(map[]), []), caps)
  {
  }

  lemma {:induction false} StepKeepsBackend(w: World, caps: Caps, op: Op)
    requires w.store.backend.Some?
    ensures Step(w, caps, op).0.store.backend.Some?
  {
    hide Sorted, ManifestText, Admission, DeadKeys, Durable;
  }

  lemma {:induction false} RunKeepsBackend(w: World, caps: Caps, ops: seq<Op>)
    requires w.store.backend.Some?
    ensures Run(w, caps, ops).store.backend.Some?
    decreases |ops|
  {
    hide Step;
    if ops != [] {
      StepKeepsBackend(w, caps, ops[0]);
      RunKeepsBackend(Step(w, caps, ops[0]).0, caps, ops[1..]);
    }
  }

  // ---- Time ----

  /** An entry of the ideal store, with its true deadline. */
  datatype Entry = Entry(value: Bytes, deadline: Option<nat>)

  /** A store whose clock never wraps. Entries past their deadline may still be
      there, but nothing shows them. */
  datatype Ideal = Ideal(entries: map<Bytes, Entry>, time: nat)

  predicate LiveAt(e: Entry, time: nat) {
    e.deadline.None? || time < e.deadline.value
  }

  function Live(i: Ideal): map<Bytes, Entry> {
    map k | k in i.entries && LiveAt(i.entries[k], i.time) :: i.entries[k]
  }

  function Plain(m: map<Bytes, Entry>): Entries {
    map k | k in m :: m[k].value
  }

  /** A key that can be used at all: not empty, not too long, without a newline,
      and not the one that names the manifest. */
  predicate Usable(k: Bytes, caps: Caps) {
    0 < |k| <= caps.maxKeyLen && '\n' !in k && k != "__edgestore_manifest__"
  }

  /** What can be stored while these entries are seen: a value that is not too
      long, under a key that is seen already or for which there is room. */
  predicate HasRoom(seen: set<Bytes>, k: Bytes, v: Bytes, caps: Caps) {
    |v| <= caps.maxValueLen && (k in seen || |seen| < caps.maxKeys)
  }

  function Verdict(seen: set<Bytes>, k: Bytes, v: Bytes, caps: Caps): Status {
    if Usable(k, caps) && HasRoom(seen, k, v, caps) then Ok
    else if Usable(k, caps) then Fail(Capacity)
    else Fail(InvalidArgument)
  }

  lemma {:induction false} AdmissionInWords(data: Entries, k: Bytes, v: Bytes, caps: Caps)
    ensures Admission(data, k, v, caps) == Verdict(data.Keys, k, v, caps)
  {
    assert MANIFEST == "__edgestore_manifest__" && NEWLINE == '\n' && |data.Keys| == |data|;
    hide MANIFEST, NEWLINE;
  }

  ghost function IdealStep(i: Ideal, caps: Caps, op: Op): (Ideal, Reply) {
    var live := Live(i);
    match op
    case Set(k, v) =>
      var verdict := Verdict(live.Keys, k, v, caps);
      (Ideal(if verdict == Ok then live[k := Entry(v, None)] else live, i.time), Outcome(verdict))
    case SetWithTtl(k, v, ttl) =>
      var verdict := Verdict(live.Keys, k, v, caps);
      (Ideal(if verdict == Ok then live[k := Entry(v, Some(i.time + ttl))] else live, i.time), Outcome(verdict))
    case Get(k) => (Ideal(live, i.time), Found(if k in live then Success(live[k].value) else Failure(NotFound)))
    case Remove(k) => (if k == MANIFEST then i else Ideal(live - {k}, i.time), Outcome(Ok))
    case Has(k) => (i, Flag(k in live))
    case Keys => (i, Names(Sorted(live.Keys)))
    case Size => (i, Count(|live|))
    case Tick(ms) => (i.(time := i.time + ms), Silence)
  }

  ghost function IdealReplies(i: Ideal, caps: Caps, ops: seq<Op>): seq<Reply>
    decreases |ops|
  {
    if ops == [] then []
    else
      var (i', r) := IdealStep(i, caps, ops[0]);
      [r] + IdealReplies(i', caps, ops[1..])
  }

  /** The limits within which 32 bits are enough: no TTL beyond 2^31 ms, and
      every entry swept less than 2^31 ms after its deadline. */
  ghost predicate Punctual(i: Ideal, op: Op) {
    match op
    case SetWithTtl(_, _, ttl) => ttl <= TWO_31
    case Tick(ms) =>
      forall k | k in i.entries && i.entries[k].deadline.Some? :: i.time + ms < i.entries[k].deadline.value + TWO_31
    case _ => true
  }

  ghost predicate PunctualRun(i: Ideal, caps: Caps, ops: seq<Op>)
    decreases |ops|
  {
    ops == [] || (Punctual(i, ops[0]) && PunctualRun(IdealStep(i, caps, ops[0]).0, caps, ops[1..]))
  }

  /** A 32-bit deadline stands for a true one nearby. */
  ghost predicate Stands(deadline32: nat, deadline: nat, time: nat) {
    deadline32 == deadline % TWO_32 && deadline <= time + TWO_31 && time < deadline + TWO_31
  }

  ghost predicate Related(w: World, i: Ideal) {
    && w.hasClock && w.time == i.time
    && w.store.data == Plain(i.entries)
    && w.store.expiry.Keys == (set k | k in i.entries && i.entries[k].deadline.Some?)
    && forall k | k in w.store.expiry :: Stands(w.store.expiry[k], i.entries[k].deadline.value, i.time)
  }

  lemma {:induction false} ModShift(x: int, k: int)
    ensures (x + k * TWO_32) % TWO_32 == x % TWO_32
    decreases if k < 0 then -k else k
  {
    if k > 0 { ModShift(x, k - 1); assert x + k * TWO_32 == x + (k - 1) * TWO_32 + TWO_32; }
    if k < 0 { ModShift(x, k + 1); assert x + k * TWO_32 == x + (k + 1) * TWO_32 - TWO_32; }
  }

  /** The 32-bit difference is the true difference, reduced. */
  lemma {:induction false} DifferenceReduced(time: nat, deadline: nat)
    ensures (time % TWO_32 - deadline % TWO_32) % TWO_32 == (time - deadline) % TWO_32
  {
    ModShift(time % TWO_32 - deadline % TWO_32, time / TWO_32 - deadline / TWO_32);
  }

  /** Within half a period on either side the comparison is exact. */
  lemma {:induction false} ExpiredExact(deadline32: nat, deadline: nat, time: nat)
    requires Stands(deadline32, deadline, time)
    ensures Expired(deadline32, time % TWO_32) <==> time >= deadline
  {
    DifferenceReduced(time, deadline);
    var d := time - deadline;
    if d < 0 { ModShift(d, 1); }
  }

  /** Past the deadline, an entry that is never swept shows as expired exactly
      in every other half period: after 2^31 ms it comes back to life. */
  lemma {:induction false} UnsweptComesBack(deadline: nat, time: nat)
    requires time >= deadline
    ensures Expired(deadline % TWO_32, time % TWO_32) <==> ((time - deadline) / TWO_31) % 2 == 0
  {
    DifferenceReduced(time, deadline);
    var d := time - deadline;
    var q, r := d / TWO_32, d % TWO_32;
    assert d == q * TWO_32 + r;
    if r < TWO_31 { assert d / TWO_31 == 2 * q; } else { assert d / TWO_31 == 2 * q + 1; }
  }

  /** A fresh entry is live exactly if its TTL is positive and at most 2^31 ms;
      a longer one makes it expired from the start. */
  lemma {:induction false} FreshTtlExactly(time: nat, ttl: nat)
    requires ttl < TWO_32
    ensures !Expired((time % TWO_32 + ttl) % TWO_32, time % TWO_32) <==> 0 < ttl <= TWO_31
  {
    ModShift(time % TWO_32 + ttl, time / TWO_32);
    DifferenceReduced(time, time + ttl);
    ModShift(0 - ttl as int, 1);
  }

  /** The dead entries are those past their true deadline. */
  lemma {:induction false} DeadExactly(w: World, i: Ideal)
    requires Related(w, i)
    ensures DeadKeys(w.store.expiry, ClockOf(w)) == set k | k in i.entries && !LiveAt(i.entries[k], i.time)
    ensures Visible(w.store, ClockOf(w)) == Plain(Live(i))
  {
    hide Expired;
    forall k | k in w.store.expiry
      ensures Expired(w.store.expiry[k], w.time % TWO_32) <==> !LiveAt(i.entries[k], i.time)
    {
      ExpiredExact(w.store.expiry[k], i.entries[k].deadline.value, i.time);
    }
  }

  lemma {:induction false} EvictRefines(w: World, i: Ideal)
    requires Related(w, i)
    ensures Related(w.(store := Evict(w.store, ClockOf(w))), Ideal(Live(i), i.time))
    ensures Evict(w.store, ClockOf(w)).data == Plain(Live(i))
  {
    DeadExactly(w, i);
    hide Sorted, Expired, Stands, Removals;
    var dead := DeadKeys(w.store.expiry, ClockOf(w));
    assert (w.store.expiry - dead).Keys == w.store.expiry.Keys - dead;
  }

  lemma {:induction false} StoreRefines(w: World, i: Ideal, k: Bytes, v: Bytes)
    requires Related(w, i)
    ensures Related(w.(store := w.store.(data := w.store.data[k := v], expiry := w.store.expiry - {k})),
                    i.(entries := i.entries[k := Entry(v, None)]))
  {
    hide Stands;
    assert Plain(i.entries[k := Entry(v, None)]) == Plain(i.entries)[k := v];
    assert (w.store.expiry - {k}).Keys == w.store.expiry.Keys - {k};
  }

  lemma {:induction false} StoreTtlRefines(w: World, i: Ideal, k: Bytes, v: Bytes, ttl: nat)
    requires Related(w, i) && ttl <= TWO_31
    ensures Related(w.(store := w.store.(data := w.store.data[k := v],
                                         expiry := w.store.expiry[k := (w.time % TWO_32 + ttl) % TWO_32])),
                    i.(entries := i.entries[k := Entry(v, Some(i.time + ttl))]))
  {
    assert (w.time % TWO_32 + ttl) % TWO_32 == (w.time + ttl) % TWO_32 by {
      ModShift(w.time % TWO_32 + ttl, w.time / TWO_32);
    }
    assert Plain(i.entries[k := Entry(v, Some(i.time + ttl))]) == Plain(i.entries)[k := v];
    assert w.store.expiry[k := (w.time % TWO_32 + ttl) % TWO_32].Keys == w.store.expiry.Keys + {k};
  }

  lemma {:induction false} DropRefines(w: World, i: Ideal, k: Bytes)
    requires Related(w, i)
    ensures Related(w.(store := w.store.(data := w.store.data - {k}, expiry := w.store.expiry - {k})),
                    i.(entries := i.entries - {k}))
  {
    hide Stands;
    assert Plain(i.entries - {k}) == Plain(i.entries) - {k};
    assert (w.store.expiry - {k}).Keys == w.store.expiry.Keys - {k};
  }

  /** Only RAM and expiry matter to the relation. */
  lemma {:induction false} RelatedDependsOn(w: World, s: State, i: Ideal)
    requires Related(w, i) && s.data == w.store.data && s.expiry == w.store.expiry
    ensures Related(w.(store := s), i)
  {
    hide Stands;
  }

  lemma {:induction false} TickRefines(w: World, i: Ideal, ms: nat)
    requires Related(w, i) && Punctual(i, Tick(ms))
    ensures Related(w.(time := w.time + ms), i.(time := i.time + ms))
  {
  }

  /** What a `set` does to each part of the store. */
  lemma {:induction false} SetShape(s0: State, clock: Option<nat>, caps: Caps, k: Bytes, v: Bytes)
    ensures var (t, r) := SetOp(s0, clock, caps, k, v);
      var s := Evict(s0, clock);
      && r == Admission(s.data, k, v, caps)
      && t.data == (if r == Ok then s.data[k := v] else s.data)
      && t.expiry == (if r == Ok then s.expiry - {k} else s.expiry)
      && t.backend ==
         if r != Ok || s.backend.None? then s.backend
         else
           var put := s.backend.value[k := v];
           Some(if k !in s.data || k in s.expiry then put[MANIFEST := ManifestText(Durable(s)[k := v])] else put)
  {
    hide Evict, Admission, ManifestText;
    var s := Evict(s0, clock);
    var after := s.(data := s.data[k := v], expiry := s.expiry - {k});
    assert after.expiry.Keys == s.expiry.Keys - {k};
    assert Durable(after) == Durable(s)[k := v];
  }

  lemma {:induction false} SetTtlShape(s0: State, clock: Option<nat>, caps: Caps, k: Bytes, v: Bytes, ttl: nat)
    requires clock.Some?
    ensures var (t, r) := SetTtlOp(s0, clock, caps, k, v, ttl);
      var s := Evict(s0, clock);
      && r == Admission(s.data, k, v, caps)
      && t.data == (if r == Ok then s.data[k := v] else s.data)
      && t.expiry == (if r == Ok then s.expiry[k := (clock.value + ttl) % TWO_32] else s.expiry)
      && t.backend ==
         if r != Ok || s.backend.None? || k !in s.data || k in s.expiry then s.backend
         else Some((s.backend.value - {k})[MANIFEST := ManifestText(Durable(s) - {k})])
  {
    hide Evict, Admission, ManifestText;
    var s := Evict(s0, clock);
    var after := s.(data := s.data[k := v], expiry := s.expiry[k := (clock.value + ttl) % TWO_32]);
    assert after.expiry.Keys == s.expiry.Keys + {k};
    assert Durable(after) == Durable(s) - {k};
  }

  lemma {:induction false} RemoveShape(s0: State, clock: Option<nat>, k: Bytes)
    requires k != MANIFEST
    ensures var t, s := RemoveOp(s0, clock, k), Evict(s0, clock);
      if k !in s.data then t == s
      else t.data == s.data - {k} && t.expiry == s.expiry - {k}
           && t.backend == if s.backend.None? then None
                           else Some((s.backend.value - {k})[MANIFEST := ManifestText(Durable(s) - {k})])
  {
    hide Evict, ManifestText;
    var s := Evict(s0, clock);
    var after := s.(data := s.data - {k}, expiry := s.expiry - {k});
    assert after.expiry.Keys == s.expiry.Keys - {k};
    assert Durable(after) == Durable(s) - {k};
  }

  lemma {:induction false} SameVerdict(data: Entries, live: map<Bytes, Entry>, k: Bytes, v: Bytes, caps: Caps)
    requires data == Plain(live)
    ensures Admission(data, k, v, caps) == Verdict(live.Keys, k, v, caps)
  {
    hide Admission, Verdict;
    PlainView(live);
    AdmissionInWords(data, k, v, caps);
  }

  lemma {:induction false} SetRefines(w: World, i: Ideal, caps: Caps, k: Bytes, v: Bytes)
    requires Related(w, i)
    ensures Step(w, caps, Set(k, v)).1 == IdealStep(i, caps, Set(k, v)).1
    ensures Related(Step(w, caps, Set(k, v)).0, IdealStep(i, caps, Set(k, v)).0)
  {
    hide Evict, Admission, Verdict, SetOp, Live, Plain, ManifestText, Durable, ValidKey, Stands;
    var clock, live := ClockOf(w), Live(i);
    var s, t := Evict(w.store, clock), SetOp(w.store, clock, caps, k, v).0;
    var w1, i1 := w.(store := s), Ideal(live, i.time);
    EvictRefines(w, i);
    SetShape(w.store, clock, caps, k, v);
    SameVerdict(s.data, live, k, v, caps);
    StoreRefines(w1, i1, k, v);
    hide Evict, Admission, Verdict, Related, SetOp, Live, Plain, ManifestText, Durable;
    if Admission(s.data, k, v, caps) == Ok {
      RelatedDependsOn(w1.(store := s.(data := s.data[k := v], expiry := s.expiry - {k})), t,
                       i1.(entries := live[k := Entry(v, None)]));
    } else {
      RelatedDependsOn(w1, t, i1);
    }
  }

  lemma {:induction false} SetTtlRefines(w: World, i: Ideal, caps: Caps, k: Bytes, v: Bytes, ttl: nat)
    requires Related(w, i) && ttl <= TWO_31
    ensures Step(w, caps, SetWithTtl(k, v, ttl)).1 == IdealStep(i, caps, SetWithTtl(k, v, ttl)).1
    ensures Related(Step(w, caps, SetWithTtl(k, v, ttl)).0, IdealStep(i, caps, SetWithTtl(k, v, ttl)).0)
  {
    hide Evict, Admission, Verdict, SetTtlOp, Live, Plain, ManifestText, Durable, ValidKey, Stands;
    var clock, live := ClockOf(w), Live(i);
    var s, t := Evict(w.store, clock), SetTtlOp(w.store, clock, caps, k, v, ttl).0;
    var w1, i1 := w.(store := s), Ideal(live, i.time);
    assert w.hasClock && w.time == i.time;
    EvictRefines(w, i);
    SetTtlShape(w.store, clock, caps, k, v, ttl);
    SameVerdict(s.data, live, k, v, caps);
    StoreTtlRefines(w1, i1, k, v, ttl);
    hide Evict, Admission, Verdict, Related, SetTtlOp, Live, Plain, ManifestText, Durable;
    if Admission(s.data, k, v, caps) == Ok {
      RelatedDependsOn(w1.(store := s.(data := s.data[k := v],
                                       expiry := s.expiry[k := (w.time % TWO_32 + ttl) % TWO_32])), t,
                       i1.(entries := live[k := Entry(v, Some(i.time + ttl))]));
    } else {
      RelatedDependsOn(w1, t, i1);
    }
  }

  lemma {:induction false} PlainView(live: map<Bytes, Entry>)
    ensures Plain(live).Keys == live.Keys && |Plain(live)| == |live|
    ensures forall k | k in live :: Plain(live)[k] == live[k].value
  {
    assert |Plain(live).Keys| == |Plain(live)| && |live.Keys| == |live|;
  }

  lemma {:induction false} GetRefines(w: World, i: Ideal, caps: Caps, k: Bytes)
    requires Related(w, i)
    ensures Step(w, caps, Get(k)).1 == IdealStep(i, caps, Get(k)).1
    ensures Related(Step(w, caps, Get(k)).0, IdealStep(i, caps, Get(k)).0)
  {
    EvictRefines(w, i);
    PlainView(Live(i));
    hide Evict, Related, Live, Plain;
  }

  lemma {:induction false} QueryRefines(w: World, i: Ideal, caps: Caps, op: Op)
    requires Related(w, i) && (op.Has? || op.Keys? || op.Size?)
    ensures Step(w, caps, op) == (w, IdealStep(i, caps, op).1) && IdealStep(i, caps, op).0 == i
  {
    DeadExactly(w, i);
    PlainView(Live(i));
    hide Related, Live, Plain, Visible, Sorted;
  }

  /** One step of the store is one step of the ideal store. */
  lemma {:induction false} StepRefines(w: World, i: Ideal, caps: Caps, op: Op)
    requires Related(w, i) && Punctual(i, op)
    ensures Step(w, caps, op).1 == IdealStep(i, caps, op).1
    ensures Related(Step(w, caps, op).0, IdealStep(i, caps, op).0)
  {
    if op.Set? {
      SetRefines(w, i, caps, op.key, op.value);
    } else if op.SetWithTtl? {
      SetTtlRefines(w, i, caps, op.tkey, op.tvalue, op.ttlMs);
    } else if op.Get? {
      GetRefines(w, i, caps, op.gkey);
    } else if op.Remove? {
      RemoveRefines(w, i, caps, op.rkey);
    } else if op.Tick? {
      TickRefines(w, i, op.ms);
      hide Related;
    } else {
      QueryRefines(w, i, caps, op);
    }
    hide *;
  }

  lemma {:induction false} ReservedUntouched(s: State, clock: Option<nat>)
    ensures RemoveOp(s, clock, MANIFEST) == s
  {
    hide Evict, Persisted, Unwritten;
  }

  lemma {:induction false} RemoveRefines(w: World, i: Ideal, caps: Caps, k: Bytes)
    requires Related(w, i)
    ensures Step(w, caps, Remove(k)).1 == IdealStep(i, caps, Remove(k)).1
    ensures Related(Step(w, caps, Remove(k)).0, IdealStep(i, caps, Remove(k)).0)
  {
    var clock, live := ClockOf(w), Live(i);
    var s, t := Evict(w.store, clock), RemoveOp(w.store, clock, k);
    if k == MANIFEST {
      ReservedUntouched(w.store, clock);
    } else {
      EvictRefines(w, i);
      RemoveShape(w.store, clock, k);
      DropRefines(w.(store := s), Ideal(live, i.time), k);
      NotThere(w.(store := s), Ideal(live, i.time), k);
      hide Evict, RemoveOp, Related, Live, Plain, ManifestText, Durable;
      RelatedDependsOn(w.(store := s.(data := s.data - {k}, expiry := s.expiry - {k})), t, Ideal(live - {k}, i.time));
    }
  }

  lemma {:induction false} NotThere(w: World, i: Ideal, k: Bytes)
    requires Related(w, i)
    ensures k !in w.store.data ==> w.store.data - {k} == w.store.data && w.store.expiry - {k} == w.store.expiry
  {
    hide Stands;
  }

  /** TTL refinement: over every punctual run the store answers exactly as a
      store with an unbounded clock, in which an entry is live until its true
      deadline and not after. */
  lemma {:induction false} TtlRefinement(w: World, i: Ideal, caps: Caps, ops: seq<Op>)
    requires Related(w, i) && PunctualRun(i, caps, ops)
    ensures Replies(w, caps, ops) == IdealReplies(i, caps, ops)
    decreases |ops|
  {
    hide Related, Step, IdealStep, Punctual;
    if ops != [] {
      StepRefines(w, i, caps, ops[0]);
      TtlRefinement(Step(w, caps, ops[0]).0, IdealStep(i, caps, ops[0]).0, caps, ops[1..]);
    }
  }

  /** An empty store with a clock starts out like the ideal one, at any time. */
  lemma {:induction false} EmptyRelated(backend: Option<Entries>, changes: seq<Change>, time: nat)
    ensures Related(World(State(map[], map[], backend, changes), time, true), Ideal(map[], time))
  {
    assert Plain(map[]) == map[];
  }
}
