/** The key/value store itself: maps that its methods update, over a backend
    that outlives it. */
module EdgeStoreModel {
  import opened Core
  import opened KeyOrder
  import opened EdgeStoreSpec

  /** A millisecond clock; the store sees its low 32 bits. */
  class Clock {
    var time: nat

    constructor ()
      ensures time == 0
    {
      time := 0;
    }

    function Reading(): (r: nat)
      reads this
      ensures r < TWO_32
    {
      time % TWO_32
    }
  }

  /** A persistent store that never fails on a non-empty key. */
  class SecretStore {
    var items: Entries

    constructor ()
      ensures items == map[]
    {
      items := map[];
    }

    method Set(key: Bytes, value: Bytes) returns (status: Status)
      modifies this
      ensures status == if key == [] then Fail(InvalidArgument) else Ok
      ensures items == if key == [] then old(items) else old(items)[key := value]
    {
      if key == [] { return Fail(InvalidArgument); }
      items := items[key := value];
      status := Ok;
    }

    method Get(key: Bytes) returns (r: Result<Bytes>)
      ensures r == if key in items then Success(items[key]) else Failure(SecretNotFound)
    {
      if key !in items { return Failure(SecretNotFound); }
      r := Success(items[key]);
    }

    method Remove(key: Bytes)
      modifies this
      ensures items == old(items) - {key}
    {
      items := items - {key};
    }
  }

  class EdgeStore {
    const caps: Caps
    var data: Entries
    var expiry: map<Bytes, nat>
    var backend: SecretStore?
    var clock: Clock?
    /** The calls of the change hook. */
    var changes: seq<Change>

    constructor (caps: Caps)
      ensures this.caps == caps && data == map[] && expiry == map[] && changes == []
      ensures backend == null && clock == null
    {
      this.caps := caps;
      data, expiry, changes := map[], map[], [];
      backend, clock := null, null;
    }

    ghost function Abs(): State
      reads this, backend
    {
      State(data, expiry, if backend == null then None else Some(backend.items), changes)
    }

    function Now(): Option<nat>
      reads this, clock
    {
      if clock == null then None else Some(clock.Reading())
    }

    method SetClock(c: Clock?)
      modifies this`clock
      ensures clock == c
    {
      clock := c;
    }

    static method SplitLines(s: Bytes) returns (out: seq<Bytes>)
      ensures out == Lines(s)
    {
      hide Lines, LineLength;
      out := [];
      var start := 0;
      AllLines(s);
      while start <= |s|
        invariant 0 <= start
        invariant start <= |s| && Lines(s) == out + Lines(s[start..])
        decreases |s| + 1 - start
      {
        var nl := start + LineLength(s[start..]);
        LinesStep(out, s, start, nl);
        if nl == |s| {
          if start < |s| { out := out + [s[start..nl]]; }
          break;
        }
        if nl > start { out := out + [s[start..nl]]; }
        start := nl + 1;
      }
    }

    /** Attaches a backend and loads what its manifest names. */
    method SetPersistence(b: SecretStore?)
      modifies this`backend, this`data
      ensures backend == b
      ensures data == if b == null then old(data) else Load(old(data), b.items, caps)
    {
      backend := b;
      if b == null { return; }
      var manifest := b.Get(MANIFEST);
      if manifest.Failure? { return; }
      var names := SplitLines(manifest.value);
      assert names[0..] == names;
      for i := 0 to |names|
        invariant backend == b
        invariant LoadKeys(data, names[i..], b.items, caps) == Load(old(data), b.items, caps)
      {
        assert names[i..][0] == names[i] && names[i..][1..] == names[i + 1..];
        var v := b.Get(names[i]);
        if v.Success? && |data| < caps.maxKeys { data := data[names[i] := v.value]; }
      }
    }

    /** Lists the durable keys, in order, in the backend. */
    method PersistManifest()
      modifies backend
      ensures Abs() == Persisted(old(Abs()))
    {
      if backend == null { return; }
      var joined := DurableNames();
      assert (data - expiry.Keys).Keys == data.Keys - expiry.Keys;
      hide JoinOnto, Sorted;
      var status := backend.Set(MANIFEST, joined);
    }

    /** The durable keys, joined by newlines. */
    method DurableNames() returns (joined: Bytes)
      ensures joined == JoinOnto([], Sorted(data.Keys - expiry.Keys))
    {
      joined := [];
      var keys := InOrder(data.Keys);
      SkipsExpiring(data.Keys, expiry.Keys);
      assert keys[0..] == keys;
      ghost var all := JoinOnto([], Without(keys, expiry.Keys));
      hide Without, Sorted, JoinOnto;
      for i := 0 to |keys|
        invariant all == JoinOnto(joined, Without(keys[i..], expiry.Keys))
      {
        JoinStep(joined, keys, i, expiry.Keys);
        if keys[i] in expiry { continue; }
        if joined != [] { joined := joined + [NEWLINE]; }
        joined := joined + keys[i];
      }
      NothingJoined(joined, keys, expiry.Keys);
    }

    /** A non-evicting check of one entry. */
    predicate ExpiredNow(key: Bytes)
      reads this, clock
    {
      clock != null && key in expiry && Expired(expiry[key], clock.Reading())
    }

    lemma {:induction false} ExpiredIsDead(key: Bytes)
      ensures ExpiredNow(key) <==> key in DeadKeys(expiry, Now())
    {
    }

    method EvictExpired()
      modifies this`data, this`expiry, this`changes
      ensures Abs() == Evict(old(Abs()), old(Now()))
    {
      if clock == null || expiry == map[] {
        NothingDead(Abs(), Now());
        return;
      }
      var dead := CollectDead();
      hide DeadKeys, Sorted;
      SortedKeys(DeadKeys(expiry, Now()));
      assert Members(dead) == DeadKeys(expiry, Now());
      Sweep(dead);
    }

    /** First pass of the sweep: the dead keys, in order. */
    method CollectDead() returns (dead: seq<Bytes>)
      requires clock != null
      ensures dead == Sorted(DeadKeys(expiry, Now()))
    {
      var keys := InOrder(expiry.Keys);
      ghost var living := expiry.Keys - DeadKeys(expiry, Now());
      SkipsLiving(expiry, Now());
      assert keys[0..] == keys;
      dead := [];
      ghost var all := Without(keys, living);
      assert [] + all == all;
      hide DeadKeys, Sorted, Without, Expired;
      for i := 0 to |keys|
        invariant all == dead + Without(keys[i..], living)
      {
        VisitsMember(expiry.Keys, i);
        WithoutStep(dead, keys, i, living);
        ExpiredIsDead(keys[i]);
        if Expired(expiry[keys[i]], clock.Reading()) { dead := dead + [keys[i]]; }
      }
      WithoutEnd(dead, keys, living);
    }

    /** Second pass: drop each dead entry and report it. */
    method Sweep(dead: seq<Bytes>)
      modifies this`data, this`expiry, this`changes
      ensures data == old(data) - Members(dead) && expiry == old(expiry) - Members(dead)
      ensures changes == old(changes) + Removals(dead)
    {
      ghost var data0, expiry0, changes0 := data, expiry, changes;
      assert dead[..0] == [] && changes0 + [] == changes0;
      assert Members([]) == {} && data0 - {} == data0 && expiry0 - {} == expiry0;
      for i := 0 to |dead|
        invariant data == data0 - Members(dead[..i]) && expiry == expiry0 - Members(dead[..i])
        invariant changes == changes0 + Removals(dead[..i])
      {
        MembersStep(dead, i);
        RemovalsStep(dead, i);
        hide Members, Removals;
        assert data0 - (Members(dead[..i]) + {dead[i]}) == data0 - Members(dead[..i]) - {dead[i]};
        assert expiry0 - (Members(dead[..i]) + {dead[i]}) == expiry0 - Members(dead[..i]) - {dead[i]};
        AppendOne(changes0, Removals(dead[..i]), Change(dead[i], true));
        data := data - {dead[i]};
        expiry := expiry - {dead[i]};
        changes := changes + [Change(dead[i], true)];
      }
      assert dead[..|dead|] == dead;
    }

    method ValidateAndStore(key: Bytes, value: Bytes) returns (status: Status)
      modifies this`data
      ensures status == Admission(old(data), key, value, caps)
      ensures data == if status == Ok then old(data)[key := value] else old(data)
    {
      if key == [] || |key| > caps.maxKeyLen { return Fail(InvalidArgument); }
      if NEWLINE in key { return Fail(InvalidArgument); }
      if key == MANIFEST { return Fail(InvalidArgument); }
      if |value| > caps.maxValueLen { return Fail(Capacity); }
      if key !in data && |data| >= caps.maxKeys { return Fail(Capacity); }
      data := data[key := value];
      status := Ok;
    }

    method Set(key: Bytes, value: Bytes) returns (status: Status)
      modifies this`data, this`expiry, this`changes, backend
      ensures (Abs(), status) == SetOp(old(Abs()), old(Now()), caps, key, value)
    {
      hide Evict, Sorted, Persisted;
      EvictExpired();
      var wasTtl := key in expiry;
      var isNew := key !in data;
      status := ValidateAndStore(key, value);
      if status != Ok { return; }
      expiry := expiry - {key};
      if backend != null {
        status := backend.Set(key, value);
        if status != Ok { return; }
        if isNew || wasTtl { PersistManifest(); }
      } else {
        NothingToPersist(Abs());
      }
      changes := changes + [Change(key, false)];
    }

    method SetWithTtl(key: Bytes, value: Bytes, ttlMs: nat) returns (status: Status)
      requires ttlMs < TWO_32
      modifies this`data, this`expiry, this`changes, backend
      ensures (Abs(), status) == SetTtlOp(old(Abs()), old(Now()), caps, key, value, ttlMs)
    {
      hide Evict, Sorted, Persisted;
      if clock == null { return Fail(InvalidState); }
      EvictExpired();
      var wasDurable := key in data && key !in expiry;
      status := ValidateAndStore(key, value);
      if status != Ok { return; }
      expiry := expiry[key := (clock.Reading() + ttlMs) % TWO_32];
      if wasDurable && backend != null {
        backend.Remove(key);
        PersistManifest();
      } else {
        NothingToPersist(Abs());
      }
      changes := changes + [Change(key, false)];
    }

    method Get(key: Bytes) returns (r: Result<Bytes>)
      modifies this`data, this`expiry, this`changes
      ensures (Abs(), r) == GetOp(old(Abs()), old(Now()), key)
    {
      hide Evict;
      EvictExpired();
      if key !in data { return Failure(NotFound); }
      r := Success(data[key]);
    }

    method Has(key: Bytes) returns (b: bool)
      ensures b <==> key in Visible(Abs(), Now())
    {
      b := key in data && !ExpiredNow(key);
    }

    method Remove(key: Bytes) returns (status: Status)
      modifies this`data, this`expiry, this`changes, backend
      ensures status == Ok && Abs() == RemoveOp(old(Abs()), old(Now()), key)
    {
      hide Evict, Sorted, Persisted;
      status := Ok;
      if key == MANIFEST { return; }
      EvictExpired();
      if key !in data { return; }
      data := data - {key};
      expiry := expiry - {key};
      if backend != null {
        backend.Remove(key);
        PersistManifest();
      } else {
        NothingToPersist(Abs());
      }
      changes := changes + [Change(key, true)];
    }

    method Keys() returns (out: seq<Bytes>)
      ensures out == Sorted(Visible(Abs(), Now()).Keys)
    {
      var keys := InOrder(data.Keys);
      ghost var dead := DeadKeys(expiry, Now());
      SkipsExpiring(data.Keys, dead);
      assert (data - dead).Keys == data.Keys - dead;
      assert keys[0..] == keys;
      out := [];
      ghost var all := Without(keys, dead);
      assert [] + all == all;
      hide DeadKeys, Sorted, Without, ExpiredNow;
      for i := 0 to |keys|
        invariant all == out + Without(keys[i..], dead)
      {
        WithoutStep(out, keys, i, dead);
        ExpiredIsDead(keys[i]);
        if !ExpiredNow(keys[i]) { out := out + [keys[i]]; }
      }
      WithoutEnd(out, keys, dead);
    }

    method Size() returns (n: nat)
      ensures n == |Visible(Abs(), Now())|
    {
      var keys := InOrder(data.Keys);
      ghost var dead := DeadKeys(expiry, Now());
      SkipsExpiring(data.Keys, dead);
      assert (data - dead).Keys == data.Keys - dead;
      SortedKeys(data.Keys - dead);
      assert |(data - dead).Keys| == |data - dead|;
      assert keys[0..] == keys;
      n := 0;
      ghost var all := Without(keys, dead);
      hide DeadKeys, Sorted, Without, ExpiredNow;
      for i := 0 to |keys|
        invariant |all| == n + |Without(keys[i..], dead)|
      {
        WithoutStep([], keys, i, dead);
        ExpiredIsDead(keys[i]);
        if !ExpiredNow(keys[i]) { n := n + 1; }
      }
      WithoutEnd([], keys, dead);
    }
  }

  // ---- Sequences of keys ----

  /** The keys not in `out`, in order. */
  ghost function Without(ks: seq<Bytes>, out: set<Bytes>): seq<Bytes> {
    if ks == [] then []
    else (if ks[0] in out then [] else [ks[0]]) + Without(ks[1..], out)
  }

  /** Skipping keys while walking a map walks the map without them. */
  lemma {:induction false} SkipsExpiring(ks: set<Bytes>, out: set<Bytes>)
    ensures Without(Sorted(ks), out) == Sorted(ks - out)
    decreases |ks|
  {
    if ks == {} {
      assert ks - out == {};
    } else {
      var k := LeastExists(ks);
      SortedStep(ks, k);
      SkipsExpiring(ks - {k}, out);
      assert ([k] + Sorted(ks - {k}))[1..] == Sorted(ks - {k});
      if k in out {
        assert ks - {k} - out == ks - out;
      } else {
        assert ks - {k} - out == ks - out - {k};
        assert IsLeast(k, ks - out);
        SortedStep(ks - out, k);
      }
    }
  }

  lemma {:induction false} WithoutStep(acc: seq<Bytes>, ks: seq<Bytes>, i: nat, out: set<Bytes>)
    requires i < |ks|
    ensures acc + Without(ks[i..], out) == (if ks[i] in out then acc else acc + [ks[i]]) + Without(ks[i + 1..], out)
    ensures |Without(ks[i..], out)| == (if ks[i] in out then 0 else 1) + |Without(ks[i + 1..], out)|
  {
    assert ks[i..][0] == ks[i] && ks[i..][1..] == ks[i + 1..];
    var more := Without(ks[i + 1..], out);
    assert acc + ([ks[i]] + more) == acc + [ks[i]] + more;
    assert [] + more == more;
  }

  lemma {:induction false} WithoutEnd(acc: seq<Bytes>, ks: seq<Bytes>, out: set<Bytes>)
    ensures acc + Without(ks[|ks|..], out) == acc && Without(ks[|ks|..], out) == []
  {
  }

  lemma {:induction false} JoinStep(joined: Bytes, ks: seq<Bytes>, i: nat, out: set<Bytes>)
    requires i < |ks|
    ensures JoinOnto(joined, Without(ks[i..], out)) ==
            JoinOnto(if ks[i] in out then joined else (if joined == [] then [] else joined + [NEWLINE]) + ks[i],
                     Without(ks[i + 1..], out))
  {
    WithoutStep([], ks, i, out);
    assert [] + Without(ks[i..], out) == Without(ks[i..], out);
    assert [] + Without(ks[i + 1..], out) == Without(ks[i + 1..], out);
    assert ([] + [ks[i]] + Without(ks[i + 1..], out))[1..] == Without(ks[i + 1..], out);
    hide Without;
  }

  lemma {:induction false} NothingJoined(joined: Bytes, ks: seq<Bytes>, out: set<Bytes>)
    ensures JoinOnto(joined, Without(ks[|ks|..], out)) == joined
  {
  }

  lemma {:induction false} AppendOne(a: seq<Change>, b: seq<Change>, c: Change)
    ensures a + (b + [c]) == a + b + [c]
  {
  }

  lemma {:induction false} NothingDead(s: State, clock: Option<nat>)
    requires clock.None? || s.expiry == map[]
    ensures Evict(s, clock) == s
  {
    var dead := DeadKeys(s.expiry, clock);
    assert dead == {};
    assert s.data - {} == s.data && s.expiry - {} == s.expiry;
    assert s.changes + [] == s.changes;
  }

  lemma {:induction false} SkipsLiving(expiry: map<Bytes, nat>, clock: Option<nat>)
    ensures var dead := DeadKeys(expiry, clock);
      Without(Sorted(expiry.Keys), expiry.Keys - dead) == Sorted(dead)
  {
    var dead := DeadKeys(expiry, clock);
    SkipsExpiring(expiry.Keys, expiry.Keys - dead);
    assert expiry.Keys - (expiry.Keys - dead) == dead;
  }

  ghost function Members(ks: seq<Bytes>): set<Bytes> {
    set k | k in ks
  }

  lemma {:induction false} MembersStep(ks: seq<Bytes>, i: nat)
    requires i < |ks|
    ensures Members(ks[..i + 1]) == Members(ks[..i]) + {ks[i]}
  {
    assert ks[..i + 1] == ks[..i] + [ks[i]];
  }

  lemma {:induction false} RemovalsConcat(a: seq<Bytes>, b: seq<Bytes>)
    ensures Removals(a + b) == Removals(a) + Removals(b)
    decreases |a|
  {
    if a == [] {
      assert a + b == b;
    } else {
      assert (a + b)[1..] == a[1..] + b;
      RemovalsConcat(a[1..], b);
    }
  }

  lemma {:induction false} RemovalsStep(ks: seq<Bytes>, i: nat)
    requires i < |ks|
    ensures Removals(ks[..i + 1]) == Removals(ks[..i]) + [Change(ks[i], true)]
  {
    assert ks[..i + 1] == ks[..i] + [ks[i]];
    RemovalsConcat(ks[..i], [ks[i]]);
    assert Removals([ks[i]]) == [Change(ks[i], true)];
  }

  lemma {:induction false} NothingToPersist(s: State)
    ensures s.backend.None? ==> Persisted(s) == s
  {
  }

  lemma {:induction false} AllLines(s: Bytes)
    ensures s[0..] == s && [] + Lines(s) == Lines(s)
  {
    hide Lines;
  }

  lemma {:induction false} LinesStep(out: seq<Bytes>, s: Bytes, start: nat, nl: nat)
    requires start <= |s| && nl == start + LineLength(s[start..])
    ensures nl <= |s|
    ensures var next := if nl > start then out + [s[start..nl]] else out;
      out + Lines(s[start..]) == if nl == |s| then next else next + Lines(s[nl + 1..])
  {
    var rest := s[start..];
    var n := LineLength(rest);
    assert rest[..n] == s[start..nl];
    if nl < |s| {
      assert rest[n + 1..] == s[nl + 1..];
      if n > 0 { assert out + ([rest[..n]] + Lines(s[nl + 1..])) == out + [rest[..n]] + Lines(s[nl + 1..]); }
      else { assert [] + Lines(s[nl + 1..]) == Lines(s[nl + 1..]); }
    } else if n == 0 {
      assert out + [] == out;
    }
  }
}
