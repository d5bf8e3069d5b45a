/** What the callers of the key/value store get to know: the outcome of each
    call, what is seen after it, and what the change hook is told. */
module EdgeStoreChanges {
  import opened Core
  import opened KeyOrder
  import opened EdgeStoreSpec
  import opened EdgeStoreRuns

  // ---- Single calls, in words ----

  lemma {:induction false} SweptIsSeen(s: State, clock: Option<nat>)
    ensures Evict(s, clock).data == Visible(s, clock)
    ensures DeadKeys(Evict(s, clock).expiry, clock) == {}
  {
    hide Expired, Sorted, Removals;
  }

  lemma {:induction false} NothingDead(s: State, clock: Option<nat>)
    requires DeadKeys(s.expiry, clock) == {}
    ensures Visible(s, clock) == s.data
  {
    hide DeadKeys;
  }

  lemma {:induction false} FewerDeadlines(a: map<Bytes, nat>, k: Bytes, clock: Option<nat>)
    requires DeadKeys(a, clock) == {}
    ensures DeadKeys(a - {k}, clock) == {}
  {
    hide Expired;
    assert DeadKeys(a - {k}, clock) <= DeadKeys(a, clock);
  }

  /** A plain `set`, in any state and at any time: it is decided by what is seen
      then, and an accepted entry is seen from then on. */
  lemma {:induction false} SetExactly(w: World, caps: Caps, k: Bytes, v: Bytes)
    ensures var seen, (after, reply) := Visible(w.store, ClockOf(w)), Step(w, caps, Set(k, v));
      && reply == Outcome(Verdict(seen.Keys, k, v, caps))
      && Visible(after.store, ClockOf(w)) == if reply == Outcome(Ok) then seen[k := v] else seen
  {
    hide Evict, SetOp, Admission, Verdict, Visible, DeadKeys;
    var clock := ClockOf(w);
    var s, t := Evict(w.store, clock), SetOp(w.store, clock, caps, k, v).0;
    SweptIsSeen(w.store, clock);
    SetShape(w.store, clock, caps, k, v);
    AdmissionInWords(s.data, k, v, caps);
    FewerDeadlines(s.expiry, k, clock);
    NothingDead(t, clock);
  }

  /** A `set` with a TTL is decided the same way; the entry is seen only if the
      TTL is positive and at most 2^31 ms. Without a clock nothing happens. */
  lemma {:induction false} SetWithTtlExactly(w: World, caps: Caps, k: Bytes, v: Bytes, ttl: nat)
    requires ttl < TWO_32
    ensures var seen, (after, reply) := Visible(w.store, ClockOf(w)), Step(w, caps, SetWithTtl(k, v, ttl));
      if !w.hasClock then reply == Outcome(Fail(InvalidState)) && after == w
      else
        && reply == Outcome(Verdict(seen.Keys, k, v, caps))
        && Visible(after.store, ClockOf(w)) ==
           if reply != Outcome(Ok) then seen else if 0 < ttl <= TWO_31 then seen[k := v] else seen - {k}
  {
    hide Evict, SetTtlOp, Admission, Verdict, Visible, DeadKeys;
    var clock := ClockOf(w);
    var s, t := Evict(w.store, clock), SetTtlOp(w.store, clock, caps, k, v, ttl).0;
    if !w.hasClock {
      NoClockNoTtl(w.store, caps, k, v, ttl);
    } else {
      SweptIsSeen(w.store, clock);
      SetTtlShape(w.store, clock, caps, k, v, ttl);
      AdmissionInWords(s.data, k, v, caps);
      FreshTtlExactly(w.time, ttl);
      NewDeadline(s, t, k, v, (clock.value + ttl) % TWO_32, clock.value);
      if t.expiry == s.expiry { NothingDead(t, clock); }
    }
  }

  lemma {:induction false} NewDeadline(s: State, t: State, k: Bytes, v: Bytes, deadline: nat, now: nat)
    requires DeadKeys(s.expiry, Some(now)) == {}
    ensures t.data == s.data[k := v] && t.expiry == s.expiry[k := deadline] ==>
              Visible(t, Some(now)) == if Expired(deadline, now) then s.data - {k} else s.data[k := v]
  {
    hide Expired;
    if t.expiry == s.expiry[k := deadline] {
      assert forall j | j in t.expiry && j != k :: j in DeadKeys(s.expiry, Some(now)) <==> Expired(t.expiry[j], now);
      assert DeadKeys(t.expiry, Some(now)) == if Expired(deadline, now) then {k} else {};
    }
  }

  /** A `remove` always succeeds, and takes away that entry alone. */
  lemma {:induction false} RemoveExactly(w: World, caps: Caps, k: Bytes)
    requires k != MANIFEST
    ensures var (after, reply) := Step(w, caps, Remove(k));
      reply == Outcome(Ok) && Visible(after.store, ClockOf(w)) == Visible(w.store, ClockOf(w)) - {k}
  {
    hide Evict, RemoveOp, Visible, DeadKeys;
    var clock := ClockOf(w);
    var s, t := Evict(w.store, clock), RemoveOp(w.store, clock, k);
    SweptIsSeen(w.store, clock);
    RemoveShape(w.store, clock, k);
    FewerDeadlines(s.expiry, k, clock);
    NothingDead(t, clock);
  }

  // ---- The change hook ----

  /** The keys a listener knows after these calls; none if it was told of the
      removal of a key it did not know. */
  function Heard(known: set<Bytes>, changes: seq<Change>): Option<set<Bytes>>
    decreases |changes|
  {
    if changes == [] then Some(known)
    else if !changes[0].removed then Heard(known + {changes[0].key}, changes[1..])
    else if changes[0].key in known then Heard(known - {changes[0].key}, changes[1..])
    else None
  }

  lemma {:induction false} HeardConcat(known: set<Bytes>, a: seq<Change>, b: seq<Change>)
    ensures Heard(known, a + b) == if Heard(known, a).None? then None else Heard(Heard(known, a).value, b)
    decreases |a|
  {
    if a == [] {
      assert a + b == b;
    } else {
      assert (a + b)[1..] == a[1..] + b;
      if !a[0].removed {
        HeardConcat(known + {a[0].key}, a[1..], b);
      } else if a[0].key in known {
        HeardConcat(known - {a[0].key}, a[1..], b);
      }
    }
  }

  lemma {:induction false} HeardRemovals(known: set<Bytes>, ks: seq<Bytes>)
    requires forall k | k in ks :: k in known
    requires forall i, j | 0 <= i < j < |ks| :: ks[i] != ks[j]
    ensures Heard(known, Removals(ks)) == Some(known - (set k | k in ks))
    decreases |ks|
  {
    if ks != [] {
      assert Removals(ks)[1..] == Removals(ks[1..]);
      HeardRemovals(known - {ks[0]}, ks[1..]);
      assert known - {ks[0]} - (set k | k in ks[1..]) == known - (set k | k in ks);
    } else {
      assert known - (set k | k in ks) == known;
    }
  }

  /** From `s` to `t` the hook was told exactly how the keys have changed. */
  ghost predicate Tells(s: State, t: State) {
    && s.changes <= t.changes
    && Heard(s.data.Keys, t.changes[|s.changes|..]) == Some(t.data.Keys)
  }

  lemma {:induction false} TellsNothing(s: State, t: State)
    requires t.data.Keys == s.data.Keys && t.changes == s.changes
    ensures Tells(s, t)
  {
    assert t.changes[|s.changes|..] == [];
  }

  lemma {:induction false} TellsOn(s: State, t: State, u: State)
    requires Tells(s, t) && Tells(t, u)
    ensures Tells(s, u)
  {
    var a, b := t.changes[|s.changes|..], u.changes[|t.changes|..];
    assert u.changes[|s.changes|..] == a + b;
    HeardConcat(s.data.Keys, a, b);
  }

  lemma {:induction false} TellsOne(s: State, t: State, k: Bytes, removed: bool)
    requires t.changes == s.changes + [Change(k, removed)]
    requires if removed then k in s.data && t.data.Keys == s.data.Keys - {k} else t.data.Keys == s.data.Keys + {k}
    ensures Tells(s, t)
  {
    assert t.changes[|s.changes|..] == [Change(k, removed)];
    assert [Change(k, removed)][1..] == [];
  }

  lemma {:induction false} EvictTells(s: State, clock: Option<nat>)
    requires s.expiry.Keys <= s.data.Keys
    ensures Tells(s, Evict(s, clock)) && Evict(s, clock).expiry.Keys <= Evict(s, clock).data.Keys
  {
    hide Expired, Heard;
    var dead, t := DeadKeys(s.expiry, clock), Evict(s, clock);
    SortedKeys(dead);
    HeardRemovals(s.data.Keys, Sorted(dead));
    hide Sorted;
    assert t.changes[|s.changes|..] == Removals(Sorted(dead));
    assert (set k | k in Sorted(dead)) == dead;
    assert t.data.Keys == s.data.Keys - dead;
  }

  lemma {:induction false} BackendApart(s: State, k: Bytes, v: Bytes)
    ensures Persisted(s).changes == Written(s, k, v).changes == Unwritten(s, k).changes == s.changes
  {
    hide ManifestText;
  }

  lemma {:induction false} SetNotifies(s0: State, clock: Option<nat>, caps: Caps, k: Bytes, v: Bytes)
    ensures var (t, r) := SetOp(s0, clock, caps, k, v);
      t.changes == Evict(s0, clock).changes + if r == Ok then [Change(k, false)] else []
  {
    hide Evict, Admission, Persisted, Written;
    var s := Evict(s0, clock);
    var t := s.(data := s.data[k := v], expiry := s.expiry - {k});
    BackendApart(t, k, v);
    BackendApart(Written(t, k, v), k, v);
    EmptyLog(s.changes);
  }

  lemma {:induction false} SetTtlNotifies(s0: State, clock: Option<nat>, caps: Caps, k: Bytes, v: Bytes, ttl: nat)
    requires clock.Some?
    ensures var (t, r) := SetTtlOp(s0, clock, caps, k, v, ttl);
      t.changes == Evict(s0, clock).changes + if r == Ok then [Change(k, false)] else []
  {
    hide Evict, Admission, Persisted, Unwritten;
    var s := Evict(s0, clock);
    var t := s.(data := s.data[k := v], expiry := s.expiry[k := (clock.value + ttl) % TWO_32]);
    BackendApart(t, k, v);
    BackendApart(Unwritten(t, k), k, v);
    EmptyLog(s.changes);
  }

  lemma {:induction false} RemoveNotifies(s0: State, clock: Option<nat>, k: Bytes)
    requires k != MANIFEST
    ensures var s := Evict(s0, clock);
      RemoveOp(s0, clock, k).changes == s.changes + if k in s.data then [Change(k, true)] else []
  {
    hide Evict, Persisted, Unwritten;
    var s := Evict(s0, clock);
    var t := s.(data := s.data - {k}, expiry := s.expiry - {k});
    BackendApart(t, k, []);
    BackendApart(Unwritten(t, k), k, []);
    EmptyLog(s.changes);
  }

  lemma {:induction false} EmptyLog(changes: seq<Change>)
    ensures changes + [] == changes
  {
  }

  /** A step that told nothing and left data and deadlines as they were. */
  lemma {:induction false} QuietStep(s0: State, s: State, t: State)
    requires Tells(s0, s) && s.expiry.Keys <= s.data.Keys
    requires t.data == s.data && t.expiry == s.expiry && t.changes == s.changes + []
    ensures Tells(s0, t) && t.expiry.Keys <= t.data.Keys
  {
    hide Tells;
    EmptyLog(s.changes);
    TellsNothing(s, t);
    TellsOn(s0, s, t);
  }

  lemma {:induction false} PutStep(s0: State, s: State, t: State, k: Bytes, v: Bytes)
    requires Tells(s0, s) && s.expiry.Keys <= s.data.Keys
    requires t.data == s.data[k := v] && t.expiry.Keys <= s.expiry.Keys + {k}
    requires t.changes == s.changes + [Change(k, false)]
    ensures Tells(s0, t) && t.expiry.Keys <= t.data.Keys
  {
    hide Tells;
    assert t.data.Keys == s.data.Keys + {k};
    TellsOne(s, t, k, false);
    TellsOn(s0, s, t);
  }

  lemma {:induction false} DropStep(s0: State, s: State, t: State, k: Bytes)
    requires Tells(s0, s) && s.expiry.Keys <= s.data.Keys && k in s.data
    requires t.data == s.data - {k} && t.expiry == s.expiry - {k}
    requires t.changes == s.changes + [Change(k, true)]
    ensures Tells(s0, t) && t.expiry.Keys <= t.data.Keys
  {
    hide Tells;
    assert t.data.Keys == s.data.Keys - {k} && t.expiry.Keys == s.expiry.Keys - {k};
    TellsOne(s, t, k, true);
    TellsOn(s0, s, t);
  }

  lemma {:induction false} SetTells(s0: State, clock: Option<nat>, caps: Caps, k: Bytes, v: Bytes)
    requires s0.expiry.Keys <= s0.data.Keys
    ensures var t := SetOp(s0, clock, caps, k, v).0; Tells(s0, t) && t.expiry.Keys <= t.data.Keys
  {
    EvictTells(s0, clock);
    SetShape(s0, clock, caps, k, v);
    SetNotifies(s0, clock, caps, k, v);
    hide Evict, Tells, SetOp, Admission, ManifestText, Durable;
    var s := Evict(s0, clock);
    var (t, r) := SetOp(s0, clock, caps, k, v);
    if r == Ok { PutStep(s0, s, t, k, v); } else { QuietStep(s0, s, t); }
  }

  lemma {:induction false} SetTtlTells(s0: State, clock: Option<nat>, caps: Caps, k: Bytes, v: Bytes, ttl: nat)
    requires s0.expiry.Keys <= s0.data.Keys
    ensures var t := SetTtlOp(s0, clock, caps, k, v, ttl).0; Tells(s0, t) && t.expiry.Keys <= t.data.Keys
  {
    EvictTells(s0, clock);
    if clock.None? {
      NoClockNoTtl(s0, caps, k, v, ttl);
      TellsNothing(s0, s0);
    } else {
      SetTtlShape(s0, clock, caps, k, v, ttl);
      SetTtlNotifies(s0, clock, caps, k, v, ttl);
      hide Evict, Tells, SetTtlOp, Admission, ManifestText, Durable;
      var s := Evict(s0, clock);
      var (t, r) := SetTtlOp(s0, clock, caps, k, v, ttl);
      if r == Ok { PutStep(s0, s, t, k, v); } else { QuietStep(s0, s, t); }
    }
  }

  lemma {:induction false} RemoveTells(s0: State, clock: Option<nat>, k: Bytes)
    requires s0.expiry.Keys <= s0.data.Keys
    ensures var t := RemoveOp(s0, clock, k); Tells(s0, t) && t.expiry.Keys <= t.data.Keys
  {
    EvictTells(s0, clock);
    if k == MANIFEST {
      ReservedUntouched(s0, clock);
      TellsNothing(s0, s0);
    } else {
      RemoveShape(s0, clock, k);
      RemoveNotifies(s0, clock, k);
      hide Evict, Tells, RemoveOp, ManifestText, Durable;
      var s, t := Evict(s0, clock), RemoveOp(s0, clock, k);
      if k in s.data { DropStep(s0, s, t, k); } else { QuietStep(s0, s, t); }
    }
  }

  lemma {:induction false} StepTells(w: World, caps: Caps, op: Op)
    requires w.store.expiry.Keys <= w.store.data.Keys
    ensures var t := Step(w, caps, op).0.store; Tells(w.store, t) && t.expiry.Keys <= t.data.Keys
  {
    hide Tells, SetOp, SetTtlOp, RemoveOp, Evict, Sorted, Visible;
    match op
    case Set(k, v) => SetTells(w.store, ClockOf(w), caps, k, v);
    case SetWithTtl(k, v, ttl) => SetTtlTells(w.store, ClockOf(w), caps, k, v, ttl);
    case Get(k) => EvictTells(w.store, ClockOf(w));
    case Remove(k) => RemoveTells(w.store, ClockOf(w), k);
    case _ => TellsNothing(w.store, w.store);
  }

  /** Over every run the hook is told exactly how the keys change: a listener that
      knew them at the start knows them at the end, and is never told of the
      removal of a key that was not there. */
  lemma {:induction false} HookTells(w: World, caps: Caps, ops: seq<Op>)
    requires w.store.expiry.Keys <= w.store.data.Keys
    ensures Tells(w.store, Run(w, caps, ops).store)
    decreases |ops|
  {
    if ops == [] {
      TellsNothing(w.store, w.store);
    } else {
      hide Tells, Step;
      var next := Step(w, caps, ops[0]).0;
      StepTells(w, caps, ops[0]);
      HookTells(next, caps, ops[1..]);
      TellsOn(w.store, next.store, Run(next, caps, ops[1..]).store);
    }
  }
}
