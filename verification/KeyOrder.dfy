/** The order in which a `std::map` with string keys is traversed. */
module KeyOrder {
  import opened Core

  /** `a` comes before `b`, byte by byte. */
  predicate Below(a: Bytes, b: Bytes) {
    b != "" && (a == "" || a[0] < b[0] || (a[0] == b[0] && Below(a[1..], b[1..])))
  }

  predicate IsLeast(k: Bytes, ks: set<Bytes>) {
    k in ks && forall j | j in ks :: j == k || Below(k, j)
  }

  lemma {:induction false} BelowIsOrder(a: Bytes, b: Bytes)
    ensures a == b || Below(a, b) || Below(b, a)
    ensures !(Below(a, b) && Below(b, a)) && !Below(a, a)
    decreases |a|
  {
    if a != "" && b != "" {
      BelowIsOrder(a[1..], b[1..]);
      BelowIsOrder(a[1..], a[1..]);
      assert a == [a[0]] + a[1..] && b == [b[0]] + b[1..];
    } else if a != "" {
      BelowIsOrder(a[1..], a[1..]);
    }
  }

  lemma {:induction false} BelowTransitive(a: Bytes, b: Bytes, c: Bytes)
    requires Below(a, b) && Below(b, c)
    ensures Below(a, c)
    decreases |a|
  {
    if a != "" && a[0] == b[0] && b[0] == c[0] {
      BelowTransitive(a[1..], b[1..], c[1..]);
    }
  }

  lemma {:induction false} LeastExists(ks: set<Bytes>) returns (k: Bytes)
    requires ks != {}
    ensures IsLeast(k, ks)
    decreases |ks|
  {
    var x :| x in ks;
    k := x;
    if ks != {x} {
      var rest := ks - {x};
      assert ks == rest + {x};
      var m := LeastExists(rest);
      hide Below;
      BelowIsOrder(x, m);
      if Below(x, m) {
        forall j | j in ks ensures j == x || Below(x, j) {
          if j != x && j != m { BelowTransitive(x, m, j); }
        }
      } else {
        k := m;
      }
    }
  }

  lemma {:induction false} LeastIsMember(k: Bytes, ks: set<Bytes>)
    requires IsLeast(k, ks)
    ensures k in ks
  {
  }

  lemma {:induction false} LeastUnique(a: Bytes, b: Bytes, ks: set<Bytes>)
    requires IsLeast(a, ks) && IsLeast(b, ks)
    ensures a == b
  {
    hide Below;
    BelowIsOrder(a, b);
  }

  /** The keys in traversal order. */
  ghost function Sorted(ks: set<Bytes>): seq<Bytes>
    decreases |ks|
  {
    if ks == {} then []
    else
      assert exists k :: IsLeast(k, ks) by { var k := LeastExists(ks); }
      var k :| IsLeast(k, ks);
      [k] + Sorted(ks - {k})
  }

  lemma {:induction false} SortedStep(ks: set<Bytes>, k: Bytes)
    requires IsLeast(k, ks)
    ensures Sorted(ks) == [k] + Sorted(ks - {k})
  {
    hide Below;
    forall j | IsLeast(j, ks) ensures j == k { LeastUnique(j, k, ks); }
    hide IsLeast;
  }

  /** The traversal visits every key once. */
  lemma {:induction false} SortedKeys(ks: set<Bytes>)
    ensures |Sorted(ks)| == |ks|
    ensures forall k :: k in Sorted(ks) <==> k in ks
    ensures forall i, j | 0 <= i < j < |ks| :: Sorted(ks)[i] != Sorted(ks)[j]
    decreases |ks|
  {
    if ks != {} {
      var k := LeastExists(ks);
      SortedStep(ks, k);
      SortedKeys(ks - {k});
    }
  }

  /** `a` and `b` agree up to `n`, where `a` ends or has the smaller byte. */
  ghost predicate PartingAt(a: Bytes, b: Bytes, n: int) {
    0 <= n < |b| && n <= |a| && a[..n] == b[..n] && (n == |a| || a[n] as int < b[n] as int)
  }

  lemma {:induction false} BelowExactly(a: Bytes, b: Bytes)
    ensures Below(a, b) <==> exists n :: PartingAt(a, b, n)
    decreases |a|
  {
    if b != "" && a != "" && a[0] == b[0] {
      BelowExactly(a[1..], b[1..]);
      forall n | n > 0 ensures PartingAt(a, b, n) <==> PartingAt(a[1..], b[1..], n - 1) {
        PartingBelow(a, b, n);
      }
      assert !PartingAt(a, b, 0);
      assert forall n | PartingAt(a[1..], b[1..], n) :: PartingAt(a, b, n + 1);
    } else if b != "" && (a == "" || a[0] < b[0]) {
      assert PartingAt(a, b, 0);
    } else {
      forall n ensures !PartingAt(a, b, n) {
        if 0 < n < |b| && n <= |a| { assert a[..n][0] == a[0] && b[..n][0] == b[0]; }
      }
    }
  }

  lemma {:induction false} PartingBelow(a: Bytes, b: Bytes, n: nat)
    requires n > 0 && a != "" && b != "" && a[0] == b[0]
    ensures PartingAt(a, b, n) <==> PartingAt(a[1..], b[1..], n - 1)
  {
    if n <= |a| && n <= |b| {
      assert a[..n] == [a[0]] + a[1..][..n - 1] && b[..n] == [b[0]] + b[1..][..n - 1];
      if a[..n] == b[..n] { assert a[1..][..n - 1] == a[..n][1..] && b[1..][..n - 1] == b[..n][1..]; }
    }
  }

  /** It visits them in ascending order. */
  lemma {:induction false} SortedAscends(ks: set<Bytes>)
    ensures |Sorted(ks)| == |ks|
    ensures forall i, j | 0 <= i < j < |ks| :: Below(Sorted(ks)[i], Sorted(ks)[j])
    decreases |ks|
  {
    hide Below;
    if ks != {} {
      var k := LeastExists(ks);
      SortedStep(ks, k);
      SortedAscends(ks - {k});
      SortedKeys(ks - {k});
      var rest := Sorted(ks - {k});
      forall j | 0 <= j < |rest| ensures Below(k, rest[j]) {
        assert rest[j] in rest;
      }
    }
  }

  lemma {:induction false} VisitsMember(ks: set<Bytes>, i: nat)
    requires i < |Sorted(ks)|
    ensures Sorted(ks)[i] in ks
  {
    SortedKeys(ks);
    hide Sorted;
  }

  /** Taking a key away takes it out of the traversal and leaves the order of the rest. */
  lemma {:induction false} SortedWithout(ks: set<Bytes>, k: Bytes) returns (a: seq<Bytes>, b: seq<Bytes>)
    requires k in ks
    ensures Sorted(ks) == a + [k] + b && Sorted(ks - {k}) == a + b
    decreases |ks|
  {
    var m := LeastExists(ks);
    SortedStep(ks, m);
    if m == k {
      a, b := [], Sorted(ks - {k});
    } else {
      a, b := SortedWithout(ks - {m}, k);
      assert IsLeast(m, ks - {k});
      SortedStep(ks - {k}, m);
      assert ks - {m} - {k} == ks - {k} - {m};
      a := [m] + a;
    }
  }

  /** Walks a map's keys in order. */
  method InOrder(ks: set<Bytes>) returns (s: seq<Bytes>)
    ensures s == Sorted(ks)
  {
    assert Sorted({}) == [];
    hide Below, Sorted, IsLeast;
    s := [];
    assert [] + Sorted(ks) == Sorted(ks);
    var rest := ks;
    while rest != {}
      invariant Sorted(ks) == s + Sorted(rest)
      decreases |rest|
    {
      ghost var least := LeastExists(rest);
      assert least in rest by { assert IsLeast(least, rest); LeastIsMember(least, rest); }
      assert exists k | k in rest :: IsLeast(k, rest);
      var k :| k in rest && IsLeast(k, rest);
      SortedStep(rest, k);
      assert s + ([k] + Sorted(rest - {k})) == s + [k] + Sorted(rest - {k});
      s, rest := s + [k], rest - {k};
    }
    assert s + [] == s;
  }
}
