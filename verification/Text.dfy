/** Searching in byte strings, as `std::string::find` does it. */
module Text {
  import opened Core

  ghost predicate OccursAt(h: string, n: string, i: int) {
    0 <= i <= i + |n| <= |h| && h[i..i + |n|] == n
  }

  ghost predicate Contains(h: string, n: string) {
    exists i :: OccursAt(h, n, i)
  }

  /** The first occurrence of `n` in `h` at or after `from`. */
  function Find(h: string, n: string, from: nat): (r: Option<nat>)
    ensures r.Some? ==> from <= r.value && r.value + |n| <= |h| && OccursAt(h, n, r.value)
    ensures r.Some? ==> forall j | from <= j < r.value :: !OccursAt(h, n, j)
    ensures r.None? ==> forall j | from <= j :: !OccursAt(h, n, j)
    decreases |h| - from
  {
    if from + |n| > |h| then None
    else if h[from..from + |n|] == n then Some(from)
    else Find(h, n, from + 1)
  }

  lemma {:induction false} SliceOfSlice<T>(s: seq<T>, lo: nat, hi: nat, a: nat, b: nat)
    requires lo <= hi <= |s| && a <= b <= hi - lo
    ensures s[lo..hi][a..b] == s[lo + a..lo + b]
  {
    var x, y := s[lo..hi][a..b], s[lo + a..lo + b];
    forall k | 0 <= k < |x| ensures x[k] == y[k] {
      assert x[k] == s[lo..hi][a + k];
      assert y[k] == s[lo + a + k];
    }
  }

  /** The characters of an occurrence. */
  lemma {:induction false} OccursAtChar(h: string, n: string, i: int, k: nat)
    ensures OccursAt(h, n, i) && k < |n| ==> h[i + k] == n[k]
  {
    if OccursAt(h, n, i) && k < |n| {
      assert h[i..i + |n|][k] == h[i + k];
    }
  }

  /** Occurrences in a slice are the occurrences of the whole inside it. */
  lemma {:induction false} OccursInSlice(h: string, n: string, lo: nat, hi: nat)
    requires lo <= hi <= |h|
    ensures forall i :: OccursAt(h[lo..hi], n, i) <==> OccursAt(h, n, lo + i) && 0 <= i && lo + i + |n| <= hi
  {
    forall i | 0 <= i && lo + i + |n| <= hi
      ensures OccursAt(h[lo..hi], n, i) <==> OccursAt(h, n, lo + i)
    {
      SliceOfSlice(h, lo, hi, i, i + |n|);
    }
  }

  /** What does not occur in a text does not occur in a part of it. */
  lemma {:induction false} NotInSlice(h: string, n: string, lo: nat, hi: nat)
    requires lo <= hi <= |h| && !Contains(h, n)
    ensures !Contains(h[lo..hi], n)
  {
    OccursInSlice(h, n, lo, hi);
    hide OccursAt;
  }

  /** Before the first occurrence there is none. */
  lemma {:induction false} NothingBefore(h: string, n: string, p: nat)
    requires Find(h, n, 0) == Some(p) && n != ""
    ensures !Contains(h[..p], n)
  {
    OccursInSlice(h, n, 0, p);
    assert h[0..p] == h[..p];
    hide Find;
  }

  /** Looking in a suffix is looking from an offset. */
  lemma {:induction false} FindInSuffix(h: string, n: string, from: nat)
    requires from <= |h|
    ensures Find(h, n, from).None? <==> Find(h[from..], n, 0).None?
    ensures Find(h, n, from).Some? ==>
              Find(h, n, from).value == from + Find(h[from..], n, 0).value
  {
    OccursInSlice(h, n, from, |h|);
    assert h[from..|h|] == h[from..];
    hide *;
    var a, b := Find(h, n, from), Find(h[from..], n, 0);
    assert b.Some? ==> OccursAt(h, n, from + b.value);
    assert a.Some? ==> OccursAt(h[from..], n, a.value - from);
  }

  /** The text of a fragmented stream. */
  function Joined(pieces: seq<string>): string {
    if pieces == [] then "" else pieces[0] + Joined(pieces[1..])
  }

  lemma {:induction false} EmptyPrefix<T>(s: seq<T>)
    ensures [] + s == s
  {
  }

  lemma {:induction false} EmptySuffix<T>(s: seq<T>)
    ensures s + [] == s
  {
  }

  lemma {:induction false} ConcatAssociates<T>(a: seq<T>, b: seq<T>, c: seq<T>)
    ensures a + (b + c) == a + b + c
  {
  }

  function Eol(crlf: bool): string { if crlf then "\r\n" else "\n" }

  /** The position of the first `c` in `s`. */
  function IndexOf(s: string, c: char): (r: Option<nat>)
    ensures r.Some? ==> r.value < |s| && s[r.value] == c && c !in s[..r.value]
    ensures r.None? ==> c !in s
  {
    if s == "" then None
    else if s[0] == c then Some(0)
    else
      match IndexOf(s[1..], c)
      case None => None
      case Some(k) => assert s[..k + 1] == [s[0]] + s[1..][..k]; Some(k + 1)
  }

  lemma {:induction false} IndexOfFirst(s: string, c: char, k: nat)
    requires k < |s| && s[k] == c && c !in s[..k]
    ensures IndexOf(s, c) == Some(k)
    decreases k
  {
    if k > 0 {
      assert s[0] in s[..k] && s[1..][..k - 1] == s[1..k];
      assert forall x | x in s[1..k] :: x in s[..k];
      IndexOfFirst(s[1..], c, k - 1);
    }
  }
}
